/** Places in a ring of slots. */
module Ring {

  lemma Wrap(k: nat, max: nat)
    requires k < 2 * max
    ensures k % max == if k < max then k else k - max
  {
    if k >= max {
      assert k == max + (k - max);
    }
  }

  /** The slot of a ring of `max` slots that is i places after `head`. */
  function SlotAt(head: nat, i: nat, max: nat): (slot: nat)
    requires max > 0
    ensures slot < max
    ensures head < max && i <= max ==> slot == if head + i < max then head + i else head + i - max
  {
    if head < max && i <= max then Wrap(head + i, max); (head + i) % max else (head + i) % max
  }
}
