/**
 The bounded queue: an array ring buffer with head and tail indices, and what it means as
 a first-in first-out sequence.
 */
module Queue {
  import opened Ring

  const MAX_QUEUE_ELEMENT := 128

  /** A pointer or an index stored as one, as the queue sees it. */
  type Element = int

  // ---- The queue as a value ----

  /** An enabled queue of at most `capacity` elements; a disabled one has capacity 0. */
  datatype Fifo = Fifo(capacity: nat, elements: seq<Element>)

  datatype Operation = PushOp(x: Element) | PopOp | PeekOp | DeinitOp

  /** What a call reports: its return code, and the element it hands over, if any. */
  datatype Reply = Reply(code: int, element: seq<Element>)

  const FAILED := Reply(-1, [])

  function Apply(q: Fifo, op: Operation): (Fifo, Reply) {
    match op
    case PushOp(x) =>
      if |q.elements| < q.capacity then (q.(elements := q.elements + [x]), Reply(0, [])) else (q, FAILED)
    case PopOp =>
      if q.elements != [] then (q.(elements := q.elements[1..]), Reply(0, [q.elements[0]])) else (q, FAILED)
    case PeekOp =>
      if q.elements != [] then (q, Reply(0, [q.elements[0]])) else (q, FAILED)
    case DeinitOp =>
      (Fifo(0, []), Reply(0, []))
  }

  /** A sequence of calls: the final queue and the replies in order. */
  function ApplyAll(q: Fifo, ops: seq<Operation>): (Fifo, seq<Reply>)
    decreases |ops|
  {
    if ops == [] then (q, [])
    else
      var (q1, r) := Apply(q, ops[0]);
      var (q2, rs) := ApplyAll(q1, ops[1..]);
      (q2, [r] + rs)
  }

  /** What one call puts in and what it takes out. */
  function Entered(op: Operation, r: Reply): seq<Element> {
    if op.PushOp? && r.code == 0 then [op.x] else []
  }

  function Left(op: Operation, r: Reply): seq<Element> {
    if op.PopOp? then r.element else []
  }

  /** The elements whose push was accepted, in order. */
  function Accepted(ops: seq<Operation>, replies: seq<Reply>): seq<Element>
    requires |ops| == |replies|
  {
    if ops == [] then [] else Entered(ops[0], replies[0]) + Accepted(ops[1..], replies[1..])
  }

  /** The elements handed out by pops, in order. */
  function HandedOut(ops: seq<Operation>, replies: seq<Reply>): seq<Element>
    requires |ops| == |replies|
  {
    if ops == [] then [] else Left(ops[0], replies[0]) + HandedOut(ops[1..], replies[1..])
  }

  lemma {:induction false} OneReplyPerCall(q: Fifo, ops: seq<Operation>)
    ensures |ApplyAll(q, ops).1| == |ops|
    decreases |ops|
  {
    if ops != [] {
      OneReplyPerCall(Apply(q, ops[0]).0, ops[1..]);
    }
  }

  lemma OneCall(q: Fifo, op: Operation)
    requires |q.elements| <= q.capacity && !op.DeinitOp?
    ensures var (t, r) := Apply(q, op);
            && q.elements + Entered(op, r) == Left(op, r) + t.elements
            && t.capacity == q.capacity && |t.elements| <= t.capacity
  {
  }

  lemma Regroup(q: seq<Element>, i: seq<Element>, a: seq<Element>, o: seq<Element>, q1: seq<Element>,
                h: seq<Element>, t: seq<Element>)
    requires q + i == o + q1 && q1 + a == h + t
    ensures q + (i + a) == (o + h) + t
  {
    assert q + (i + a) == (q + i) + a;
    assert (o + q1) + a == o + (q1 + a);
    assert o + (h + t) == (o + h) + t;
  }

  /** First in, first out, with nothing lost or duplicated, for every sequence of calls
      between initialisation and deinitialisation. */
  lemma {:induction false} FirstInFirstOut(q: Fifo, ops: seq<Operation>)
    requires |q.elements| <= q.capacity && DeinitOp !in ops
    ensures |ApplyAll(q, ops).1| == |ops|
    ensures var (t, rs) := ApplyAll(q, ops);
            && q.elements + Accepted(ops, rs) == HandedOut(ops, rs) + t.elements
            && t.capacity == q.capacity && |t.elements| <= t.capacity
    decreases |ops|
  {
    OneReplyPerCall(q, ops);
    if ops != [] {
      var (q1, r) := Apply(q, ops[0]);
      var (t, rs) := ApplyAll(q1, ops[1..]);
      OneCall(q, ops[0]);
      FirstInFirstOut(q1, ops[1..]);
      assert ApplyAll(q, ops).1[1..] == rs;
      Regroup(q.elements, Entered(ops[0], r), Accepted(ops[1..], rs), Left(ops[0], r), q1.elements,
              HandedOut(ops[1..], rs), t.elements);
    }
  }

  /** A queue that failed to initialise or was deinitialised stays empty and refuses every
      push and pop. */
  lemma {:induction false} DisabledRefuses(ops: seq<Operation>)
    ensures |ApplyAll(Fifo(0, []), ops).1| == |ops|
    ensures var (t, rs) := ApplyAll(Fifo(0, []), ops);
            t == Fifo(0, []) && forall i :: 0 <= i < |ops| && !ops[i].DeinitOp? ==> rs[i] == FAILED
    decreases |ops|
  {
    if ops != [] {
      DisabledRefuses(ops[1..]);
    }
  }

  lemma {:induction false} CallsJoin(q: Fifo, before: seq<Operation>, behind: seq<Operation>)
    ensures var (m, rs) := ApplyAll(q, before);
            ApplyAll(q, before + behind) == (ApplyAll(m, behind).0, rs + ApplyAll(m, behind).1)
    decreases |before|
  {
    if before == [] {
      assert before + behind == behind && [] + ApplyAll(q, behind).1 == ApplyAll(q, behind).1;
    } else {
      assert (before + behind)[1..] == before[1..] + behind;
      var (q1, r) := Apply(q, before[0]);
      var (m, rs) := ApplyAll(q1, before[1..]);
      CallsJoin(q1, before[1..], behind);
      assert [r] + (rs + ApplyAll(m, behind).1) == ([r] + rs) + ApplyAll(m, behind).1;
    }
  }

  /** Deinitialising is for good: of any queue, after any calls, it disposes of everything in it,
      and whatever is called afterwards, every push, pop and peek fails. */
  lemma DeinitialisedForGood(q: Fifo, before: seq<Operation>, behind: seq<Operation>)
    ensures var (t, rs) := ApplyAll(q, before + [DeinitOp] + behind);
            && t == Fifo(0, []) && |rs| == |before| + 1 + |behind|
            && forall i :: 0 <= i < |behind| && !behind[i].DeinitOp? ==> rs[|before| + 1 + i] == Reply(-1, [])
  {
    var m := ApplyAll(q, before).0;
    OneReplyPerCall(q, before);
    assert before + [DeinitOp] + behind == before + ([DeinitOp] + behind);
    CallsJoin(q, before, [DeinitOp] + behind);
    assert ([DeinitOp] + behind)[1..] == behind;
    DisabledRefuses(behind);
  }

  /** Looking at the head changes nothing, and shows what the next pop hands out. */
  lemma PeekShowsNextPop(q: Fifo, before: seq<Operation>)
    ensures var (t, rs) := ApplyAll(q, before + [PeekOp, PopOp]);
            && |rs| == |before| + 2 && rs[|before|] == rs[|before| + 1]
            && t == ApplyAll(q, before + [PopOp]).0
  {
    var m := ApplyAll(q, before).0;
    OneReplyPerCall(q, before);
    CallsJoin(q, before, [PeekOp, PopOp]);
    CallsJoin(q, before, [PopOp]);
    assert [PeekOp, PopOp][1..] == [PopOp] && [PopOp][1..] == [];
  }

  /** A call fails exactly for want of room or of an element, and then changes nothing. */
  lemma FailsExactly(q: Fifo, op: Operation)
    ensures var (t, r) := Apply(q, op);
            && (r.code != 0 <==> (op.PushOp? && |q.elements| >= q.capacity) || ((op.PopOp? || op.PeekOp?) && q.elements == []))
            && (r.code != 0 ==> r == Reply(-1, []) && t == q)
  {
  }

  // ---- The queue as it is stored ----

  class NxQueue {
    var head: nat
    var tail: nat
    var maxElement: nat
    var curElements: nat
    var bEnabled: bool
    const pElements: array<Element>

    ghost predicate Valid()
      reads this
    {
      && pElements.Length == MAX_QUEUE_ELEMENT
      && curElements <= maxElement <= MAX_QUEUE_ELEMENT
      && (maxElement > 0 ==> head < maxElement && tail == SlotAt(head, curElements, maxElement))
      && (bEnabled || maxElement == 0)
    }

    /** The queue as a value. */
    ghost function View(): Fifo
      reads this, pElements
      requires Valid()
    {
      Fifo(maxElement, seq(curElements, i requires Valid() && 0 <= i < curElements reads this, pElements =>
                                          pElements[SlotAt(head, i, maxElement)]))
    }

    /** Memory for a queue; NX_InitQueue gives it its meaning. */
    constructor ()
      ensures Valid() && View() == Fifo(0, []) && fresh(pElements)
    {
      head, tail, maxElement, curElements, bEnabled := 0, 0, 0, 0, false;
      pElements := new Element[MAX_QUEUE_ELEMENT];
    }

    /** `mutexMade` says whether the mutex could be created. */
    method Init(maxNumElement: nat, mutexMade: bool) returns (code: int)
      requires pElements.Length == MAX_QUEUE_ELEMENT
      modifies this, pElements
      ensures Valid()
      ensures code == if maxNumElement <= 128 && mutexMade then 0 else -1
      ensures View() == Fifo(if code == 0 then maxNumElement else 0, [])
    {
      head, tail, maxElement, curElements, bEnabled := 0, 0, 0, 0, false;
      forall i | 0 <= i < pElements.Length { pElements[i] := 0; }
      if maxNumElement > MAX_QUEUE_ELEMENT {
        return -1;
      }
      if !mutexMade {
        return -1;
      }
      maxElement := maxNumElement;
      bEnabled := true;
      return 0;
    }

    method Push(x: Element) returns (code: int)
      requires Valid()
      modifies this, pElements
      ensures Valid()
      ensures (View(), Reply(code, [])) == Apply(old(View()), PushOp(x))
      ensures code == if |old(View()).elements| < old(View()).capacity then 0 else -1
      ensures View() == if code == 0 then old(View()).(elements := old(View()).elements + [x]) else old(View())
    {
      if curElements >= maxElement || !bEnabled {
        return -1;
      }
      pElements[tail] := x;
      tail := SlotAt(tail, 1, maxElement);
      curElements := curElements + 1;
      assert View().elements == old(View().elements) + [x];
      return 0;
    }

    /** The destination keeps its value when the queue is empty or disabled. */
    method Pop(previous: Element) returns (code: int, x: Element)
      requires Valid()
      modifies this
      ensures Valid()
      ensures (View(), Reply(code, if code == 0 then [x] else [])) == Apply(old(View()), PopOp)
      ensures code == if old(View()).elements == [] then -1 else 0
      ensures code == 0 ==> [x] + View().elements == old(View()).elements && View().capacity == old(View()).capacity
      ensures code != 0 ==> x == previous && View() == old(View())
    {
      if curElements == 0 || !bEnabled {
        return -1, previous;
      }
      x := pElements[head];
      head := SlotAt(head, 1, maxElement);
      curElements := curElements - 1;
      assert View().elements == old(View().elements)[1..];
      return 0, x;
    }

    /** The element at the head, without taking it out. */
    method GetNextInfo(previous: Element) returns (code: int, x: Element)
      requires Valid()
      ensures (View(), Reply(code, if code == 0 then [x] else [])) == Apply(View(), PeekOp)
      ensures code == if View().elements == [] then -1 else 0
      ensures x == if code == 0 then View().elements[0] else previous
    {
      if curElements == 0 || !bEnabled {
        return -1, previous;
      }
      return 0, pElements[head];
    }

    method Count() returns (n: nat)
      requires Valid()
      ensures n == |View().elements|
    {
      n := curElements;
    }

    method Deinit()
      requires Valid()
      modifies this, pElements
      ensures Valid()
      ensures View() == Fifo(0, []) == Apply(old(View()), DeinitOp).0
    {
      bEnabled := false;
      head, tail, maxElement, curElements, bEnabled := 0, 0, 0, 0, false;
      forall i | 0 <= i < pElements.Length { pElements[i] := 0; }
    }
  }
}
