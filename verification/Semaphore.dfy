/**
 The counting semaphore as it is written: Pend tests the count once and, when it is 0,
 waits on a condition variable and then takes one without testing again.
 */
module Semaphore {

  const UINT_RANGE := 0x1_0000_0000

  type UInt = n: int | 0 <= n < UINT_RANGE

  /** Where a thread stands in NX_PendSem: outside, inside pthread_cond_wait, or awake in it
      and waiting for the mutex. */
  datatype Phase = Outside | Waiting | Woken

  datatype State = State(value: UInt, max: UInt, penders: seq<Phase>, wrapped: bool, pended: nat, posted: nat)

  /** One critical section of one thread. A signal wakes one waiting thread, chosen freely;
      `Spurious` is a return of pthread_cond_wait without a signal. */
  datatype Action = Enter(t: nat) | Resume(t: nat) | PostAndWake(t: nat) | PostOnly | Spurious(t: nat)

  function Init(init: UInt, max: UInt, penders: nat): State {
    State(init, max, seq(penders, _ => Outside), false, 0, 0)
  }

  predicate In(s: State, t: nat, p: Phase) {
    t < |s.penders| && s.penders[t] == p
  }

  predicate Enabled(s: State, a: Action) {
    match a
    case Enter(t) => In(s, t, Outside)
    case Resume(t) => In(s, t, Woken)
    case PostAndWake(t) => In(s, t, Waiting)
    case PostOnly => Waiting !in s.penders
    case Spurious(t) => In(s, t, Waiting)
  }

  /** nValue--, on an unsigned int. */
  function Take(s: State): State {
    s.(value := if s.value == 0 then UINT_RANGE - 1 else s.value - 1,
       wrapped := s.wrapped || s.value == 0, pended := s.pended + 1)
  }

  function Give(s: State): State {
    if s.value >= s.max then s else s.(value := s.value + 1, posted := s.posted + 1)
  }

  function Move(s: State, t: nat, p: Phase): State
    requires t < |s.penders|
  {
    s.(penders := s.penders[t := p])
  }

  function Next(s: State, a: Action): State
    requires Enabled(s, a)
  {
    match a
    case Enter(t) => if s.value == 0 then Move(s, t, Waiting) else Take(s)
    case Resume(t) => Take(Move(s, t, Outside))
    case PostAndWake(t) => Give(Move(s, t, Woken))
    case PostOnly => Give(s)
    case Spurious(t) => Move(s, t, Woken)
  }

  /** A run; `spurious` says whether wake-ups without a signal may occur. */
  predicate Run(s: State, actions: seq<Action>, t: State, spurious: bool)
    decreases |actions|
  {
    if actions == [] then s == t
    else
      && Enabled(s, actions[0]) && (actions[0].Spurious? ==> spurious)
      && Run(Next(s, actions[0]), actions[1..], t, spurious)
  }

  /** In no run does a Pend take from a count of 0. */
  ghost predicate NeverWraps(init: UInt, max: UInt, penders: nat, spurious: bool) {
    forall actions, t :: Run(Init(init, max, penders), actions, t, spurious) ==> !t.wrapped
  }

  // ---- One pending thread, no spurious wake-ups ----

  /** A waiting thread has nothing to take and a woken one has something. */
  predicate SingleInv(s: State) {
    && |s.penders| <= 1
    && !s.wrapped
    && (|s.penders| == 1 ==> (s.penders[0] == Waiting ==> s.value == 0) && (s.penders[0] == Woken ==> s.value > 0))
  }

  /** The semaphore by its contract: Pend takes one of a positive count, Post adds one below
      the maximum, and nothing else changes the count. */
  predicate AtomicStep(s: State, t: State) {
    || (t.value == s.value && t.pended == s.pended && t.posted == s.posted)
    || (s.value > 0 && t.value == s.value - 1 && t.pended == s.pended + 1 && t.posted == s.posted)
    || (s.value < s.max && t.value == s.value + 1 && t.posted == s.posted + 1 && t.pended == s.pended)
  }

  lemma SingleStep(s: State, a: Action)
    requires SingleInv(s) && s.max > 0 && Enabled(s, a) && !a.Spurious?
    ensures SingleInv(Next(s, a)) && Next(s, a).max == s.max
    ensures AtomicStep(s, Next(s, a))
  {
  }

  /** Every run of one pending thread keeps the contract: the count never wraps, it is what
      was put in less what was taken, and the thread waits only while the count is 0. */
  lemma {:induction false} SingleRun(s: State, actions: seq<Action>, t: State)
    requires SingleInv(s) && s.max > 0 && Run(s, actions, t, false)
    ensures SingleInv(t)
    ensures t.value - s.value == (t.posted - s.posted) - (t.pended - s.pended)
    decreases |actions|
  {
    if actions != [] {
      SingleStep(s, actions[0]);
      SingleRun(Next(s, actions[0]), actions[1..], t);
    }
  }

  lemma {:induction false} NoPenders(s: State, actions: seq<Action>, t: State, spurious: bool)
    requires s.penders == [] && !s.wrapped && Run(s, actions, t, spurious)
    ensures !t.wrapped
    decreases |actions|
  {
    if actions != [] {
      NoPenders(Next(s, actions[0]), actions[1..], t, spurious);
    }
  }

  // ---- Runs that wrap ----

  lemma {:induction false} RunsJoin(s: State, a1: seq<Action>, m: State, a2: seq<Action>, t: State, spurious: bool)
    requires Run(s, a1, m, spurious) && Run(m, a2, t, spurious)
    ensures Run(s, a1 + a2, t, spurious)
    decreases |a1|
  {
    if a1 == [] {
      assert a1 + a2 == a2;
    } else {
      RunsJoin(Next(s, a1[0]), a1[1..], m, a2, t, spurious);
      assert (a1 + a2)[1..] == a1[1..] + a2;
    }
  }

  /** The first thread can empty the semaphore and then wait in it. */
  lemma {:induction false} EmptyAndWait(s: State, spurious: bool) returns (actions: seq<Action>, t: State)
    requires |s.penders| > 0 && s.penders[0] == Outside
    ensures Run(s, actions, t, spurious)
    ensures t.value == 0 && t.penders == s.penders[0 := Waiting] && t.max == s.max
    decreases s.value
  {
    var n := Next(s, Enter(0));
    if s.value == 0 {
      actions, t := [Enter(0)], n;
      assert Run(n, [], n, spurious);
    } else {
      var rest;
      rest, t := EmptyAndWait(n, spurious);
      actions := [Enter(0)] + rest;
    }
  }

  /** A run of two actions. */
  lemma RunOfTwo(s: State, a: Action, b: Action, spurious: bool)
    requires Enabled(s, a) && Enabled(Next(s, a), b)
    requires a.Spurious? || b.Spurious? ==> spurious
    ensures Run(s, [a, b], Next(Next(s, a), b), spurious)
  {
    var n := Next(s, a);
    var t := Next(n, b);
    assert Run(t, [], t, spurious);
    assert [b][1..] == [];
    assert Run(n, [b], t, spurious);
    assert [a, b][1..] == [b];
  }

  lemma WrapsWhenSpurious(init: UInt, max: UInt, penders: nat)
    requires penders > 0
    ensures !NeverWraps(init, max, penders, true)
  {
    var s := Init(init, max, penders);
    var a1, m := EmptyAndWait(s, true);
    RunOfTwo(m, Spurious(0), Resume(0), true);
    var t := Next(Next(m, Spurious(0)), Resume(0));
    RunsJoin(s, a1, m, [Spurious(0), Resume(0)], t, true);
  }

  /** With a maximum of 0 a post signals without adding anything. */
  lemma WrapsWhenFull(init: UInt, penders: nat, spurious: bool)
    requires penders > 0
    ensures !NeverWraps(init, 0, penders, spurious)
  {
    var s := Init(init, 0, penders);
    var a1, m := EmptyAndWait(s, spurious);
    RunOfTwo(m, PostAndWake(0), Resume(0), spurious);
    var t := Next(Next(m, PostAndWake(0)), Resume(0));
    RunsJoin(s, a1, m, [PostAndWake(0), Resume(0)], t, spurious);
  }

  /** A second thread takes the count before the woken one gets the mutex. */
  lemma WrapsWhenShared(init: UInt, max: UInt, penders: nat, spurious: bool)
    requires penders > 1 && max > 0
    ensures !NeverWraps(init, max, penders, spurious)
  {
    var s := Init(init, max, penders);
    var a1, m := EmptyAndWait(s, spurious);
    RunOfTwo(m, PostAndWake(0), Enter(1), spurious);
    var n := Next(Next(m, PostAndWake(0)), Enter(1));
    RunsJoin(s, a1, m, [PostAndWake(0), Enter(1)], n, spurious);
    var t := Next(n, Resume(0));
    assert Run(t, [], t, spurious);
    assert Run(n, [Resume(0)], t, spurious);
    RunsJoin(s, a1 + [PostAndWake(0), Enter(1)], n, [Resume(0)], t, spurious);
  }

  /** Exactly when the code keeps its contract, for every initial value: nobody pends, or one
      thread pends, waits end only by signals, and the maximum is positive. */
  lemma NeverWrapsExactly(init: UInt, max: UInt, penders: nat, spurious: bool)
    ensures NeverWraps(init, max, penders, spurious) <==> penders == 0 || (penders == 1 && !spurious && max > 0)
  {
    if penders == 0 {
      forall actions, t | Run(Init(init, max, penders), actions, t, spurious) ensures !t.wrapped {
        NoPenders(Init(init, max, penders), actions, t, spurious);
      }
    } else if spurious {
      WrapsWhenSpurious(init, max, penders);
    } else if max == 0 {
      WrapsWhenFull(init, penders, spurious);
    } else if penders > 1 {
      WrapsWhenShared(init, max, penders, spurious);
    } else {
      forall actions, t | Run(Init(init, max, penders), actions, t, spurious) ensures !t.wrapped {
        SingleRun(Init(init, max, penders), actions, t);
      }
    }
  }

  // ---- The semaphore as it is stored ----

  /** The three critical sections of NX_PendSem and NX_PostSem. */
  class NxSemaphore {
    var nValue: UInt
    const nMaxValue: UInt

    constructor (init: UInt, max: UInt)
      ensures nValue == init && nMaxValue == max
    {
      nValue, nMaxValue := init, max;
    }

    /** NX_PendSem up to pthread_cond_wait: takes one, or leaves the count alone and waits. */
    method Enter() returns (waits: bool)
      modifies this
      ensures waits <==> old(nValue) == 0
      ensures nValue == if waits then 0 else old(nValue) - 1
      ensures forall s: State, t: nat :: s.value == old(nValue) && In(s, t, Outside) ==>
                var n := Next(s, Action.Enter(t)); nValue == n.value && (waits <==> n.penders[t] == Waiting)
    {
      if nValue == 0 {
        return true;
      }
      nValue := nValue - 1;
      return false;
    }

    /** NX_PendSem after pthread_cond_wait: takes one without testing the count. */
    method Resume()
      modifies this
      ensures nValue == if old(nValue) == 0 then 0xFFFF_FFFF else old(nValue) - 1
      ensures forall s: State :: s.value == old(nValue) ==> nValue == Take(s).value
    {
      nValue := if nValue == 0 then UINT_RANGE - 1 else nValue - 1;
    }

    /** NX_PostSem; -2 is NX_ESEM_OVERFLOW. */
    method Post() returns (code: int)
      modifies this
      ensures code == if old(nValue) < nMaxValue then 0 else -2
      ensures nValue == if code == 0 then old(nValue) + 1 else old(nValue)
      ensures forall s: State :: s.value == old(nValue) && s.max == nMaxValue ==> nValue == Give(s).value
    {
      if nValue >= nMaxValue {
        return -2;
      }
      nValue := nValue + 1;
      return 0;
    }
  }
}
