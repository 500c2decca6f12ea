/** The schedule of network upgrades: when each fork activates, and which schedules are accepted. */
module UpgradeSchedule {
  import opened Prelude

  /** The forks that can be scheduled, in order. */
  const FORKS: seq<string> := [
    "regolith", "canyon", "delta", "ecotone", "fjord", "granite", "holocene", "isthmus", "jovian", "interop"]

  const SCHEDULABLE: nat := 10

  /** The forks that `Check` and `AllocMode` look at: all but interop. */
  const CHECKED: nat := 9

  const DELTA: nat := 2

  const INTEROP: nat := 9

  lemma ForkIndices()
    ensures |FORKS| == SCHEDULABLE && FORKS[DELTA] == "delta" && FORKS[INTEROP] == "interop"
    ensures FORKS[CHECKED - 1] == "jovian"
  {
  }

  /** Each fork's offset from genesis, by fork index; None disables the fork. */
  type Offsets = s: seq<Option<U64>> | |s| == SCHEDULABLE witness seq(SCHEDULABLE, _ => None)

  /** When a fork activates: offset 0 means from the very beginning. Addition wraps around at 2^64. */
  function UpgradeTime(offset: Option<U64>, genesis: U64): Option<U64> {
    match offset
    case None => None
    case Some(o) => if o > 0 then Some((genesis + o) % TWO_64) else Some(0)
  }

  predicate Active(offset: Option<U64>, genesis: U64, t: U64) {
    UpgradeTime(offset, genesis).Some? && UpgradeTime(offset, genesis).value <= t
  }

  /** The offsets that are set form a non-decreasing prefix of the fork order. */
  ghost predicate Ordered(s: Offsets) {
    exists n :: 0 <= n <= CHECKED && OrderedUpTo(s, n)
  }

  ghost predicate OrderedUpTo(s: Offsets, n: nat)
    requires n <= CHECKED
  {
    && (forall i :: 0 <= i < n ==> s[i].Some?)
    && (forall i :: n <= i < CHECKED ==> s[i].None?)
    && (forall i, j :: 0 <= i < j < n ==> s[i].value <= s[j].value)
  }

  /** Fork `a` is before or at the same time as fork `b`, or `b` is not set. */
  predicate InOrder(a: Option<U64>, b: Option<U64>) {
    b.Some? ==> a.Some? && a.value <= b.value
  }

  predicate Adjacent(s: Offsets) {
    forall i :: 0 <= i < CHECKED - 1 ==> InOrder(s[i], s[i + 1])
  }

  lemma {:induction false} SetAndOrdered(s: Offsets, i: nat, j: nat)
    requires Adjacent(s) && i <= j < CHECKED && s[j].Some?
    ensures s[i].Some? && s[i].value <= s[j].value
    decreases j
  {
    if i < j {
      assert InOrder(s[j - 1], s[j - 1 + 1]);
      SetAndOrdered(s, i, j - 1);
    }
  }

  lemma {:induction false} LongestPrefix(s: Offsets, n: nat) returns (m: nat)
    requires n <= CHECKED && forall i :: n <= i < CHECKED ==> s[i].None?
    ensures m <= n && (forall i :: m <= i < CHECKED ==> s[i].None?) && (m > 0 ==> s[m - 1].Some?)
  {
    if n == 0 || s[n - 1].Some? {
      return n;
    }
    m := LongestPrefix(s, n - 1);
  }

  /** Comparing neighbours is enough. */
  lemma AdjacentIsOrdered(s: Offsets)
    ensures Adjacent(s) <==> Ordered(s)
  {
    if Adjacent(s) {
      var n := LongestPrefix(s, CHECKED);
      forall i, j | 0 <= i <= j < n ensures s[i].Some? && s[j].Some? && s[i].value <= s[j].value {
        SetAndOrdered(s, j, n - 1);
        SetAndOrdered(s, i, j);
      }
      assert OrderedUpTo(s, n);
    }
    if Ordered(s) {
      var n :| 0 <= n <= CHECKED && OrderedUpTo(s, n);
      forall i | 0 <= i < CHECKED - 1 ensures InOrder(s[i], s[i + 1]) {
        if s[i + 1].Some? {
          assert i + 1 < n;
        }
      }
    }
  }

  // ---------- forks over time ----------

  /** At every time from genesis on, one of the first `n` forks is active only if all forks before it are. */
  ghost predicate ActivePrefix(s: Offsets, genesis: U64, n: nat)
    requires n <= SCHEDULABLE
  {
    forall t: U64, i, j :: genesis <= t && 0 <= i < j < n && Active(s[j], genesis, t) ==> Active(s[i], genesis, t)
  }

  predicate Overflows(offset: U64, genesis: U64) {
    genesis + offset >= TWO_64
  }

  /** The fork is active from genesis on: by request, or because its time wraps around to before genesis. */
  predicate AtGenesis(offset: U64, genesis: U64) {
    offset == 0 || Overflows(offset, genesis)
  }

  /** No time wraps around after a fork that activates properly after genesis. */
  ghost predicate NoLateOverflow(s: Offsets, genesis: U64) {
    forall i, j :: 0 <= i < j < CHECKED && s[i].Some? && s[j].Some? && !AtGenesis(s[i].value, genesis)
      ==> !Overflows(s[j].value, genesis)
  }

  /** Interop, which `Check` does not compare, is off, or comes after every other fork. */
  ghost predicate InteropIsLast(s: Offsets, genesis: U64) {
    s[INTEROP].Some? ==> forall i :: 0 <= i < INTEROP ==> s[i].Some? && NotAfter(s[i].value, s[INTEROP].value, genesis)
  }

  /** A fork with offset `a` activates no later than one with offset `b`. */
  predicate NotAfter(a: U64, b: U64, genesis: U64) {
    AtGenesis(a, genesis) || (!AtGenesis(b, genesis) && a <= b)
  }

  /** No compared fork's time wraps around. */
  predicate NoOverflow(s: Offsets, genesis: U64) {
    forall i :: 0 <= i < CHECKED && s[i].Some? ==> !Overflows(s[i].value, genesis)
  }

  lemma WrappedTime(o: U64, genesis: U64)
    ensures (genesis + o) % TWO_64 == if Overflows(o, genesis) then genesis + o - TWO_64 else genesis + o
  {
  }

  /** When a fork is active, without wrap-around arithmetic. */
  lemma ActiveWhen(o: U64, genesis: U64, t: U64)
    requires genesis <= t
    ensures Active(Some(o), genesis, t) <==> AtGenesis(o, genesis) || genesis + o <= t
  {
    WrappedTime(o, genesis);
  }

  /** One fork is active whenever another one is exactly when it activates no later. */
  lemma NotAfterIsOrder(a: U64, b: U64, genesis: U64)
    ensures NotAfter(a, b, genesis)
       <==> forall t: U64 :: genesis <= t && Active(Some(b), genesis, t) ==> Active(Some(a), genesis, t)
  {
    forall t: U64 | genesis <= t
      ensures Active(Some(a), genesis, t) <==> AtGenesis(a, genesis) || genesis + a <= t
      ensures Active(Some(b), genesis, t) <==> AtGenesis(b, genesis) || genesis + b <= t
    {
      ActiveWhen(a, genesis, t);
      ActiveWhen(b, genesis, t);
    }
    hide Active;
    if !NotAfter(a, b, genesis) {
      var t: U64 := if AtGenesis(b, genesis) then genesis else genesis + b;
      assert Active(Some(b), genesis, t) && !Active(Some(a), genesis, t);
    }
  }

  /** Among the forks that `Check` compares, only a late overflow disturbs the order. */
  lemma ComparedForksActivateInOrder(s: Offsets, genesis: U64)
    requires Ordered(s)
    ensures ActivePrefix(s, genesis, CHECKED) <==> NoLateOverflow(s, genesis)
  {
    AdjacentIsOrdered(s);
    hide Ordered, Active;
    forall i, j | 0 <= i < j < CHECKED && s[j].Some? ensures s[i].Some? && s[i].value <= s[j].value {
      SetAndOrdered(s, i, j);
    }
    if NoLateOverflow(s, genesis) {
      forall t: U64, i, j | genesis <= t && 0 <= i < j < CHECKED && Active(s[j], genesis, t)
        ensures Active(s[i], genesis, t)
      {
        ActiveIsSet(s[j], genesis, t);
        NotAfterIsOrder(s[i].value, s[j].value, genesis);
        assert s[i] == Some(s[i].value) && s[j] == Some(s[j].value);
      }
    } else {
      var i, j :| 0 <= i < j < CHECKED && s[i].Some? && s[j].Some? && !AtGenesis(s[i].value, genesis)
                  && Overflows(s[j].value, genesis);
      ActiveWhen(s[i].value, genesis, genesis);
      ActiveWhen(s[j].value, genesis, genesis);
      assert s[i] == Some(s[i].value) && s[j] == Some(s[j].value);
      assert Active(s[j], genesis, genesis) && !Active(s[i], genesis, genesis);
    }
  }

  lemma ActiveIsSet(offset: Option<U64>, genesis: U64, t: U64)
    requires Active(offset, genesis, t)
    ensures offset.Some?
  {
  }

  /** Interop is active only when every other fork is, at every time, exactly when it is off or last. */
  lemma InteropActivatesLast(s: Offsets, genesis: U64)
    ensures InteropIsLast(s, genesis)
       <==> forall t: U64, i ::
              genesis <= t && 0 <= i < INTEROP && Active(s[INTEROP], genesis, t) ==> Active(s[i], genesis, t)
  {
    var last := s[INTEROP];
    if last.Some? {
      forall i | 0 <= i < INTEROP
        ensures (s[i].Some? && NotAfter(s[i].value, last.value, genesis))
           <==> forall t: U64 :: genesis <= t && Active(last, genesis, t) ==> Active(s[i], genesis, t)
      {
        if s[i].Some? {
          NotAfterIsOrder(s[i].value, last.value, genesis);
          assert s[i] == Some(s[i].value) && last == Some(last.value);
        } else {
          var t: U64 := if AtGenesis(last.value, genesis) then genesis else genesis + last.value;
          ActiveWhen(last.value, genesis, t);
          assert Active(last, genesis, t) && !Active(s[i], genesis, t);
        }
      }
    }
  }

  /**
   In an accepted schedule all ten forks activate in order exactly when no activation time wraps around past
   a fork that is still to come, and interop is off or comes after every other fork.
   */
  lemma ForksActivateInOrder(s: Offsets, genesis: U64)
    requires Ordered(s)
    ensures ActivePrefix(s, genesis, SCHEDULABLE) <==> NoLateOverflow(s, genesis) && InteropIsLast(s, genesis)
  {
    ComparedForksActivateInOrder(s, genesis);
    InteropActivatesLast(s, genesis);
    hide Ordered, NoLateOverflow, InteropIsLast, Active;
    assert ActivePrefix(s, genesis, SCHEDULABLE) ==> ActivePrefix(s, genesis, CHECKED);
  }

  /** Interop alone is accepted, and is then active from genesis on while no other fork ever is. */
  lemma InteropAloneIsAccepted(genesis: U64)
    ensures var s: Offsets := seq(SCHEDULABLE, _ => None)[INTEROP := Some(0)];
            && Ordered(s)
            && NoLateOverflow(s, genesis)
            && (forall t: U64 :: genesis <= t ==> Active(s[INTEROP], genesis, t) && !Active(s[0], genesis, t))
            && !ActivePrefix(s, genesis, SCHEDULABLE)
  {
    var s: Offsets := seq(SCHEDULABLE, _ => None)[INTEROP := Some(0)];
    assert OrderedUpTo(s, 0);
    assert Active(s[INTEROP], genesis, genesis) && !Active(s[0], genesis, genesis);
  }

  /** An accepted schedule in which canyon's time wraps around: canyon is active at genesis and regolith is not. */
  lemma OverflowBreaksOrder()
    ensures var s: Offsets := seq(SCHEDULABLE, _ => None)[0 := Some(1)][1 := Some(TWO_64 - 1)];
            && Ordered(s)
            && Active(s[1], 5, 5) && !Active(s[0], 5, 5)
            && !ActivePrefix(s, 5, CHECKED)
  {
    var s: Offsets := seq(SCHEDULABLE, _ => None)[0 := Some(1)][1 := Some(TWO_64 - 1)];
    assert OrderedUpTo(s, 2);
    assert Active(s[1], 5, 5) && !Active(s[0], 5, 5);
  }

  class UpgradeScheduleDeployConfig {
    var offsets: Offsets

    constructor ()
      ensures forall i :: 0 <= i < SCHEDULABLE ==> offsets[i].None?
    {
      offsets := seq(SCHEDULABLE, _ => None);
    }

    method SetForkTimeOffset(fork: nat, offset: Option<U64>)
      requires fork < SCHEDULABLE
      modifies this
      ensures offsets == old(offsets)[fork := offset]
    {
      offsets := offsets[fork := offset];
    }

    /**
     Earlier forks are activated at genesis and later ones are disabled; the result is always accepted, and
     all ten forks activate in order, whatever the genesis time.
     */
    method ActivateForkAtOffset(fork: nat, offset: U64)
      requires fork < SCHEDULABLE
      modifies this
      ensures forall i :: 0 <= i < SCHEDULABLE ==>
                offsets[i] == if i < fork then Some(0) else if i == fork then Some(offset) else None
      ensures Ordered(offsets)
      ensures forall genesis: U64 :: ActivePrefix(offsets, genesis, SCHEDULABLE)
    {
      var ts := Some(0 as U64);
      for i := 0 to SCHEDULABLE
        invariant ts == if i <= fork then Some(0) else None
        invariant forall k :: 0 <= k < i ==>
                    offsets[k] == if k < fork then Some(0) else if k == fork then Some(offset) else None
      {
        if i == fork {
          SetForkTimeOffset(i, Some(offset));
          ts := None;
        } else {
          SetForkTimeOffset(i, ts);
        }
      }
      assert forall i :: 0 <= i < CHECKED - 1 ==> InOrder(offsets[i], offsets[i + 1]);
      AdjacentIsOrdered(offsets);
      forall genesis: U64 ensures ActivePrefix(offsets, genesis, SCHEDULABLE) {
        ForksActivateInOrder(offsets, genesis);
      }
    }

    /** Accepts exactly the ordered schedules. */
    method Check() returns (ok: bool)
      ensures ok <==> Ordered(offsets)
    {
      AdjacentIsOrdered(offsets);
      for i := 0 to CHECKED - 1
        invariant forall k :: 0 <= k < i ==> InOrder(offsets[k], offsets[k + 1])
      {
        var a, b := offsets[i], offsets[i + 1];
        var inOrder :=
          if a.None? && b.None? then true
          else if a.None? then false
          else if b.None? then true
          else a.value <= b.value;
        if !inOrder {
          return false;
        }
      }
      return true;
    }

    /**
     The last fork whose activation time is zero, but never one before delta; without overflow that is the
     last compared fork active at genesis.
     */
    method AllocMode(genesis: U64) returns (mode: nat)
      ensures DELTA <= mode < CHECKED
      ensures forall j :: mode < j < CHECKED ==> UpgradeTime(offsets[j], genesis) != Some(0)
      ensures mode > DELTA ==> UpgradeTime(offsets[mode], genesis) == Some(0)
      ensures NoOverflow(offsets, genesis) ==>
                && (forall j :: mode < j < CHECKED ==> !Active(offsets[j], genesis, genesis))
                && (mode > DELTA ==> Active(offsets[mode], genesis, genesis))
    {
      if NoOverflow(offsets, genesis) {
        forall j | 0 <= j < CHECKED
          ensures UpgradeTime(offsets[j], genesis) == Some(0) <==> Active(offsets[j], genesis, genesis)
        {
          ZeroTimeIsActiveAtGenesis(offsets[j], genesis);
        }
      }
      var i := CHECKED - 1;
      while i > DELTA
        invariant DELTA <= i < CHECKED
        invariant forall j :: i < j < CHECKED ==> UpgradeTime(offsets[j], genesis) != Some(0)
      {
        if UpgradeTime(offsets[i], genesis) == Some(0) {
          return i;
        }
        i := i - 1;
      }
      return DELTA;
    }
  }

  /** Without overflow the forks with activation time zero are the ones active at genesis. */
  lemma ZeroTimeIsActiveAtGenesis(offset: Option<U64>, genesis: U64)
    requires offset.Some? ==> !Overflows(offset.value, genesis)
    ensures UpgradeTime(offset, genesis) == Some(0) <==> Active(offset, genesis, genesis)
  {
  }
}
