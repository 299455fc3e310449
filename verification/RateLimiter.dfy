/**
 The explorer client's rate limiter: a semaphore whose permits are given back only after
 they have been held for a fixed time. Times are nanoseconds.
 */
module RateLimiter {
  import opened Bytes

  const SECOND: nat := 1_000_000_000

  function Capacity(perSecond: nat): (c: nat)
    ensures c >= 1 && c >= perSecond && (c == 1 || c == perSecond)
  {
    if perSecond == 0 then 1 else perSecond
  }

  /** The most whole milliseconds that `capacity` of them fit in a second. */
  function Hold(capacity: nat): (h: nat)
    requires capacity >= 1
    ensures h % 1_000_000 == 0 && h * capacity <= 1_000_000_000 < (h + 1_000_000) * capacity
  {
    HoldFits(capacity, 1000 / capacity);
    1000 / capacity * 1_000_000
  }

  lemma HoldFits(capacity: nat, q: nat)
    requires capacity >= 1 && q == 1000 / capacity
    ensures q * 1_000_000 * capacity <= 1_000_000_000 < (q * 1_000_000 + 1_000_000) * capacity
  {
    assert q * capacity <= 1000 < q * capacity + capacity;
    assert q * 1_000_000 * capacity == 1_000_000 * (q * capacity);
    assert (q * 1_000_000 + 1_000_000) * capacity == 1_000_000 * (q * capacity + capacity);
  }

  /** `acquired[i]` is when acquisition `i` happened; `held` are those whose permit is not back yet. */
  datatype State = State(now: nat, acquired: seq<nat>, held: set<nat>)

  datatype Action = Elapse(d: nat) | Acquire | Release(i: nat)

  predicate Enabled(capacity: nat, s: State, a: Action)
    requires capacity >= 1
  {
    match a
    case Elapse(_) => true
    case Acquire => |s.held| < capacity
    case Release(i) => i in s.held && i < |s.acquired| && s.now >= s.acquired[i] + Hold(capacity)
  }

  function Next(s: State, a: Action): (t: State) {
    match a
    case Elapse(d) => s.(now := s.now + d)
    case Acquire => s.(acquired := s.acquired + [s.now], held := s.held + {|s.acquired|})
    case Release(i) => s.(held := s.held - {i})
  }

  /** The state after a schedule, or None for one the limiter does not allow. */
  function After(capacity: nat, actions: seq<Action>): (s: Option<State>)
    requires capacity >= 1
  {
    if actions == [] then Some(State(0, [], {})) else
      var s :- After(capacity, actions[..|actions| - 1]);
      if Enabled(capacity, s, actions[|actions| - 1]) then Some(Next(s, actions[|actions| - 1])) else None
  }

  class Limiter {
    const capacity: nat
    const hold: nat
    var now: nat
    var acquired: seq<nat>
    var held: set<nat>

    ghost function Value(): (s: State)
      reads this
    {
      State(now, acquired, held)
    }

    predicate Valid() {
      capacity >= 1 && hold == Hold(capacity)
    }

    constructor (perSecond: nat)
      ensures Valid() && capacity == Capacity(perSecond) && Some(Value()) == After(capacity, [])
    {
      capacity := Capacity(perSecond);
      hold := Hold(Capacity(perSecond));
      now, acquired, held := 0, [], {};
    }

    method Wait(d: nat)
      modifies this
      ensures Value() == Next(old(Value()), Elapse(d))
    {
      now := now + d;
    }

    /** Takes a permit if one is free; a caller that gets none waits and tries again. */
    method TryAcquire() returns (ok: bool)
      requires Valid()
      modifies this
      ensures ok == Enabled(capacity, old(Value()), Acquire)
      ensures Value() == if ok then Next(old(Value()), Acquire) else old(Value())
    {
      ok := |held| < capacity;
      if ok {
        held := held + {|acquired|};
        acquired := acquired + [now];
      }
    }

    /** The spawned task of acquisition `i` drops its permit once its sleep is over. */
    method TryRelease(i: nat) returns (ok: bool)
      requires Valid()
      modifies this
      ensures ok == Enabled(capacity, old(Value()), Release(i))
      ensures Value() == if ok then Next(old(Value()), Release(i)) else old(Value())
    {
      ok := i in held && i < |acquired| && now >= acquired[i] + hold;
      if ok {
        held := held - {i};
      }
    }
  }

  // ----- Acquisitions are spaced -----

  predicate Sorted(s: State) {
    && (forall i, j :: 0 <= i <= j < |s.acquired| ==> s.acquired[i] <= s.acquired[j])
    && (forall i :: 0 <= i < |s.acquired| ==> s.acquired[i] <= s.now)
  }

  predicate HeldEnough(capacity: nat, s: State)
    requires capacity >= 1
  {
    && (forall i <- s.held :: i < |s.acquired|)
    && (forall i :: 0 <= i < |s.acquired| && i !in s.held ==> s.acquired[i] + Hold(capacity) <= s.now)
  }

  predicate Spaced(capacity: nat, gap: nat, acquired: seq<nat>) {
    forall i :: 0 <= i && i + capacity < |acquired| ==> acquired[i + capacity] >= acquired[i] + gap
  }

  predicate Inv(capacity: nat, s: State)
    requires capacity >= 1
  {
    Sorted(s) && HeldEnough(capacity, s) && Spaced(capacity, Hold(capacity), s.acquired)
  }

  function Span(lo: nat, hi: nat): (r: set<nat>)
    requires lo <= hi
    ensures |r| == hi - lo && forall k :: k in r <==> lo <= k < hi
  {
    if lo == hi then {} else Span(lo, hi - 1) + {hi - 1}
  }

  /** Fewer permits are out than there were acquisitions since `lo`: one of those is back. */
  lemma Pigeonhole(held: set<nat>, lo: nat, hi: nat) returns (j: nat)
    requires lo <= hi && |held| < hi - lo
    ensures lo <= j < hi && j !in held
  {
    var all := Span(lo, hi);
    if all <= held {
      SubsetSize(all, held);
      assert false;
    }
    j :| j in all && j !in held;
  }

  lemma SubsetSize(a: set<nat>, b: set<nat>)
    requires a <= b
    ensures |a| <= |b|
  {
    assert b == a + (b - a);
  }

  lemma AcquireKeeps(capacity: nat, s: State)
    requires capacity >= 1 && Inv(capacity, s) && |s.held| < capacity
    ensures Inv(capacity, Next(s, Acquire))
  {
    hide Hold;
    var n, t := |s.acquired|, Next(s, Acquire);
    if capacity <= n {
      var i := n - capacity;
      var j := Pigeonhole(s.held, i, n);
      assert s.acquired[i] <= s.acquired[j];
      assert s.acquired[j] + Hold(capacity) <= s.now;
    }
    forall i | 0 <= i && i + capacity < |t.acquired| ensures t.acquired[i + capacity] >= t.acquired[i] + Hold(capacity) {
      if i + capacity < n {
        assert s.acquired[i + capacity] >= s.acquired[i] + Hold(capacity);
      }
    }
  }

  lemma {:induction false} RunKeeps(capacity: nat, actions: seq<Action>)
    requires capacity >= 1 && After(capacity, actions).Some?
    ensures Inv(capacity, After(capacity, actions).value)
  {
    hide Hold;
    if actions != [] {
      var a, before := actions[|actions| - 1], actions[..|actions| - 1];
      RunKeeps(capacity, before);
      if a.Acquire? {
        AcquireKeeps(capacity, After(capacity, before).value);
      }
    }
  }

  /** In every schedule, acquisition i + k·capacity comes at least k holds after acquisition i. */
  lemma {:induction false} AcquisitionsAreSpaced(capacity: nat, actions: seq<Action>, i: nat, k: nat)
    requires capacity >= 1 && After(capacity, actions).Some?
    requires i + k * capacity < |After(capacity, actions).value.acquired|
    ensures var t := After(capacity, actions).value.acquired; t[i + k * capacity] >= t[i] + k * Hold(capacity)
  {
    hide Hold, After;
    RunKeeps(capacity, actions);
    var t := After(capacity, actions).value.acquired;
    if k > 0 {
      assert k * capacity == (k - 1) * capacity + capacity && k * Hold(capacity) == (k - 1) * Hold(capacity) + Hold(capacity);
      var j := i + (k - 1) * capacity;
      AcquisitionsAreSpaced(capacity, actions, i, k - 1);
      assert t[j + capacity] >= t[j] + Hold(capacity);
    }
  }

  // ----- The rate in the name -----

  /** At most `capacity` acquisitions in any second. */
  predicate WithinRate(capacity: nat, acquired: seq<nat>) {
    Spaced(capacity, SECOND, acquired)
  }

  lemma AfterSnoc(capacity: nat, actions: seq<Action>, a: Action)
    requires capacity >= 1 && After(capacity, actions).Some? && Enabled(capacity, After(capacity, actions).value, a)
    ensures After(capacity, actions + [a]) == Some(Next(After(capacity, actions).value, a))
  {
    assert (actions + [a])[..|actions|] == actions;
  }

  lemma {:induction false} Burst(capacity: nat, n: nat) returns (actions: seq<Action>)
    requires n <= capacity && capacity >= 1
    ensures After(capacity, actions).Some?
    ensures var s := After(capacity, actions).value;
      s.now == 0 && |s.acquired| == n && (forall i :: 0 <= i < n ==> s.acquired[i] == 0) && s.held == Span(0, n)
  {
    hide After;
    if n == 0 {
      actions := [];
      AfterNothing(capacity);
    } else {
      var before := Burst(capacity, n - 1);
      AfterSnoc(capacity, before, Acquire);
      actions := before + [Acquire];
    }
  }

  lemma AfterNothing(capacity: nat)
    requires capacity >= 1
    ensures After(capacity, []) == Some(State(0, [], {}))
  {
  }

  /** With two permits or more, a full burst and one more acquisition fit into half a second. */
  lemma BurstsExceedTheRate(capacity: nat) returns (actions: seq<Action>)
    requires capacity >= 2
    ensures After(capacity, actions).Some? && !WithinRate(capacity, After(capacity, actions).value.acquired)
  {
    hide After, Hold;
    var burst := Burst(capacity, capacity);
    var h := Hold(capacity);
    AfterSnoc(capacity, burst, Elapse(h));
    AfterSnoc(capacity, burst + [Elapse(h)], Release(0));
    assert |Span(0, capacity) - {0}| == capacity - 1;
    AfterSnoc(capacity, burst + [Elapse(h)] + [Release(0)], Acquire);
    actions := burst + [Elapse(h)] + [Release(0)] + [Acquire];
    assert h <= 500 * 1_000_000 by { HalfSecond(capacity); }
    var t := After(capacity, actions).value.acquired;
    assert t[0 + capacity] == h && t[0] == 0;
  }

  lemma HalfSecond(capacity: nat)
    requires capacity >= 2
    ensures Hold(capacity) <= 500_000_000
  {
    var q := 1000 / capacity;
    assert q * capacity <= 1000;
    assert q * 2 <= q * capacity;
  }

  /** The limiter keeps every second to its nominal rate exactly when that rate is one. */
  lemma RateKeptExactly(capacity: nat)
    requires capacity >= 1
    ensures capacity == 1 <==>
      forall actions: seq<Action> :: After(capacity, actions).Some? ==> WithinRate(capacity, After(capacity, actions).value.acquired)
  {
    if capacity == 1 {
      forall actions: seq<Action> | After(capacity, actions).Some?
        ensures WithinRate(capacity, After(capacity, actions).value.acquired)
      {
        RunKeeps(capacity, actions);
      }
    } else {
      var actions := BurstsExceedTheRate(capacity);
    }
  }
}
