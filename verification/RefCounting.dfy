/** The atomic reference count: the object, and the protocol of the threads that share it. */
module RefCounting {

  const MODULUS := 0x1_0000_0000

  type uint32 = n: int | 0 <= n < MODULUS

  /** `++Count`, which wraps around. */
  function Incremented(count: uint32): uint32 {
    (count + 1) % MODULUS
  }

  /** `--Count`, which wraps around. */
  function Decremented(count: uint32): uint32 {
    (count - 1) % MODULUS
  }

  class RefCount {
    var count: uint32

    constructor (initial: uint32 := 1)
      ensures count == initial
    {
      count := initial;
    }

    method GetCount() returns (r: uint32)
      ensures r == count
    {
      r := count;
    }

    method Retain() returns (r: uint32)
      modifies this
      ensures count == Incremented(old(count)) && r == count
    {
      count := Incremented(count);
      r := count;
    }

    method Release() returns (last: bool)
      modifies this
      ensures count == Decremented(old(count))
      ensures last <==> old(count) == 1
    {
      count := Decremented(count);
      last := count == 0;
    }

    method Reset(value: uint32 := 1)
      modifies this
      ensures count == value
    {
      count := value;
    }
  }

  // ---------------------------------------------------------------- threads sharing one count

  type Thread = nat

  /** The atomic steps; `Give` hands a reference to another thread without touching the count. */
  datatype Event =
    | Retain(t: Thread)
    | Release(t: Thread)
    | Give(t: Thread, to: Thread)
    | Reset(t: Thread, value: uint32)

  /** The count, and the references that threads hold: one occurrence for each reference. */
  datatype State = State(count: uint32, refs: multiset<Thread>)

  function References(t: Thread, n: nat): multiset<Thread> {
    multiset{}[t := n]
  }

  function Initial(t: Thread, value: uint32): State {
    State(value, References(t, value))
  }

  /** Threads act only through a reference they hold; the count is reset when none is left. */
  predicate Allowed(s: State, e: Event) {
    match e
    case Retain(t) => t in s.refs
    case Release(t) => t in s.refs
    case Give(t, _) => t in s.refs
    case Reset(_, _) => s.refs == multiset{}
  }

  function Next(s: State, e: Event): State {
    match e
    case Retain(t) => State(Incremented(s.count), s.refs + multiset{t})
    case Release(t) => State(Decremented(s.count), s.refs - multiset{t})
    case Give(t, to) => s.(refs := s.refs - multiset{t} + multiset{to})
    case Reset(t, value) => State(value, References(t, value))
  }

  /** The step is a release that returned true. */
  predicate ReturnsTrue(s: State, e: Event) {
    e.Release? && Next(s, e).count == 0
  }

  /** Any interleaving of the threads' steps. */
  predicate Legal(s: State, trace: seq<Event>)
    decreases |trace|
  {
    trace == [] || (Allowed(s, trace[0]) && Legal(Next(s, trace[0]), trace[1..]))
  }

  function Run(s: State, trace: seq<Event>): State
    decreases |trace|
  {
    if trace == [] then s else Run(Next(s, trace[0]), trace[1..])
  }

  /** At most `bound` references are outstanding at any time. */
  predicate Bounded(s: State, trace: seq<Event>, bound: nat)
    decreases |trace|
  {
    |s.refs| <= bound && (trace == [] || Bounded(Next(s, trace[0]), trace[1..], bound))
  }

  ghost predicate CountsReferences(s: State) {
    s.count == |s.refs| % MODULUS
  }

  lemma {:induction false} ReferencesSize(t: Thread, n: nat)
    ensures |References(t, n)| == n
  {
    var m := References(t, n);
    assert m - multiset{} == m;
    if n == 0 {
      assert m == multiset{};
    } else {
      ReferencesSize(t, n - 1);
      assert m == References(t, n - 1) + multiset{t};
    }
  }

  lemma WrapUp(n: nat)
    ensures (n % MODULUS + 1) % MODULUS == (n + 1) % MODULUS
  {
  }

  lemma WrapDown(n: nat)
    requires n > 0
    ensures (n % MODULUS - 1) % MODULUS == (n - 1) % MODULUS
  {
  }

  lemma {:induction false} NextSize(s: State, e: Event)
    requires Allowed(s, e)
    ensures |Next(s, e).refs| == match e
                                 case Retain(_) => |s.refs| + 1
                                 case Release(_) => |s.refs| - 1
                                 case Give(_, _) => |s.refs|
                                 case Reset(_, value) => value
  {
    match e
    case Retain(t) =>
    case Release(t) =>
      assert s.refs == (s.refs - multiset{t}) + multiset{t};
    case Give(t, to) =>
      assert s.refs == (s.refs - multiset{t}) + multiset{t};
    case Reset(t, value) =>
      ReferencesSize(t, value);
  }

  lemma {:induction false} NextCounts(s: State, e: Event)
    requires CountsReferences(s) && Allowed(s, e)
    ensures CountsReferences(Next(s, e))
  {
    NextSize(s, e);
    WrapUp(|s.refs|);
    if e.Release? {
      WrapDown(|s.refs|);
    }
  }

  /** In every interleaving the count is the number of outstanding references, modulo 2^32. */
  lemma {:induction false} CountIsReferences(s: State, trace: seq<Event>)
    requires CountsReferences(s) && Legal(s, trace)
    ensures CountsReferences(Run(s, trace))
    decreases |trace|
  {
    if trace != [] {
      NextCounts(s, trace[0]);
      CountIsReferences(Next(s, trace[0]), trace[1..]);
    }
  }

  lemma {:induction false} InitialCounts(t: Thread, value: uint32)
    ensures CountsReferences(Initial(t, value)) && |Initial(t, value).refs| == value
  {
    ReferencesSize(t, value);
  }

  // ---------------------------------------------------------------- the last release

  /** Every release returns true exactly when it drops the last reference. */
  predicate ReleasesRight(s: State, trace: seq<Event>)
    decreases |trace|
  {
    trace != [] ==>
      && (trace[0].Release? ==> (ReturnsTrue(s, trace[0]) <==> Next(s, trace[0]).refs == multiset{}))
      && ReleasesRight(Next(s, trace[0]), trace[1..])
  }

  /** What a release returns, with any number of references: the remaining ones modulo 2^32 decide. */
  lemma {:induction false} ReleaseReturns(s: State, t: Thread)
    requires CountsReferences(s) && t in s.refs
    ensures ReturnsTrue(s, Release(t)) <==> (|s.refs| - 1) % MODULUS == 0
    ensures Next(s, Release(t)).refs == multiset{} <==> |s.refs| == 1
  {
    NextCounts(s, Release(t));
    NextSize(s, Release(t));
    assert Next(s, Release(t)).refs == multiset{} <==> |Next(s, Release(t)).refs| == 0;
  }

  lemma {:induction false} BoundedReleasesRight(s: State, trace: seq<Event>)
    requires CountsReferences(s) && Legal(s, trace) && Bounded(s, trace, MODULUS)
    ensures ReleasesRight(s, trace)
    decreases |trace|
  {
    if trace != [] {
      if trace[0].Release? {
        ReleaseReturns(s, trace[0].t);
      }
      NextCounts(s, trace[0]);
      BoundedReleasesRight(Next(s, trace[0]), trace[1..]);
    }
  }

  function Retains(t: Thread, n: nat): seq<Event> {
    if n == 0 then [Release(t)] else [Retain(t)] + Retains(t, n - 1)
  }

  lemma {:induction false} RetainThenRelease(s: State, t: Thread, n: nat)
    requires CountsReferences(s) && t in s.refs && |s.refs| + n == MODULUS + 1
    ensures Legal(s, Retains(t, n)) && Bounded(s, Retains(t, n), MODULUS + 1)
    ensures !ReleasesRight(s, Retains(t, n))
    decreases n
  {
    var trace := Retains(t, n);
    NextCounts(s, trace[0]);
    NextSize(s, trace[0]);
    if n == 0 {
      ReleaseReturns(s, t);
      assert trace[1..] == [];
    } else {
      assert trace[1..] == Retains(t, n - 1);
      RetainThenRelease(Next(s, trace[0]), t, n - 1);
    }
  }

  lemma {:induction false} BoundedMore(s: State, trace: seq<Event>, bound: nat, more: nat)
    requires bound <= more && Bounded(s, trace, bound)
    ensures Bounded(s, trace, more)
    decreases |trace|
  {
    if trace != [] {
      BoundedMore(Next(s, trace[0]), trace[1..], bound, more);
    }
  }

  /** In all interleavings with at most `bound` references, releases tell the last one. */
  ghost predicate SafeUpTo(t: Thread, bound: nat) {
    forall trace :: Legal(Initial(t, 1), trace) && Bounded(Initial(t, 1), trace, bound) ==>
      ReleasesRight(Initial(t, 1), trace)
  }

  /** A release tells the last reference in all interleavings exactly up to 2^32 references. */
  lemma {:induction false} SafeExactlyUpToModulus(t: Thread, bound: nat)
    ensures SafeUpTo(t, bound) <==> bound <= 0x1_0000_0000
  {
    var s := Initial(t, 1);
    InitialCounts(t, 1);
    if bound <= MODULUS {
      forall trace | Legal(s, trace) && Bounded(s, trace, bound)
        ensures ReleasesRight(s, trace)
      {
        BoundedMore(s, trace, bound, MODULUS);
        BoundedReleasesRight(s, trace);
      }
    } else {
      RetainThenRelease(s, t, MODULUS);
      BoundedMore(s, Retains(t, MODULUS), MODULUS + 1, bound);
    }
  }

  // ---------------------------------------------------------------- one true release per lifetime

  function TrueReleases(s: State, trace: seq<Event>): nat
    decreases |trace|
  {
    if trace == [] then 0
    else (if ReturnsTrue(s, trace[0]) then 1 else 0) + TrueReleases(Next(s, trace[0]), trace[1..])
  }

  /** Resets that hand out at least one reference. */
  function Openings(trace: seq<Event>): nat {
    if trace == [] then 0
    else (if trace[0].Reset? && trace[0].value > 0 then 1 else 0) + Openings(trace[1..])
  }

  function Open(s: State): nat {
    if s.refs == multiset{} then 0 else 1
  }

  /**
   Conservation: every lifetime of the count, opened initially or by a reset, is closed by exactly
   one release that returns true, and is still open exactly while references are outstanding.
   */
  lemma {:induction false} OneTrueReleasePerLifetime(s: State, trace: seq<Event>)
    requires CountsReferences(s) && Legal(s, trace) && Bounded(s, trace, MODULUS)
    ensures TrueReleases(s, trace) + Open(Run(s, trace)) == Open(s) + Openings(trace)
    decreases |trace|
  {
    if trace != [] {
      NextCounts(s, trace[0]);
      LifetimeStep(s, trace[0]);
      OneTrueReleasePerLifetime(Next(s, trace[0]), trace[1..]);
    }
  }

  /** A release that returns true closes a lifetime, and a reset to a positive count opens one. */
  lemma {:induction false} LifetimeStep(s: State, e: Event)
    requires CountsReferences(s) && Allowed(s, e) && |s.refs| <= MODULUS
    ensures (if ReturnsTrue(s, e) then 1 else 0) + Open(Next(s, e)) ==
            Open(s) + (if e.Reset? && e.value > 0 then 1 else 0)
  {
    var next := Next(s, e);
    NextSize(s, e);
    assert next.refs == multiset{} <==> |next.refs| == 0;
    if e.Release? {
      ReleaseReturns(s, e.t);
    }
  }

  /** After a release that returned true, nothing can happen to the count but a reset. */
  lemma {:induction false} NothingAfterTheLast(s: State, t: Thread, e: Event)
    requires CountsReferences(s) && t in s.refs && |s.refs| <= MODULUS
    requires ReturnsTrue(s, Release(t)) && Allowed(Next(s, Release(t)), e)
    ensures e.Reset? && forall u :: u !in Next(s, Release(t)).refs
  {
    ReleaseReturns(s, t);
  }

  lemma {:induction false} RunFront(s: State, trace: seq<Event>)
    requires |trace| >= 2
    ensures var rest := trace[1..];
            Run(s, trace[..|trace| - 1]) == Run(Next(s, trace[0]), rest[..|rest| - 1])
  {
    assert trace[..|trace| - 1][1..] == trace[1..][..|trace| - 2];
  }

  lemma {:induction false} TrueReleaseEnds(s: State, t: Thread, rest: seq<Event>)
    requires CountsReferences(s) && t in s.refs && |s.refs| <= MODULUS && ReturnsTrue(s, Release(t))
    requires Legal(Next(s, Release(t)), rest) && forall e :: e in rest ==> !e.Reset?
    ensures rest == [] && Next(s, Release(t)).refs == multiset{}
  {
    ReleaseReturns(s, t);
    if rest != [] {
      NothingAfterTheLast(s, t, rest[0]);
    }
  }

  /** Without a reset in between, at most one release returns true, and it is the last step. */
  lemma {:induction false} TrueReleaseIsLast(s: State, trace: seq<Event>)
    requires CountsReferences(s) && Legal(s, trace) && Bounded(s, trace, MODULUS)
    requires forall e :: e in trace ==> !e.Reset?
    ensures TrueReleases(s, trace) <= 1
    ensures TrueReleases(s, trace) == 1 ==>
              && trace != []
              && ReturnsTrue(Run(s, trace[..|trace| - 1]), trace[|trace| - 1])
              && Run(s, trace).refs == multiset{}
    decreases |trace|
  {
    if trace != [] {
      var e, rest := trace[0], trace[1..];
      NextCounts(s, e);
      TrueReleaseIsLast(Next(s, e), rest);
      if ReturnsTrue(s, e) {
        TrueReleaseEnds(s, e.t, rest);
        assert trace[..|trace| - 1] == [];
      } else if rest != [] {
        RunFront(s, trace);
      }
    }
  }
}
