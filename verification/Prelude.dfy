/** Failure-carrying datatypes and the sequence vocabulary shared by the models. */
module Prelude {

  datatype Option<+T> = None | Some(value: T)

  datatype Result<+T, +E> = Ok(value: T) | Err(error: E)

  /** The elements of `xs` that satisfy `p`, in order. */
  function Filter<T>(p: T -> bool, xs: seq<T>): seq<T> {
    if xs == [] then []
    else (if p(xs[0]) then [xs[0]] else []) + Filter(p, xs[1..])
  }

  lemma {:induction false} FilterConcat<T>(p: T -> bool, xs: seq<T>, ys: seq<T>)
    ensures Filter(p, xs + ys) == Filter(p, xs) + Filter(p, ys)
  {
    if xs == [] {
      assert xs + ys == ys;
    } else {
      var head := if p(xs[0]) then [xs[0]] else [];
      assert (xs + ys)[1..] == xs[1..] + ys;
      FilterConcat(p, xs[1..], ys);
      assert head + (Filter(p, xs[1..]) + Filter(p, ys)) == head + Filter(p, xs[1..]) + Filter(p, ys);
    }
  }

  lemma {:induction false} FilterOne<T>(p: T -> bool, x: T)
    ensures Filter(p, [x]) == if p(x) then [x] else []
  {
    assert [x][1..] == [] && Filter(p, [x][1..]) == [];
  }

  lemma {:induction false} FilterMiddle<T>(p: T -> bool, xs: seq<T>, x: T, ys: seq<T>)
    requires p(x)
    ensures Filter(p, xs + [x] + ys) == Filter(p, xs) + [x] + Filter(p, ys)
  {
    FilterConcat(p, xs + [x], ys);
    FilterConcat(p, xs, [x]);
    FilterOne(p, x);
  }

  lemma {:induction false} FilterMembers<T>(p: T -> bool, xs: seq<T>)
    ensures forall x :: x in Filter(p, xs) <==> x in xs && p(x)
  {
    if xs != [] {
      FilterMembers(p, xs[1..]);
      assert forall x :: x in xs <==> x == xs[0] || x in xs[1..];
    }
  }

  lemma {:induction false} FilterMember<T>(p: T -> bool, xs: seq<T>, x: T)
    ensures x in Filter(p, xs) <==> x in xs && p(x)
  {
    FilterMembers(p, xs);
  }

  lemma FilterNone<T>(p: T -> bool, xs: seq<T>)
    requires forall x :: x in xs ==> !p(x)
    ensures Filter(p, xs) == []
  {
  }

  lemma {:induction false} FilterTwice<T>(p: T -> bool, q: T -> bool, both: T -> bool, xs: seq<T>)
    requires forall x :: x in xs ==> both(x) == (p(x) && q(x))
    ensures Filter(p, Filter(q, xs)) == Filter(both, xs)
  {
    if xs != [] {
      FilterTwice(p, q, both, xs[1..]);
      FilterConcat(p, if q(xs[0]) then [xs[0]] else [], Filter(q, xs[1..]));
    }
  }

  lemma {:induction false} FilterCommutes<T>(p: T -> bool, q: T -> bool, xs: seq<T>)
    ensures Filter(p, Filter(q, xs)) == Filter(q, Filter(p, xs))
  {
    var both := (x: T) => p(x) && q(x);
    FilterTwice(p, q, both, xs);
    FilterTwice(q, p, both, xs);
  }

  lemma {:induction false} FilterCount<T>(p: T -> bool, xs: seq<T>, x: T)
    ensures multiset(Filter(p, xs))[x] == if p(x) then multiset(xs)[x] else 0
  {
    if xs != [] {
      FilterCount(p, xs[1..], x);
      assert xs == [xs[0]] + xs[1..];
    }
  }

  lemma {:induction false} CountTwo<T>(xs: seq<T>, i: nat, j: nat)
    requires i < j < |xs| && xs[i] == xs[j]
    ensures multiset(xs)[xs[i]] >= 2
  {
    assert xs == xs[..j] + [xs[j]] + xs[j + 1..];
    assert xs[..j][i] == xs[i];
  }

  /** All the inner sequences, one after the other. */
  function Flatten<T>(xss: seq<seq<T>>): seq<T> {
    if xss == [] then [] else xss[0] + Flatten(xss[1..])
  }

  lemma {:induction false} FlattenMembers<T>(xss: seq<seq<T>>)
    ensures forall x :: x in Flatten(xss) <==> exists xs :: xs in xss && x in xs
  {
    if xss != [] {
      FlattenMembers(xss[1..]);
      assert forall xs :: xs in xss <==> xs == xss[0] || xs in xss[1..];
    }
  }

  lemma {:induction false} TakeNext<T>(done: seq<T>, xs: seq<T>, k: nat)
    requires k < |xs|
    ensures done + xs[..k + 1] == done + xs[..k] + [xs[k]]
  {
    assert xs[..k + 1] == xs[..k] + [xs[k]];
  }

  /** `xs` can be obtained from `ys` by deleting elements. */
  predicate IsSubsequence<T(==)>(xs: seq<T>, ys: seq<T>) {
    if xs == [] then true
    else if ys == [] then false
    else if xs[0] == ys[0] then IsSubsequence(xs[1..], ys[1..])
    else IsSubsequence(xs, ys[1..])
  }

  predicate Distinct<T(==)>(xs: seq<T>) {
    forall i, j :: 0 <= i < j < |xs| ==> xs[i] != xs[j]
  }
}

/** Python's `sorted(xs, key=...)`, which is stable. */
module StableSort {
  import opened Prelude

  predicate SortedBy<T>(key: T -> int, xs: seq<T>) {
    forall i, j :: 0 <= i < j < |xs| ==> key(xs[i]) <= key(xs[j])
  }

  function Insert<T>(key: T -> int, x: T, xs: seq<T>): seq<T> {
    if xs == [] || key(x) <= key(xs[0]) then [x] + xs
    else [xs[0]] + Insert(key, x, xs[1..])
  }

  function Sort<T>(key: T -> int, xs: seq<T>): seq<T> {
    if xs == [] then [] else Insert(key, xs[0], Sort(key, xs[1..]))
  }

  /** The elements whose key is `k`, in order. */
  function WithKey<T>(key: T -> int, k: int, xs: seq<T>): seq<T> {
    Filter((x: T) => key(x) == k, xs)
  }

  lemma {:induction false} InsertMultiset<T>(key: T -> int, x: T, xs: seq<T>)
    ensures multiset(Insert(key, x, xs)) == multiset{x} + multiset(xs)
  {
    if !(xs == [] || key(x) <= key(xs[0])) {
      InsertMultiset(key, x, xs[1..]);
      assert xs == [xs[0]] + xs[1..];
    }
  }

  lemma {:induction false} SortMultiset<T>(key: T -> int, xs: seq<T>)
    ensures multiset(Sort(key, xs)) == multiset(xs)
    ensures |Sort(key, xs)| == |xs|
  {
    if xs != [] {
      SortMultiset(key, xs[1..]);
      InsertMultiset(key, xs[0], Sort(key, xs[1..]));
      assert xs == [xs[0]] + xs[1..];
    }
    assert |multiset(Sort(key, xs))| == |multiset(xs)|;
  }

  lemma {:induction false} SortMembers<T>(key: T -> int, xs: seq<T>)
    ensures forall x :: x in Sort(key, xs) <==> x in xs
  {
    SortMultiset(key, xs);
    forall x
      ensures x in Sort(key, xs) <==> x in xs
    {
      assert x in multiset(Sort(key, xs)) <==> x in multiset(xs);
    }
  }

  lemma {:induction false} InsertSorted<T>(key: T -> int, x: T, xs: seq<T>)
    requires SortedBy(key, xs)
    ensures SortedBy(key, Insert(key, x, xs))
  {
    if !(xs == [] || key(x) <= key(xs[0])) {
      InsertSorted(key, x, xs[1..]);
      InsertMultiset(key, x, xs[1..]);
      var rest := Insert(key, x, xs[1..]);
      forall i | 0 <= i < |rest|
        ensures key(xs[0]) <= key(rest[i])
      {
        assert rest[i] in multiset(rest);
      }
    }
  }

  lemma {:induction false} SortSorted<T>(key: T -> int, xs: seq<T>)
    ensures SortedBy(key, Sort(key, xs))
  {
    if xs != [] {
      SortSorted(key, xs[1..]);
      InsertSorted(key, xs[0], Sort(key, xs[1..]));
    }
  }

  lemma {:induction false} InsertStable<T>(key: T -> int, x: T, xs: seq<T>, k: int)
    ensures WithKey(key, k, Insert(key, x, xs)) == WithKey(key, k, [x] + xs)
  {
    if !(xs == [] || key(x) <= key(xs[0])) {
      InsertStable(key, x, xs[1..], k);
      var p := (y: T) => key(y) == k;
      FilterConcat(p, [x], xs);
      FilterConcat(p, [x], xs[1..]);
      FilterConcat(p, [xs[0]], xs[1..]);
      assert xs == [xs[0]] + xs[1..];
      FilterConcat(p, [xs[0]], Insert(key, x, xs[1..]));
    }
  }

  /** Elements with equal keys stay in their original order. */
  lemma {:induction false} SortStable<T>(key: T -> int, xs: seq<T>, k: int)
    ensures WithKey(key, k, Sort(key, xs)) == WithKey(key, k, xs)
  {
    if xs != [] {
      SortStable(key, xs[1..], k);
      InsertStable(key, xs[0], Sort(key, xs[1..]), k);
      var p := (y: T) => key(y) == k;
      FilterConcat(p, [xs[0]], Sort(key, xs[1..]));
      FilterConcat(p, [xs[0]], xs[1..]);
      assert xs == [xs[0]] + xs[1..];
    }
  }

  ghost predicate SameGroups<T>(key: T -> int, xs: seq<T>, ys: seq<T>) {
    forall k :: WithKey(key, k, xs) == WithKey(key, k, ys)
  }

  /** The smallest key of `xs` is reached in `ys` too, by the same first element. */
  lemma {:induction false} FirstIsShared<T>(key: T -> int, xs: seq<T>, ys: seq<T>)
    requires SameGroups(key, xs, ys) && xs != []
    ensures xs[0] in ys && WithKey(key, key(xs[0]), ys)[..1] == [xs[0]]
  {
    FilterMembers((e: T) => key(e) == key(xs[0]), ys);
    assert WithKey(key, key(xs[0]), ys) == WithKey(key, key(xs[0]), xs);
    assert WithKey(key, key(xs[0]), xs)[0] == xs[0];
    assert xs[0] in WithKey(key, key(xs[0]), ys);
  }

  lemma {:induction false} TailsShareGroups<T>(key: T -> int, x: T, xs: seq<T>, ys: seq<T>)
    requires SameGroups(key, [x] + xs, [x] + ys)
    ensures SameGroups(key, xs, ys)
  {
    forall k
      ensures WithKey(key, k, xs) == WithKey(key, k, ys)
    {
      var p := (e: T) => key(e) == k;
      FilterConcat(p, [x], xs);
      FilterConcat(p, [x], ys);
      assert WithKey(key, k, [x] + xs) == WithKey(key, k, [x] + ys);
      assert WithKey(key, k, xs) == WithKey(key, k, [x] + xs)[|Filter(p, [x])|..];
    }
  }

  /** Sortedness and stability determine the result: there is no other stable sort. */
  lemma {:induction false} StableSortUnique<T>(key: T -> int, xs: seq<T>, ys: seq<T>)
    requires SortedBy(key, xs) && SortedBy(key, ys)
    requires SameGroups(key, xs, ys)
    ensures xs == ys
  {
    if xs != [] {
      FirstIsShared(key, xs, ys);
      FirstIsShared(key, ys, xs);
      assert key(xs[0]) == key(ys[0]);
      assert WithKey(key, key(ys[0]), ys)[0] == ys[0];
      assert xs == [xs[0]] + xs[1..] && ys == [ys[0]] + ys[1..];
      TailsShareGroups(key, xs[0], xs[1..], ys[1..]);
      StableSortUnique(key, xs[1..], ys[1..]);
    } else if ys != [] {
      FirstIsShared(key, ys, xs);
    }
  }

  lemma {:induction false} FilterSorted<T>(p: T -> bool, key: T -> int, xs: seq<T>)
    requires SortedBy(key, xs)
    ensures SortedBy(key, Filter(p, xs))
  {
    if xs != [] {
      FilterSorted(p, key, xs[1..]);
      var rest := Filter(p, xs[1..]);
      forall j | 0 <= j < |rest|
        ensures key(xs[0]) <= key(rest[j])
      {
        FilterMember(p, xs[1..], rest[j]);
        assert rest[j] in xs[1..];
      }
    }
  }

  /** Filtering a stable sort is the same as sorting what the filter leaves. */
  lemma {:induction false} FilterSort<T>(p: T -> bool, key: T -> int, xs: seq<T>)
    ensures Filter(p, Sort(key, xs)) == Sort(key, Filter(p, xs))
  {
    var left, right := Filter(p, Sort(key, xs)), Sort(key, Filter(p, xs));
    SortSorted(key, xs);
    SortSorted(key, Filter(p, xs));
    FilterSorted(p, key, Sort(key, xs));
    forall k
      ensures WithKey(key, k, left) == WithKey(key, k, right)
    {
      var q := (x: T) => key(x) == k;
      SortStable(key, xs, k);
      SortStable(key, Filter(p, xs), k);
      FilterCommutes(q, p, Sort(key, xs));
      FilterCommutes(q, p, xs);
      assert WithKey(key, k, left) == Filter(p, WithKey(key, k, xs));
      assert WithKey(key, k, right) == Filter(p, WithKey(key, k, xs));
    }
    StableSortUnique(key, left, right);
  }
}
