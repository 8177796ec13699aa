/**
 Assignment of identifiers: a name that is known keeps its identifier, and every other one takes
 the next number above a mark, in order of appearance.
 */
module Assignment {
  import opened Prelude

  /** How many of the elements have a name that is not known. */
  function FreshCount<T>(name: T -> string, known: set<string>, xs: seq<T>): nat {
    if xs == [] then 0
    else FreshCount(name, known, xs[..|xs| - 1]) + (if name(xs[|xs| - 1]) in known then 0 else 1)
  }

  /** The number of element `i` above the mark, if its name is not known. */
  function FreshRank<T>(name: T -> string, known: set<string>, xs: seq<T>, i: nat): nat
    requires i < |xs|
  {
    FreshCount(name, known, xs[..i + 1])
  }

  lemma {:induction false} FreshAppend<T>(name: T -> string, known: set<string>, xs: seq<T>, x: T)
    ensures FreshCount(name, known, xs + [x]) == FreshCount(name, known, xs) + (if name(x) in known then 0 else 1)
  {
    assert (xs + [x])[..|xs|] == xs;
  }

  lemma {:induction false} FreshGrows<T>(name: T -> string, known: set<string>, xs: seq<T>, i: nat, j: nat)
    requires i <= j <= |xs|
    ensures FreshCount(name, known, xs[..i]) <= FreshCount(name, known, xs[..j])
    decreases j
  {
    if i < j {
      assert xs[..j][..j - 1] == xs[..j - 1];
      FreshGrows(name, known, xs, i, j - 1);
    }
  }

  /** The count is the number of elements whose name is not known. */
  lemma {:induction false} FreshIsFiltered<T>(name: T -> string, known: set<string>, isNew: T -> bool, xs: seq<T>)
    requires forall x :: isNew(x) <==> name(x) !in known
    ensures FreshCount(name, known, xs) == |Filter(isNew, xs)|
  {
    if xs != [] {
      var front, last := xs[..|xs| - 1], xs[|xs| - 1];
      assert xs == front + [last];
      FreshIsFiltered(name, known, isNew, front);
      FilterConcat(isNew, front, [last]);
      FilterOne(isNew, last);
    }
  }

  /** The ranks of the unknown elements run from 1 to their number, in order and without repetition. */
  lemma {:induction false} RankInRange<T>(name: T -> string, known: set<string>, xs: seq<T>, i: nat)
    requires i < |xs| && name(xs[i]) !in known
    ensures FreshRank(name, known, xs, i) == FreshCount(name, known, xs[..i]) + 1
    ensures 0 < FreshRank(name, known, xs, i) <= FreshCount(name, known, xs)
  {
    assert xs[..i + 1][..i] == xs[..i];
    FreshGrows(name, known, xs, i + 1, |xs|);
    assert xs[..|xs|] == xs;
  }

  lemma {:induction false} RanksDiffer<T>(name: T -> string, known: set<string>, xs: seq<T>, i: nat, j: nat)
    requires i < j < |xs| && name(xs[j]) !in known
    ensures FreshRank(name, known, xs, i) < FreshRank(name, known, xs, j)
  {
    RankInRange(name, known, xs, j);
    FreshGrows(name, known, xs, i + 1, j);
  }

  lemma {:induction false} RankReached<T>(name: T -> string, known: set<string>, xs: seq<T>, k: nat) returns (i: nat)
    requires 0 < k <= FreshCount(name, known, xs)
    ensures i < |xs| && name(xs[i]) !in known && FreshRank(name, known, xs, i) == k
  {
    var n := |xs| - 1;
    if k <= FreshCount(name, known, xs[..n]) {
      i := RankReached(name, known, xs[..n], k);
      assert xs[..n][..i + 1] == xs[..i + 1];
    } else {
      i := n;
      assert xs[..n + 1] == xs;
    }
  }

  lemma NothingFresh<T>(name: T -> string, known: set<string>, xs: seq<T>)
    requires forall i :: 0 <= i < |xs| ==> name(xs[i]) in known
    ensures FreshCount(name, known, xs) == 0
  {
  }
}
