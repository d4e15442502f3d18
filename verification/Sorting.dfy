/** sort.Slice: an ordered rearrangement. Nothing is said about the order of equal elements, which Go leaves open. */
module Sorting {

  /** What sort.Slice asks of its comparison. */
  ghost predicate WeakOrder<T(!new)>(before: (T, T) -> bool) {
    && (forall a, b :: before(a, b) ==> !before(b, a))
    && (forall a, b, c :: !before(b, a) && !before(c, b) ==> !before(c, a))
  }

  /** No element is before one that stands to its left. */
  ghost predicate Ordered<T>(before: (T, T) -> bool, xs: seq<T>) {
    forall i, j | 0 <= i < j < |xs| :: !before(xs[j], xs[i])
  }

  /** Where x goes among the first k elements: behind all that it is not before. */
  function Place<T(!new)>(before: (T, T) -> bool, xs: seq<T>, k: nat, x: T): (p: nat)
    requires WeakOrder(before) && k <= |xs| && Ordered(before, xs)
    requires forall j | k <= j < |xs| :: !before(xs[j], x)
    ensures p <= |xs|
    ensures forall j | 0 <= j < p :: !before(x, xs[j])
    ensures forall j | p <= j < |xs| :: !before(xs[j], x)
  {
    if k == 0 || !before(x, xs[k - 1]) then k else Place(before, xs, k - 1, x)
  }

  function Insert<T(!new)>(before: (T, T) -> bool, xs: seq<T>, x: T): (r: seq<T>)
    requires WeakOrder(before) && Ordered(before, xs)
    ensures Ordered(before, r) && multiset(r) == multiset(xs) + multiset{x}
  {
    var k := Place(before, xs, |xs|, x);
    InsertOrdered(before, xs, k, x);
    assert xs == xs[..k] + xs[k..];
    xs[..k] + [x] + xs[k..]
  }

  /** One of the ordered rearrangements. */
  function Arranged<T(!new)>(before: (T, T) -> bool, xs: seq<T>): (r: seq<T>)
    requires WeakOrder(before)
    ensures Ordered(before, r) && multiset(r) == multiset(xs)
  {
    if xs == [] then [] else
    var n := |xs| - 1;
    assert xs == xs[..n] + [xs[n]];
    Insert(before, Arranged(before, xs[..n]), xs[n])
  }

  /** Any of them may come out. */
  method SortSlice<T(!new)>(before: (T, T) -> bool, xs: seq<T>) returns (r: seq<T>)
    requires WeakOrder(before)
    ensures Ordered(before, r) && multiset(r) == multiset(xs)
  {
    r := Arranged(before, xs);
  }

  lemma InsertOrdered<T>(before: (T, T) -> bool, xs: seq<T>, k: nat, x: T)
    requires k <= |xs| && Ordered(before, xs)
    requires forall j | 0 <= j < k :: !before(x, xs[j])
    requires forall j | k <= j < |xs| :: !before(xs[j], x)
    ensures Ordered(before, xs[..k] + [x] + xs[k..])
  {
    var r := xs[..k] + [x] + xs[k..];
    forall i, j | 0 <= i < j < |r| ensures !before(r[j], r[i]) {
      InsertedAt(xs, k, x, i);
      InsertedAt(xs, k, x, j);
    }
  }

  lemma InsertedAt<T>(xs: seq<T>, k: nat, x: T, j: nat)
    requires k <= |xs| && j <= |xs|
    ensures (xs[..k] + [x] + xs[k..])[j] == if j < k then xs[j] else if j == k then x else xs[j - 1]
  {
  }
}
