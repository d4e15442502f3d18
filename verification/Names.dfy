/** The order of file names that both sides sort their lists by, and utils/file.go: sorting and searching. */
module Names {
  import opened Bytes
  import Sorting

  /** Go's `<` on strings: bytewise, a proper prefix before its extensions. */
  predicate Less(a: bytes, b: bytes)
    decreases b
  {
    b != [] && (a == [] || a[0] < b[0] || (a[0] == b[0] && Less(a[1..], b[1..])))
  }

  function ByName<T>(key: T -> bytes): (T, T) -> bool { (a, b) => Less(key(a), key(b)) }

  /** Ordered by name. */
  ghost predicate NamesOrdered<T>(key: T -> bytes, xs: seq<T>) { Sorting.Ordered(ByName(key), xs) }

  lemma InNameOrder<T>(key: T -> bytes, xs: seq<T>, i: nat, j: nat)
    requires NamesOrdered(key, xs) && i < j < |xs|
    ensures !Less(key(xs[j]), key(xs[i]))
  {
    assert !ByName(key)(xs[j], xs[i]);
  }

  /** The order at the first difference. */
  ghost predicate Precedes(a: bytes, b: bytes) {
    exists k: nat :: k <= |a| && k <= |b| && DifferFrom(a, b, k)
  }

  /** Up to k they are alike; there the first one ends, or has the smaller byte. */
  predicate DifferFrom(a: bytes, b: bytes, k: nat)
    requires k <= |a| && k <= |b|
  {
    a[..k] == b[..k] && k < |b| && (k == |a| || (k < |a| && a[k] < b[k]))
  }

  lemma {:induction false} LessIsPrecedes(a: bytes, b: bytes)
    ensures Less(a, b) <==> Precedes(a, b)
    decreases |a|
  {
    if a == [] || b == [] {
      assert Precedes(a, b) ==> b != [];
      if b != [] {
        assert DifferFrom(a, b, 0);
      }
    } else if a[0] != b[0] {
      if a[0] < b[0] {
        assert DifferFrom(a, b, 0);
      }
      forall k: nat | 0 < k <= |a| && k <= |b| ensures !DifferFrom(a, b, k) {
        assert a[..k][0] == a[0] && b[..k][0] == b[0];
      }
    } else {
      LessIsPrecedes(a[1..], b[1..]);
      assert a == [a[0]] + a[1..] && b == [b[0]] + b[1..];
      if Less(a, b) {
        var k: nat :| k < |a| && k < |b| && DifferFrom(a[1..], b[1..], k);
        assert a[..k + 1] == [a[0]] + a[1..][..k] && b[..k + 1] == [b[0]] + b[1..][..k];
        assert DifferFrom(a, b, k + 1);
      }
      if Precedes(a, b) {
        var k: nat :| k <= |a| && k <= |b| && DifferFrom(a, b, k);
        assert k > 0;
        assert a[1..][..k - 1] == a[..k][1..] && b[1..][..k - 1] == b[..k][1..];
        assert DifferFrom(a[1..], b[1..], k - 1);
      }
    }
  }

  function KeysOf<T>(key: T -> bytes, xs: seq<T>): (names: seq<bytes>)
    ensures |names| == |xs| && forall i | 0 <= i < |xs| :: names[i] == key(xs[i])
  {
    if xs == [] then [] else [key(xs[0])] + KeysOf(key, xs[1..])
  }

  lemma {:induction false} LessTotal(a: bytes, b: bytes)
    ensures Less(a, b) || a == b || Less(b, a)
    ensures !(Less(a, b) && Less(b, a)) && !Less(a, a)
    decreases |a|
  {
    if a != [] {
      LessTotal(a[1..], if b == [] then [] else b[1..]);
      assert a == [a[0]] + a[1..];
      if b != [] {
        assert b == [b[0]] + b[1..];
      }
    }
  }

  /** The negation of the order is transitive, so the order is a weak one even before totality. */
  lemma {:induction false} NotLessTransitive(a: bytes, b: bytes, c: bytes)
    requires !Less(b, a) && !Less(c, b)
    ensures !Less(c, a)
    decreases |a|
  {
    if a != [] && b != [] && c != [] {
      if b[0] == a[0] && c[0] == b[0] {
        NotLessTransitive(a[1..], b[1..], c[1..]);
      }
    }
  }

  // ---------- Only one arrangement of the names is ordered ----------

  lemma HeadIsLeast<T>(key: T -> bytes, xs: seq<T>, name: bytes)
    requires NamesOrdered(key, xs) && name in KeysOf(key, xs)
    ensures !Less(name, key(xs[0]))
  {
    var i :| 0 <= i < |xs| && KeysOf(key, xs)[i] == name;
    if i > 0 { InNameOrder(key, xs, 0, i); }
    LessTotal(name, name);
  }

  lemma {:induction false} SameHeads<S, T>(f: S -> bytes, xs: seq<S>, g: T -> bytes, ys: seq<T>)
    requires NamesOrdered(f, xs) && NamesOrdered(g, ys) && xs != [] && ys != []
    requires multiset(KeysOf(f, xs)) == multiset(KeysOf(g, ys))
    ensures f(xs[0]) == g(ys[0])
  {
    var a, b := KeysOf(f, xs), KeysOf(g, ys);
    assert a[0] in multiset(b) && b[0] in multiset(a);
    HeadIsLeast(f, xs, b[0]);
    HeadIsLeast(g, ys, a[0]);
    LessTotal(a[0], b[0]);
  }

  /** The multiset of a sequence without its element `k`. */
  lemma RemoveCounts<T>(xs: seq<T>, k: nat)
    requires k < |xs|
    ensures multiset(xs[..k] + xs[k + 1..]) == multiset(xs) - multiset{xs[k]}
  {
    assert xs == xs[..k] + [xs[k]] + xs[k + 1..];
  }

  lemma TailCounts<T>(xs: seq<T>)
    requires xs != []
    ensures multiset(xs[1..]) == multiset(xs) - multiset{xs[0]}
  {
    RemoveCounts(xs, 0);
    assert xs[..0] + xs[1..] == xs[1..];
  }

  lemma SameLength<T>(xs: seq<T>, ys: seq<T>)
    requires multiset(xs) == multiset(ys)
    ensures |xs| == |ys|
  {
    assert |multiset(xs)| == |xs| && |multiset(ys)| == |ys|;
  }

  lemma TailOrdered<T>(key: T -> bytes, xs: seq<T>)
    requires xs != [] && NamesOrdered(key, xs)
    ensures NamesOrdered(key, xs[1..]) && KeysOf(key, xs[1..]) == KeysOf(key, xs)[1..]
  {
    forall i, j | 0 <= i < j < |xs| - 1 ensures !ByName(key)(xs[1..][j], xs[1..][i]) {
      assert !ByName(key)(xs[j + 1], xs[i + 1]);
    }
  }

  lemma ElementOf<T>(xs: seq<T>, ys: seq<T>, k: nat) returns (i: nat)
    requires multiset(xs) == multiset(ys) && k < |xs|
    ensures i < |ys| && ys[i] == xs[k]
  {
    assert xs[k] in multiset(ys);
    i :| i < |ys| && ys[i] == xs[k];
  }

  /** Two ordered lists with the same names, each as often, have the same name at every index. */
  lemma {:induction false} OrderedNamesAgree<S, T>(f: S -> bytes, xs: seq<S>, g: T -> bytes, ys: seq<T>)
    requires NamesOrdered(f, xs) && NamesOrdered(g, ys)
    requires multiset(KeysOf(f, xs)) == multiset(KeysOf(g, ys))
    ensures KeysOf(f, xs) == KeysOf(g, ys)
    decreases |xs|
  {
    SameLength(KeysOf(f, xs), KeysOf(g, ys));
    if xs != [] {
      SameHeads(f, xs, g, ys);
      TailCounts(KeysOf(f, xs));
      TailCounts(KeysOf(g, ys));
      TailOrdered(f, xs);
      TailOrdered(g, ys);
      OrderedNamesAgree(f, xs[1..], g, ys[1..]);
    }
  }

  /** Rearranging a list rearranges its names. */
  lemma {:induction false} KeysPermuted<T>(key: T -> bytes, xs: seq<T>, ys: seq<T>)
    requires multiset(xs) == multiset(ys)
    ensures multiset(KeysOf(key, xs)) == multiset(KeysOf(key, ys))
    decreases |xs|
  {
    SameLength(xs, ys);
    if xs != [] {
      assert xs[0] in multiset(xs);
      var k :| 0 <= k < |ys| && ys[k] == xs[0];
      TailCounts(xs);
      RemoveCounts(ys, k);
      KeysPermuted(key, xs[1..], ys[..k] + ys[k + 1..]);
      KeysRemove(key, ys, k);
      TailCounts(KeysOf(key, xs));
      RemoveCounts(KeysOf(key, ys), k);
      PutBack(KeysOf(key, xs), key(xs[0]), KeysOf(key, ys));
    }
  }

  lemma PutBack<T>(xs: seq<T>, x: T, ys: seq<T>)
    requires x in multiset(xs) && x in multiset(ys)
    requires multiset(xs) - multiset{x} == multiset(ys) - multiset{x}
    ensures multiset(xs) == multiset(ys)
  {
    assert multiset(xs) == (multiset(xs) - multiset{x}) + multiset{x};
    assert multiset(ys) == (multiset(ys) - multiset{x}) + multiset{x};
  }

  lemma {:induction false} KeysRemove<T>(key: T -> bytes, xs: seq<T>, k: nat)
    requires k < |xs|
    ensures KeysOf(key, xs[..k] + xs[k + 1..]) == KeysOf(key, xs)[..k] + KeysOf(key, xs)[k + 1..]
  {
    var rest, names := xs[..k] + xs[k + 1..], KeysOf(key, xs);
    var left, right := KeysOf(key, rest), names[..k] + names[k + 1..];
    forall j | 0 <= j < |rest| ensures left[j] == right[j] {
      assert rest[j] == if j < k then xs[j] else xs[j + 1];
    }
  }

  // ---------- Sorting ----------

  lemma NamesAreOrdered<T(!new)>(key: T -> bytes)
    ensures Sorting.WeakOrder(ByName(key))
  {
    forall a, b | Less(key(a), key(b)) ensures !Less(key(b), key(a)) {
      LessTotal(key(a), key(b));
    }
    forall a, b, c | !Less(key(b), key(a)) && !Less(key(c), key(b)) ensures !Less(key(c), key(a)) {
      NotLessTransitive(key(a), key(b), key(c));
    }
  }

  /** sort.Slice by name. */
  method SortByName<T(!new)>(key: T -> bytes, xs: seq<T>) returns (r: seq<T>)
    ensures NamesOrdered(key, r) && multiset(r) == multiset(xs)
    ensures forall i, j | 0 <= i < j < |r| :: !Precedes(key(r[j]), key(r[i]))
  {
    NamesAreOrdered(key);
    r := Sorting.SortSlice(ByName(key), xs);
    forall i, j | 0 <= i < j < |r| ensures !Precedes(key(r[j]), key(r[i])) {
      InNameOrder(key, r, i, j);
      LessIsPrecedes(key(r[j]), key(r[i]));
    }
  }

  // ---------- Searching ----------

  /** utils/file.go: FindInFileList, with the binary search of sort.Search written out. */
  method FindInFileList<T>(key: T -> bytes, fileList: seq<T>, name: bytes) returns (found: bool)
    requires NamesOrdered(key, fileList)
    ensures found <==> exists i :: 0 <= i < |fileList| && key(fileList[i]) == name
  {
    var i, j := 0, |fileList|;
    while i < j
      invariant 0 <= i <= j <= |fileList|
      invariant forall k | 0 <= k < i :: Less(key(fileList[k]), name)
      invariant forall k | j <= k < |fileList| :: !Less(key(fileList[k]), name)
    {
      var h := (i + j) / 2;
      if Less(key(fileList[h]), name) {
        forall k | 0 <= k < h ensures Less(key(fileList[k]), name) {
          if !Less(key(fileList[k]), name) {
            InNameOrder(key, fileList, k, h);
            NotLessTransitive(name, key(fileList[k]), key(fileList[h]));
          }
        }
        i := h + 1;
      } else {
        forall k | h <= k < |fileList| ensures !Less(key(fileList[k]), name) {
          if h < k {
            InNameOrder(key, fileList, h, k);
            NotLessTransitive(name, key(fileList[h]), key(fileList[k]));
          }
        }
        j := h;
      }
    }
    found := i < |fileList| && key(fileList[i]) == name;
    LessTotal(name, name);
    if !found {
      forall k | 0 <= k < |fileList| ensures key(fileList[k]) != name {
        if i < k && key(fileList[k]) == name {
          InNameOrder(key, fileList, i, k);
          LessTotal(key(fileList[i]), name);
        }
      }
    }
  }
}
