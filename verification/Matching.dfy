/** sender.go and match.go: which block of the peer's basis a window of the file is taken for. */
module Matching {
  import opened Bytes
  import opened Checksum
  import opened SumHead
  import opened Search
  import Sorting

  datatype Target = Target(index: int32, tag: uint16)

  /** The first window a visit of offset o looks at. */
  ghost function Window(file: bytes, head: SumHead, o: nat): bytes
    requires o <= |file| && 0 <= head.blockLength
  {
    file[o..o + Min(head.blockLength, |file| - o)]
  }

  /** Block i agrees with a window in length, weak sum and truncated strong sum. */
  ghost predicate Agrees(seed: int32, head: SumHead, w: bytes, i: int)
    requires SumsOk(head)
  {
    && 0 <= i < |head.sums|
    && head.sums[i].len == |w|
    && head.sums[i].sum1 == Weak(w)
    && SameStrong(seed, head, w, head.sums[i])
  }

  predicate SameStrong(seed: int32, head: SumHead, w: bytes, sb: SumBuf)
    requires 0 <= head.checksumLength <= 16 && |sb.sum2| == 16
  {
    sb.sum2[..head.checksumLength] == StrongSum(seed, w)[..head.checksumLength]
  }

  // ---------- The target table ----------

  predicate TargetOk(head: SumHead, t: Target) {
    0 <= t.index < |head.sums| && t.tag == Tag(head.sums[t.index].sum1)
  }

  ghost predicate Sorted(ts: seq<Target>) {
    forall j, j' | 0 <= j < j' < |ts| :: ts[j].tag <= ts[j'].tag
  }

  /** Block i has exactly one target. */
  ghost predicate ListedOnce(ts: seq<Target>, i: int) {
    && (exists j :: 0 <= j < |ts| && ts[j].index == i)
    && (forall j, j' | 0 <= j < j' < |ts| :: !(ts[j].index == i && ts[j'].index == i))
  }

  /** The targets are the blocks with the tags of their weak sums, in any order that sorts the tags. */
  ghost predicate TargetsOk(head: SumHead, ts: seq<Target>) {
    && |ts| == |head.sums|
    && (forall j | 0 <= j < |ts| :: TargetOk(head, ts[j]))
    && Sorted(ts)
    && (forall i | 0 <= i < |head.sums| :: ListedOnce(ts, i))
  }

  /** Every tag that occurs is mapped to the first target that has it, and no other tag is mapped. */
  ghost predicate TableOk(ts: seq<Target>, table: map<uint16, int>) {
    && (forall tag | tag in table :: FirstWithTag(ts, tag, table[tag]))
    && (forall j | 0 <= j < |ts| :: ts[j].tag in table)
  }

  ghost predicate FirstWithTag(ts: seq<Target>, tag: uint16, j: int) {
    && 0 <= j < |ts| && ts[j].tag == tag
    && forall j' | 0 <= j' < j :: ts[j'].tag != tag
  }

  // ---------- The choice ----------

  /** The block of the first target from j on that agrees. */
  ghost function FirstFrom(seed: int32, head: SumHead, ts: seq<Target>, w: bytes, j: nat): Option<nat>
    requires SumsOk(head) && j <= |ts|
    decreases |ts| - j
  {
    if j == |ts| then None
    else if Agrees(seed, head, w, ts[j].index) then Some(ts[j].index)
    else FirstFrom(seed, head, ts, w, j + 1)
  }

  /** The naive choice: try every block. */
  ghost function Choice(seed: int32, head: SumHead, ts: seq<Target>, w: bytes): Option<nat>
    requires SumsOk(head)
  {
    FirstFrom(seed, head, ts, w, 0)
  }

  lemma {:induction false} FirstFromAgrees(seed: int32, head: SumHead, ts: seq<Target>, w: bytes, j: nat)
    requires SumsOk(head) && j <= |ts|
    ensures var r := FirstFrom(seed, head, ts, w, j);
      if r.Some? then Agrees(seed, head, w, r.value)
      else forall j' | j <= j' < |ts| :: !Agrees(seed, head, w, ts[j'].index)
    decreases |ts| - j
  {
    if j < |ts| {
      FirstFromAgrees(seed, head, ts, w, j + 1);
    }
  }

  /** Some block is chosen exactly when some block agrees, whatever order the sort leaves ties in. */
  lemma ChoiceComplete(seed: int32, head: SumHead, ts: seq<Target>, w: bytes)
    requires SumsOk(head) && TargetsOk(head, ts)
    ensures Choice(seed, head, ts, w).Some? <==> exists i :: Agrees(seed, head, w, i)
    ensures Choice(seed, head, ts, w).Some? ==> Agrees(seed, head, w, Choice(seed, head, ts, w).value)
  {
    FirstFromAgrees(seed, head, ts, w, 0);
    if i :| Agrees(seed, head, w, i) {
      assert ListedOnce(ts, i);
    }
  }

  /** No block agrees with the empty window, because no block is empty. */
  lemma EmptyWindow(seed: int32, head: SumHead, ts: seq<Target>)
    requires HeadOk(head)
    ensures Choice(seed, head, ts, []) == None
  {
    FirstFromAgrees(seed, head, ts, [], 0);
  }

  /** Targets before j that have another tag than the window cannot agree with it. */
  lemma {:induction false} SkipTo(seed: int32, head: SumHead, ts: seq<Target>, w: bytes, j: nat)
    requires SumsOk(head) && TargetsOk(head, ts) && j <= |ts|
    requires forall j' | 0 <= j' < j :: ts[j'].tag != Tag(Weak(w))
    ensures Choice(seed, head, ts, w) == FirstFrom(seed, head, ts, w, j)
  {
    if j > 0 {
      assert TargetOk(head, ts[j - 1]);
      SkipTo(seed, head, ts, w, j - 1);
    }
  }

  /** Neither can targets from j on. */
  lemma {:induction false} StopAt(seed: int32, head: SumHead, ts: seq<Target>, w: bytes, j: nat)
    requires SumsOk(head) && TargetsOk(head, ts) && j <= |ts|
    requires forall j' | j <= j' < |ts| :: ts[j'].tag != Tag(Weak(w))
    ensures FirstFrom(seed, head, ts, w, j) == None
    decreases |ts| - j
  {
    if j < |ts| {
      assert TargetOk(head, ts[j]);
      StopAt(seed, head, ts, w, j + 1);
    }
  }

  /** What the scan of the targets with a tag starts with, and what it ends with. */
  lemma ScanStarts(seed: int32, head: SumHead, ts: seq<Target>, table: map<uint16, int>, w: bytes)
    requires SumsOk(head) && TargetsOk(head, ts) && TableOk(ts, table)
    ensures var tag := Tag(Weak(w));
      if tag in table then
        && 0 <= table[tag] < |ts| && ts[table[tag]].tag == tag
        && Choice(seed, head, ts, w) == FirstFrom(seed, head, ts, w, table[tag])
      else Choice(seed, head, ts, w) == None
  {
    var tag := Tag(Weak(w));
    if tag in table {
      assert FirstWithTag(ts, tag, table[tag]);
      SkipTo(seed, head, ts, w, table[tag]);
    } else {
      SkipTo(seed, head, ts, w, |ts|);
    }
  }

  lemma ScanEnds(seed: int32, head: SumHead, ts: seq<Target>, w: bytes, j: nat)
    requires SumsOk(head) && TargetsOk(head, ts) && 0 < j <= |ts|
    requires ts[j - 1].tag == Tag(Weak(w)) && (j < |ts| ==> ts[j].tag != Tag(Weak(w)))
    ensures FirstFrom(seed, head, ts, w, j) == None
  {
    StopAt(seed, head, ts, w, j);
  }

  /** Whether the scan that starts at the table's entry for a tag comes to target j. */
  ghost predicate Scanned(ts: seq<Target>, table: map<uint16, int>, tag: uint16, j: int) {
    tag in table && 0 <= table[tag] <= j < |ts| && forall j' | table[tag] <= j' <= j :: ts[j'].tag == tag
  }

  /** Starting at the table's entry and going on while the tags are equal visits exactly the targets
      with that tag. */
  lemma TagIndexExact(ts: seq<Target>, table: map<uint16, int>, tag: uint16, j: int)
    requires Sorted(ts) && TableOk(ts, table) && 0 <= j < |ts|
    ensures Scanned(ts, table, tag, j) <==> ts[j].tag == tag
  {
    if ts[j].tag == tag {
      assert FirstWithTag(ts, tag, table[tag]);
    }
  }

  /** So the scan comes to every block with that tag, to no other block, and to none twice. */
  lemma TagIndexComplete(head: SumHead, ts: seq<Target>, table: map<uint16, int>, tag: uint16, i: nat)
    requires TargetsOk(head, ts) && TableOk(ts, table) && i < |head.sums|
    ensures (exists j :: Scanned(ts, table, tag, j) && ts[j].index == i) <==> Tag(head.sums[i].sum1) == tag
    ensures forall j, j' | Scanned(ts, table, tag, j) && Scanned(ts, table, tag, j')
                           && ts[j].index == i && ts[j'].index == i :: j == j'
  {
    assert ListedOnce(ts, i);
    var j :| 0 <= j < |ts| && ts[j].index == i;
    assert TargetOk(head, ts[j]);
    TagIndexExact(ts, table, tag, j);
  }

  // ---------- The plan of a search ----------

  ghost function PicksTo(seed: int32, file: bytes, head: SumHead, ts: seq<Target>, n: nat): (s: seq<Option<nat>>)
    requires HeadOk(head) && n <= |file|
    ensures |s| == n
  {
    if n == 0 then []
    else PicksTo(seed, file, head, ts, n - 1) + [Choice(seed, head, ts, Window(file, head, n - 1))]
  }

  lemma {:induction false} PicksToAt(seed: int32, file: bytes, head: SumHead, ts: seq<Target>, n: nat, o: nat)
    requires HeadOk(head) && o < n <= |file|
    ensures PicksTo(seed, file, head, ts, n)[o] == Choice(seed, head, ts, Window(file, head, o))
  {
    if o < n - 1 {
      PicksToAt(seed, file, head, ts, n - 1, o);
    }
  }

  /** The plan that picks, at every offset, the naive choice for the window there. */
  ghost function PlanOf(seed: int32, file: bytes, head: SumHead, ts: seq<Target>): Plan
    requires HeadOk(head)
  {
    Plan(file, head, PicksTo(seed, file, head, ts, |file|))
  }

  lemma PlanIsOk(seed: int32, file: bytes, head: SumHead, ts: seq<Target>)
    requires HeadOk(head)
    ensures var p := PlanOf(seed, file, head, ts);
      && p.Ok()
      && forall o | 0 <= o < |file| :: p.picks[o] == Choice(seed, head, ts, Window(file, head, o))
  {
    var p := PlanOf(seed, file, head, ts);
    forall o | 0 <= o < |file|
      ensures p.picks[o] == Choice(seed, head, ts, Window(file, head, o)) && p.PickOk(o)
    {
      PicksToAt(seed, file, head, ts, |file|, o);
      FirstFromAgrees(seed, head, ts, Window(file, head, o), 0);
    }
  }

  /** A window that agrees with a block of the basis, in length, weak sum and strong sum, is that block. */
  ghost predicate NoCollision(seed: int32, file: bytes, head: SumHead, basis: bytes)
    requires HeadOk(head) && Describes(head, |basis|)
  {
    forall o: nat, i: nat | o < |file| && Agrees(seed, head, Window(file, head, o), i) ::
      Window(file, head, o) == Block(head, basis, i)
  }

  lemma NoCollisionFaithful(seed: int32, file: bytes, head: SumHead, ts: seq<Target>, basis: bytes)
    requires HeadOk(head) && Describes(head, |basis|) && NoCollision(seed, file, head, basis)
    ensures var p := PlanOf(seed, file, head, ts); p.Ok() && p.Faithful(basis)
  {
    PlanIsOk(seed, file, head, ts);
    var p := PlanOf(seed, file, head, ts);
    forall o: nat | o < |file| && p.picks[o].Some? ensures p.SameBytes(o, basis) {
      p.PickFits(o);
      FirstFromAgrees(seed, head, ts, Window(file, head, o), 0);
    }
  }

  // ---------- Building the table ----------

  predicate ByTag(a: Target, b: Target) { a.tag < b.tag }

  /** sort.Slice by tag. */
  method SortByTag(ts: seq<Target>) returns (r: seq<Target>)
    ensures Sorted(r) && multiset(r) == multiset(ts) && |r| == |ts|
  {
    r := Sorting.SortSlice(ByTag, ts);
    TagsAscend(ts, r);
  }

  lemma TagsAscend(ts: seq<Target>, r: seq<Target>)
    requires Sorting.Ordered(ByTag, r) && multiset(r) == multiset(ts)
    ensures Sorted(r) && |r| == |ts|
  {
    forall j, j' | 0 <= j < j' < |r| ensures r[j].tag <= r[j'].tag {
      assert !ByTag(r[j'], r[j]);
    }
    assert |multiset(r)| == |multiset(ts)|;
  }

  /** The targets in the order of the blocks, as they are before the sort. */
  ghost predicate Unsorted(head: SumHead, ts: seq<Target>) {
    |ts| == |head.sums| && forall i | 0 <= i < |ts| :: ts[i].index == i && TargetOk(head, ts[i])
  }

  lemma CountOf(ts: seq<Target>, j: nat, j': nat)
    requires j < j' < |ts|
    ensures ts[j] == ts[j'] ==> multiset(ts)[ts[j]] >= 2
  {
    assert ts == ts[..j'] + [ts[j']] + ts[j' + 1..];
    assert ts[..j'][j] in multiset(ts[..j']);
  }

  lemma {:induction false} CountOnce(ts: seq<Target>, n: nat, x: Target)
    requires n <= |ts| && forall i | 0 <= i < |ts| :: ts[i].index == i
    ensures multiset(ts[..n])[x] <= 1
    ensures x.index >= n ==> multiset(ts[..n])[x] == 0
  {
    if n > 0 {
      CountOnce(ts, n - 1, x);
      assert ts[..n] == ts[..n - 1] + [ts[n - 1]];
    }
  }

  /** A rearrangement of the unsorted targets still lists every block once. */
  lemma RearrangedOk(head: SumHead, ts: seq<Target>, r: seq<Target>)
    requires Unsorted(head, ts) && multiset(r) == multiset(ts) && Sorted(r) && |r| == |ts|
    ensures TargetsOk(head, r)
  {
    forall j | 0 <= j < |r| ensures TargetOk(head, r[j]) {
      assert r[j] in multiset(r);
      assert r[j] in ts;
    }
    forall i | 0 <= i < |head.sums| ensures ListedOnce(r, i) {
      assert ts[i] in multiset(ts);
      assert ts[i] in r;
      var j :| 0 <= j < |r| && r[j] == ts[i];
      forall a, b | 0 <= a < b < |r| ensures !(r[a].index == i && r[b].index == i) {
        CountOf(r, a, b);
        CountOnce(ts, |ts|, r[a]);
        assert ts[..|ts|] == ts;
        assert TargetOk(head, r[a]) && TargetOk(head, r[b]);
      }
    }
  }

  /** Every header has targets. */
  lemma SomeTargets(head: SumHead) returns (r: seq<Target>)
    requires |head.sums| < 0x8000_0000
    ensures TargetsOk(head, r)
  {
    var ts := TargetsTo(head, |head.sums|);
    r := Sorting.Arranged(ByTag, ts);
    TagsAscend(ts, r);
    RearrangedOk(head, ts, r);
  }

  function TargetsTo(head: SumHead, n: nat): (ts: seq<Target>)
    requires n <= |head.sums| < 0x8000_0000
    ensures |ts| == n && forall i | 0 <= i < n :: ts[i].index == i && TargetOk(head, ts[i])
  {
    if n == 0 then [] else TargetsTo(head, n - 1) + [Target(n - 1, Tag(head.sums[n - 1].sum1))]
  }

  /** sender.go, lines 55-78: the target table and the tag index. */
  method BuildTargets(head: SumHead) returns (targets: seq<Target>, tagTable: map<uint16, int>)
    requires |head.sums| < 0x8000_0000
    ensures TargetsOk(head, targets) && TableOk(targets, tagTable)
  {
    var ts: seq<Target> := [];
    var idx := 0;
    while idx < |head.sums|
      invariant 0 <= idx <= |head.sums| && |ts| == idx
      invariant forall i | 0 <= i < idx :: ts[i].index == i && TargetOk(head, ts[i])
    {
      ts := ts + [Target(idx, Tag(head.sums[idx].sum1))];
      idx := idx + 1;
    }
    targets := SortByTag(ts);
    RearrangedOk(head, ts, targets);
    tagTable := IndexTags(targets);
  }

  /** Filling the index from the last target to the first leaves each tag at its first target. */
  method IndexTags(targets: seq<Target>) returns (tagTable: map<uint16, int>)
    ensures TableOk(targets, tagTable)
  {
    tagTable := map[];
    var idx := |targets| - 1;
    while idx >= 0
      invariant -1 <= idx < |targets|
      invariant forall tag | tag in tagTable :: idx < tagTable[tag] < |targets| && targets[tagTable[tag]].tag == tag
      invariant forall tag, j | tag in tagTable && idx < j < tagTable[tag] :: targets[j].tag != tag
      invariant forall j | idx < j < |targets| :: targets[j].tag in tagTable
    {
      tagTable := tagTable[targets[idx].tag := idx];
      idx := idx - 1;
    }
    forall tag | tag in tagTable ensures FirstWithTag(targets, tag, tagTable[tag]) {
    }
  }
}
