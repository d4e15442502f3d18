/** match.go, lines 161-183: rolling the weak checksum on by one byte, in 32-bit arithmetic. */
module Rolling {
  import opened Bytes
  import opened Checksum

  /** What the search holds in s1 and s2 for a window. */
  ghost predicate Rolled(s1: uint16, s2: uint16, w: bytes) {
    s1 == Low16(Sum1(w)) && s2 == Low16(Sum2(w))
  }

  /** Both halves of the weak checksum. */
  lemma Seeded(w: bytes)
    ensures Rolled(Low16(Weak(w)), Weak(w) / TWO_TO_THE_16, w)
    ensures Tag(Weak(w)) == Tag2(Low16(Sum1(w)), Low16(Sum2(w)))
  {
  }

  /** The tag of a window is its two sums added in 16 bits. */
  lemma TagOfWindow(w: bytes)
    ensures Tag(Weak(w)) == (Sum1(w) + Sum2(w)) % 0x1_0000
  {
    Seeded(w);
    Tag2OfLow16(Sum1(w), Sum2(w));
  }

  lemma Tag2OfLow16(a: int, b: int)
    ensures Tag2(Low16(a), Low16(b)) == (a + b) % 0x1_0000
  {
    var p, q := a / TWO_TO_THE_16, b / TWO_TO_THE_16;
    assert a + b == Low16(a) + Low16(b) + TWO_TO_THE_16 * (p + q);
    Low16Congruent(Low16(a) + Low16(b), p + q);
  }

  /** s1 and s2 after the oldest byte is taken out of a window of k bytes. */
  function Out1(s1: uint32, oldest: byte): uint32 { ToUint32(s1 - SignExtend(oldest)) }

  function Out2(s2: uint32, k: nat, oldest: byte): uint32 { ToUint32(s2 - ToUint32(k * SignExtend(oldest))) }

  lemma Low16Add(a: int, a': int, b: int, b': int)
    requires Low16(a) == Low16(a') && Low16(b) == Low16(b')
    ensures Low16(a + b) == Low16(a' + b') && Low16(a - b) == Low16(a' - b')
  {
    var p, p' := a / TWO_TO_THE_16, a' / TWO_TO_THE_16;
    var q, q' := b / TWO_TO_THE_16, b' / TWO_TO_THE_16;
    Low16Congruent(a' + b', p + q - p' - q');
    Low16Congruent(a' - b', p - q - p' + q');
  }

  lemma Low16SignExtend(b: byte)
    ensures Low16(SignExtend(b)) == Low16(Signed(b))
  {
    Low16OfWrapped(Signed(b));
  }

  lemma Low16Scaled(k: nat, b: byte)
    ensures Low16(ToUint32(k * SignExtend(b))) == Low16(k * Signed(b))
  {
    SignExtendBorrows(b);
    var m := k * Borrow(b);
    assert k * SignExtend(b) == k * Signed(b) + TWO_TO_THE_32 * m by {
      Distributes(k, Signed(b), Borrow(b));
    }
    ToUint32Periodic(k * Signed(b), m);
    Low16OfWrapped(k * Signed(b));
  }

  lemma Distributes(k: int, x: int, y: int)
    ensures k * (x + TWO_TO_THE_32 * y) == k * x + TWO_TO_THE_32 * (k * y)
  {
  }

  lemma OutSums(s1: uint16, s2: uint16, k: nat, b: byte, t1: int, t2: int)
    requires s1 == Low16(t1) && s2 == Low16(t2)
    ensures Low16(Out1(s1, b)) == Low16(t1 - Signed(b))
    ensures Low16(Out2(s2, k, b)) == Low16(t2 - k * Signed(b))
  {
    assert Low16(s1) == s1 && Low16(s2) == s2;
    Low16SignExtend(b);
    OutSum(s1, t1, SignExtend(b), Signed(b));
    Low16Scaled(k, b);
    OutSum(s2, t2, ToUint32(k * SignExtend(b)), k * Signed(b));
  }

  lemma OutSum(s: uint16, t: int, x: uint32, u: int)
    requires Low16(s) == Low16(t) && Low16(x) == Low16(u)
    ensures Low16(ToUint32(s - x)) == Low16(t - u)
  {
    Low16OfWrapped(s - x);
    Low16Add(s, t, x, u);
  }

  function TakenIn(s1: uint32, s2: uint32, newest: byte): (uint16, uint16) {
    var t := ToUint32(s1 + SignExtend(newest));
    (Low16(t), Low16(ToUint32(s2 + t)))
  }

  /** What the rolling update makes of the length and the two sums, when the oldest byte goes out and
      the newest one, if there is one, comes in. */
  function RolledOn(k: nat, s1: uint16, s2: uint16, oldest: byte, newest: Option<byte>): (int, uint16, uint16) {
    var t1, t2 := Out1(s1, oldest), Out2(s2, k, oldest);
    match newest
    case Some(b) => var (n1, n2) := TakenIn(t1, t2, b); (k, n1, n2)
    case None => (k - 1, Low16(t1), Low16(t2))
  }

  /** The newest byte goes into both sums. */
  lemma InSums(o1: uint32, o2: uint32, u1: int, u2: int, b: byte, v1: int, v2: int)
    requires Low16(o1) == Low16(u1) && Low16(o2) == Low16(u2)
    requires v1 == u1 + Signed(b) && v2 == u2 + v1
    ensures var t := ToUint32(o1 + SignExtend(b)); Low16(t) == Low16(v1) && Low16(ToUint32(o2 + t)) == Low16(v2)
  {
    var t := ToUint32(o1 + SignExtend(b));
    Low16SignExtend(b);
    Low16OfWrapped(o1 + SignExtend(b));
    Low16Add(o1, u1, SignExtend(b), Signed(b));
    Low16OfWrapped(o2 + t);
    Low16Add(o2, u2, t, v1);
  }

  /** The oldest byte goes out of both sums. */
  lemma OutOfWindow(k: nat, s1: uint16, s2: uint16, b: byte, w: bytes)
    requires Rolled(s1, s2, [b] + w) && k == |w| + 1
    ensures Low16(Out1(s1, b)) == Low16(Sum1(w)) && Low16(Out2(s2, k, b)) == Low16(Sum2(w))
  {
    SumsCons(b, w);
    OutSums(s1, s2, k, b, Sum1([b] + w), Sum2([b] + w));
  }

  /** The newest byte goes into the sums of a window. */
  lemma IntoWindow(o1: uint32, o2: uint32, w: bytes, c: byte)
    requires Low16(o1) == Low16(Sum1(w)) && Low16(o2) == Low16(Sum2(w))
    ensures var next := TakenIn(o1, o2, c); Rolled(next.0, next.1, w + [c])
  {
    SumsSnoc(w, c);
    InSums(o1, o2, Sum1(w), Sum2(w), c, Sum1(w + [c]), Sum2(w + [c]));
  }

  /** A full window slides: the byte after it comes in. */
  lemma RollIn(k: nat, s1: uint16, s2: uint16, b: byte, w: bytes, c: byte)
    requires Rolled(s1, s2, [b] + w) && k == |w| + 1
    ensures var next := RolledOn(k, s1, s2, b, Some(c)); next.0 == k && Rolled(next.1, next.2, w + [c])
  {
    OutOfWindow(k, s1, s2, b, w);
    IntoWindow(Out1(s1, b), Out2(s2, k, b), w, c);
  }

  /** At the end of the file the window shrinks instead. */
  lemma RollOut(k: nat, s1: uint16, s2: uint16, b: byte, w: bytes)
    requires Rolled(s1, s2, [b] + w) && k == |w| + 1
    ensures var next := RolledOn(k, s1, s2, b, None); next.0 == |w| && Rolled(next.1, next.2, w)
  {
    OutOfWindow(k, s1, s2, b, w);
  }
}
