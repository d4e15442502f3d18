/** rsyncchecksum/rsyncchecksum.go: the weak rolling checksum and its 16-bit tag. */
module Checksum {
  import opened Bytes

  function ZeroDigest(b: bytes): bytes { [0, 0, 0, 0, 0, 0, 0, 0, 0, 0, 0, 0, 0, 0, 0, 0] }

  type Digest = h: bytes -> bytes | forall b {:trigger h(b)} :: |h(b)| == 16 witness ZeroDigest

  /** MD4 (RFC 1320). It stands for any function to 16 bytes; no proof knows more of it. */
  const MD4: Digest

  /** The strong sum of a block or a window. */
  function StrongSum(seed: int32, buf: bytes): (r: bytes)
    ensures |r| == 16
  {
    MD4(buf + Le32(seed))
  }

  /** A running MD4, with the bytes it has absorbed. */
  class Hash {
    var absorbed: bytes

    constructor (b: bytes)
      ensures absorbed == b
    {
      absorbed := b;
    }

    method Write(p: bytes)
      modifies this
      ensures absorbed == old(absorbed) + p
    {
      absorbed := absorbed + p;
    }

    method Sum() returns (r: bytes)
      ensures r == MD4(absorbed) && |r| == 16
    {
      r := MD4(absorbed);
    }
  }

  /** The bytes go first, and the seed after them. */
  method Checksum2(seed: int32, buf: bytes) returns (r: bytes)
    ensures r == MD4(buf + Le32(seed)) && |r| == 16
  {
    var h := new Hash([]);
    h.Write(buf);
    h.Write(Le32(seed));
    NothingBefore(buf);
    r := h.Sum();
  }

  /** A byte read as C's `signed char`. */
  function Signed(b: byte): int { if b < 128 then b else b - 256 }

  function SignExtend(b: byte): uint32 { ToUint32(Signed(b)) }

  /** That is what shifting the byte up to the sign bit of an int32 and back gives; the shift back divides towards
      minus infinity. */
  lemma SignExtendShifts(b: byte)
    ensures SignExtend(b) == ToUint32(ToInt32(b * 0x100_0000) / 0x100_0000)
  {
    assert ToInt32(b * 0x100_0000) == Signed(b) * 0x100_0000;
  }

  function Tag2(s1: uint16, s2: uint16): uint16 { (s1 + s2) % TWO_TO_THE_16 }

  function Tag(sum: uint32): uint16 { Tag2(sum % TWO_TO_THE_16, sum / TWO_TO_THE_16) }

  /** The plain sum of the signed bytes. */
  function Sum1(w: bytes): int {
    if w == [] then 0 else Sum1(w[..|w| - 1]) + Signed(w[|w| - 1])
  }

  /** The sum of all prefix sums: byte k of n is counted n - k times. */
  function Sum2(w: bytes): int {
    if w == [] then 0 else Sum2(w[..|w| - 1]) + Sum1(w)
  }

  function Low16(x: int): uint16 { x % TWO_TO_THE_16 }

  /** The weak checksum of a window: both sums modulo 2^16, packed into 32 bits. */
  function Weak(w: bytes): uint32 { Low16(Sum1(w)) + TWO_TO_THE_16 * Low16(Sum2(w)) }

  lemma SumsSnoc(w: bytes, b: byte)
    ensures Sum1(w + [b]) == Sum1(w) + Signed(b)
    ensures Sum2(w + [b]) == Sum2(w) + Sum1(w) + Signed(b)
  {
    assert (w + [b])[..|w|] == w;
  }

  lemma {:induction false} SumsCons(b: byte, w: bytes)
    ensures Sum1([b] + w) == Signed(b) + Sum1(w)
    ensures Sum2([b] + w) == (|w| + 1) * Signed(b) + Sum2(w)
  {
    if w == [] {
      assert [b] + w == [] + [b];
      SumsSnoc([], b);
    } else {
      var v, c := w[..|w| - 1], w[|w| - 1];
      assert w == v + [c];
      assert [b] + w == ([b] + v) + [c];
      SumsCons(b, v);
      SumsSnoc([b] + v, c);
      SumsSnoc(v, c);
    }
  }

  lemma Low16Congruent(x: int, k: int)
    ensures Low16(x + TWO_TO_THE_16 * k) == Low16(x)
  {
  }

  /** Four bytes taken in one step by the unrolled loop. */
  lemma SumsFour(w: bytes, a: byte, b: byte, c: byte, d: byte)
    ensures Sum1(w + [a, b, c, d]) == Sum1(w) + Signed(a) + Signed(b) + Signed(c) + Signed(d)
    ensures Sum2(w + [a, b, c, d])
         == Sum2(w) + 4 * (Sum1(w) + Signed(a)) + 3 * Signed(b) + 2 * Signed(c) + Signed(d)
  {
    SumsSnoc(w, a);
    SumsSnoc(w + [a], b);
    SumsSnoc(w + [a] + [b], c);
    SumsSnoc(w + [a] + [b] + [c], d);
    assert w + [a, b, c, d] == w + [a] + [b] + [c] + [d];
  }

  /** `SignExtend` adds a multiple of 2^32 to the signed byte. */
  function Borrow(b: byte): int { if b < 128 then 0 else 1 }

  lemma SignExtendBorrows(b: byte)
    ensures SignExtend(b) == Signed(b) + TWO_TO_THE_32 * Borrow(b)
  {
  }

  lemma Wrapped(s: uint32, t: int) returns (q: int)
    requires s == ToUint32(t)
    ensures s == t + TWO_TO_THE_32 * q
  {
    q := -(t / TWO_TO_THE_32);
  }

  lemma WrappedAdd(s: uint32, t: int, x: int)
    requires s == ToUint32(t)
    ensures ToUint32(s + x) == ToUint32(t + x)
  {
    var q := Wrapped(s, t);
    ToUint32Periodic(t + x, q);
  }

  lemma UnrolledSum1(s1: uint32, t1: int, a: byte, b: byte, c: byte, d: byte)
    requires s1 == ToUint32(t1)
    ensures ToUint32(s1 + SignExtend(a) + SignExtend(b) + SignExtend(c) + SignExtend(d))
         == ToUint32(t1 + Signed(a) + Signed(b) + Signed(c) + Signed(d))
  {
    var q := Wrapped(s1, t1);
    SignExtendBorrows(a); SignExtendBorrows(b); SignExtendBorrows(c); SignExtendBorrows(d);
    ToUint32Periodic(t1 + Signed(a) + Signed(b) + Signed(c) + Signed(d),
                     q + Borrow(a) + Borrow(b) + Borrow(c) + Borrow(d));
  }

  lemma UnrolledSum2(s1: uint32, s2: uint32, t1: int, t2: int, a: byte, b: byte, c: byte, d: byte)
    requires s1 == ToUint32(t1) && s2 == ToUint32(t2)
    ensures ToUint32(s2 + 4 * (s1 + SignExtend(a)) + 3 * SignExtend(b) + 2 * SignExtend(c) + SignExtend(d))
         == ToUint32(t2 + 4 * (t1 + Signed(a)) + 3 * Signed(b) + 2 * Signed(c) + Signed(d))
  {
    var q1 := Wrapped(s1, t1);
    var q2 := Wrapped(s2, t2);
    SignExtendBorrows(a); SignExtendBorrows(b); SignExtendBorrows(c); SignExtendBorrows(d);
    ToUint32Periodic(t2 + 4 * (t1 + Signed(a)) + 3 * Signed(b) + 2 * Signed(c) + Signed(d),
                     q2 + 4 * (q1 + Borrow(a)) + 3 * Borrow(b) + 2 * Borrow(c) + Borrow(d));
  }

  lemma StepSums(s1: uint32, s2: uint32, t1: int, t2: int, b: byte)
    requires s1 == ToUint32(t1) && s2 == ToUint32(t2)
    ensures ToUint32(s1 + SignExtend(b)) == ToUint32(t1 + Signed(b))
    ensures ToUint32(s2 + ToUint32(s1 + SignExtend(b))) == ToUint32(t2 + t1 + Signed(b))
  {
    var q := Wrapped(s1, t1);
    SignExtendBorrows(b);
    ToUint32Periodic(t1 + Signed(b), q + Borrow(b));
    WrappedAdd(s2, t2, ToUint32(t1 + Signed(b)));
    WrappedAdd(ToUint32(t1 + Signed(b)), t1 + Signed(b), t2);
  }

  lemma Low16OfWrapped(t: int)
    ensures Low16(ToUint32(t)) == Low16(t)
  {
    var q := Wrapped(ToUint32(t), t);
    Low16Congruent(t, TWO_TO_THE_16 * q);
  }

  lemma ShiftedSum(s: uint32)
    ensures ToUint32(s * TWO_TO_THE_16) == TWO_TO_THE_16 * Low16(s)
  {
    var h := s / TWO_TO_THE_16;
    assert s * TWO_TO_THE_16 == TWO_TO_THE_16 * Low16(s) + TWO_TO_THE_32 * h;
    ToUint32Periodic(TWO_TO_THE_16 * Low16(s), h);
  }

  /** What `Checksum1` holds in `s1` and `s2` once it has taken the bytes of `w`. */
  ghost predicate Holds(s1: uint32, s2: uint32, w: bytes) {
    s1 == ToUint32(Sum1(w)) && s2 == ToUint32(Sum2(w))
  }

  function Round1(s1: uint32, a: byte, b: byte, c: byte, d: byte): uint32 {
    ToUint32(s1 + SignExtend(a) + SignExtend(b) + SignExtend(c) + SignExtend(d))
  }

  function Round2(s1: uint32, s2: uint32, a: byte, b: byte, c: byte, d: byte): uint32 {
    ToUint32(s2 + 4 * (s1 + SignExtend(a)) + 3 * SignExtend(b) + 2 * SignExtend(c) + SignExtend(d))
  }

  lemma UnrolledRound(s1: uint32, s2: uint32, buf: bytes, i: nat)
    requires i + 4 <= |buf| && Holds(s1, s2, buf[..i])
    ensures Holds(Round1(s1, buf[i], buf[i + 1], buf[i + 2], buf[i + 3]),
                  Round2(s1, s2, buf[i], buf[i + 1], buf[i + 2], buf[i + 3]), buf[..i + 4])
  {
    var w := buf[..i];
    SumsFour(w, buf[i], buf[i + 1], buf[i + 2], buf[i + 3]);
    UnrolledSum1(s1, Sum1(w), buf[i], buf[i + 1], buf[i + 2], buf[i + 3]);
    UnrolledSum2(s1, s2, Sum1(w), Sum2(w), buf[i], buf[i + 1], buf[i + 2], buf[i + 3]);
    assert buf[..i + 4] == w + [buf[i], buf[i + 1], buf[i + 2], buf[i + 3]];
  }

  lemma SingleRound(s1: uint32, s2: uint32, buf: bytes, i: nat)
    requires i < |buf| && Holds(s1, s2, buf[..i])
    ensures var s := ToUint32(s1 + SignExtend(buf[i])); Holds(s, ToUint32(s2 + s), buf[..i + 1])
  {
    SumsSnoc(buf[..i], buf[i]);
    assert buf[..i + 1] == buf[..i] + [buf[i]];
    StepSums(s1, s2, Sum1(buf[..i]), Sum2(buf[..i]), buf[i]);
  }

  lemma Packed(s1: uint32, s2: uint32, buf: bytes)
    requires Holds(s1, s2, buf)
    ensures ToUint32(Low16(s1) + ToUint32(s2 * TWO_TO_THE_16)) == Weak(buf)
  {
    Low16OfWrapped(Sum1(buf));
    Low16OfWrapped(Sum2(buf));
    ShiftedSum(s2);
  }

  /** The loop over four bytes at a time computes the weak checksum. */
  method Checksum1(buf: bytes) returns (sum: uint32)
    ensures sum == Weak(buf)
  {
    var bufLen := |buf|;
    var s1: uint32, s2: uint32 := 0, 0;
    var i := 0;
    if bufLen > 4 {
      while i < bufLen - 4
        invariant 0 <= i <= bufLen
        invariant Holds(s1, s2, buf[..i])
      {
        UnrolledRound(s1, s2, buf, i);
        s2 := Round2(s1, s2, buf[i], buf[i + 1], buf[i + 2], buf[i + 3]);
        s1 := Round1(s1, buf[i], buf[i + 1], buf[i + 2], buf[i + 3]);
        i := i + 4;
      }
    }
    while i < bufLen
      invariant 0 <= i <= bufLen
      invariant Holds(s1, s2, buf[..i])
    {
      SingleRound(s1, s2, buf, i);
      s1 := ToUint32(s1 + SignExtend(buf[i]));
      s2 := ToUint32(s2 + s1);
      i := i + 1;
    }
    assert buf[..i] == buf;
    Packed(s1, s2, buf);
    sum := ToUint32(Low16(s1) + ToUint32(s2 * TWO_TO_THE_16));
  }
}
