/** Machine integers, byte strings and their little-endian encodings. */
module Bytes {

  type byte = b: int | 0 <= b < 256
  type bytes = seq<byte>

  const TWO_TO_THE_16 := 0x1_0000
  const TWO_TO_THE_32 := 0x1_0000_0000
  const TWO_TO_THE_64 := 0x1_0000_0000_0000_0000

  type uint16 = x: int | 0 <= x < TWO_TO_THE_16
  type uint32 = x: int | 0 <= x < TWO_TO_THE_32
  type int32 = x: int | -0x8000_0000 <= x < 0x8000_0000
  type int64 = x: int | -0x8000_0000_0000_0000 <= x < 0x8000_0000_0000_0000

  /** What a step of the program ends in: a value, a returned error, or a run-time panic. */
  datatype Error =
    | UnexpectedEOF
    | InvalidCount | InvalidBlockLength | InvalidChecksumLength | InvalidRemainder
    | NoLocalFile
    | FileCorruption
    | MessageTooLong | RemoteError | UnexpectedTag
    | NameOverflow
    | FileUnreadable
    | Panic

  datatype Result<+T> = Ok(value: T) | Err(error: Error) {
    predicate IsFailure() { Err? }
    function PropagateFailure<U>(): Result<U>
      requires Err?
    { Err(error) }
    function Extract(): T
      requires Ok?
    { value }
  }

  datatype Option<+T> = None | Some(value: T)

  function Min(a: int, b: int): int { if a < b then a else b }

  function Max(a: int, b: int): int { if a < b then b else a }

  /** Go's conversion of any integer to `uint32`. */
  function ToUint32(x: int): uint32 { x % TWO_TO_THE_32 }

  lemma ToUint32Periodic(x: int, k: int)
    ensures ToUint32(x + TWO_TO_THE_32 * k) == ToUint32(x)
  {
  }

  /** Go's conversion of any integer to `int32`. */
  function ToInt32(x: int): int32 {
    var u := x % TWO_TO_THE_32;
    if u < 0x8000_0000 then u else u - TWO_TO_THE_32
  }

  /** Go's conversion of any integer to `int64`. */
  function ToInt64(x: int): int64 {
    var u := x % TWO_TO_THE_64;
    if u < 0x8000_0000_0000_0000 then u else u - TWO_TO_THE_64
  }

  lemma CongruentInt64(x: int)
    ensures (ToInt64(x) - x) % TWO_TO_THE_64 == 0
  {
    var q := x / TWO_TO_THE_64;
    assert ToInt64(x) - x == TWO_TO_THE_64 * (0 - q) || ToInt64(x) - x == TWO_TO_THE_64 * (-1 - q);
  }

  lemma WrappedSum(a: int, b: int)
    ensures ToInt64(ToInt64(a) + b) == ToInt64(a + b)
  {
    var q := a / TWO_TO_THE_64;
    assert ToInt64(a) == a - q * TWO_TO_THE_64 || ToInt64(a) == a - (q + 1) * TWO_TO_THE_64;
    ToInt64Periodic(a + b, -q);
    ToInt64Periodic(a + b, -q - 1);
  }

  lemma ToInt64Periodic(x: int, k: int)
    ensures ToInt64(x + k * TWO_TO_THE_64) == ToInt64(x)
  {
    assert (x + k * TWO_TO_THE_64) % TWO_TO_THE_64 == x % TWO_TO_THE_64;
  }

  // ---------- Little-endian words ----------
  //
  // `Le32` and `UnLe32` are the encoding and decoding of a 32-bit word. What they compute is known
  // only in proofs that mention `Digits32` or `Value32`; every other proof uses the laws below.

  function Digits32(x: int): (r: bytes)
    ensures |r| == 4
  {
    var u := x % TWO_TO_THE_32;
    [u % 256, u / 0x100 % 256, u / 0x1_0000 % 256, u / 0x100_0000]
  }

  function Value32(b: bytes): int32
    requires |b| == 4
  {
    var b0: int, b1: int, b2: int, b3: int := b[0], b[1], b[2], b[3];
    var u := b0 + 0x100 * b1 + 0x1_0000 * b2 + 0x100_0000 * b3;
    if u < 0x8000_0000 then u else u - TWO_TO_THE_32
  }

  function AnyValue32(b: bytes): int32 { if |b| == 4 then Value32(b) else 0 }

  type WordEncoder = f: int -> bytes
    | (forall x {:trigger f(x)} :: |f(x)| == 4) && (forall x {:trigger Digits32(x)} :: f(x) == Digits32(x))
    witness Digits32

  type WordDecoder = f: bytes -> int32
    | forall b {:trigger Value32(b)} :: |b| == 4 ==> f(b) == Value32(b)
    witness AnyValue32

  const Le32: WordEncoder
  const UnLe32: WordDecoder

  function Le64(x: int): (r: bytes)
    ensures |r| == 8
  {
    var u := x % TWO_TO_THE_64;
    Le32(u % TWO_TO_THE_32) + Le32(u / TWO_TO_THE_32)
  }

  function UnLe64(b: bytes): int64
    requires |b| == 8
  {
    var u := ToUint32(UnLe32(b[..4])) + TWO_TO_THE_32 * ToUint32(UnLe32(b[4..]));
    if u < 0x8000_0000_0000_0000 then u else u - TWO_TO_THE_64
  }

  lemma Value32OfDigits32(x: int)
    ensures Value32(Digits32(x)) == ToInt32(x)
  {
    var u := x % TWO_TO_THE_32;
    var a, b, c := u / 0x100, u / 0x1_0000, u / 0x100_0000;
    assert a / 256 == b && b / 256 == c;
  }

  /** Decoding an encoded integer yields its conversion to int32. */
  lemma WordRoundTrip(x: int)
    ensures UnLe32(Le32(x)) == ToInt32(x)
  {
    Value32OfDigits32(x);
  }

  /** A word is written with its lowest byte first, in two's complement. */
  lemma WordBytes(x: int)
    requires -0x8000_0000 <= x < 0x1_0000_0000
    ensures var u := if x < 0 then x + 0x1_0000_0000 else x;
      Le32(x) == [u % 0x100, u / 0x100 % 0x100, u / 0x1_0000 % 0x100, u / 0x100_0000]
  {
    assert x % TWO_TO_THE_32 == if x < 0 then x + 0x1_0000_0000 else x;
    var _ := Digits32(x);
  }

  lemma SmallInt32(x: int32)
    ensures ToInt32(x) == x
  {
  }

  lemma ToUint32OfInt32(x: int)
    ensures ToUint32(ToInt32(x)) == ToUint32(x)
  {
  }

  lemma Int32RoundTrip(x: int32)
    ensures UnLe32(Le32(x)) == x
  {
    WordRoundTrip(x);
    SmallInt32(x);
  }

  lemma Le32OfInt32(x: int)
    ensures Le32(ToInt32(x)) == Le32(x)
  {
    assert ToInt32(x) % TWO_TO_THE_32 == x % TWO_TO_THE_32;
    assert Digits32(ToInt32(x)) == Digits32(x);
  }

  lemma Le32Halves(lo: uint32, hi: uint32)
    ensures ToUint32(UnLe32((Le32(lo) + Le32(hi))[..4])) == lo
    ensures ToUint32(UnLe32((Le32(lo) + Le32(hi))[4..])) == hi
  {
    WordRoundTrip(lo);
    WordRoundTrip(hi);
    ToUint32OfInt32(lo);
    ToUint32OfInt32(hi);
    var l, h := Le32(lo), Le32(hi);
    assert (l + h)[..4] == l && (l + h)[4..] == h;
  }

  lemma Int64RoundTrip(x: int64)
    ensures UnLe64(Le64(x)) == x
  {
    var u := x % TWO_TO_THE_64;
    var lo, hi := u % TWO_TO_THE_32, u / TWO_TO_THE_32;
    assert 0 <= hi < TWO_TO_THE_32 && lo + TWO_TO_THE_32 * hi == u;
    Le32Halves(lo, hi);
    assert u == if x < 0 then x + TWO_TO_THE_64 else x;
  }

  lemma SliceOfPrefix(s: bytes, n: nat, a: nat, b: nat)
    requires a <= b <= n <= |s|
    ensures s[..n][a..b] == s[a..b]
  {
  }

  lemma Assoc<T>(a: seq<T>, b: seq<T>, c: seq<T>)
    ensures (a + b) + c == a + (b + c)
  {
  }

  lemma NothingBefore<T>(s: seq<T>)
    ensures [] + s == s
  {
  }

  lemma NothingMore<T>(s: seq<T>)
    ensures s + [] == s
  {
  }

  /** The bytes of `parts`, one after the other. */
  function Concat(parts: seq<bytes>): bytes {
    if parts == [] then [] else parts[0] + Concat(parts[1..])
  }

  lemma {:induction false} ConcatSnoc(parts: seq<bytes>, p: bytes)
    ensures Concat(parts + [p]) == Concat(parts) + p
  {
    if parts == [] {
      assert [] + [p] == [p] && [p][1..] == [];
      NothingMore(p);
      NothingBefore(p);
    } else {
      assert (parts + [p])[1..] == parts[1..] + [p];
      ConcatSnoc(parts[1..], p);
      Assoc(parts[0], Concat(parts[1..]), p);
    }
  }
}
