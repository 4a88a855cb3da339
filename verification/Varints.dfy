/** Base 128 varints as `cache.pb.go` writes and reads them: the closed-form size, the byte
    sequence the writing loop produces and the value the reading loop accumulates. */
module Varints {
  import opened Wrappers

  const TWO63: int := 0x8000_0000_0000_0000
  const TWO64: int := 0x1_0000_0000_0000_0000

  /** Largest value of Go's `int`; no slice is longer. */
  const MAX_INT: int := TWO63 - 1

  type Byte = x: int | 0 <= x < 256
  type Uint64 = x: int | 0 <= x < TWO64
  type Int64 = x: int | -TWO63 <= x < TWO63

  /** The conversions `uint64(x)` and `int64(u)`. */
  function ToUint64(x: Int64): Uint64 {
    if x < 0 then x + TWO64 else x
  }

  function ToInt64(u: Uint64): Int64 {
    if u < TWO63 then u else u - TWO64
  }

  /** Go's `int` addition of two non-negative ints, which wraps around. */
  function AddInt(x: int, y: int): (sum: int)
    requires 0 <= x <= MAX_INT && 0 <= y <= MAX_INT
    ensures 0 <= sum <==> x + y <= MAX_INT
    ensures 0 <= sum ==> sum == x + y
  {
    if x + y <= MAX_INT then x + y else x + y - TWO64
  }

  /* ---- writing ---- */

  /** The bytes of the varint of v, least significant group first. */
  function VarintBytes(v: nat): (s: seq<Byte>)
    ensures |s| >= 1
  {
    if v < 128 then [v] else [v % 128 + 128] + VarintBytes(v / 128)
  }

  function Pow128(k: nat): nat {
    if k == 0 then 1 else 128 * Pow128(k - 1)
  }

  lemma {:induction false} VarintLength(v: nat, k: nat)
    requires k >= 1 && v < Pow128(k)
    ensures |VarintBytes(v)| <= k
  {
    if v >= 128 {
      assert k > 1;
      VarintLength(v / 128, k - 1);
    }
  }

  lemma Uint64VarintLength(v: Uint64)
    ensures |VarintBytes(v)| <= 10
  {
    assert Pow128(10) == 128 * (128 * (128 * (128 * (128 * (128 * (128 * (128 * (128 * 128)))))))) by {
      assert Pow128(1) == 128;
      assert Pow128(2) == 128 * 128;
      assert Pow128(4) == 128 * (128 * Pow128(2));
      assert Pow128(6) == 128 * (128 * Pow128(4));
      assert Pow128(8) == 128 * (128 * Pow128(6));
      assert Pow128(10) == 128 * (128 * Pow128(8));
    }
    VarintLength(v, 10);
  }

  lemma VarintBytesStep(v: nat)
    ensures VarintBytes(v) == if v < 128 then [v] else [v % 128 + 128] + VarintBytes(v / 128)
  {
  }

  /** x shifted left by `groups` groups of seven bits. */
  function Shifted(x: nat, groups: nat): nat {
    x * Pow128(groups)
  }

  lemma ShiftedSplit(x: nat, rest: nat, k: nat)
    ensures Shifted(x + 128 * rest, k) == Shifted(x, k) + Shifted(rest, k + 1)
  {
    var p := Pow128(k);
    assert (x + 128 * rest) * p == x * p + (128 * rest) * p;
    assert (128 * rest) * p == rest * (128 * p);
  }

  /* ---- bits ---- */

  /** Go's `|` on non-negative numbers, from the lowest bit up. */
  function BitOr(x: nat, y: nat): nat {
    if x == 0 && y == 0 then 0
    else 2 * BitOr(x / 2, y / 2) + if x % 2 == 1 || y % 2 == 1 then 1 else 0
  }

  function Pow2(n: nat): nat {
    if n == 0 then 1 else 2 * Pow2(n - 1)
  }

  lemma {:induction false} BitOrZero(y: nat)
    ensures BitOr(0, y) == y
  {
    if y > 0 {
      BitOrZero(y / 2);
    }
  }

  /** On disjoint bits, `|` adds. */
  lemma {:induction false} BitOrDisjoint(x: nat, y: nat, n: nat)
    requires x < Pow2(n)
    ensures BitOr(x, y * Pow2(n)) == x + y * Pow2(n)
  {
    if n == 0 {
      BitOrZero(y);
    } else {
      var half := y * Pow2(n - 1);
      assert y * Pow2(n) == 2 * half;
      BitOrDisjoint(x / 2, y, n - 1);
    }
  }

  lemma {:induction false} SevenBitsEach(k: nat)
    ensures Pow128(k) == Pow2(7 * k)
  {
    if k > 0 {
      SevenBitsEach(k - 1);
      var n := 7 * (k - 1);
      assert Pow2(n + 7) == 2 * Pow2(n + 6) && Pow2(n + 6) == 2 * Pow2(n + 5) && Pow2(n + 5) == 2 * Pow2(n + 4);
      assert Pow2(n + 4) == 2 * Pow2(n + 3) && Pow2(n + 3) == 2 * Pow2(n + 2) && Pow2(n + 2) == 2 * Pow2(n + 1);
    }
  }

  lemma {:induction false} PowSplit(j: nat, k: nat)
    ensures Pow128(j) * Pow128(k) == Pow128(j + k)
  {
    if j > 0 {
      PowSplit(j - 1, k);
      assert Pow128(j) * Pow128(k) == 128 * (Pow128(j - 1) * Pow128(k));
    }
  }

  lemma TwoToThe64()
    ensures 2 * Pow128(9) == TWO64
  {
    assert Pow128(3) == 128 * 128 * 128;
    PowSplit(3, 3);
    PowSplit(6, 3);
  }

  /** Modulo 2^64 = q * p, a multiple of p keeps its last factors below q. */
  lemma ModMultiple(x: nat, y: nat, p: nat, q: nat)
    requires q * p == TWO64 && x < p
    ensures (x + y * p) % TWO64 == x + (y % q) * p
  {
    var d, r := y / q, y % q;
    TimesSum(d * q, r, p);
    TimesTimes(d, q, p);
    TimesSum(q - r - 1, r + 1, p);
    TimesSum(r, 1, p);
    Split(x + y * p, d, x + r * p);
  }

  lemma TimesSum(a: nat, b: nat, p: nat)
    ensures (a + b) * p == a * p + b * p
  {
  }

  lemma TimesTimes(a: nat, b: nat, p: nat)
    ensures a * b * p == a * (b * p)
  {
  }

  lemma Split(x: nat, d: nat, r: nat)
    requires x == d * TWO64 + r && r < TWO64
    ensures x % TWO64 == r
  {
  }

  /** Adding the next group of seven bits to a 64-bit accumulator with `|=`: the bits are disjoint, and
      those shifted past bit 63 are lost. */
  lemma OrAddsGroup(sum: nat, group: nat, k: nat)
    requires k <= 9 && sum < Pow128(k)
    ensures BitOr(sum, Shifted(group, k) % TWO64) == (sum + Shifted(group, k)) % TWO64
    ensures sum < TWO64
  {
    hide Pow128, BitOr, Pow2;
    var p, q := Pow128(k), 2 * Pow128(9 - k);
    TwoToThe64();
    PowSplit(9 - k, k);
    TimesTimes(2, Pow128(9 - k), p);
    ModMultiple(sum, group, p, q);
    ModMultiple(0, group, p, q);
    SevenBitsEach(k);
    BitOrDisjoint(sum, group % q, 7 * k);
    TimesSum(q - 1, 1, p);
  }

  /** `bits.Len64`: the number of bits needed to represent x. */
  function BitLen(x: nat): nat {
    if x == 0 then 0 else 1 + BitLen(x / 2)
  }

  /** `x | 1`. */
  function SetLowBit(x: nat): nat {
    if x % 2 == 0 then x + 1 else x
  }

  /** The closed form the encoder sizes its buffers with. */
  function Sov(x: nat): nat {
    (BitLen(SetLowBit(x)) + 6) / 7
  }

  lemma BitLenShift7(x: nat)
    requires x >= 128
    ensures BitLen(x) == 7 + BitLen(x / 128)
  {
    var x1 := x / 2;
    var x2, x3 := x1 / 2, x1 / 2 / 2;
    var x4, x5 := x3 / 2, x3 / 2 / 2;
    var x6, x7 := x5 / 2, x5 / 2 / 2;
    assert BitLen(x) == 1 + BitLen(x1) && BitLen(x1) == 1 + BitLen(x2) && BitLen(x2) == 1 + BitLen(x3);
    assert BitLen(x3) == 1 + BitLen(x4) && BitLen(x4) == 1 + BitLen(x5) && BitLen(x5) == 1 + BitLen(x6);
    assert BitLen(x6) == 1 + BitLen(x7) && x7 == x / 128;
  }

  /** The closed form counts exactly the bytes that the writing loop produces. */
  lemma {:induction false} SovCountsVarintBytes(x: nat)
    ensures Sov(x) == |VarintBytes(x)|
  {
    hide BitLen, VarintBytes;
    VarintBytesStep(x);
    var y := SetLowBit(x);
    if x < 128 {
      BitLenSmall(y, 7);
    } else {
      SovCountsVarintBytes(x / 128);
      BitLenShift7(y);
      assert y / 128 == x / 128;
      BitLenLowBit(x / 128);
      SevenMoreBits(BitLen(y / 128));
    }
  }

  lemma SevenMoreBits(b: nat)
    ensures (7 + b + 6) / 7 == 1 + (b + 6) / 7
  {
  }

  lemma {:induction false} BitLenSmall(y: nat, k: nat)
    requires 1 <= k <= 7 && 0 < y < [1, 2, 4, 8, 16, 32, 64, 128][k]
    ensures 1 <= BitLen(y) <= k
  {
    if y > 1 {
      BitLenSmall(y / 2, k - 1);
    }
  }

  lemma BitLenLowBit(x: nat)
    requires x > 0
    ensures BitLen(SetLowBit(x)) == BitLen(x)
  {
    assert SetLowBit(x) / 2 == x / 2;
  }

  /* ---- reading ---- */

  /** Why a read stops. `Overrun(end)` is a field that claims to end at `end`, past the end of
      the data; `Error` below says which of two Go errors that becomes. */
  datatype Fault =
    | IntOverflow
    | UnexpectedEof
    | InvalidLength
    | Overrun(end: nat)
    | EndGroupForNonGroup
    | IllegalTag
    | WrongWireType
    | UnexpectedEndOfGroup
    | IllegalWireType

  /** The outcome of the reading loop: the (untruncated) sum of the groups read, the number of
      bytes consumed and why it failed, if it did. */
  datatype Varint = Varint(raw: nat, len: nat, fault: Option<Fault>) {
    /** What is left in the 64-bit accumulator: bits shifted past bit 63 are lost. */
    function Value(): Uint64 { raw % TWO64 }
  }

  /** Reads a varint from s when k of the at most ten groups have been read already. */
  function ReadVarint(s: seq<Byte>, k: nat := 0): (r: Varint)
    requires k <= 10
    ensures r.len <= |s| && r.len <= 10 - k
    ensures r.fault.None? ==> r.len >= 1
    ensures r.fault.Some? ==> r.fault.value in {IntOverflow, UnexpectedEof}
    decreases 10 - k
  {
    if k == 10 then Varint(0, 0, Some(IntOverflow))
    else if s == [] then Varint(0, 0, Some(UnexpectedEof))
    else if s[0] < 128 then Varint(s[0], 1, None)
    else
      var r := ReadVarint(s[1..], k + 1);
      Varint(s[0] - 128 + 128 * r.raw, 1 + r.len, r.fault)
  }

  lemma ReadVarintStep(s: seq<Byte>, k: nat)
    requires k < 10 && s != []
    ensures ReadVarint(s, k) ==
      if s[0] < 128 then Varint(s[0], 1, None)
      else
        var r := ReadVarint(s[1..], k + 1);
        Varint(s[0] % 128 + 128 * r.raw, 1 + r.len, r.fault)
  {
  }

  /** Exactly when and where reading stops: at the first byte below 128 among the first ten, on an overflow
      behind ten bytes of 128 or more, at the end of the data behind fewer of them. */
  lemma {:induction false} ReadVarintEnds(s: seq<Byte>, k: nat := 0)
    requires k <= 10
    ensures
      var r := ReadVarint(s, k);
      && (r.fault == None <==> r.len >= 1 && r.len <= |s| && s[r.len - 1] < 128)
      && (forall i | 0 <= i < (if r.fault.None? then r.len - 1 else r.len) :: s[i] >= 128)
      && (r.fault == Some(IntOverflow) <==> r.len == 10 - k && (k == 10 || s[r.len - 1] >= 128))
      && (r.fault == Some(UnexpectedEof) ==> r.len == |s| < 10 - k)
    decreases 10 - k
  {
    if k < 10 && s != [] && s[0] >= 128 {
      ReadVarintEnds(s[1..], k + 1);
    }
  }

  /** What follows a complete varint does not matter. */
  lemma {:induction false} ReadVarintExtend(s: seq<Byte>, t: seq<Byte>, k: nat)
    requires k <= 10 && ReadVarint(s, k).fault.None?
    ensures ReadVarint(s + t, k) == ReadVarint(s, k)
    decreases 10 - k
  {
    if s[0] >= 128 {
      ReadVarintExtend(s[1..], t, k + 1);
      assert (s + t)[1..] == s[1..] + t;
    }
  }

  /** Reading undoes writing, whatever follows. */
  lemma {:induction false} ReadWritten(v: nat, t: seq<Byte>, k: nat)
    requires k + |VarintBytes(v)| <= 10
    ensures ReadVarint(VarintBytes(v) + t, k) == Varint(v, |VarintBytes(v)|, None)
    decreases v
  {
    var s := VarintBytes(v) + t;
    if v >= 128 {
      assert s[1..] == VarintBytes(v / 128) + t;
      ReadWritten(v / 128, t, k + 1);
    }
  }

  lemma ReadWrittenUint64(v: Uint64, t: seq<Byte>)
    ensures ReadVarint(VarintBytes(v) + t) == Varint(v, |VarintBytes(v)|, None)
    ensures ReadVarint(VarintBytes(v) + t).Value() == v
  {
    Uint64VarintLength(v);
    ReadWritten(v, t, 0);
  }

  /** The written form is the shortest one: no accepted encoding of a value is shorter. */
  lemma WrittenIsShortest(s: seq<Byte>)
    requires ReadVarint(s).fault.None?
    ensures |VarintBytes(ReadVarint(s).Value())| <= ReadVarint(s).len
  {
    RawBound(s, 0);
    var r := ReadVarint(s);
    assert r.Value() <= r.raw;
    VarintLength(r.Value(), r.len);
  }

  lemma {:induction false} RawBound(s: seq<Byte>, k: nat)
    requires k <= 10
    ensures ReadVarint(s, k).raw < Pow128(ReadVarint(s, k).len)
    decreases 10 - k
  {
    if k < 10 && s != [] && s[0] >= 128 {
      RawBound(s[1..], k + 1);
    }
  }
}
