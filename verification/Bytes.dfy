/**
 Bytes, the fixed-width integers of the C sources, and their little-endian form.
 */
module Bytes {

  type byte = x: int | 0 <= x < 0x100
  type u16 = x: int | 0 <= x < 0x1_0000
  type u32 = x: int | 0 <= x < 0x1_0000_0000
  type u64 = x: int | 0 <= x < 0x1_0000_0000_0000_0000
  type s16 = x: int | -0x8000 <= x < 0x8000
  type s32 = x: int | -0x8000_0000 <= x < 0x8000_0000

  /** Unsigned 32-bit subtraction, with wrap-around. */
  function Sub32(a: u32, b: u32): u32 {
    (a - b) % 0x1_0000_0000
  }

  function U16(x: u16): (b: seq<byte>)
    ensures |b| == 2
  {
    [x % 0x100, x / 0x100]
  }

  function U32(x: u32): (b: seq<byte>)
    ensures |b| == 4
  {
    U16(x % 0x1_0000) + U16(x / 0x1_0000)
  }

  function U64(x: u64): (b: seq<byte>)
    ensures |b| == 8
  {
    U32(x % 0x1_0000_0000) + U32(x / 0x1_0000_0000)
  }

  function GetU16(b: seq<byte>, i: nat): u16
    requires i + 2 <= |b|
  {
    b[i] as int + 0x100 * (b[i + 1] as int)
  }

  function GetU32(b: seq<byte>, i: nat): u32
    requires i + 4 <= |b|
  {
    GetU16(b, i) as int + 0x1_0000 * (GetU16(b, i + 2) as int)
  }

  function GetU64(b: seq<byte>, i: nat): u64
    requires i + 8 <= |b|
  {
    GetU32(b, i) as int + 0x1_0000_0000 * (GetU32(b, i + 4) as int)
  }

  /** The two's complement reading of sixteen bits. */
  function ToS16(x: u16): s16 {
    if x < 0x8000 then x else x - 0x1_0000
  }

  /** The two's complement reading of thirty-two bits. */
  function ToS32(x: u32): s32 {
    if x < 0x8000_0000 then x else x - 0x1_0000_0000
  }

  /** A cast to int: the low thirty-two bits. */
  function Int32(x: int): s32 { ToS32(x % 0x1_0000_0000) }

  function GetS32(b: seq<byte>, i: nat): s32
    requires i + 4 <= |b|
  {
    ToS32(GetU32(b, i))
  }

  function GetS16(b: seq<byte>, i: nat): s16
    requires i + 2 <= |b|
  {
    ToS16(GetU16(b, i))
  }

  /** Two bytes, the low one first, as a signed number. */
  function SignedOf(lo: byte, hi: byte): int {
    if hi < 0x80 then lo as int + 256 * (hi as int) else lo as int + 256 * (hi as int) - 0x1_0000
  }

  lemma GetS16Is(b: seq<byte>, i: nat)
    requires i + 2 <= |b|
    ensures GetS16(b, i) == SignedOf(b[i], b[i + 1])
  {
  }

  /** So many bytes as a number, the low ones first. */
  function Number(b: seq<byte>): (x: nat) {
    if b == [] then 0 else b[0] + 256 * Number(b[1..])
  }

  /** The numbers of the file formats are such. */
  lemma NumbersAre(b: seq<byte>, i: nat)
    ensures i + 2 <= |b| ==> GetU16(b, i) == Number(b[i..i + 2]) == b[i] as int + 256 * (b[i + 1] as int)
    ensures i + 4 <= |b| ==> GetU32(b, i) == Number(b[i..i + 4])
    ensures i + 8 <= |b| ==> GetU64(b, i) == Number(b[i..i + 8])
  {
    if i + 2 <= |b| {
      NumberOfTwo(b[i..i + 2]);
    }
    if i + 4 <= |b| {
      NumberOfFour(b[i..i + 4]);
    }
    if i + 8 <= |b| {
      NumberOfEight(b[i..i + 8]);
      NumberOfFour(b[i + 4..i + 8]);
      assert b[i..i + 8][..4] == b[i..i + 4] && b[i..i + 8][4..] == b[i + 4..i + 8];
    }
  }

  /** And back: what is written for a number are its bytes. */
  lemma NumberOfU16(x: u16)
    ensures Number(U16(x)) == x
  {
    hide *;
    WholeSlice(U16(x));
    NumbersAre(U16(x), 0);
    GetU16Back(U16(x), 0, x);
  }

  lemma NumberOfU32(x: u32)
    ensures Number(U32(x)) == x
  {
    hide *;
    WholeSlice(U32(x));
    NumbersAre(U32(x), 0);
    GetU32Back(U32(x), 0, x);
  }

  lemma NumberOfU64(x: u64)
    ensures Number(U64(x)) == x
  {
    hide *;
    WholeSlice(U64(x));
    NumbersAre(U64(x), 0);
    GetU64Back(U64(x), 0, x);
  }

  lemma WholeSlice(b: seq<byte>)
    ensures b[0..|b|] == b
  {
  }

  lemma NumberOfTwo(b: seq<byte>)
    requires |b| == 2
    ensures Number(b) == b[0] as int + 256 * (b[1] as int)
  {
    assert Number(b[1..]) == b[1] as int + 256 * Number(b[1..][1..]);
  }

  lemma NumberOfFour(b: seq<byte>)
    requires |b| == 4
    ensures Number(b) == b[0] as int + 0x100 * (b[1] as int) + 0x1_0000 * (b[2] as int) + 0x100_0000 * (b[3] as int)
  {
    NumberOfTwo(b[2..]);
    assert b[1..][1..] == b[2..];
    assert Number(b[1..]) == b[1] as int + 256 * Number(b[2..]);
  }

  lemma NumberOfEight(b: seq<byte>)
    requires |b| == 8
    ensures Number(b) == Number(b[..4]) + 0x1_0000_0000 * Number(b[4..])
  {
    NumberOfFour(b[..4]);
    NumberStep(b);
    NumberStep(b[1..]);
    NumberStep(b[2..]);
    NumberStep(b[3..]);
  }

  lemma NumberStep(b: seq<byte>)
    requires b != []
    ensures Number(b) == b[0] as int + 256 * Number(b[1..])
    ensures |b| > 1 ==> b[1..][1..] == b[2..]
    ensures |b| > 2 ==> b[2..][1..] == b[3..]
    ensures |b| > 3 ==> b[3..][1..] == b[4..]
  {
  }

  function Zeros(n: nat): (b: seq<byte>)
    ensures |b| == n
  {
    seq(n, _ => 0)
  }

  lemma GetU16Back(b: seq<byte>, i: nat, x: u16)
    requires i + 2 <= |b| && b[i..i + 2] == U16(x)
    ensures GetU16(b, i) == x
  {
    assert b[i] == b[i..i + 2][0] && b[i + 1] == b[i..i + 2][1];
  }

  lemma GetU32Back(b: seq<byte>, i: nat, x: u32)
    requires i + 4 <= |b| && b[i..i + 4] == U32(x)
    ensures GetU32(b, i) == x
  {
    assert b[i..i + 2] == b[i..i + 4][..2] && b[i + 2..i + 4] == b[i..i + 4][2..];
    GetU16Back(b, i, x % 0x1_0000);
    GetU16Back(b, i + 2, x / 0x1_0000);
  }

  lemma GetU64Back(b: seq<byte>, i: nat, x: u64)
    requires i + 8 <= |b| && b[i..i + 8] == U64(x)
    ensures GetU64(b, i) == x
  {
    assert b[i..i + 4] == b[i..i + 8][..4] && b[i + 4..i + 8] == b[i..i + 8][4..];
    GetU32Back(b, i, x % 0x1_0000_0000);
    GetU32Back(b, i + 4, x / 0x1_0000_0000);
  }

  lemma Joins(a: seq<byte>, b: seq<byte>, c: seq<byte>)
    ensures (a + b) + c == a + (b + c)
  {
  }

  /** Parts of a stretch are stretches. */
  lemma Slices(s: seq<byte>, at: nat, end: nat, i: nat, j: nat)
    requires i <= j && at + j <= end <= |s|
    ensures s[at..end][..i] == s[at..at + i] && s[at..end][j..] == s[at + j..end]
    ensures s[at..end][..j][i..] == s[at + i..at + j]
  {
    assert s[at..end][..j] == s[at..at + j];
  }

  lemma TakeTake(s: seq<byte>, i: nat, j: nat)
    requires i <= j <= |s|
    ensures s[..j][..i] == s[..i]
  {
  }

  lemma SliceOfRest(s: seq<byte>, at: nat, i: nat, j: nat)
    requires i <= j && at + j <= |s|
    ensures s[at..][i..j] == s[at + i..at + j]
  {
  }

  lemma SlicesOfRest(s: seq<byte>, at: nat, i: nat, j: nat)
    requires i <= j && at + j <= |s|
    ensures s[at..][..j] == s[at..at + j] && s[at..][..j][i..] == s[at + i..at + j]
  {
    assert s[at..][..j] == s[at..at + j];
  }

  lemma AppendNone(a: seq<byte>)
    ensures a + [] == a
  {
  }
}
