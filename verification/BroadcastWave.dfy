/**
 The bext chunk of a WAV file (EBU Tech 3285, Broadcast Wave Format) as dr_wav keeps it: three C strings
 that are written into fields of fixed size, records that are copied, and the coding history, which is
 written with its size and read back as a C string.
 */
module BroadcastWave {
  import opened ByteImages
  import opened Bytes

  const DESCRIPTION_BYTES := 256
  const ORIGINATOR_BYTES := 32
  const RESERVED_BYTES := 180
  const BEXT_BYTES := 602

  /** What a pointer to a C string points to, without the terminator. */
  type CString = s: seq<byte> | 0 !in s

  type DateText = b: seq<byte> | |b| == 10 witness [0, 0, 0, 0, 0, 0, 0, 0, 0, 0]
  type TimeText = b: seq<byte> | |b| == 8 witness [0, 0, 0, 0, 0, 0, 0, 0]
  type Umid = b: seq<byte> | |b| == 64 witness seq(64, _ => 0)

  /** drwav_bext. */
  datatype Broadcast = Broadcast(
    description: CString, originatorName: CString, originatorReference: CString,
    originationDate: DateText, originationTime: TimeText, timeReference: u64, version: u16, umid: Umid,
    loudnessValue: u16, loudnessRange: u16, maxTruePeakLevel: u16, maxMomentaryLoudness: u16,
    maxShortTermLoudness: u16, codingHistorySize: u32, codingHistory: seq<byte>)

  // ---- C strings ----

  /** The first NUL from `i` on, or the end. */
  function NulFrom(b: seq<byte>, i: nat): (r: nat)
    requires i <= |b|
    ensures i <= r <= |b| && (r < |b| ==> b[r] == 0)
    ensures forall k :: i <= k < r ==> b[k] != 0
    decreases |b| - i
  {
    if i == |b| || b[i] == 0 then i else NulFrom(b, i + 1)
  }

  /** What is in front of the first NUL. */
  function UpToNul(b: seq<byte>): (s: CString)
    ensures |s| <= |b|
  {
    b[..NulFrom(b, 0)]
  }

  lemma UpToNulIs(b: seq<byte>, s: CString)
    requires |s| <= |b| && b[..|s|] == s && (|s| < |b| ==> b[|s|] == 0)
    ensures UpToNul(b) == s
  {
    assert forall k :: 0 <= k < |s| ==> b[k] == s[k] && s[k] in s;
  }

  /** A string is its own beginning up to a NUL exactly when it has none. */
  lemma UpToNulIff(b: seq<byte>)
    ensures UpToNul(b) == b <==> 0 !in b
  {
    if 0 !in b {
      UpToNulIs(b, b);
    }
  }

  /** drwav__strlen_clamped; the buffer ends with a NUL, or is read no further than `maxToRead`. */
  method StrlenClamped(str: seq<byte>, maxToRead: nat) returns (result: nat)
    requires |str| == maxToRead
    ensures result == |UpToNul(str)| && str[..result] == UpToNul(str)
  {
    result := 0;
    while result < maxToRead && str[result] != 0
      invariant 0 <= result <= maxToRead && NulFrom(str, 0) == NulFrom(str, result)
    {
      result := result + 1;
    }
  }

  /** What a field of `n` bytes holds of a string. */
  function Clipped(s: CString, n: nat): (t: CString)
    ensures |t| <= n && (t == s <==> |s| <= n)
  {
    if |s| <= n then s else s[..n]
  }

  /** drwav__write_or_count_string_to_fixed_size_buf. */
  function FixedText(s: CString, n: nat): (b: seq<byte>)
    ensures |b| == n
  {
    Clipped(s, n) + Zeros(n - |Clipped(s, n)|)
  }

  lemma FixedTextBack(s: CString, n: nat)
    ensures UpToNul(FixedText(s, n)) == Clipped(s, n)
  {
    UpToNulIs(FixedText(s, n), Clipped(s, n));
  }

  // ---- The chunk ----

  /** Where the reserved bytes begin, everything has been said but the coding history. */
  function Texts(b: Broadcast): (r: seq<byte>)
    ensures |r| == 338
  {
    FixedText(b.description, DESCRIPTION_BYTES) + FixedText(b.originatorName, ORIGINATOR_BYTES)
    + FixedText(b.originatorReference, ORIGINATOR_BYTES) + b.originationDate + b.originationTime
  }

  function Numbers(b: Broadcast): (r: seq<byte>)
    ensures |r| == 84
  {
    U64(b.timeReference) + U16(b.version) + b.umid + U16(b.loudnessValue) + U16(b.loudnessRange)
    + U16(b.maxTruePeakLevel) + U16(b.maxMomentaryLoudness) + U16(b.maxShortTermLoudness)
  }

  /** The body of the chunk. */
  function BextBytes(b: Broadcast): (r: seq<byte>)
    ensures |r| == BEXT_BYTES + |b.codingHistory|
  {
    Texts(b) + Numbers(b) + Zeros(RESERVED_BYTES) + b.codingHistory
  }

  /** The fields of a body; the coding history is measured up to its first NUL. */
  function ReadBext(r: seq<byte>): Broadcast
    requires |r| >= BEXT_BYTES
  {
    var history := UpToNul(r[BEXT_BYTES..]);
    Broadcast(UpToNul(r[..256]), UpToNul(r[256..288]), UpToNul(r[288..320]), r[320..330], r[330..338], GetU64(r, 338),
              GetU16(r, 346), r[348..412], GetU16(r, 412), GetU16(r, 414), GetU16(r, 416), GetU16(r, 418),
              GetU16(r, 420), |history| % 0x1_0000_0000, history)
  }

  /** What is left of an item after writing and reading it. */
  function AsRead(b: Broadcast): Broadcast {
    var history := UpToNul(b.codingHistory);
    b.(description := Clipped(b.description, DESCRIPTION_BYTES),
       originatorName := Clipped(b.originatorName, ORIGINATOR_BYTES),
       originatorReference := Clipped(b.originatorReference, ORIGINATOR_BYTES),
       codingHistorySize := |history| % 0x1_0000_0000, codingHistory := history)
  }

  lemma TextsBack(b: Broadcast, r: seq<byte>)
    requires |r| >= 338 && r[..338] == Texts(b)
    ensures UpToNul(r[..256]) == Clipped(b.description, 256) && UpToNul(r[256..288]) == Clipped(b.originatorName, 32)
    ensures UpToNul(r[288..320]) == Clipped(b.originatorReference, 32)
    ensures r[320..330] == b.originationDate && r[330..338] == b.originationTime
  {
    hide FixedText, UpToNul, Clipped, Holds;
    FixedTextBack(b.description, 256);
    FixedTextBack(b.originatorName, 32);
    FixedTextBack(b.originatorReference, 32);
    HoldsIs(r, 0, Texts(b));
    var d, n, o := FixedText(b.description, 256), FixedText(b.originatorName, 32), FixedText(b.originatorReference, 32);
    HoldsSplit(r, 0, d + n + o + b.originationDate, b.originationTime);
    HoldsSplit(r, 0, d + n + o, b.originationDate);
    HoldsSplit(r, 0, d + n, o);
    HoldsSplit(r, 0, d, n);
    HoldsIs(r, 0, d);
    HoldsIs(r, 256, n);
    HoldsIs(r, 288, o);
    HoldsIs(r, 320, b.originationDate);
    HoldsIs(r, 330, b.originationTime);
  }

  lemma NumbersBack(b: Broadcast, r: seq<byte>)
    requires |r| >= 422 && r[338..422] == Numbers(b)
    ensures GetU64(r, 338) == b.timeReference && GetU16(r, 346) == b.version && r[348..412] == b.umid
    ensures GetU16(r, 412) == b.loudnessValue && GetU16(r, 414) == b.loudnessRange
    ensures GetU16(r, 416) == b.maxTruePeakLevel && GetU16(r, 418) == b.maxMomentaryLoudness
    ensures GetU16(r, 420) == b.maxShortTermLoudness
  {
    hide U64, U16, GetU64, GetU16, Holds;
    HoldsIs(r, 338, Numbers(b));
    var t, v, l, m, p, q, x := U64(b.timeReference), U16(b.version), U16(b.loudnessValue), U16(b.loudnessRange),
                               U16(b.maxTruePeakLevel), U16(b.maxMomentaryLoudness), U16(b.maxShortTermLoudness);
    HoldsSplit(r, 338, t + v + b.umid + l + m + p + q, x);
    HoldsSplit(r, 338, t + v + b.umid + l + m + p, q);
    HoldsSplit(r, 338, t + v + b.umid + l + m, p);
    HoldsSplit(r, 338, t + v + b.umid + l, m);
    HoldsSplit(r, 338, t + v + b.umid, l);
    HoldsSplit(r, 338, t + v, b.umid);
    HoldsSplit(r, 338, t, v);
    HoldsIs(r, 338, t);
    GetU64Back(r, 338, b.timeReference);
    U16At(r, 346, b.version);
    HoldsIs(r, 348, b.umid);
    U16At(r, 412, b.loudnessValue);
    U16At(r, 414, b.loudnessRange);
    U16At(r, 416, b.maxTruePeakLevel);
    U16At(r, 418, b.maxMomentaryLoudness);
    U16At(r, 420, b.maxShortTermLoudness);
  }

  lemma PartsOf(b: Broadcast)
    ensures var r := BextBytes(b); r[..338] == Texts(b) && r[338..422] == Numbers(b) && r[602..] == b.codingHistory
  {
    hide *;
    BytesAre(b);
    var t, n, z := Texts(b), Numbers(b), Zeros(180);
    var r := BextBytes(b);
    Apart(t + n + z, b.codingHistory);
    Apart(t + n, z);
    Apart(t, n);
    Slices(r, 338, 422, 602);
  }

  lemma BytesAre(b: Broadcast)
    ensures BextBytes(b) == Texts(b) + Numbers(b) + Zeros(180) + b.codingHistory
    ensures |Texts(b)| == 338 && |Numbers(b)| == 84 && |Zeros(180)| == 180
  {
    hide Texts, Numbers, Zeros;
  }

  lemma Apart(a: seq<byte>, b: seq<byte>)
    ensures (a + b)[..|a|] == a && (a + b)[|a|..] == b
  {
  }

  lemma Slices(r: seq<byte>, i: nat, j: nat, k: nat)
    requires i <= j <= k <= |r|
    ensures r[..k][..j] == r[..j] && r[..j][..i] == r[..i] && r[..j][i..] == r[i..j]
  {
  }

  /** Writing and reading clips the strings and cuts the coding history at its first NUL. */
  lemma BextBack(b: Broadcast)
    ensures ReadBext(BextBytes(b)) == AsRead(b)
  {
    hide UpToNul, Clipped, Texts, Numbers, GetU64, GetU16;
    var r := BextBytes(b);
    PartsOf(b);
    TextsBack(b, r);
    NumbersBack(b, r);
  }

  /** The strings fit their fields, and the coding history is a C string. */
  predicate Fits(b: Broadcast) {
    && |b.description| <= DESCRIPTION_BYTES && |b.originatorName| <= ORIGINATOR_BYTES
    && |b.originatorReference| <= ORIGINATOR_BYTES && 0 !in b.codingHistory
  }

  /** The same item comes back if and only if it fits. */
  lemma BextBackIff(b: Broadcast)
    requires b.codingHistorySize == |b.codingHistory|
    ensures ReadBext(BextBytes(b)) == b <==> Fits(b)
  {
    BextBack(b);
    UpToNulIff(b.codingHistory);
    hide UpToNul, ReadBext, BextBytes;
  }
}
