/**
 The two bit readers of dr_mp3's Layer III decoder: the byte-wise `drmp3_bs_get_bits`, and the
 32-bit cache that the Huffman decoder peeks, flushes and refills. Both are proved to deliver
 `Value`, the big-endian value of a run of stream bits.
 */
module BitStream {
  import opened Arith
  import opened Bytes

  // ---- Words and their bits ----

  const WORD := 0x1_0000_0000

  /** Right shift. */
  function Shr(x: nat, k: nat): nat {
    if k == 0 then x else Shr(x / 2, k - 1)
  }

  /** The low `k` bits. */
  function Low(x: nat, k: nat): (r: nat)
    ensures r < Pow2(k)
  {
    if k == 0 then 0 else x % 2 + 2 * Low(x / 2, k - 1)
  }

  /** Left shift of a 32-bit word; what leaves the word is lost. */
  function Shl32(x: nat, k: nat): (r: u32) {
    x * Pow2(k) % WORD
  }

  /** Bitwise or. */
  function Or(a: nat, b: nat): nat
    decreases a + b
  {
    if a == 0 && b == 0 then 0
    else (if a % 2 == 1 || b % 2 == 1 then 1 else 0) + 2 * Or(a / 2, b / 2)
  }

  lemma {:induction false} OrZero(a: nat)
    ensures Or(a, 0) == a
  {
    if a > 0 {
      OrZero(a / 2);
    }
  }

  /** Where the operands have no bit in common, or is addition. */
  lemma {:induction false} OrIsSum(a: nat, b: nat, k: nat)
    requires b < Pow2(k)
    ensures Or(a * Pow2(k), b) == a * Pow2(k) + b
  {
    if k == 0 {
      OrZero(a);
    } else {
      MulTwo(a, Pow2(k - 1));
      OrIsSum(a, b / 2, k - 1);
    }
  }

  lemma {:induction false} ShrHalf(x: nat, k: nat)
    ensures Shr(x, k + 1) == Shr(x, k) / 2
  {
    if k > 0 {
      ShrHalf(x / 2, k - 1);
    }
  }

  lemma {:induction false} ShrLow(x: nat, a: nat, b: nat)
    requires b <= a
    ensures Shr(Low(x, a), b) == Low(Shr(x, b), a - b)
  {
    if b > 0 {
      assert Low(x, a) / 2 == Low(x / 2, a - 1);
      ShrLow(x / 2, a - 1, b - 1);
    }
  }

  lemma {:induction false} LowOfSmall(x: nat, k: nat)
    requires x < Pow2(k)
    ensures Low(x, k) == x
  {
    if k > 0 {
      LowOfSmall(x / 2, k - 1);
    }
  }

  lemma {:induction false} ShrBound(x: nat, k: nat, n: nat)
    requires x < Pow2(n + k)
    ensures Shr(x, k) < Pow2(n)
  {
    if k > 0 {
      ShrBound(x / 2, k - 1, n);
    }
  }

  lemma {:induction false} ShrOfSum(a: nat, b: nat, k: nat)
    requires b < Pow2(k)
    ensures Shr(a * Pow2(k) + b, k) == a
  {
    if k > 0 {
      MulTwo(a, Pow2(k - 1));
      ShrOfSum(a, b / 2, k - 1);
    }
  }

  /** A shift that keeps the value below 2^32 loses nothing. */
  lemma ShlFits(x: nat, k: nat, n: nat)
    requires x < Pow2(n) && n + k <= 32
    ensures Shl32(x, k) == x * Pow2(k) < Pow2(n + k)
  {
    hide *;
    Pow2Add(n, k);
    MulMono(x + 1, Pow2(n), Pow2(k));
    MulMono(0, x, Pow2(k));
    MulSucc(x, Pow2(k));
    Pow2Mono(n + k, 32);
    Pow2Small();
    DivModUnique(0, 0x1_0000_0000, x * Pow2(k));
    Shl32Is(x, k);
    Pow2NotZero(k);
  }

  lemma Shl32Is(x: nat, k: nat)
    ensures Shl32(x, k) == x * Pow2(k) % 0x1_0000_0000
  {
    hide Pow2;
  }

  lemma Pow2NotZero(k: nat)
    ensures Pow2(k) > 0
  {
  }

  // ---- Bits of a stream and their value ----

  /** Bit `i` of the stream, the most significant bit of a byte first. */
  function Bit(buf: seq<byte>, i: nat): (b: int)
    requires i < 8 * |buf|
    ensures 0 <= b <= 1
  {
    Shr(buf[i / 8], 7 - i % 8) % 2
  }

  /** Bits pos..pos+n of the stream as a big-endian number. */
  function Value(buf: seq<byte>, pos: nat, n: nat): (v: nat)
    requires pos + n <= 8 * |buf|
    ensures v < Pow2(n)
  {
    if n == 0 then 0 else 2 * Value(buf, pos, n - 1) + Bit(buf, pos + n - 1)
  }

  lemma ValueStep(buf: seq<byte>, pos: nat, n: nat)
    requires pos + n + 1 <= 8 * |buf|
    ensures Value(buf, pos, n + 1) == 2 * Value(buf, pos, n) + Bit(buf, pos + n)
    ensures Value(buf, pos, 0) == 0
  {
  }

  lemma {:induction false} ShrZero(k: nat)
    ensures Shr(0, k) == 0
  {
    if k > 0 {
      ShrZero(k - 1);
    }
  }

  /** Bits of bytes that are 0. */
  lemma {:induction false} ZeroBits(buf: seq<byte>, pos: nat, n: nat)
    requires pos + n <= 8 * |buf| && forall i :: pos / 8 <= i < |buf| && 8 * i < pos + n ==> buf[i] == 0
    ensures Value(buf, pos, n) == 0
  {
    if n > 0 {
      ZeroBits(buf, pos, n - 1);
      var last := pos + n - 1;
      assert buf[last / 8] == 0;
      ShrZero(7 - last % 8);
    }
  }

  /** Reading a then b bits is reading a + b bits. */
  lemma {:induction false} ValueConcat(buf: seq<byte>, pos: nat, a: nat, b: nat)
    requires pos + a + b <= 8 * |buf|
    ensures Value(buf, pos, a + b) == Value(buf, pos, a) * Pow2(b) + Value(buf, pos + a, b)
  {
    hide Value, Bit;
    if b > 0 {
      ValueConcat(buf, pos, a, b - 1);
      ValueStep(buf, pos, a + b - 1);
      ValueStep(buf, pos + a, b - 1);
      MulTwo(Value(buf, pos, a), Pow2(b - 1));
    } else {
      NoBits(buf, pos + a);
    }
  }

  lemma NoBits(buf: seq<byte>, pos: nat)
    requires pos <= 8 * |buf|
    ensures Value(buf, pos, 0) == 0
  {
  }

  /** The bits s..s+n of a byte. */
  lemma {:induction false} ValueInByte(buf: seq<byte>, k: nat, s: nat, n: nat)
    requires k < |buf| && s + n <= 8
    ensures Value(buf, 8 * k + s, n) == Low(Shr(buf[k], 8 - s - n), n)
  {
    hide *;
    if n > 0 {
      ValueInByte(buf, k, s, n - 1);
      ValueStep(buf, 8 * k + s, n - 1);
      BitOfByte(buf, k, s + n - 1);
      ShrHalf(buf[k], 8 - s - n);
      LowStep(Shr(buf[k], 8 - s - n), n);
    } else {
      NoBits(buf, 8 * k + s);
      LowNone(Shr(buf[k], 8 - s));
    }
  }

  lemma BitOfByte(buf: seq<byte>, k: nat, j: nat)
    requires k < |buf| && j < 8
    ensures 8 * k + j < 8 * |buf| && Bit(buf, 8 * k + j) == Shr(buf[k], 7 - j) % 2
  {
    hide Shr;
    assert (8 * k + j) / 8 == k && (8 * k + j) % 8 == j;
  }

  lemma LowStep(x: nat, n: nat)
    requires n > 0
    ensures Low(x, n) == x % 2 + 2 * Low(x / 2, n - 1)
  {
  }

  lemma LowNone(x: nat)
    ensures Low(x, 0) == 0
  {
  }

  /** The low 8 - s bits of a byte are what masking with 255 >> s leaves. */
  lemma ValueOfTail(buf: seq<byte>, k: nat, s: nat)
    requires k < |buf| && s < 8
    ensures Value(buf, 8 * k + s, 8 - s) == Low(buf[k], 8 - s)
  {
    ValueInByte(buf, k, s, 8 - s);
  }

  /** A whole byte. */
  lemma ValueOfByte(buf: seq<byte>, k: nat)
    requires k < |buf|
    ensures Value(buf, 8 * k, 8) == buf[k] == Low(buf[k], 8)
  {
    Pow2Small();
    ValueOfTail(buf, k, 0);
    LowOfSmall(buf[k], 8);
  }

  // ---- The byte-wise reader ----

  /** What a read of `n` bits at `pos` returns: 0 once it would pass the limit. */
  function Bits(buf: seq<byte>, limit: int, pos: nat, n: nat): nat
    requires limit <= 8 * |buf|
  {
    if pos + n > limit then 0 else Value(buf, pos, n)
  }

  lemma BitsIs(buf: seq<byte>, limit: int, pos: nat, n: nat)
    requires limit <= 8 * |buf|
    ensures Bits(buf, limit, pos, n) == if pos + n > limit then 0 else Value(buf, pos, n)
  {
  }

  /** The first `a` of `a + b` bits. */
  lemma ValueShr(buf: seq<byte>, pos: nat, a: nat, b: nat)
    requires pos + a + b <= 8 * |buf|
    ensures Value(buf, pos, a) == Shr(Value(buf, pos, a + b), b)
  {
    hide *;
    ValueConcat(buf, pos, a, b);
    ValueBound(buf, pos + a, b);
    ShrOfSum(Value(buf, pos, a), Value(buf, pos + a, b), b);
  }

  lemma ValueBound(buf: seq<byte>, pos: nat, n: nat)
    requires pos + n <= 8 * |buf|
    ensures Value(buf, pos, n) < Pow2(n)
  {
  }

  /** The first `done` of `n` bits, in place above the missing ones. */
  function Placed(buf: seq<byte>, pos: nat, done: nat, n: nat): nat
    requires pos + done <= 8 * |buf| && done <= n
  {
    Value(buf, pos, done) * Pow2(n - done)
  }

  lemma NonePlaced(buf: seq<byte>, pos: nat, n: nat)
    requires pos <= 8 * |buf|
    ensures Placed(buf, pos, 0, n) == 0
  {
  }

  /** The next `a` bits are put below those that are in place. */
  lemma Accumulate(buf: seq<byte>, pos: nat, done: nat, a: nat, n: nat)
    requires pos + done + a <= 8 * |buf| && done + a <= n <= 32
    ensures Or(Placed(buf, pos, done, n), Shl32(Value(buf, pos + done, a), n - done - a)) == Placed(buf, pos, done + a, n)
  {
    hide *;
    var v, x, r := Value(buf, pos, done), Value(buf, pos + done, a), n - done;
    PlacedIs(buf, pos, done, n);
    PlacedIs(buf, pos, done + a, n);
    ValueConcat(buf, pos, done, a);
    ValueBound(buf, pos + done, a);
    Pow2Add(a, r - a);
    MulAssoc(v, Pow2(a), Pow2(r - a));
    MulSplit(v * Pow2(a), x, Pow2(r - a));
    ShlFits(x, r - a, a);
    OrIsSum(v, x * Pow2(r - a), r);
  }

  lemma PlacedIs(buf: seq<byte>, pos: nat, done: nat, n: nat)
    requires pos + done <= 8 * |buf| && done <= n
    ensures Placed(buf, pos, done, n) == Value(buf, pos, done) * Pow2(n - done)
  {
  }

  /** The last missing bits are the first of the `a` bits at hand. */
  lemma Finish(buf: seq<byte>, pos: nat, done: nat, a: nat, n: nat)
    requires pos + done + a <= 8 * |buf| && 0 <= n - done <= a
    ensures Or(Placed(buf, pos, done, n), Shr(Value(buf, pos + done, a), a - (n - done))) == Value(buf, pos, n)
  {
    hide *;
    var r := n - done;
    PlacedIs(buf, pos, done, n);
    ValueConcat(buf, pos, done, r);
    ValueShr(buf, pos + done, r, a - r);
    ValueBound(buf, pos + done, r);
    OrIsSum(Value(buf, pos, done), Value(buf, pos + done, r), r);
  }

  class BitReader {
    const buf: seq<byte>
    const limit: int
    var pos: nat

    /** drmp3_bs_init. A frame shorter than its header gives a negative number of bytes. */
    constructor (buf: seq<byte>, bytes: int)
      ensures this.buf == buf && pos == 0 && limit == 8 * bytes
    {
      this.buf, this.pos, this.limit := buf, 0, 8 * bytes;
    }

    /** drmp3_bs_get_bits. */
    method GetBits(n: nat) returns (r: nat)
      requires limit <= 8 * |buf| && n <= 32
      requires n == 0 ==> pos < 8 * |buf|  // the source looks at a byte even for no bits
      modifies this`pos
      ensures pos == old(pos) + n
      ensures r == Bits(buf, limit, old(pos), n)
    {
      hide *;
      BitsIs(buf, limit, pos, n);
      var s := pos % 8;
      var shl := n + s;
      var p := pos / 8;
      ghost var first, done, avail := pos, 0, 8 - s;
      pos := pos + n;
      if pos > limit {
        return 0;
      }
      var next := Low(buf[p], 8 - s);
      var cache := 0;
      ValueOfTail(buf, p, s);
      NonePlaced(buf, first, n);
      p := p + 1;
      shl := shl - 8;
      while shl > 0
        invariant first + done + avail == 8 * p <= 8 * |buf| && 0 <= done <= n && shl == n - done - avail
        invariant pos == first + n
        invariant 0 <= avail <= 8 && next == Value(buf, first + done, avail)
        invariant cache == Placed(buf, first, done, n)
      {
        Accumulate(buf, first, done, avail, n);
        cache := Or(cache, Shl32(next, shl));
        next := buf[p];
        ValueOfByte(buf, p);
        p := p + 1;
        done, avail := done + avail, 8;
        shl := shl - 8;
      }
      Finish(buf, first, done, avail, n);
      r := Or(cache, Shr(next, -shl));
    }
  }

  // ---- The cached reader ----

  /** A word whose top `v` bits are the stream bits at `pos` and whose other bits are zero. */
  predicate Holds(cache: nat, buf: seq<byte>, pos: nat, v: nat) {
    pos + v <= 8 * |buf| && v <= 32 && cache == Value(buf, pos, v) * Pow2(32 - v)
  }

  /** The top `n` of the bits that are held. */
  lemma HeldTop(cache: nat, buf: seq<byte>, pos: nat, v: nat, n: nat)
    requires Holds(cache, buf, pos, v) && n <= v
    ensures Shr(cache, 32 - n) == Value(buf, pos, n)
  {
    hide *;
    HoldsIs(cache, buf, pos, v);
    HeldSplit(buf, pos, n, v - n);
    HeldRest(buf, pos + n, v - n, 32 - n);
    ShrOfSum(Value(buf, pos, n), Value(buf, pos + n, v - n) * Pow2(32 - v), 32 - n);
  }

  lemma HoldsIs(cache: nat, buf: seq<byte>, pos: nat, v: nat)
    ensures Holds(cache, buf, pos, v)
            <==> pos + v <= 8 * |buf| && v <= 32 && cache == Value(buf, pos, v) * Pow2(32 - v)
  {
  }

  /** Aligned to the top of a word, n + m bits are the first n above the other m. */
  lemma HeldSplit(buf: seq<byte>, pos: nat, n: nat, m: nat)
    requires pos + n + m <= 8 * |buf| && n + m <= 32
    ensures Value(buf, pos, n + m) * Pow2(32 - n - m)
            == Value(buf, pos, n) * Pow2(32 - n) + Value(buf, pos + n, m) * Pow2(32 - n - m)
  {
    hide *;
    var k := 32 - n - m;
    ValueConcat(buf, pos, n, m);
    Pow2Add(m, k);
    MulAssoc(Value(buf, pos, n), Pow2(m), Pow2(k));
    MulSplit(Value(buf, pos, n) * Pow2(m), Value(buf, pos + n, m), Pow2(k));
  }

  lemma HeldRest(buf: seq<byte>, pos: nat, m: nat, w: nat)
    requires pos + m <= 8 * |buf| && m <= w
    ensures Value(buf, pos, m) * Pow2(w - m) < Pow2(w)
  {
    hide *;
    ValueBound(buf, pos, m);
    Pow2Add(m, w - m);
    Pow2Positive(w - m);
    MulMono(Value(buf, pos, m) + 1, Pow2(m), Pow2(w - m));
    MulSucc(Value(buf, pos, m), Pow2(w - m));
  }

  lemma Pow2Positive(n: nat)
    ensures Pow2(n) > 0
  {
  }

  /** Shifting `n` held bits out of the word. */
  lemma Flushed(cache: nat, buf: seq<byte>, pos: nat, v: nat, n: nat)
    requires Holds(cache, buf, pos, v) && n <= v
    ensures Holds(Shl32(cache, n), buf, pos + n, v - n)
  {
    hide *;
    HoldsIs(cache, buf, pos, v);
    var a, x := Value(buf, pos, n), Value(buf, pos + n, v - n);
    HeldSplit(buf, pos, n, v - n);
    MulThrough(cache, a, Pow2(32 - n), x, Pow2(32 - v), Pow2(n));
    Pow2Join(32 - n, n, 32);
    Pow2Join(32 - v, n, 32 - (v - n));
    HeldRest(buf, pos + n, v - n, 32);
    Shl32Of(cache, n, a, x * Pow2(32 - (v - n)));
    HoldsIs(Shl32(cache, n), buf, pos + n, v - n);
  }

  lemma Pow2Join(a: nat, b: nat, c: nat)
    requires a + b == c
    ensures Pow2(a) * Pow2(b) == Pow2(c)
  {
    hide *;
    Pow2Add(a, b);
  }

  lemma Shl32Of(cache: nat, n: nat, a: nat, rest: nat)
    requires cache * Pow2(n) == a * Pow2(32) + rest && rest < Pow2(32)
    ensures Shl32(cache, n) == rest
  {
    Pow2Small();
    DivModUnique(a, WORD, rest);
  }

  /** Putting the next stream byte right below the bits that are held. */
  lemma Refilled(cache: nat, buf: seq<byte>, pos: nat, v: nat, k: nat)
    requires Holds(cache, buf, pos, v) && v <= 24 && pos + v == 8 * k && k < |buf|
    ensures Holds(Or(cache, Shl32(buf[k], 24 - v)), buf, pos, v + 8)
  {
    hide *;
    HoldsIs(cache, buf, pos, v);
    ValueOfByte(buf, k);
    PlacedIs(buf, pos, v, 32);
    PlacedIs(buf, pos, v + 8, 32);
    Accumulate(buf, pos, v, 8, 32);
    HoldsIs(Or(cache, Shl32(buf[k], 24 - v)), buf, pos, v + 8);
  }

  class BitCache {
    const buf: seq<byte>
    var cache: u32      // bs_cache
    var sh: int         // bs_sh
    var next: nat       // bs_next_ptr - buf

    /** DRMP3_BSPOS. */
    function BsPos(): int
      reads this
    {
      next * 8 - 24 + sh
    }

    /** How many bits at the top of the cache are stream bits. */
    function Available(): int
      reads this
    {
      24 - sh
    }

    ghost predicate Valid()
      reads this
      ensures Valid() ==> -8 <= sh <= 24 && 0 <= BsPos() && BsPos() + Available() == 8 * next <= 8 * |buf|
    {
      -8 <= sh <= 24 && 0 <= BsPos() && next <= |buf| && Holds(cache, buf, BsPos(), Available())
    }

    /** The first four bytes, with the bits before `pos` shifted out. */
    constructor (buf: seq<byte>, pos: nat)
      requires pos / 8 + 4 <= |buf|
      ensures Valid() && this.buf == buf && BsPos() == pos && Available() >= 25
    {
      hide Value, Pow2, Shl32;
      var p := pos / 8;
      var word := ((buf[p] as int * 256 + buf[p + 1]) * 256 + buf[p + 2]) * 256 + buf[p + 3];
      FourBytes(buf, p);
      Flushed(word, buf, 8 * p, 32, pos % 8);
      this.buf := buf;
      cache := Shl32(word, pos % 8);
      sh := pos % 8 - 8;
      next := p + 4;
    }

    /** DRMP3_PEEK_BITS: the next `n` bits, without moving. */
    function Peek(n: nat): (r: nat)
      requires Valid() && 1 <= n <= Available()
      reads this
      ensures r == Value(buf, BsPos(), n)
    {
      HeldTop(cache, buf, BsPos(), Available(), n);
      Shr(cache, 32 - n)
    }

    /** DRMP3_FLUSH_BITS. */
    method Flush(n: nat)
      requires Valid() && n <= Available()
      modifies this`cache, this`sh
      ensures Valid() && BsPos() == old(BsPos()) + n && Available() == old(Available()) - n
    {
      hide Value, Pow2, Shl32, Holds;
      Flushed(cache, buf, BsPos(), Available(), n);
      cache := Shl32(cache, n);
      sh := sh + n;
    }

    /** DRMP3_CHECK_BITS. */
    method CheckBits()
      requires Valid() && next + (sh + 8) / 8 <= |buf|
      modifies this`cache, this`sh, this`next
      ensures Valid() && BsPos() == old(BsPos()) && Available() >= 25
    {
      hide Value, Pow2, Shl32, Holds, Or;
      while sh >= 0
        invariant Valid() && BsPos() == old(BsPos())
        invariant next + (sh + 8) / 8 <= |buf|
        decreases sh
      {
        Refilled(cache, buf, BsPos(), Available(), next);
        HoldsWord(Or(cache, Shl32(buf[next], sh)), buf, BsPos(), Available() + 8);
        cache := Or(cache, Shl32(buf[next], sh));
        next := next + 1;
        sh := sh - 8;
      }
    }
  }

  lemma HoldsWord(cache: nat, buf: seq<byte>, pos: nat, v: nat)
    requires Holds(cache, buf, pos, v)
    ensures cache < WORD
  {
    HeldRest(buf, pos, v, 32);
    Pow2Small();
  }

  lemma FourBytes(buf: seq<byte>, p: nat)
    requires p + 4 <= |buf|
    ensures Holds(((buf[p] as int * 256 + buf[p + 1]) * 256 + buf[p + 2]) * 256 + buf[p + 3], buf, 8 * p, 32)
  {
    hide Value, Pow2;
    Pow2Small();
    ValueOfByte(buf, p);
    ValueOfByte(buf, p + 1);
    ValueOfByte(buf, p + 2);
    ValueOfByte(buf, p + 3);
    ValueConcat(buf, 8 * p, 8, 8);
    ValueConcat(buf, 8 * p, 16, 8);
    ValueConcat(buf, 8 * p, 24, 8);
  }

  /**
   The two readers agree: reading fields of at most 25 bits through the cache yields what the
   byte-wise reader yields, field by field, and both end up at the same position.
   */
  method ReadFields(bs: BitReader, bc: BitCache, widths: seq<nat>) returns (a: seq<nat>, b: seq<nat>)
    requires bs.limit == 8 * |bs.buf| && bc.Valid() && bc.buf == bs.buf && bc.BsPos() == bs.pos
    requires forall i :: 0 <= i < |widths| ==> 1 <= widths[i] <= 25
    requires bs.pos + 25 * |widths| + 32 <= bs.limit
    modifies bs`pos, bc
    ensures a == b && |a| == |widths|
    ensures bc.Valid() && bc.BsPos() == bs.pos
  {
    a, b := [], [];
    var i := 0;
    while i < |widths|
      invariant 0 <= i <= |widths| && |a| == i && a == b
      invariant bc.Valid() && bc.BsPos() == bs.pos
      invariant bs.pos + 25 * (|widths| - i) + 32 <= bs.limit
    {
      bc.CheckBits();
      b := b + [bc.Peek(widths[i])];
      bc.Flush(widths[i]);
      var x := bs.GetBits(widths[i]);
      a := a + [x];
      i := i + 1;
    }
  }
}
