/**
 Stretches of bytes inside a file image, and how they come apart.
 */
module ByteImages {
  import opened Bytes

  /** The image has the bytes `b` at `p`. */
  predicate Holds(img: seq<byte>, p: nat, b: seq<byte>) {
    p + |b| <= |img| && img[p..p + |b|] == b
  }

  lemma HoldsSplit(img: seq<byte>, p: nat, a: seq<byte>, b: seq<byte>)
    ensures Holds(img, p, a + b) <==> Holds(img, p, a) && Holds(img, p + |a|, b)
  {
    if p + |a| + |b| <= |img| {
      assert img[p..p + |a + b|] == img[p..p + |a|] + img[p + |a|..p + |a| + |b|];
      if Holds(img, p, a + b) {
        assert (a + b)[..|a|] == a && (a + b)[|a|..] == b;
      }
    }
  }

  lemma HoldsIs(img: seq<byte>, p: nat, b: seq<byte>)
    ensures Holds(img, p, b) <==> p + |b| <= |img| && img[p..p + |b|] == b
  {
  }

  lemma HoldsAll(img: seq<byte>)
    ensures Holds(img, 0, img)
  {
  }

  lemma U32At(img: seq<byte>, p: nat, x: u32)
    requires Holds(img, p, U32(x))
    ensures p + 4 <= |img| && GetU32(img, p) == x
  {
    GetU32Back(img, p, x);
  }

  lemma U16At(img: seq<byte>, p: nat, x: u16)
    requires Holds(img, p, U16(x))
    ensures p + 2 <= |img| && GetU16(img, p) == x
  {
    GetU16Back(img, p, x);
  }
}
