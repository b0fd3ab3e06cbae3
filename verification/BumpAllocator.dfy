/**
 The memory of dr_wav's metadata parser: `drwav__metadata_request_extra_memory_for_stage_2` adds up in
 the first pass what `drwav__metadata_get_memory` hands out of one block in the second.
 */
module BumpAllocator {
  import opened Arith

  datatype Request = Request(size: nat, align: nat)

  datatype Block = Block(at: nat, request: Request)

  /** What the first pass reserves for a request: its size, and room to align it. */
  function Cost(r: Request): nat {
    r.size + if r.align > 0 then r.align - 1 else 0
  }

  function Costs(rs: seq<Request>): nat {
    if rs == [] then 0 else Costs(rs[..|rs| - 1]) + Cost(rs[|rs| - 1])
  }

  /** The first aligned address from `cursor` on. */
  function AlignUp(cursor: nat, align: nat): nat {
    if align > 0 && cursor % align != 0 then cursor + (align - cursor % align) else cursor
  }

  lemma AlignUpIs(cursor: nat, align: nat)
    ensures cursor <= AlignUp(cursor, align) <= cursor + if align > 0 then align - 1 else 0
    ensures align > 0 ==> AlignUp(cursor, align) % align == 0
  {
    if align > 0 && cursor % align != 0 {
      MulSucc(cursor / align, align);
      DivModUnique(cursor / align + 1, align, 0);
    }
  }

  /** Less would not do: an address from which the block ends that far on. */
  lemma CostIsNeeded(r: Request)
    ensures exists cursor: nat :: AlignUp(cursor, r.align) + r.size == cursor + Cost(r)
  {
    var cursor: nat := if r.align > 1 then 1 else 0;
    assert AlignUp(cursor, r.align) + r.size == cursor + Cost(r);
  }

  /** The address after the requests so far. */
  function CursorAfter(start: nat, rs: seq<Request>): nat {
    if rs == [] then start
    else
      var r := rs[|rs| - 1];
      AlignUp(CursorAfter(start, rs[..|rs| - 1]), r.align) + r.size
  }

  /** The blocks that the second pass hands out, one after the other. */
  function Blocks(start: nat, rs: seq<Request>): (bs: seq<Block>)
    ensures |bs| == |rs|
  {
    if rs == [] then []
    else
      var before, r := rs[..|rs| - 1], rs[|rs| - 1];
      Blocks(start, before) + [Block(AlignUp(CursorAfter(start, before), r.align), r)]
  }

  function EndOf(b: Block): nat { b.at + b.request.size }

  /** The block has the request's size and alignment, and lies between two addresses. */
  predicate Sound(b: Block, r: Request, from: nat, to: nat) {
    && b.request == r && (r.align > 0 ==> b.at % r.align == 0) && from <= b.at && EndOf(b) <= to
  }

  /** What the requests take is at most what they were reserved. */
  lemma {:induction false} CursorWithinCosts(start: nat, rs: seq<Request>)
    ensures start <= CursorAfter(start, rs) <= start + Costs(rs)
  {
    if rs != [] {
      CursorWithinCosts(start, rs[..|rs| - 1]);
      AlignUpIs(CursorAfter(start, rs[..|rs| - 1]), rs[|rs| - 1].align);
    }
  }

  /**
   For any requests and any address of the memory: every block is aligned as asked, no two overlap,
   and all of them lie inside what was reserved.
   */
  lemma {:induction false} BlocksAreSound(start: nat, rs: seq<Request>)
    ensures CursorAfter(start, rs) <= start + Costs(rs)
    ensures forall i :: 0 <= i < |rs| ==> Sound(Blocks(start, rs)[i], rs[i], start, CursorAfter(start, rs))
    ensures forall i, j :: 0 <= i < j < |rs| ==> EndOf(Blocks(start, rs)[i]) <= Blocks(start, rs)[j].at
  {
    CursorWithinCosts(start, rs);
    if rs != [] {
      var n := |rs| - 1;
      var before, r := rs[..n], rs[n];
      BlocksAreSound(start, before);
      AlignUpIs(CursorAfter(start, before), r.align);
      var bs := Blocks(start, rs);
      assert bs[..n] == Blocks(start, before);
      forall i | 0 <= i < |rs| ensures Sound(bs[i], rs[i], start, CursorAfter(start, rs)) {
        if i < n {
          assert Sound(Blocks(start, before)[i], before[i], start, CursorAfter(start, before));
        }
      }
      forall i, j | 0 <= i < j < |rs| ensures EndOf(bs[i]) <= bs[j].at {
        assert Sound(Blocks(start, before)[i], before[i], start, CursorAfter(start, before));
        if j < n {
          assert EndOf(Blocks(start, before)[i]) <= Blocks(start, before)[j].at;
        }
      }
    }
  }

  lemma CostsStep(rs: seq<Request>, r: Request)
    ensures Costs(rs + [r]) == Costs(rs) + Cost(r)
    ensures Costs([]) == 0
  {
    assert (rs + [r])[..|rs|] == rs;
  }

  lemma BlocksStep(start: nat, rs: seq<Request>, k: nat)
    requires k < |rs|
    ensures var at := AlignUp(CursorAfter(start, rs[..k]), rs[k].align);
            && CursorAfter(start, rs[..k + 1]) == at + rs[k].size
            && Blocks(start, rs[..k + 1]) == Blocks(start, rs[..k]) + [Block(at, rs[k])]
  {
    assert rs[..k + 1][..k] == rs[..k];
  }

  /** A longer list of requests never takes less. */
  lemma {:induction false} CursorMono(start: nat, rs: seq<Request>, k: nat)
    requires k <= |rs|
    ensures CursorAfter(start, rs[..k]) <= CursorAfter(start, rs)
    decreases |rs|
  {
    if k == |rs| {
      assert rs[..k] == rs;
    } else {
      var before := rs[..|rs| - 1];
      CursorMono(start, before, k);
      assert before[..k] == rs[..k];
      AlignUpIs(CursorAfter(start, before), rs[|rs| - 1].align);
    }
  }

  lemma CursorStarts(start: nat, rs: seq<Request>)
    ensures start <= CursorAfter(start, rs)
  {
    CursorMono(start, rs, 0);
  }

  class Memory {
    /** sizeof(drwav_metadata). */
    const itemSize: nat
    var metadataCount: nat
    var extraCapacity: nat
    var pData: nat
    var pDataCursor: nat
    /** All requests of the first pass, and how many of them have been served. */
    ghost var planned: seq<Request>
    ghost var served: nat

    constructor (itemSize: nat)
      ensures Counting() && planned == [] && this.itemSize == itemSize && metadataCount == 0
    {
      this.itemSize, metadataCount, extraCapacity, pData, pDataCursor := itemSize, 0, 0, 0, 0;
      planned, served := [], 0;
    }

    /** The first pass. */
    ghost predicate Counting()
      reads this
    {
      extraCapacity == Costs(planned) && served == 0
    }

    /** The second pass: the array of items comes first, without alignment. */
    ghost predicate Filling()
      reads this
    {
      && extraCapacity == Costs(planned) && served <= |planned|
      && pDataCursor == CursorAfter(pData + ItemsSize(), planned[..served])
    }

    function ItemsSize(): nat
      reads this
    {
      itemSize * metadataCount
    }

    /** drwav__metadata_memory_capacity. */
    function Capacity(): nat
      reads this
    {
      ItemsSize() + extraCapacity
    }

    /** drwav__metadata_request_extra_memory_for_stage_2, with the item it is for counted or not. */
    method RequestExtra(bytes: nat, align: nat)
      requires Counting()
      modifies this`extraCapacity, this`planned
      ensures Counting() && planned == old(planned) + [Request(bytes, align)]
      ensures Capacity() == old(Capacity()) + bytes + if align > 0 then align - 1 else 0
    {
      var extra := bytes + if align > 0 then align - 1 else 0;
      CostsStep(planned, Request(bytes, align));
      extraCapacity := extraCapacity + extra;
      planned := planned + [Request(bytes, align)];
    }

    /** drwav__metadata_alloc: `address` is what the allocator returns. */
    method Alloc(address: nat) returns (items: nat)
      requires Counting()
      modifies this`pData, this`pDataCursor
      ensures Filling() && pData == address == items && items + itemSize * metadataCount <= pData + Capacity()
    {
      pData := address;
      pDataCursor := pData;
      items := pDataCursor;
      pDataCursor := pDataCursor + itemSize * metadataCount;
      assert planned[..0] == [];
    }

    /**
     drwav__metadata_get_memory, asked for what was requested at this point of the first pass. The
     memory is there: the source only asserts it.
     */
    method GetMemory(size: nat, align: nat) returns (result: nat)
      requires Filling() && served < |planned| && planned[served] == Request(size, align)
      modifies this`pDataCursor, this`served
      ensures Filling() && served == old(served) + 1
      ensures Block(result, Request(size, align)) == Blocks(pData + ItemsSize(), planned)[served - 1]
      ensures pData + itemSize * metadataCount <= result && result + size <= pData + Capacity()
    {
      hide *;
      ghost var start: nat := pData + ItemsSize();
      FillingIs();
      BlocksStep(start, planned, served);
      BlockAt(start, planned, served);
      CursorWithinCosts(start, planned);
      CursorMono(start, planned, served + 1);
      CursorStarts(start, planned[..served]);
      AlignUpIs(pDataCursor, align);
      AlignCursor(align);
      result := pDataCursor;
      pDataCursor := pDataCursor + size;
      served := served + 1;
      FillingIs();
    }

    method AlignCursor(align: nat)
      modifies this`pDataCursor
      ensures pDataCursor == AlignUp(old(pDataCursor), align)
    {
      if align > 0 {
        var modulo := pDataCursor % align;
        if modulo != 0 {
          pDataCursor := pDataCursor + (align - modulo);
        }
      }
    }

    lemma FillingIs()
      ensures Filling() <==> extraCapacity == Costs(planned) && served <= |planned|
                             && pDataCursor == CursorAfter(pData + ItemsSize(), planned[..served])
      ensures ItemsSize() == itemSize * metadataCount >= 0 && Capacity() == ItemsSize() + extraCapacity
    {
    }
  }

  lemma {:induction false} BlockAt(start: nat, rs: seq<Request>, k: nat)
    requires k < |rs|
    ensures Blocks(start, rs)[k] == Block(AlignUp(CursorAfter(start, rs[..k]), rs[k].align), rs[k])
    decreases |rs|
  {
    if k < |rs| - 1 {
      BlockAt(start, rs[..|rs| - 1], k);
      assert rs[..|rs| - 1][..k] == rs[..k];
    }
  }
}
