/** The consistency walk of `MEM_HeapStatus`. */
module HeapAudit {
  import opened Words
  import opened HeapSpec
  import opened HeapLayout
  import opened MemHeap

  datatype Status = Status(size: nat, free: nat, freeLargest: nat, valid: bool, usedBlock: nat, freeBlock: nat)

  /** Payload bytes of a free block as the walk counts them: without header and tag. */
  function Room(b: Block): int { 8 * b.len - 8 - 1 }

  ghost function TotalRoom(f: seq<Block>): int {
    if f == [] then 0 else TotalRoom(f[..|f| - 1]) + Room(f[|f| - 1])
  }

  /** r is the largest room in the list, or 0 for an empty list. */
  ghost predicate IsLargest(f: seq<Block>, r: int) {
    && (f == [] ==> r == 0)
    && (f != [] ==> exists k :: 0 <= k < |f| && Room(f[k]) == r)
    && (forall k :: 0 <= k < |f| ==> Room(f[k]) <= r)
  }

  /** The room of the free blocks is their bytes less nine for each: its header and its tag. */
  lemma {:induction false} RoomIsFreeBytes(f: seq<Block>)
    requires forall b <- f :: !b.used
    ensures TotalRoom(f) == FreeBytes(f) - 9 * |f|
  {
    if f != [] {
      var n := |f| - 1;
      RoomIsFreeBytes(f[..n]);
      assert f == f[..n] + [f[n]] + [];
      Cut(f[..n], f[n], []);
    }
  }

  /** What the walk sees at block j: the free cursor has reached it exactly if it is free. */
  lemma {:induction false} AtBlock(m: seq<Word>, bs: seq<Block>, lo: nat, hi: nat, head: nat, j: nat)
    requires Rep(m, bs, lo, hi, head) && j < |bs|
    ensures var f, k, b := FreeList(bs), |FreeList(bs[..j])|, bs[j];
            && k <= |f| && f[..k] == FreeList(bs[..j]) && BlockOk(m, b) && 0 < lo <= b.pos && b.End() <= hi <= |m|
            && (b.used ==> Ptr(f, k) != 8 * b.pos && FreeList(bs[..j + 1]) == f[..k] && UsedCount(bs[..j + 1]) == UsedCount(bs[..j]) + 1)
            && (!b.used ==> k < |f| && f[k] == b && FreeList(bs[..j + 1]) == f[..k + 1] && UsedCount(bs[..j + 1]) == UsedCount(bs[..j])
                            && NextWord(m, b) == Ptr(f, k + 1))
  {
    ShapeOf(m, bs, lo, hi, head);
    hide Rep, WellFormed, FreeList, UsedCount, BlockOk, NextWord;
    Prefixes(bs, j);
    var f, k, b := FreeList(bs), |FreeList(bs[..j])|, bs[j];
    BlockFacts(m, bs, lo, hi, head, b);
    if k < |f| { FreeEntry(m, bs, lo, hi, head, k); }
    if b.used && k < |f| {
      ShapeTiles(bs, lo, hi);
      Disjoint(bs, lo, hi, b, f[k]);
    }
  }

  /** The free list and the count of the blocks before block j, and with it. */
  lemma {:induction false} Prefixes(bs: seq<Block>, j: nat)
    requires j < |bs|
    ensures var f, k, b := FreeList(bs), |FreeList(bs[..j])|, bs[j];
            && k <= |f| && f[..k] == FreeList(bs[..j])
            && (b.used ==> FreeList(bs[..j + 1]) == f[..k] && UsedCount(bs[..j + 1]) == UsedCount(bs[..j]) + 1)
            && (!b.used ==> k < |f| && f[k] == b && FreeList(bs[..j + 1]) == f[..k + 1] && UsedCount(bs[..j + 1]) == UsedCount(bs[..j]))
  {
    assert FreeList([]) == [] && UsedCount([]) == 0;
    hide FreeList, UsedCount;
    var l, b, r := bs[..j], bs[j], bs[j + 1..];
    assert bs == l + [b] + r && bs[..j + 1] == l + [b] + [];
    Cut(l, b, r);
    Cut(l, b, []);
  }

  lemma {:induction false} LargestSnoc(f: seq<Block>, r: int, b: Block)
    requires IsLargest(f, r) && Room(b) >= 0
    ensures IsLargest(f + [b], if Room(b) > r then Room(b) else r)
    ensures TotalRoom(f + [b]) == TotalRoom(f) + Room(b)
  {
    var g := f + [b];
    assert g[|f|] == b && g[..|f|] == f;
    if f != [] {
      var k :| 0 <= k < |f| && Room(f[k]) == r;
      assert Room(g[k]) == r;
    }
    forall k | 0 <= k < |g| ensures Room(g[k]) <= if Room(b) > r then Room(b) else r {
      if k < |f| { assert g[k] == f[k]; }
    }
    if Room(b) > r || f == [] { assert Room(g[|f|]) == Room(b); }
  }

  /** All of the prefix of blocks before j that is free carries the FREE tag. */
  ghost predicate IntactUpTo(m: seq<Word>, bs: seq<Block>, j: nat) {
    forall i :: 0 <= i < j && i < |bs| && !bs[i].used ==> 0 < bs[i].len && bs[i].End() <= |m| && Tag(m, bs[i]) == TAG_FREE
  }

  lemma IntactWhole(m: seq<Word>, bs: seq<Block>)
    ensures IntactUpTo(m, bs, |bs|) <==> FreeTagsIntact(m, bs)
  {
    if IntactUpTo(m, bs, |bs|) {
      forall b | b in bs && !b.used ensures 0 < b.len && b.End() <= |m| && Tag(m, b) == TAG_FREE {
        var i :| 0 <= i < |bs| && bs[i] == b;
      }
    }
  }

  /** The walk over the region from ALIGN_UP(base) to the top. It reports a valid heap exactly when
      every free block still carries its tag, and then its counts are exact. */
  method HeapStatus(h: Heap) returns (st: Status)
    requires h.Valid()
    ensures st.size == h.size
    ensures st.valid <==> FreeTagsIntact(h.mem[..], h.blocks)
    ensures st.valid ==>
              && st.usedBlock == UsedCount(h.blocks)
              && st.freeBlock == |FreeList(h.blocks)|
              && st.free == TotalRoom(FreeList(h.blocks))
              && IsLargest(FreeList(h.blocks), st.freeLargest)
  {
    hide Rep, FreeList, UsedCount, TotalRoom, IsLargest, FreeTagsIntact, FreeBytes, Marks;
    st := Status(h.size, 0, 0, false, 0, 0);
    var addr, top := AlignUp(h.base), AlignDown(h.base + h.size);
    var cursor := h.freeList;
    ghost var m, bs, lo, hi, head := h.mem[..], h.blocks, h.Lo(), h.Hi(), h.freeList;
    ghost var j := 0;
    WalkStart(m, bs, lo, hi, head);
    while addr < top
      invariant 0 <= j <= |bs| && (j < |bs| ==> addr == 8 * bs[j].pos) && (j == |bs| ==> addr == top)
      invariant |FreeList(bs[..j])| <= |FreeList(bs)| && cursor == Ptr(FreeList(bs), |FreeList(bs[..j])|)
      invariant IntactUpTo(m, bs, j)
      invariant st.size == h.size && !st.valid && st.usedBlock == UsedCount(bs[..j]) && st.freeBlock == |FreeList(bs[..j])|
      invariant st.free == TotalRoom(FreeList(bs[..j])) && IsLargest(FreeList(bs[..j]), st.freeLargest)
      decreases |bs| - j
    {
      WalkStep(m, bs, lo, hi, head, j);
      var size := Num(h.mem[addr / 8]);
      var dog := h.mem[(addr + size - 1) / 8].top;
      assert dog == Tag(m, bs[j]);
      var fault := if dog == TAG_USE then (if addr == cursor then 1 else 0)
                   else if dog == TAG_FREE then (if addr != cursor then 2 else 0) else 3;
      if fault != 0 {
        IntactWhole(m, bs);
        return;
      }
      if dog == TAG_USE {
        st := st.(usedBlock := st.usedBlock + 1);
      } else {
        var room := size - 8 - 1;
        LargestSnoc(FreeList(bs[..j]), st.freeLargest, bs[j]);
        st := st.(free := st.free + room, freeLargest := if room > st.freeLargest then room else st.freeLargest,
                  freeBlock := st.freeBlock + 1);
        cursor := Num(h.mem[addr / 8 + 1]);
      }
      addr := addr + size;
      j := j + 1;
    }
    if j < |bs| {
      AtBlock(m, bs, lo, hi, head, j);
      assert false;
    }
    assert bs[..j] == bs;
    IntactWhole(m, bs);
    if addr == top && cursor == 0 {
      st := st.(valid := true);
    }
  }

  lemma {:induction false} WalkStart(m: seq<Word>, bs: seq<Block>, lo: nat, hi: nat, head: nat)
    requires Rep(m, bs, lo, hi, head)
    ensures |bs| > 0 && bs[0].pos == lo && head == Ptr(FreeList(bs), 0)
    ensures bs[..0] == [] && FreeList(bs[..0]) == [] && UsedCount(bs[..0]) == 0 && TotalRoom(FreeList(bs[..0])) == 0
    ensures IsLargest(FreeList(bs[..0]), 0)
  {
  }

  /** One step of the walk: what is read at block j and where the next block is. */
  lemma {:induction false} WalkStep(m: seq<Word>, bs: seq<Block>, lo: nat, hi: nat, head: nat, j: nat)
    requires Rep(m, bs, lo, hi, head) && j < |bs|
    ensures var f, k, b := FreeList(bs), |FreeList(bs[..j])|, bs[j];
            && k <= |f| && BlockOk(m, b) && b.pos + 1 < |m|
            && (b.used ==> Ptr(f, k) != 8 * b.pos && FreeList(bs[..j + 1]) == FreeList(bs[..j]) && UsedCount(bs[..j + 1]) == UsedCount(bs[..j]) + 1)
            && (!b.used ==> && Ptr(f, k) == 8 * b.pos && k + 1 <= |f| && FreeList(bs[..j + 1]) == FreeList(bs[..j]) + [b]
                            && UsedCount(bs[..j + 1]) == UsedCount(bs[..j]) && Num(m[b.pos + 1]) == Ptr(f, k + 1))
    ensures if j + 1 < |bs| then bs[j + 1].pos == bs[j].End() else bs[j].End() == hi
    ensures j + 1 == |bs| ==> FreeList(bs[..j + 1]) == FreeList(bs)
  {
    AtBlock(m, bs, lo, hi, head, j);
    assert j + 1 == |bs| ==> bs[..j + 1] == bs;
    var f, k := FreeList(bs), |FreeList(bs[..j])|;
    if !bs[j].used { assert f[..k + 1] == f[..k] + [f[k]]; }
  }
}
