/** The allocator of `tuya_mem_heap.c` working on memory words. */
module MemHeap {
  import opened Basics
  import opened Words
  import opened HeapSpec
  import opened HeapLayout

  /** The block no heap has: an operation that preserves all but this preserves all used blocks. */
  const NOTHING: Block := Block(0, 0, false)

  const ULONG: nat := 0x1_0000_0000_0000_0000

  function AlignUp(x: nat): nat { (x + 7) / 8 * 8 }
  function AlignDown(x: nat): nat { x / 8 * 8 }

  /** The next and the last multiple of eight. */
  lemma AlignExact(x: nat)
    ensures AlignUp(x) % 8 == 0 && x <= AlignUp(x) < x + 8
    ensures AlignDown(x) % 8 == 0 && AlignDown(x) <= x < AlignDown(x) + 8
  {
  }

  /** The request as the code rounds it first: at least 4 bytes. */
  function AtLeast4(size: nat): nat { if size < 4 then 4 else size }

  /** Bytes of the block that serves a request, in 64-bit unsigned arithmetic with wrap-around. */
  function BlockSize(size: nat): nat {
    (AlignDown((AtLeast4(size) + 1 + 7) % ULONG) + 8) % ULONG
  }

  /** Bytes of the aligned part of a region, as `mem_heap_init` computes them in 64 bits. */
  function InitSize(ptr: nat, bytes: nat): nat
    requires bytes < ULONG
  {
    AlignDown((bytes + ULONG - (AlignUp(ptr) - ptr)) % ULONG)
  }

  /** That is the size from ALIGN_UP(base) to ALIGN_DOWN(base + size) exactly when the region reaches
      its aligned beginning; otherwise the subtraction wraps to a size no memory has. */
  lemma InitSizeExact(ptr: nat, bytes: nat)
    requires ptr + bytes < ULONG
    ensures AlignUp(ptr) <= ptr + bytes ==> InitSize(ptr, bytes) == AlignDown(ptr + bytes) - AlignUp(ptr)
    ensures AlignUp(ptr) > ptr + bytes ==> InitSize(ptr, bytes) == ULONG - 8
  {
  }

  /** The overflow test catches exactly the requests for which the arithmetic wraps; for all others
      the block has a header, the requested bytes and the tag byte, and fewer than 8 bytes more. */
  lemma BlockSizeHolds(size: nat)
    requires size < ULONG
    ensures BlockSize(size) < AtLeast4(size) <==> size >= ULONG - 16
    ensures size < ULONG - 16 ==>
              && BlockSize(size) % 8 == 0 && BlockSize(size) >= 16
              && 8 + AtLeast4(size) + 1 <= BlockSize(size) < 8 + AtLeast4(size) + 1 + 8
    ensures 8 <= size < ULONG - 16 ==> BlockSize(size) >= 24
  {
    var s := AtLeast4(size);
    if size < ULONG - 16 {
      assert (s + 8) % ULONG == s + 8 && BlockSize(size) == AlignDown(s + 8) + 8;
    } else if s + 8 < ULONG {
      assert (s + 8) % ULONG == s + 8 && AlignDown(s + 8) == ULONG - 8;
    } else {
      assert (s + 8) % ULONG == s + 8 - ULONG < 8 && AlignDown(s + 8 - ULONG) == 0;
    }
  }

  /** The least number in a history. */
  ghost function Lowest(h: seq<int>): (x: int)
    requires h != []
    ensures x in h && forall y :: y in h ==> x <= y
  {
    var last := h[|h| - 1];
    if |h| == 1 then last else var x := Lowest(h[..|h| - 1]); assert h == h[..|h| - 1] + [last]; if last < x then last else x
  }

  lemma LowestSnoc(h: seq<int>, x: int)
    requires h != []
    ensures Lowest(h + [x]) == if x < Lowest(h) then x else Lowest(h)
  {
    assert (h + [x])[..|h|] == h;
  }

  /** A counter and its low-water mark against all values the counter has had: the last is the
      present one, the least the mark. */
  ghost predicate Marks(free: int, watermark: int, history: seq<int>) {
    history != [] && history[|history| - 1] == free && watermark == Lowest(history)
  }

  lemma MarkBelow(free: int, watermark: int, history: seq<int>)
    requires Marks(free, watermark, history)
    ensures watermark <= free
  {
  }

  lemma FirstMark(free: int)
    ensures Marks(free, free, [free])
  {
  }

  /** The allocator's counters over all heaps: `s_heap_free_size` and its low-water mark, which starts
      anew at every creation of a heap. */
  class Totals {
    var freeSize: int
    var watermark: int
    ghost var history: seq<int>   // values of freeSize since the last heap was created

    ghost predicate Valid()
      reads this
    {
      Marks(freeSize, watermark, history)
    }

    constructor ()
      ensures freeSize == 0 && Valid()
    {
      freeSize, watermark, history := 0, 0, [0];
    }
  }

  /** One heap descriptor over the shared memory. Pointers are byte addresses; NULL is 0. */
  class Heap {
    const mem: array<Word>
    const totals: Totals
    var base: nat
    var size: nat
    var freeList: nat
    var free: int
    var watermark: int
    ghost var blocks: seq<Block>
    ghost var history: seq<int>   // values of `free` since creation

    /** The region in words: ALIGN_UP(base) .. ALIGN_DOWN(base + size). */
    ghost function Lo(): nat
      reads this
    {
      AlignUp(base) / 8
    }

    ghost function Hi(): nat
      reads this
    {
      AlignDown(base + size) / 8
    }

    ghost predicate Valid()
      reads this, mem
    {
      && size > 0
      && Rep(mem[..], blocks, Lo(), Hi(), freeList)
      && free == FreeBytes(blocks)
      && Marks(free, watermark, history)
    }

    /** A descriptor of the static table: all zero, not in use. */
    constructor (mem: array<Word>, totals: Totals)
      ensures this.mem == mem && this.totals == totals && size == 0 && free == 0 && blocks == []
    {
      this.mem, this.totals := mem, totals;
      base, size, freeList, free, watermark, blocks, history := 0, 0, 0, 0, 0, [], [];
    }

    /** The chunk search of `mem_chunk_get` along the list f that starts at `head`: the chosen block
        and the list entry before it. */
    static method FindChunk(mem: array<Word>, head: nat, bytes: nat, ghost f: seq<Block>, ghost n: nat) returns (pre: nat, cur: nat)
      requires Entries(mem[..], f) && head == Ptr(f, 0) && (f != [] ==> head > 0) && bytes == 8 * n
      ensures match Pick(f, n)
              case None => cur == 0
              case Some(k) => cur == Ptr(f, k) && cur > 0 && pre == if k == 0 then 0 else Ptr(f, k - 1)
    {
      ghost var k := 0;
      pre, cur := 0, head;
      while cur != 0
        invariant 0 <= k <= |f| && cur == Ptr(f, k)
        invariant cur == 0 <==> k == |f|
        invariant pre == if k == 0 then 0 else Ptr(f, k - 1)
        invariant FirstFit(f, n, 0) == FirstFit(f, n, k)
        decreases |f| - k
      {
        assert Entry(mem[..], f, k);
        if Num(mem[cur / 8]) >= bytes {
          pre, cur := Improving(mem, bytes, f, n, k, pre, cur);
          return;
        }
        pre, cur := cur, Num(mem[cur / 8 + 1]);
        k := k + 1;
      }
    }

    /** The inner loop of the search: prefer a later block that fits and is no larger. */
    static method Improving(mem: array<Word>, bytes: nat, ghost f: seq<Block>, ghost n: nat, ghost first: nat, pre0: nat, cur0: nat) returns (pre: nat, cur: nat)
      requires Entries(mem[..], f) && bytes == 8 * n
      requires first < |f| && f[first].len >= n && cur0 == Ptr(f, first)
      requires pre0 == if first == 0 then 0 else Ptr(f, first - 1)
      ensures var k := Improve(f, n, first, first + 1, 0).0;
              && cur == Ptr(f, k) && cur > 0 && pre == if k == 0 then 0 else Ptr(f, k - 1)
    {
      assert Entry(mem[..], f, first);
      pre, cur := pre0, cur0;
      var preBak, curBak := cur, Num(mem[cur / 8 + 1]);
      var found := 0;
      ghost var best, k := first, first + 1;
      while curBak != 0
        invariant 0 <= best < k <= |f| && f[best].len >= n && f[best].pos > 0
        invariant curBak == Ptr(f, k) && (curBak == 0 <==> k == |f|) && preBak == Ptr(f, k - 1)
        invariant cur == Ptr(f, best) && pre == if best == 0 then 0 else Ptr(f, best - 1)
        invariant 0 <= found < FIND_DEPTH
        invariant Improve(f, n, first, first + 1, 0) == Improve(f, n, best, k, found)
        decreases |f| - k
      {
        assert Entry(mem[..], f, k) && Entry(mem[..], f, best);
        if Num(mem[curBak / 8]) >= bytes && Num(mem[curBak / 8]) <= Num(mem[cur / 8]) {
          cur, pre, found := curBak, preBak, found + 1;
          best := k;
        }
        if found >= FIND_DEPTH {
          break;
        }
        preBak, curBak := curBak, Num(mem[curBak / 8 + 1]);
        k := k + 1;
      }
    }

    /** Carve a used block off the end of free block b. */
    static method Split(mem: array<Word>, cur: nat, bytes: nat, ghost b: Block, ghost n: nat) returns (p: nat)
      requires BlockOk(mem[..], b) && cur == 8 * b.pos && 8 * b.len < ADDR_LIMIT
      requires bytes == 8 * n && 2 <= n && b.len - n >= MIN_SPLIT
      modifies mem
      ensures SplitWrites(old(mem[..]), mem[..], b, n)
      ensures p == 8 * (b.pos + b.len - n) && Num(mem[p / 8]) == bytes
    {
      ghost var m := mem[..];
      var rest := Num(mem[cur / 8]) - bytes;
      mem[cur / 8] := FromNum(rest);
      var dog := (cur + rest - 1) / 8;
      mem[dog] := mem[dog].(top := TAG_FREE);
      assert cur / 8 == b.pos && rest == 8 * (b.len - n) && dog == b.pos + b.len - n - 1;
      ghost var m1 := mem[..];
      assert m1 == Ended(m[b.pos := FromNum(rest)], dog, TAG_FREE);
      p := cur + rest;
      mem[p / 8] := FromNum(bytes);
      dog := (p + bytes - 1) / 8;
      mem[dog] := mem[dog].(top := TAG_USE);
      assert p / 8 == b.pos + b.len - n && dog == b.End() - 1;
      assert mem[..] == Ended(m1[p / 8 := FromNum(bytes)], dog, TAG_USE);
      SplitStores(m, m1, mem[..], b, n);
    }

    /** A tag stored in the last byte of word w. */
    static ghost function Ended(m: seq<Word>, w: nat, tag: byte): seq<Word>
      requires w < |m|
    {
      m[w := m[w].(top := tag)]
    }

    /** What the four stores of a split come to. */
    static lemma SplitStores(m: seq<Word>, m1: seq<Word>, m2: seq<Word>, b: Block, n: nat)
      requires BlockOk(m, b) && 8 * b.len < ADDR_LIMIT && 2 <= n && b.len - n >= MIN_SPLIT
      requires m1 == Ended(m[b.pos := FromNum(8 * (b.len - n))], b.pos + b.len - n - 1, TAG_FREE)
      requires m2 == Ended(m1[b.pos + b.len - n := FromNum(8 * n)], b.End() - 1, TAG_USE)
      ensures SplitWrites(m, m2, b, n) && Num(m2[b.pos + b.len - n]) == 8 * n
    {
    }

    /** Tag all of free block b as used. */
    static method TagUsed(mem: array<Word>, cur: nat, ghost b: Block)
      requires BlockOk(mem[..], b) && cur == 8 * b.pos
      modifies mem
      ensures mem[..] == old(mem[..])[b.End() - 1 := old(mem[..])[b.End() - 1].(top := TAG_USE)]
      ensures BlockOk(mem[..], Block(b.pos, b.len, true)) && Num(mem[cur / 8]) == 8 * b.len
    {
      var dog := (cur + Num(mem[cur / 8]) - 1) / 8;
      assert dog == b.End() - 1;
      mem[dog] := mem[dog].(top := TAG_USE);
    }

    /** Split free block i of a heap. */
    static method SplitChunk(mem: array<Word>, cur: nat, bytes: nat,
                             ghost bs: seq<Block>, ghost lo: nat, ghost hi: nat, ghost head: nat, ghost i: nat, ghost n: nat)
      returns (p: nat)
      requires Rep(mem[..], bs, lo, hi, head) && i < |bs| && !bs[i].used && cur == 8 * bs[i].pos
      requires bytes == 8 * n && 2 <= n && bs[i].len - n >= MIN_SPLIT
      modifies mem
      ensures Rep(mem[..], AllocAt(bs, i, n), lo, hi, head)
      ensures Preserves(old(mem[..]), mem[..], bs, lo, hi, NOTHING)
      ensures TagsBut(old(mem[..]), mem[..], bs, AllocAt(bs, i, n), bs[i].pos, TAG_FREE)
      ensures p == 8 * AllocAt(bs, i, n)[i + 1].pos && p > 0
    {
      hide Rep, TagsBut;
      ghost var m := mem[..];
      BlockFacts(m, bs, lo, hi, head, bs[i]);
      p := Split(mem, cur, bytes, bs[i], n);
      LayoutSplit(m, mem[..], bs, lo, hi, head, i, n);
    }

    /** Unlink free block i of a heap and hand it out whole. */
    static method TakeChunk(mem: array<Word>, head: nat, pre: nat, cur: nat,
                            ghost bs: seq<Block>, ghost lo: nat, ghost hi: nat, ghost i: nat, ghost n: nat)
      returns (head': nat)
      requires Rep(mem[..], bs, lo, hi, head) && i < |bs| && !bs[i].used && cur == 8 * bs[i].pos
      requires 2 <= n <= bs[i].len && bs[i].len - n < MIN_SPLIT
      requires var k := |FreeList(bs[..i])|; pre == if k == 0 then 0 else Ptr(FreeList(bs), k - 1)
      modifies mem
      ensures Rep(mem[..], AllocAt(bs, i, n), lo, hi, head')
      ensures Preserves(old(mem[..]), mem[..], bs, lo, hi, NOTHING)
      ensures TagsBut(old(mem[..]), mem[..], bs, AllocAt(bs, i, n), bs[i].pos, TAG_FREE)
    {
      hide Rep, FreeList, TagsBut, AllocAt, Ascending;
      ghost var m, f, k := mem[..], FreeList(bs), |FreeList(bs[..i])|;
      ghost var x := if k == 0 then bs[i].pos else Ptr(f, k - 1) / 8 + 1;
      UnlinkFacts(m, bs, lo, hi, head, i);
      head' := Unlink(mem, head, pre, cur, f, k, x);
      TagUsed(mem, cur, bs[i]);
      LayoutTake(m, mem[..], bs, lo, hi, head, head', i, n, x);
    }

    static lemma {:induction false} UnlinkFacts(m: seq<Word>, bs: seq<Block>, lo: nat, hi: nat, head: nat, i: nat)
      requires Rep(m, bs, lo, hi, head) && i < |bs| && !bs[i].used
      ensures var f, k := FreeList(bs), |FreeList(bs[..i])|;
              && Entries(m, f) && Ascending(f) && k < |f| && f[k] == bs[i]
              && head == Ptr(f, 0) && Ptr(f, k + 1) < ADDR_LIMIT && BlockOk(m, f[k])
              && (k > 0 ==> lo <= f[k - 1].pos && f[k - 1].End() <= hi)
              && lo <= bs[i].pos && bs[i].End() <= hi
    {
      BlockFacts(m, bs, lo, hi, head, bs[i]);
      ListEntries(m, bs, lo, hi, head);
      FreeListAscends(bs, lo, hi);
      FreePlace(bs, i);
      var k := |FreeList(bs[..i])|;
      PtrBound(m, bs, lo, hi, head, k + 1);
      if k > 0 { FreeEntry(m, bs, lo, hi, head, k - 1); }
    }

    /** Make the list entry before entry k, or the list head, skip entry k. */
    static method Unlink(mem: array<Word>, head: nat, pre: nat, cur: nat, ghost f: seq<Block>, ghost k: nat, ghost x: nat)
      returns (head': nat)
      requires Entries(mem[..], f) && Ascending(f) && k < |f| && head == Ptr(f, 0) && Ptr(f, k + 1) < ADDR_LIMIT
      requires cur == Ptr(f, k) && pre == if k == 0 then 0 else Ptr(f, k - 1)
      requires x == if k == 0 then f[k].pos else Ptr(f, k - 1) / 8 + 1
      requires BlockOk(mem[..], f[k])
      modifies mem
      ensures Skips(mem[..], f, k, head, head', x)
      ensures SameOutside(old(mem[..]), mem[..], f[k].pos, f[k].pos, if k == 0 then mem.Length else x)
      ensures BlockOk(mem[..], f[k])
    {
      ghost var m := mem[..];
      assert Entry(m, f, k);
      if pre != 0 {
        assert Entry(m, f, k - 1);
        mem[pre / 8 + 1] := FromNum(Num(mem[cur / 8 + 1]));
        head' := head;
        BlockFrame(m, mem[..], f[k]);
      } else {
        assert k > 0 ==> Entry(m, f, k - 1);
        head' := Num(mem[cur / 8 + 1]);
      }
    }

    /** `mem_chunk_get`: find a chunk for a request and split or unlink it. */
    method ChunkGet(bytes: nat, ghost n: nat) returns (p: nat)
      requires Valid() && bytes == 8 * n && n >= 2
      modifies this`freeList, this`blocks, mem
      ensures Rep(mem[..], blocks, Lo(), Hi(), freeList)
      ensures blocks == Alloc(old(blocks), n).0
      ensures match Alloc(old(blocks), n).1
              case None => p == 0 && mem[..] == old(mem[..]) && freeList == old(freeList)
              case Some(b) => p == 8 * b.pos && p > 0 && b in blocks && b.used
      ensures Preserves(old(mem[..]), mem[..], old(blocks), Lo(), Hi(), NOTHING)
      ensures TagsBut(old(mem[..]), mem[..], old(blocks), blocks, PickedFrom(old(blocks), n), TAG_FREE)
    {
      hide Rep, FreeList, TagsBut;
      ListEntries(mem[..], blocks, Lo(), Hi(), freeList);
      var pre, cur := FindChunk(mem, freeList, bytes, FreeList(blocks), n);
      if cur == 0 {
        SameTags(mem[..], blocks, Lo(), Hi(), freeList);
        return 0;
      }
      ghost var k := Pick(FreeList(blocks), n).value;
      ghost var i := Spot(blocks, k);
      SpotSplits(blocks, k);
      assert Entry(mem[..], FreeList(blocks), k);
      if Num(mem[cur / 8]) - bytes >= 8 * MIN_SPLIT {
        p := SplitChunk(mem, cur, bytes, blocks, Lo(), Hi(), freeList, i, n);
      } else {
        freeList := TakeChunk(mem, freeList, pre, cur, blocks, Lo(), Hi(), i, n);
        p := cur;
      }
      blocks := AllocAt(blocks, i, n);
    }

    /** `mem_heap_init`: make the aligned part of a region one free block. */
    method Init(ptr: nat, bytes: nat) returns (rc: int)
      requires 0 < ptr && ptr + bytes <= ADDR_LIMIT && ptr + bytes <= 8 * mem.Length
      requires AlignUp(ptr) <= ptr + bytes
      modifies this, mem, totals
      ensures rc == 0 <==> AlignDown(ptr + bytes) - AlignUp(ptr) >= 32
      ensures rc != 0 ==> mem[..] == old(mem[..]) && free == old(free) && blocks == old(blocks)
                          && totals.freeSize == old(totals.freeSize) && totals.watermark == old(totals.watermark) && totals.history == old(totals.history)
      ensures rc == 0 ==>
                && Valid() && base == ptr && size == bytes && 8 * Lo() == AlignUp(ptr) && 8 * Hi() == AlignDown(ptr + bytes)
                && blocks == [Block(Lo(), Hi() - Lo(), false)]
                && free == watermark == 8 * (Hi() - Lo()) && history == [free]
                && totals.freeSize == old(totals.freeSize) + free && totals.watermark == totals.freeSize && totals.Valid()
                && FreeTagsIntact(mem[..], blocks)
                && SameOutside(old(mem[..]), mem[..], Lo(), Hi(), Lo())
    {
      hide Rep, FreeTagsIntact, FreeBytes, AlignUp, AlignDown, Marks, Lowest, InitSize;
      base, size := ptr, bytes;
      var p := AlignUp(ptr);
      AlignedRegion(ptr, bytes);
      var s := InitSize(ptr, bytes);
      InitSizeExact(ptr, bytes);
      if s < 8 * MIN_SPLIT {
        return -1;
      }
      freeList := p;
      ghost var b := Block(p / 8, s / 8, false);
      WriteSingle(p, s, b);
      free, watermark, history := s, s, [s];
      totals.freeSize := totals.freeSize + s;
      totals.watermark, totals.history := totals.freeSize, [totals.freeSize];
      blocks := [b];
      FirstMark(free);
      FirstMark(totals.freeSize);
      rc := 0;
    }

    /** The header, link and tag of the one free block. */
    method WriteSingle(p: nat, s: nat, ghost b: Block)
      requires b == Block(p / 8, s / 8, false) && p == 8 * b.pos && s == 8 * b.len
      requires 0 < b.pos && b.End() <= mem.Length && 8 * b.End() <= ADDR_LIMIT && MIN_SPLIT <= b.len
      modifies mem
      ensures Rep(mem[..], [b], b.pos, b.End(), p) && FreeTagsIntact(mem[..], [b]) && FreeBytes([b]) == s
      ensures SameOutside(old(mem[..]), mem[..], b.pos, b.End(), b.pos)
    {
      hide Rep, FreeTagsIntact, FreeBytes;
      mem[p / 8 + 1] := FromNum(0);
      mem[p / 8] := FromNum(s);
      var dog := (p + s - 1) / 8;
      assert dog == b.End() - 1;
      mem[dog] := mem[dog].(top := TAG_FREE);
      assert mem[..][b.pos] == mem[b.pos] && mem[..][b.pos + 1] == mem[b.pos + 1] && mem[..][dog] == mem[dog];
      LayoutSingle(mem[..], b);
    }

    static lemma LayoutSingle(m: seq<Word>, b: Block)
      requires !b.used && 0 < b.pos && b.End() <= |m| && 8 * b.End() <= ADDR_LIMIT && MIN_SPLIT <= b.len
      requires Num(m[b.pos]) == 8 * b.len && Num(m[b.pos + 1]) == 0 && Tag(m, b) == TAG_FREE
      ensures Rep(m, [b], b.pos, b.End(), 8 * b.pos) && FreeTagsIntact(m, [b]) && FreeBytes([b]) == 8 * b.len
    {
      assert [b][1..] == [];
    }

    static lemma AlignedRegion(ptr: nat, bytes: nat)
      requires AlignUp(ptr) <= ptr + bytes
      ensures var p, s := AlignUp(ptr), AlignDown(bytes - (AlignUp(ptr) - ptr));
              && p == 8 * (p / 8) && s == 8 * (s / 8) && ptr <= p
              && p + s == AlignDown(ptr + bytes) == 8 * (AlignDown(ptr + bytes) / 8) <= ptr + bytes
    {
    }

    /** `MEM_Allocate`: a block for `request` bytes, or NULL. */
    method Allocate(request: nat) returns (p: nat)
      requires Valid() && request < ULONG
      modifies this`freeList, this`blocks, this`free, this`watermark, this`history, mem, totals
      ensures Valid() && (old(totals.Valid()) ==> totals.Valid())
      ensures AllocOutcome(old(blocks), request, blocks, p)
      ensures p == 0 ==> mem[..] == old(mem[..]) && blocks == old(blocks)
      ensures Preserves(old(mem[..]), mem[..], old(blocks), Lo(), Hi(), NOTHING)
      ensures TagsBut(old(mem[..]), mem[..], old(blocks), blocks, TakenFrom(old(blocks), request), TAG_FREE)
      ensures FreeTagsIntact(old(mem[..]), old(blocks)) ==> FreeTagsIntact(mem[..], blocks)
      ensures free <= old(free) && watermark == if free < old(watermark) then free else old(watermark)
      ensures totals.freeSize == old(totals.freeSize) - (old(free) - free)
      ensures totals.watermark == if p != 0 && totals.freeSize < old(totals.watermark) then totals.freeSize else old(totals.watermark)
      ensures history == if p == 0 then old(history) else old(history) + [free]
    {
      hide Rep, FreeTagsIntact, FreeList, FreeBytes, Alloc, BlockSize, Preserves, TagsBut, PickedFrom, WellFormed, Marks, Totals.Valid;
      MarkBelow(free, watermark, history);
      var bytes := BlockSize(request);
      BlockSizeHolds(request);
      if request == 0 || bytes < AtLeast4(request) {
        NothingChanged(mem[..], blocks, Lo(), Hi());
        SameTags(mem[..], blocks, Lo(), Hi(), freeList);
        return 0;
      }
      p := Serve(bytes, bytes / 8);
    }

    /** The rest of an allocation, for a block of n words: take a chunk and count it. */
    method Serve(bytes: nat, ghost n: nat) returns (p: nat)
      requires Valid() && bytes == 8 * n && n >= 2
      modifies this`freeList, this`blocks, this`free, this`watermark, this`history, mem, totals
      ensures Valid() && (old(totals.Valid()) ==> totals.Valid()) && blocks == Alloc(old(blocks), n).0
      ensures match Alloc(old(blocks), n).1
              case None => p == 0
              case Some(b) => p == 8 * b.pos + 8 && b.used && b in blocks && n <= b.len < n + MIN_SPLIT
      ensures p == 0 ==> mem[..] == old(mem[..]) && blocks == old(blocks)
      ensures Preserves(old(mem[..]), mem[..], old(blocks), Lo(), Hi(), NOTHING)
      ensures TagsBut(old(mem[..]), mem[..], old(blocks), blocks, PickedFrom(old(blocks), n), TAG_FREE)
      ensures FreeTagsIntact(old(mem[..]), old(blocks)) ==> FreeTagsIntact(mem[..], blocks)
      ensures free <= old(free) && watermark == if free < old(watermark) then free else old(watermark)
      ensures totals.freeSize == old(totals.freeSize) - (old(free) - free)
      ensures totals.watermark == if p != 0 && totals.freeSize < old(totals.watermark) then totals.freeSize else old(totals.watermark)
      ensures history == if p == 0 then old(history) else old(history) + [free]
    {
      hide Rep, FreeTagsIntact, FreeList, FreeBytes, Alloc, Preserves, TagsBut, PickedFrom, WellFormed, Marks, Totals.Valid;
      MarkBelow(free, watermark, history);
      ghost var m, bs := mem[..], blocks;
      ShapeOf(m, bs, Lo(), Hi(), freeList);
      AllocResult(bs, Lo(), Hi(), n);
      var block := ChunkGet(bytes, n);
      if FreeTagsIntact(m, bs) { TagsButIntact(m, mem[..], bs, blocks, PickedFrom(bs, n), TAG_FREE); }
      if block == 0 {
        return 0;
      }
      BlockFacts(mem[..], blocks, Lo(), Hi(), freeList, Alloc(bs, n).1.value);
      Charge(Num(mem[block / 8]));
      p := block + 8;
    }

    /** The counters after a block of `got` bytes was handed out. */
    method Charge(got: nat)
      requires Marks(free, watermark, history)
      modifies this`free, this`watermark, this`history, totals
      ensures history == old(history) + [free] && Marks(free, watermark, history) && (old(totals.Valid()) ==> totals.Valid())
      ensures free == old(free) - got && watermark == if old(watermark) > free then free else old(watermark)
      ensures totals.freeSize == old(totals.freeSize) - got
      ensures totals.watermark == if old(totals.watermark) > totals.freeSize then totals.freeSize else old(totals.watermark)
    {
      free := free - got;
      if watermark > free {
        watermark := free;
      }
      totals.freeSize := totals.freeSize - got;
      if totals.watermark > totals.freeSize {
        totals.watermark := totals.freeSize;
      }
      Record();
    }

    /** The counters after a block of `bytes` bytes was given back; the marks stay. */
    method Credit(bytes: nat)
      requires Marks(free, watermark, history)
      modifies this`free, this`history, totals`freeSize, totals`history
      ensures free == old(free) + bytes && totals.freeSize == old(totals.freeSize) + bytes
      ensures history == old(history) + [free] && Marks(free, watermark, history) && (old(totals.Valid()) ==> totals.Valid())
    {
      free := free + bytes;
      totals.freeSize := totals.freeSize + bytes;
      Record();
    }

    /** The new values of the counters enter their histories. */
    ghost method Record()
      requires history != []
      modifies this`history, totals`history
      ensures history == old(history) + [free] && Lowest(history) == if free < Lowest(old(history)) then free else Lowest(old(history))
      ensures totals.history == old(totals.history) + [totals.freeSize]
      ensures old(totals.history) != [] ==>
                Lowest(totals.history) == if totals.freeSize < Lowest(old(totals.history)) then totals.freeSize else Lowest(old(totals.history))
    {
      LowestSnoc(history, free);
      if totals.history != [] { LowestSnoc(totals.history, totals.freeSize); }
      history := history + [free];
      totals.history := totals.history + [totals.freeSize];
    }

    /** The list search of `MEM_Deallocate`: the entries before and after a block at place k. */
    static method FindPlace(mem: array<Word>, head: nat, fb: nat, ghost f: seq<Block>, ghost k: nat) returns (pre: nat, next: nat)
      requires Entries(mem[..], f) && head == Ptr(f, 0) && (f != [] ==> head > 0) && k <= |f|
      requires (forall j :: 0 <= j < k ==> 8 * f[j].pos < fb) && (forall j :: k <= j < |f| ==> fb < 8 * f[j].pos)
      ensures next == Ptr(f, k) && (next == 0 <==> k == |f|)
      ensures (pre == 0 <==> k == 0) && (k > 0 ==> pre == Ptr(f, k - 1))
    {
      ghost var j := 0;
      pre, next := 0, head;
      while next != 0 && next < fb
        invariant 0 <= j <= k && next == Ptr(f, j) && (next == 0 <==> j == |f|)
        invariant (pre == 0 <==> j == 0) && (j > 0 ==> pre == Ptr(f, j - 1))
        decreases |f| - j
      {
        assert Entry(mem[..], f, j);
        pre, next := next, Num(mem[next / 8 + 1]);
        j := j + 1;
      }
    }

    /** What `Release` needs to know about the block b it frees and its place k in the list. */
    static ghost predicate Freeing(m: seq<Word>, f: seq<Block>, k: nat, b: Block, hi: nat) {
      && Entries(m, f) && Ascending(f) && k <= |f|
      && b.pos > 0 && b.len >= 2 && b.End() <= hi <= |m| && 8 * hi <= ADDR_LIMIT
      && Num(m[b.pos]) == 8 * b.len
      && (forall j :: 0 <= j < |f| ==> f[j].End() <= hi)
      && (forall j :: 0 <= j < k ==> f[j].End() <= b.pos)
      && (forall j :: k <= j < |f| ==> b.End() <= f[j].pos)
    }


    /** Whether block b at place k touches the list entries before and after it, and what it melts
        into with those it touches. */
    static ghost function Touch(f: seq<Block>, k: nat, b: Block): (bool, bool)
      requires k <= |f|
    {
      (k > 0 && f[k - 1].End() == b.pos, k < |f| && f[k].pos == b.End())
    }

    static ghost function Melt(f: seq<Block>, k: nat, b: Block): Block
      requires k <= |f|
    {
      var (left, right) := Touch(f, k, b);
      Block(if left then f[k - 1].pos else b.pos,
            (if left then f[k - 1].len else 0) + b.len + (if right then f[k].len else 0), false)
    }

    /** The memory after block b, tagged free, is linked into the list or melted into the entry
        before it: `cur` is the block that now holds b. */
    static ghost predicate LinkedIn(m: seq<Word>, m': seq<Word>, f: seq<Block>, k: nat, b: Block, head: nat, head': nat, cur: nat, x: nat)
      requires k <= |f| && b.len >= 2 && b.End() <= |m|
    {
      var left := Touch(f, k, b).0;
      var from := if left then f[k - 1].pos else b.pos;
      && cur == 8 * from
      && SameOutside(m, m', from, b.pos + 2, x)
      && Num(m'[b.pos + 1]) == Ptr(f, k)
      && from + 1 < |m'| && Num(m'[from]) == 8 * (b.End() - from) && Num(m'[from + 1]) == Ptr(f, k)
      && Joins(m', f, if left then k - 1 else k, from, head, head', x)
    }

    /** Link block fb between pre and next, or melt it into pre. Returns the list
        head and the block that now holds fb. */
    static method LinkIn(mem: array<Word>, head: nat, pre: nat, next: nat, fb: nat, ghost f: seq<Block>, ghost k: nat, ghost b: Block, ghost hi: nat)
      returns (head': nat, cur: nat, ghost x: nat)
      requires Freeing(mem[..], f, k, b, hi) && fb == 8 * b.pos
      requires head == Ptr(f, 0) && next == Ptr(f, k)
      requires (pre == 0 <==> k == 0) && (k > 0 ==> pre == Ptr(f, k - 1))
      modifies mem
      ensures LinkedIn(old(mem[..]), mem[..], f, k, b, head, head', cur, x)
    {
      hide LinkedIn;
      if pre == 0 {
        LinkFirst(mem, next, fb, f, b, head, hi);
        head', cur, x := fb, fb, b.pos;
      } else {
        assert Entry(mem[..], f, k - 1);
        head' := head;
        if pre + Num(mem[pre / 8]) == fb {
          cur, x := pre, f[k - 1].pos;
          MeltLeft(mem, pre, next, fb, f, k, b, head, hi);
        } else {
          cur, x := fb, f[k - 1].pos + 1;
          LinkBetween(mem, pre, next, fb, f, k, b, head, hi);
        }
      }
    }

    static method LinkFirst(mem: array<Word>, next: nat, fb: nat, ghost f: seq<Block>, ghost b: Block, ghost head: nat, ghost hi: nat)
      requires Freeing(mem[..], f, 0, b, hi) && fb == 8 * b.pos && next == Ptr(f, 0)
      modifies mem
      ensures LinkedIn(old(mem[..]), mem[..], f, 0, b, head, fb, fb, b.pos)
    {
      assert mem[..][b.pos] == mem[b.pos];
      assert f != [] ==> f[0].End() <= hi;
      mem[fb / 8 + 1] := FromNum(next);
    }

    static method MeltLeft(mem: array<Word>, pre: nat, next: nat, fb: nat, ghost f: seq<Block>, ghost k: nat, ghost b: Block, ghost head: nat, ghost hi: nat)
      requires Freeing(mem[..], f, k, b, hi) && fb == 8 * b.pos && next == Ptr(f, k)
      requires k > 0 && pre == Ptr(f, k - 1) && f[k - 1].End() == b.pos && head == Ptr(f, 0)
      modifies mem
      ensures LinkedIn(old(mem[..]), mem[..], f, k, b, head, head, pre, f[k - 1].pos)
    {
      ghost var m := mem[..];
      assert Entry(m, f, k - 1) && m[b.pos] == mem[b.pos];
      assert k < |f| ==> f[k].End() <= hi;
      mem[fb / 8 + 1] := FromNum(next);
      ghost var m1 := mem[..];
      assert m1 == m[b.pos + 1 := FromNum(next)];
      var sum := Num(mem[pre / 8]) + Num(mem[fb / 8]);
      mem[pre / 8] := FromNum(sum);
      assert mem[..] == m1[f[k - 1].pos := FromNum(sum)];
      MeltStores(m, m1, mem[..], f, k, b, head, hi, sum);
    }

    /** What the two stores come to. */
    static lemma MeltStores(m: seq<Word>, m1: seq<Word>, m2: seq<Word>, f: seq<Block>, k: nat, b: Block, head: nat, hi: nat, sum: nat)
      requires Freeing(m, f, k, b, hi) && k > 0 && f[k - 1].End() == b.pos && head == Ptr(f, 0) && Ptr(f, k) < WORD_LIMIT
      requires sum == 8 * f[k - 1].len + 8 * b.len < WORD_LIMIT
      requires m1 == m[b.pos + 1 := FromNum(Ptr(f, k))] && f[k - 1].pos < |m| && m2 == m1[f[k - 1].pos := FromNum(sum)]
      ensures LinkedIn(m, m2, f, k, b, head, head, 8 * f[k - 1].pos, f[k - 1].pos)
    {
      assert Entry(m, f, k - 1);
      if k > 1 { assert Entry(m, f, k - 2); }
      hide Entries;
    }

    static method LinkBetween(mem: array<Word>, pre: nat, next: nat, fb: nat, ghost f: seq<Block>, ghost k: nat, ghost b: Block, ghost head: nat, ghost hi: nat)
      requires Freeing(mem[..], f, k, b, hi) && fb == 8 * b.pos && next == Ptr(f, k)
      requires k > 0 && pre == Ptr(f, k - 1) && f[k - 1].End() != b.pos
      modifies mem
      ensures LinkedIn(old(mem[..]), mem[..], f, k, b, head, head, fb, f[k - 1].pos + 1)
    {
      ghost var m := mem[..];
      assert Entry(m, f, k - 1) && m[b.pos] == mem[b.pos];
      assert k < |f| ==> f[k].End() <= hi;
      mem[fb / 8 + 1] := FromNum(next);
      mem[pre / 8 + 1] := FromNum(fb);
    }

    /** Melt the block at `cur`, which ends where b does, with `next` if they touch. */
    static method MergeNext(mem: array<Word>, cur: nat, next: nat, ghost f: seq<Block>, ghost k: nat, ghost b: Block, ghost from: nat, ghost hi: nat)
      requires k <= |f| && from <= b.pos && b.len >= 2 && b.End() <= hi <= mem.Length && 8 * hi <= ADDR_LIMIT
      requires 0 < from && cur == 8 * from && Num(mem[from]) == 8 * (b.End() - from) && Num(mem[from + 1]) == next
      requires next == Ptr(f, k) && (next == 0 <==> k == |f|)
      requires k < |f| ==> Entry(mem[..], f, k) && b.End() <= f[k].pos && f[k].len >= 2 && f[k].End() <= hi && Ptr(f, k + 1) < ADDR_LIMIT
      modifies mem
      ensures Merged(old(mem[..]), mem[..], f, k, b, from)
    {
      ghost var m := mem[..];
      if next != 0 && cur + Num(mem[cur / 8]) == next {
        assert Num(m[f[k].pos]) == 8 * f[k].len && Num(m[f[k].pos + 1]) == Ptr(f, k + 1);
        mem[cur / 8] := FromNum(Num(mem[cur / 8]) + Num(mem[next / 8]));
        mem[cur / 8 + 1] := FromNum(Num(mem[next / 8 + 1]));
      }
    }

    static method TagFree(mem: array<Word>, fb: nat, ghost f: seq<Block>, ghost k: nat, ghost b: Block, ghost hi: nat)
      requires Freeing(mem[..], f, k, b, hi) && fb == 8 * b.pos
      modifies mem
      ensures mem[..] == old(mem[..])[b.End() - 1 := old(mem[..])[b.End() - 1].(top := TAG_FREE)]
      ensures Freeing(mem[..], f, k, b, hi)
    {
      ghost var m := mem[..];
      assert m[b.pos] == mem[b.pos];
      var dog := (fb + Num(mem[fb / 8]) - 1) / 8;
      assert dog == b.End() - 1;
      mem[dog] := mem[dog].(top := TAG_FREE);
      forall j | 0 <= j < |f| ensures Entry(mem[..], f, j) {
        assert Entry(m, f, j);
      }
    }

    /** Tag block b free, link it into the list at place k, and melt it with the
        list neighbours it touches. */
    static method Release(mem: array<Word>, head: nat, fb: nat, ghost f: seq<Block>, ghost k: nat, ghost b: Block, ghost hi: nat)
      returns (head': nat, ghost x: nat)
      requires Freeing(mem[..], f, k, b, hi) && fb == 8 * b.pos
      requires head == Ptr(f, 0) && (f != [] ==> head > 0)
      requires k < |f| ==> BlockOk(mem[..], f[k]) && !f[k].used
      modifies mem
      ensures FreeWrites(old(mem[..]), mem[..], f, k, Touch(f, k, b).0, Touch(f, k, b).1, Melt(f, k, b), head, head', x)
      ensures Tag(mem[..], Melt(f, k, b)) == if Touch(f, k, b).1 then Tag(old(mem[..]), f[k]) else if b.len > 2 then TAG_FREE else 0
    {
      hide FreeWrites, LinkedIn;
      ghost var m := mem[..];
      TagFree(mem, fb, f, k, b, hi);
      ghost var m1 := mem[..];
      var pre, next := FindPlace(mem, head, fb, f, k);
      var cur;
      head', cur, x := LinkIn(mem, head, pre, next, fb, f, k, b, hi);
      ghost var m2 := mem[..];
      LinkedInFacts(m1, m2, f, k, b, hi, head, head', cur, x);
      MergeNext(mem, cur, next, f, k, b, Melt(f, k, b).pos, hi);
      ReleaseWrites(m, m1, m2, mem[..], f, k, b, hi, head, head', cur, x);
      ReleaseTag(m, m1, m2, mem[..], f, k, b, hi, head, head', cur, x);
    }

    /** What `MergeNext` needs after `LinkIn`. */
    static lemma LinkedInFacts(m1: seq<Word>, m2: seq<Word>, f: seq<Block>, k: nat, b: Block, hi: nat, head: nat, head': nat, cur: nat, x: nat)
      requires Freeing(m1, f, k, b, hi) && LinkedIn(m1, m2, f, k, b, head, head', cur, x)
      ensures var from := Melt(f, k, b).pos;
              && |m2| == |m1| && 0 < from && from + 1 < |m2| && cur == 8 * from && from <= b.pos
              && Num(m2[from]) == 8 * (b.End() - from) && Num(m2[from + 1]) == Ptr(f, k)
      ensures k < |f| ==> Entry(m2, f, k) && b.End() <= f[k].pos && f[k].len >= 2 && f[k].End() <= hi && Ptr(f, k + 1) < ADDR_LIMIT
    {
      if k > 0 { assert Entry(m1, f, k - 1); }
      if k < |f| { assert Entry(m1, f, k); }
      assert k + 1 < |f| ==> f[k + 1].End() <= hi;
    }

    /** What `MergeNext` does to memory. */
    static ghost predicate Merged(m2: seq<Word>, m3: seq<Word>, f: seq<Block>, k: nat, b: Block, from: nat) {
      && k <= |f| && from + 1 < |m2| && SameOutside(m2, m3, from, from + 2, from)
      && if k < |f| && f[k].pos == b.End()
         then from <= f[k].End() && Num(m3[from]) == 8 * (f[k].End() - from) && Num(m3[from + 1]) == Ptr(f, k + 1)
         else m3 == m2
    }

    /** The memories before, after tagging, after linking and after melting. */
    static ghost predicate Steps(m: seq<Word>, m1: seq<Word>, m2: seq<Word>, m3: seq<Word>, f: seq<Block>, k: nat, b: Block, hi: nat, head: nat, head': nat, cur: nat, x: nat) {
      && Freeing(m, f, k, b, hi) && m1 == m[b.End() - 1 := m[b.End() - 1].(top := TAG_FREE)]
      && (k < |f| ==> BlockOk(m, f[k]) && !f[k].used)
      && LinkedIn(m1, m2, f, k, b, head, head', cur, x) && Merged(m2, m3, f, k, b, Melt(f, k, b).pos)
    }

    static lemma ReleaseWrites(m: seq<Word>, m1: seq<Word>, m2: seq<Word>, m3: seq<Word>, f: seq<Block>, k: nat, b: Block, hi: nat, head: nat, head': nat, cur: nat, x: nat)
      requires Steps(m, m1, m2, m3, f, k, b, hi, head, head', cur, x)
      ensures FreeWrites(m, m3, f, k, Touch(f, k, b).0, Touch(f, k, b).1, Melt(f, k, b), head, head', x)
    {
      ReleaseTag(m, m1, m2, m3, f, k, b, hi, head, head', cur, x);
      ReleaseFrame(m, m1, m2, m3, f, k, b, hi, head, head', cur, x);
      ReleaseJoin(m, m1, m2, m3, f, k, b, hi, head, head', cur, x);
      ReleaseHeader(m, m1, m2, m3, f, k, b, hi, head, head', cur, x);
    }

    static lemma ReleaseHeader(m: seq<Word>, m1: seq<Word>, m2: seq<Word>, m3: seq<Word>, f: seq<Block>, k: nat, b: Block, hi: nat, head: nat, head': nat, cur: nat, x: nat)
      requires Steps(m, m1, m2, m3, f, k, b, hi, head, head', cur, x)
      ensures var melted, c := Melt(f, k, b), if Touch(f, k, b).1 then k + 1 else k;
              && melted.len >= 2 && melted.End() <= |m3|
              && Num(m3[melted.pos]) == 8 * melted.len && Num(m3[melted.pos + 1]) == Ptr(f, c)
    {
      if k > 0 { assert Entry(m, f, k - 1); }
    }

    static lemma ReleaseFrame(m: seq<Word>, m1: seq<Word>, m2: seq<Word>, m3: seq<Word>, f: seq<Block>, k: nat, b: Block, hi: nat, head: nat, head': nat, cur: nat, x: nat)
      requires Steps(m, m1, m2, m3, f, k, b, hi, head, head', cur, x)
      ensures SameOutside(m, m3, Melt(f, k, b).pos, Melt(f, k, b).End(), x)
    {
    }

    static lemma ReleaseJoin(m: seq<Word>, m1: seq<Word>, m2: seq<Word>, m3: seq<Word>, f: seq<Block>, k: nat, b: Block, hi: nat, head: nat, head': nat, cur: nat, x: nat)
      requires Steps(m, m1, m2, m3, f, k, b, hi, head, head', cur, x)
      ensures Joins(m3, f, if Touch(f, k, b).0 then k - 1 else k, Melt(f, k, b).pos, head, head', x)
    {
      if k > 0 { assert Entry(m, f, k - 1); }
      assert Touch(f, k, b).0 && k > 1 ==> f[k - 2].End() < f[k - 1].pos;
    }

    static lemma ReleaseTag(m: seq<Word>, m1: seq<Word>, m2: seq<Word>, m3: seq<Word>, f: seq<Block>, k: nat, b: Block, hi: nat, head: nat, head': nat, cur: nat, x: nat)
      requires Steps(m, m1, m2, m3, f, k, b, hi, head, head', cur, x)
      ensures Melt(f, k, b).End() <= |m3| == |m|
      ensures Tag(m3, Melt(f, k, b)) == if Touch(f, k, b).1 then Tag(m, f[k]) else if b.len > 2 then TAG_FREE else 0
    {
      hide Ascending;
      if k > 0 { assert Entry(m, f, k - 1); }
      hide Entries, Entry;
      if Touch(f, k, b).1 {
        var e := f[k].End() - 1;
        assert e < hi && b.End() < e;
        assert m1[e] == m[e] && m2[e] == m1[e] && m3[e] == m2[e];
      } else if b.len > 2 {
        assert m2[b.End() - 1] == m1[b.End() - 1];
      } else {
        PointerTopByte(m2[b.pos + 1]);
      }
    }

    /** The block to free, seen from the list. */
    static lemma {:induction false} FreeingFacts(m: seq<Word>, bs: seq<Block>, lo: nat, hi: nat, head: nat, i: nat)
      requires Rep(m, bs, lo, hi, head) && i < |bs| && bs[i].used
      ensures var f, k, b := FreeList(bs), |FreeList(bs[..i])|, bs[i];
              && Freeing(m, f, k, b, hi) && head == Ptr(f, 0) && (f != [] ==> head > 0)
              && (k < |f| ==> BlockOk(m, f[k]) && !f[k].used && f[k] in bs)
              && Touch(f, k, b).0 == (MergeFrom(bs, i) < i) && Touch(f, k, b).1 == (i + 1 < MergeTo(bs, i))
              && Melt(f, k, b) == Melted(bs, i)
    {
      hide FreeList, WellFormed, BlocksOk, Linked;
      var f, k := FreeList(bs), |FreeList(bs[..i])|;
      ListEntries(m, bs, lo, hi, head);
      FreeListAscends(bs, lo, hi);
      BlockFacts(m, bs, lo, hi, head, bs[i]);
      FreeNeighbours(bs, lo, hi, i);
      FreeFreeList(bs, lo, hi, i);
      ShapeTiles(bs, lo, hi);
      MergeOrdered(bs, lo, hi, i);
      forall j | 0 <= j < |f| ensures f[j].End() <= hi {
        FreeEntry(m, bs, lo, hi, head, j);
      }
      if k < |f| { FreeEntry(m, bs, lo, hi, head, k); }
    }

    /** Whether freeing block i leaves the melted block with a FREE tag: not if the freed block is
        two words long and the next block is in use, because its `next` then overwrites the tag. */
    static ghost predicate TagSurvives(bs: seq<Block>, i: nat)
      requires i < |bs|
    {
      bs[i].len > 2 || (i + 1 < |bs| && !bs[i + 1].used)
    }

    /** The tag of the block that block i melts into: that of its free right neighbour, or else the
        new FREE tag, over which the link of a two-word block runs. */
    static ghost function FreedTag(m: seq<Word>, bs: seq<Block>, i: nat): byte {
      if i + 1 < |bs| && !bs[i + 1].used then
        (if 0 < bs[i + 1].len && bs[i + 1].End() <= |m| then Tag(m, bs[i + 1]) else 0)
      else if i < |bs| && bs[i].len > 2 then TAG_FREE else 0
    }

    /** `MEM_Deallocate`: free the block with payload at `ptr`; a block that is free already is
        recognised by its tag and left alone. */
    method Deallocate(ptr: nat, ghost i: nat)
      requires Valid()
      requires ptr != 0 ==> i < |blocks| && ptr == 8 * blocks[i].pos + 8
      modifies this`freeList, this`blocks, this`free, this`history, mem, totals`freeSize, totals`history
      ensures Valid() && (old(totals.Valid()) ==> totals.Valid())
      ensures history == if ptr == 0 || !old(blocks)[i].used then old(history) else old(history) + [free]
      ensures ptr == 0 || !old(blocks)[i].used ==>
                mem[..] == old(mem[..]) && blocks == old(blocks) && free == old(free) && totals.freeSize == old(totals.freeSize)
      ensures ptr != 0 && old(blocks)[i].used ==>
                && blocks == FreeAt(old(blocks), i)
                && free == old(free) + 8 * old(blocks)[i].len
                && totals.freeSize == old(totals.freeSize) + 8 * old(blocks)[i].len
      ensures Preserves(old(mem[..]), mem[..], old(blocks), Lo(), Hi(), if ptr == 0 then NOTHING else old(blocks)[i])
      ensures ptr != 0 && old(blocks)[i].used ==>
                TagsBut(old(mem[..]), mem[..], old(blocks), blocks, Melted(old(blocks), i).pos, FreedTag(old(mem[..]), old(blocks), i))
      ensures ptr != 0 && old(blocks)[i].used && FreeTagsIntact(old(mem[..]), old(blocks)) ==>
                (FreeTagsIntact(mem[..], blocks) <==> TagSurvives(old(blocks), i))
    {
      hide Rep, FreeTagsIntact, FreeList, FreeBytes, FreeAt, FreeWrites, TagsBut, FreedTag, Melted, Marks, Totals.Valid, TagSurvives;
      if ptr == 0 {
        return;
      }
      ghost var m, bs, head := mem[..], blocks, freeList;
      BlockFacts(m, bs, Lo(), Hi(), head, bs[i]);
      var fb := ptr - 8;
      var bytes := Num(mem[fb / 8]);
      var dog := (fb + bytes - 1) / 8;
      assert dog == bs[i].End() - 1 && mem[dog] == m[dog];
      if mem[dog].top != TAG_USE {
        return;
      }
      GiveBack(fb, bytes, i);
    }

    /** The rest of a free, for block i in use: count it, release it. */
    method GiveBack(fb: nat, bytes: nat, ghost i: nat)
      requires Valid() && i < |blocks| && blocks[i].used && fb == 8 * blocks[i].pos && bytes == 8 * blocks[i].len
      modifies this`freeList, this`blocks, this`free, this`history, mem, totals`freeSize, totals`history
      ensures Valid() && (old(totals.Valid()) ==> totals.Valid()) && history == old(history) + [free]
      ensures blocks == FreeAt(old(blocks), i) && free == old(free) + bytes && totals.freeSize == old(totals.freeSize) + bytes
      ensures Preserves(old(mem[..]), mem[..], old(blocks), Lo(), Hi(), old(blocks)[i])
      ensures TagsBut(old(mem[..]), mem[..], old(blocks), blocks, Melted(old(blocks), i).pos, FreedTag(old(mem[..]), old(blocks), i))
      ensures FreeTagsIntact(old(mem[..]), old(blocks)) ==> (FreeTagsIntact(mem[..], blocks) <==> TagSurvives(old(blocks), i))
    {
      hide Rep, FreeTagsIntact, FreeList, FreeBytes, FreeAt, FreeWrites, TagsBut, FreedTag, Melted, Marks, Totals.Valid, TagSurvives, Preserves;
      ghost var m, bs, head := mem[..], blocks, freeList;
      FreeingFacts(m, bs, Lo(), Hi(), head, i);
      Credit(bytes);
      ghost var x;
      freeList, x := Release(mem, freeList, fb, FreeList(bs), |FreeList(bs[..i])|, bs[i], Hi());
      blocks := FreeAt(bs, i);
      Freed(m, mem[..], bs, Lo(), Hi(), head, freeList, i, x);
    }

    /** The heap after `Release`. */
    static lemma {:induction false} Freed(m: seq<Word>, m': seq<Word>, bs: seq<Block>, lo: nat, hi: nat, head: nat, head': nat, i: nat, x: nat)
      requires Rep(m, bs, lo, hi, head) && i < |bs| && bs[i].used
      requires var f, k, b := FreeList(bs), |FreeList(bs[..i])|, bs[i];
               && k <= |f| && FreeWrites(m, m', f, k, Touch(f, k, b).0, Touch(f, k, b).1, Melt(f, k, b), head, head', x)
               && (Touch(f, k, b).1 ==> f[k].len > 0 && f[k].End() <= |m|)
               && Tag(m', Melt(f, k, b)) == if Touch(f, k, b).1 then Tag(m, f[k]) else if b.len > 2 then TAG_FREE else 0
      ensures Rep(m', FreeAt(bs, i), lo, hi, head')
      ensures Preserves(m, m', bs, lo, hi, bs[i])
      ensures FreeBytes(FreeAt(bs, i)) == FreeBytes(bs) + 8 * bs[i].len
      ensures TagsBut(m, m', bs, FreeAt(bs, i), Melted(bs, i).pos, FreedTag(m, bs, i))
      ensures FreeTagsIntact(m, bs) ==> (FreeTagsIntact(m', FreeAt(bs, i)) <==> TagSurvives(bs, i))
    {
      hide Rep, FreeList, FreeBytes, FreeTagsIntact, FreeAt, FreeWrites, TagsBut;
      FreeingFacts(m, bs, lo, hi, head, i);
      NextEntry(m, bs, lo, hi, head, i);
      LayoutFree(m, m', bs, lo, hi, head, head', i, Melted(bs, i), x);
      FreedInside(m, m', bs, lo, hi, head, head', i, x);
      if FreeTagsIntact(m, bs) {
        IntactEntry(m, bs, lo, hi, head, i);
        TagsButIntact(m, m', bs, FreeAt(bs, i), Melted(bs, i).pos, FreedTag(m, bs, i));
      }
    }

    /** The free right neighbour of block i is the list entry at its place. */
    static lemma {:induction false} NextEntry(m: seq<Word>, bs: seq<Block>, lo: nat, hi: nat, head: nat, i: nat)
      requires Rep(m, bs, lo, hi, head) && i < |bs| && bs[i].used
      ensures i + 1 < MergeTo(bs, i) <==> i + 1 < |bs| && !bs[i + 1].used
      ensures i + 1 < MergeTo(bs, i) ==> |FreeList(bs[..i])| < |FreeList(bs)| && FreeList(bs)[|FreeList(bs[..i])|] == bs[i + 1]
      ensures !Melted(bs, i).used
    {
      hide FreeList, BlocksOk, Linked;
      FreeFreeList(bs, lo, hi, i);
    }

    /** With intact tags, the tag of the melted block is FREE exactly when it survives. */
    static lemma {:induction false} IntactEntry(m: seq<Word>, bs: seq<Block>, lo: nat, hi: nat, head: nat, i: nat)
      requires Rep(m, bs, lo, hi, head) && i < |bs| && bs[i].used && FreeTagsIntact(m, bs)
      ensures FreedTag(m, bs, i) == TAG_FREE <==> TagSurvives(bs, i)
    {
      hide Rep;
      if i + 1 < |bs| { assert bs[i + 1] in bs; }
    }

    /** A free stays in the region and moves the block's bytes to the free total. */
    static lemma {:induction false} FreedInside(m: seq<Word>, m': seq<Word>, bs: seq<Block>, lo: nat, hi: nat, head: nat, head': nat, i: nat, x: nat)
      requires Rep(m, bs, lo, hi, head) && i < |bs| && bs[i].used
      requires FreeWrites(m, m', FreeList(bs), |FreeList(bs[..i])|, MergeFrom(bs, i) < i, i + 1 < MergeTo(bs, i), Melted(bs, i), head, head', x)
      ensures SameOutside(m, m', lo, hi, lo)
      ensures FreeBytes(FreeAt(bs, i)) == FreeBytes(bs) + 8 * bs[i].len
    {
      hide FreeList, FreeBytes, WellFormed, BlocksOk, Linked;
      FreeAccounts(bs, lo, hi, i);
      FreeKeepsShape(bs, lo, hi, i);
      ShapeTiles(FreeAt(bs, i), lo, hi);
      InRegion(FreeAt(bs, i), lo, hi, Melted(bs, i));
      FreeFreeList(bs, lo, hi, i);
      var f, k := FreeList(bs), |FreeList(bs[..i])|;
      var a := if MergeFrom(bs, i) < i then k - 1 else k;
      if a > 0 { FreeEntry(m, bs, lo, hi, head, a - 1); }
    }
  }

  /** The first word of the free block that a request for n words is served from, 0 if none is. */
  function PickedFrom(bs: seq<Block>, n: nat): nat {
    match Pick(FreeList(bs), n) case None => 0 case Some(k) => FreeList(bs)[k].pos
  }

  /** The same for a request in bytes. */
  function TakenFrom(bs: seq<Block>, request: nat): nat {
    if request == 0 || request >= ULONG - 16 then 0 else PickedFrom(bs, BlockSize(request) / 8)
  }

  lemma {:induction false} SameTags(m: seq<Word>, bs: seq<Block>, lo: nat, hi: nat, head: nat)
    requires Rep(m, bs, lo, hi, head)
    ensures forall tag :: TagsBut(m, m, bs, bs, 0, tag)
  {
    hide FreeList, WellFormed, Linked;
    forall b | b in bs ensures b.pos > 0 && BlockOk(m, b) { BlockFacts(m, bs, lo, hi, head, b); }
  }

  /** What an allocation does to the blocks: NULL exactly when the request is zero, overflows, or
      fits no free block, and then nothing changes; otherwise the pointer is to the payload of a
      block chosen and carved as HeapSpec.Alloc says, which holds the request before its tag and
      is less than MIN_SPLIT words larger than needed. */
  ghost predicate AllocOutcome(bs: seq<Block>, request: nat, bs': seq<Block>, p: nat) {
    if request == 0 || request >= ULONG - 16 then p == 0 && bs' == bs
    else
      var n := BlockSize(request) / 8;
      bs' == Alloc(bs, n).0
      && match Alloc(bs, n).1
         case None => p == 0
         case Some(b) => && p == 8 * b.pos + 8 && b.used && b in bs' && 8 + request + 1 <= 8 * b.len
                         && BlockSize(request) <= 8 * b.len < BlockSize(request) + 8 * MIN_SPLIT
  }

  /** When an allocation returns NULL: the request is zero or overflows, or no free block is large
      enough for it. */
  ghost predicate Fails(bs: seq<Block>, request: nat) {
    request == 0 || request >= ULONG - 16 || forall b :: b in bs && !b.used ==> 8 * b.len < BlockSize(request)
  }

  lemma {:induction false} FailsExactly(bs: seq<Block>, request: nat, bs': seq<Block>, p: nat)
    requires AllocOutcome(bs, request, bs', p) && request < ULONG
    ensures p == 0 <==> Fails(bs, request)
    ensures p == 0 <==> request == 0 || request >= 0xFFFF_FFFF_FFFF_FFF0 || forall b :: b in bs && !b.used ==> 8 * b.len < 8 + (if request < 4 then 4 else request) + 1
  {
    hide BlockSize, FreeList;
    if request != 0 && request < ULONG - 16 {
      BlockSizeHolds(request);
      var n := BlockSize(request) / 8;
      PickChooses(FreeList(bs), n);
      forall b | b in bs && !b.used ensures b in FreeList(bs) { FreeListMembers(bs, b); }
      forall b | b in FreeList(bs) ensures b in bs && !b.used { FreeListMembers(bs, b); }
    }
  }

  lemma NothingChanged(m: seq<Word>, bs: seq<Block>, lo: nat, hi: nat)
    ensures Preserves(m, m, bs, lo, hi, NOTHING)
  {
  }

  lemma ShapeOf(m: seq<Word>, bs: seq<Block>, lo: nat, hi: nat, head: nat)
    requires Rep(m, bs, lo, hi, head)
    ensures WellFormed(bs, lo, hi)
  {
  }

  /** The block handed out: its size, and that it is what the free total loses. */
  lemma {:induction false} AllocResult(bs: seq<Block>, lo: nat, hi: nat, n: nat)
    requires WellFormed(bs, lo, hi) && n >= 2
    ensures match Alloc(bs, n).1
            case None => Alloc(bs, n).0 == bs
            case Some(b) => && b in Alloc(bs, n).0 && b.used && n <= b.len < n + 4
                            && FreeBytes(Alloc(bs, n).0) + 8 * b.len == FreeBytes(bs)
  {
    match Pick(FreeList(bs), n)
    case None =>
    case Some(k) =>
      AllocKeepsShape(bs, lo, hi, Spot(bs, k), n);
      AllocAccounts(bs, Spot(bs, k), n);
  }
}
