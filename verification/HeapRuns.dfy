/** Whole runs of one heap: what every sequence of allocations and valid frees keeps, and that the
    allocator on memory words carries such runs out. */
module HeapRuns {
  import opened Basics
  import opened Words
  import opened HeapSpec
  import opened HeapLayout
  import opened MemHeap
  import opened HeapTags
  import opened HeapAudit

  datatype Op = Malloc(bytes: nat) | Free(pos: nat)

  /** The blocks, the two counters, which free blocks (by first word) have lost their tag, and the live
      allocations: first word of the block and bytes requested. */
  datatype State = State(blocks: seq<Block>, free: int, watermark: int, lost: set<nat>, live: map<nat, nat>)

  function Initial(lo: nat, hi: nat): State
    requires lo <= hi
  {
    State([Block(lo, hi - lo, false)], 8 * (hi - lo), 8 * (hi - lo), {}, map[])
  }

  /** Index of the block that starts at word pos, or the number of blocks. */
  function At(bs: seq<Block>, pos: nat): (i: nat)
    ensures i <= |bs| && (i < |bs| ==> bs[i].pos == pos)
    ensures forall b :: b in bs && b.pos == pos ==> i < |bs|
  {
    if bs == [] then 0 else if bs[0].pos == pos then 0 else 1 + At(bs[1..], pos)
  }

  function Step(s: State, op: Op): State {
    match op
    case Malloc(bytes) =>
      if bytes == 0 || bytes >= ULONG - 16 then s
      else (
        match Alloc(s.blocks, BlockSize(bytes) / 8)
        case (_, None) => s
        case (bs, Some(b)) =>
          var free := s.free - 8 * b.len;
          State(bs, free, if free < s.watermark then free else s.watermark,
                s.lost - {TakenFrom(s.blocks, bytes)}, s.live[b.pos := bytes])
      )
    case Free(pos) =>
      var i := At(s.blocks, pos);
      if i == |s.blocks| || !s.blocks[i].used then s
      else State(FreeAt(s.blocks, i), s.free + 8 * s.blocks[i].len, s.watermark,
                 LostFree(s.blocks, i, s.lost), s.live - {pos})
  }

  function Exec(s: State, ops: seq<Op>): State
    decreases |ops|
  {
    if ops == [] then s else Exec(Step(s, ops[0]), ops[1..])
  }

  /** The program only frees what it holds. */
  predicate Honest(s: State, ops: seq<Op>)
    decreases |ops|
  {
    ops == [] || ((ops[0].Free? ==> ops[0].pos in s.live) && Honest(Step(s, ops[0]), ops[1..]))
  }

  /** The used blocks are the live allocations, each large enough, with its tag after the request. */
  ghost predicate LiveMatches(bs: seq<Block>, live: map<nat, nat>) {
    && (forall b :: b in bs && b.used ==> b.pos in live && 8 + live[b.pos] + 1 <= 8 * b.len)
    && (forall p :: p in live ==> exists b :: b in bs && b.used && b.pos == p)
  }

  ghost predicate Inv(s: State, lo: nat, hi: nat) {
    && WellFormed(s.blocks, lo, hi)
    && s.free == FreeBytes(s.blocks)
    && s.watermark <= s.free
    && LiveMatches(s.blocks, s.live)
  }

  lemma {:induction false} InitialInv(lo: nat, hi: nat)
    requires lo + 2 <= hi
    ensures Inv(Initial(lo, hi), lo, hi)
  {
    var b := Block(lo, hi - lo, false);
    assert [b][1..] == [];
  }

  lemma {:induction false} MallocKeepsInv(s: State, lo: nat, hi: nat, bytes: nat)
    requires Inv(s, lo, hi) && bytes < ULONG
    ensures Inv(Step(s, Malloc(bytes)), lo, hi)
  {
    hide WellFormed, FreeBytes, FreeList, BlockSize, LiveMatches, AllocAt;
    if bytes != 0 && bytes < ULONG - 16 {
      BlockSizeHolds(bytes);
      var n := BlockSize(bytes) / 8;
      match Pick(FreeList(s.blocks), n) {
        case None =>
        case Some(k) =>
          var i := Spot(s.blocks, k);
          AllocKeepsShape(s.blocks, lo, hi, i, n);
          AllocAccounts(s.blocks, i, n);
          LiveAfterAlloc(s.blocks, lo, hi, i, n, s.live, bytes);
      }
    }
  }

  lemma {:induction false} LiveAfterAlloc(bs: seq<Block>, lo: nat, hi: nat, i: nat, n: nat, live: map<nat, nat>, bytes: nat)
    requires WellFormed(bs, lo, hi) && LiveMatches(bs, live) && i < |bs| && !bs[i].used && 2 <= n <= bs[i].len
    requires 8 + bytes + 1 <= 8 * n
    ensures LiveMatches(AllocAt(bs, i, n), live[AllocAt(bs, i, n)[Taken(bs, i, n)].pos := bytes])
  {
    hide WellFormed;
    var t := AllocAt(bs, i, n);
    var got := t[Taken(bs, i, n)];
    AllocKeepsShape(bs, lo, hi, i, n);
    ShapeTiles(t, lo, hi);
    forall b | b in t && b.used ensures b == got || (b in bs && b.pos != got.pos) {
      UsedStay(bs, lo, hi, i, n, b);
      if b != got { Disjoint(t, lo, hi, b, got); SizedBlock(t, lo, hi, b); }
    }
    forall b | b in bs && b.used ensures b in t {
      UsedStay(bs, lo, hi, i, n, b);
    }
    assert got in t;
  }

  lemma {:induction false} SizedBlock(bs: seq<Block>, lo: nat, hi: nat, b: Block)
    requires WellFormed(bs, lo, hi) && b in bs
    ensures b.len >= 2
  {
  }

  lemma {:induction false} FreeKeepsInv(s: State, lo: nat, hi: nat, pos: nat)
    requires Inv(s, lo, hi)
    ensures Inv(Step(s, Free(pos)), lo, hi)
    ensures pos in s.live ==> UsedCount(Step(s, Free(pos)).blocks) + 1 == UsedCount(s.blocks)
    ensures Step(s, Free(pos)).live == s.live - {pos}
  {
    hide WellFormed, FreeBytes, UsedCount, FreeAt, LiveMatches, LostFree;
    var bs, i := s.blocks, At(s.blocks, pos);
    if i < |bs| && bs[i].used {
      FreeKeepsShape(bs, lo, hi, i);
      FreeAccounts(bs, lo, hi, i);
      LiveAfterFree(bs, lo, hi, i, s.live);
    } else {
      NotLive(s, lo, hi, pos);
    }
  }

  lemma {:induction false} NotLive(s: State, lo: nat, hi: nat, pos: nat)
    requires Inv(s, lo, hi) && (At(s.blocks, pos) == |s.blocks| || !s.blocks[At(s.blocks, pos)].used)
    ensures pos !in s.live
  {
    hide WellFormed;
    ShapeTiles(s.blocks, lo, hi);
    if b :| b in s.blocks && b.used && b.pos == pos {
      var c := s.blocks[At(s.blocks, pos)];
      Disjoint(s.blocks, lo, hi, b, c);
      SizedBlock(s.blocks, lo, hi, b);
      SizedBlock(s.blocks, lo, hi, c);
    }
  }

  lemma {:induction false} LiveAfterFree(bs: seq<Block>, lo: nat, hi: nat, i: nat, live: map<nat, nat>)
    requires WellFormed(bs, lo, hi) && LiveMatches(bs, live) && i < |bs| && bs[i].used
    ensures LiveMatches(FreeAt(bs, i), live - {bs[i].pos})
  {
    hide WellFormed, FreeAt;
    ShapeTiles(bs, lo, hi);
    forall b | b in FreeAt(bs, i) && b.used ensures b in bs && b.pos != bs[i].pos {
      UsedStay(bs, lo, hi, i, 0, b);
      Disjoint(bs, lo, hi, b, bs[i]);
      SizedBlock(bs, lo, hi, b);
    }
    forall p | p in live - {bs[i].pos} ensures exists b :: b in FreeAt(bs, i) && b.used && b.pos == p {
      var b :| b in bs && b.used && b.pos == p;
      UsedStay(bs, lo, hi, i, 0, b);
    }
  }

  /** The main invariant over runs: after any allocations and frees, the blocks tile the region, no
      two free blocks touch, `free` is the free bytes, and the live allocations are exactly the used
      blocks, each holding its request before its tag. */
  lemma {:induction false} EveryRunKeepsInv(s: State, lo: nat, hi: nat, ops: seq<Op>)
    requires Inv(s, lo, hi)
    requires forall op :: op in ops && op.Malloc? ==> op.bytes < ULONG
    ensures Inv(Exec(s, ops), lo, hi)
    decreases |ops|
  {
    if ops != [] {
      match ops[0] {
        case Malloc(bytes) => MallocKeepsInv(s, lo, hi, bytes);
        case Free(pos) => FreeKeepsInv(s, lo, hi, pos);
      }
      EveryRunKeepsInv(Step(s, ops[0]), lo, hi, ops[1..]);
    }
  }

  /** Two live allocations never share a byte, and every payload is 8-aligned and holds its request
      strictly before the tag byte. */
  lemma {:induction false} LiveAllocationsDisjoint(s: State, lo: nat, hi: nat, p: nat, q: nat)
    requires Inv(s, lo, hi) && p in s.live && q in s.live && p != q
    ensures exists b, c :: b in s.blocks && c in s.blocks && b.used && c.used && b.pos == p && c.pos == q
                           && (b.End() <= c.pos || c.End() <= b.pos)
                           && 8 * p + 8 + s.live[p] <= 8 * b.End() - 1 && 8 * q + 8 + s.live[q] <= 8 * c.End() - 1
  {
    hide WellFormed, FreeBytes;
    ShapeTiles(s.blocks, lo, hi);
    var b :| b in s.blocks && b.used && b.pos == p;
    var c :| c in s.blocks && c.used && c.pos == q;
    Disjoint(s.blocks, lo, hi, b, c);
  }

  // ---------- Freeing everything ----------

  function Frees(order: seq<nat>): seq<Op> {
    seq(|order|, i requires 0 <= i < |order| => Free(order[i]))
  }

  ghost predicate Distinct(order: seq<nat>) {
    forall i, j :: 0 <= i < j < |order| ==> order[i] != order[j]
  }

  /** The heap is as it was created: one free block, nothing live. */
  ghost predicate AsCreated(s: State, lo: nat, hi: nat) {
    lo <= hi && s.blocks == Initial(lo, hi).blocks && s.free == Initial(lo, hi).free && s.live == map[]
  }

  /** Freeing all live allocations, in whatever order, gives back the heap as it was created. */
  lemma {:induction false} FreeAllRestores(s: State, lo: nat, hi: nat, order: seq<nat>)
    requires Inv(s, lo, hi) && Distinct(order) && (forall p :: p in order <==> p in s.live)
    ensures AsCreated(Exec(s, Frees(order)), lo, hi)
    decreases |order|
  {
    hide Inv, Step, AsCreated;
    if order == [] {
      NoneLive(s, lo, hi);
    } else {
      FreeKeepsInv(s, lo, hi, order[0]);
      Tail(order, s.live);
      FreeAllRestores(Step(s, Free(order[0])), lo, hi, order[1..]);
      assert Frees(order)[1..] == Frees(order[1..]);
    }
  }

  lemma {:induction false} Tail(order: seq<nat>, live: map<nat, nat>)
    requires order != [] && Distinct(order) && (forall p :: p in order <==> p in live)
    ensures Distinct(order[1..]) && (forall p :: p in order[1..] <==> p in live - {order[0]})
  {
    var rest := order[1..];
    forall p ensures p in rest <==> p in live - {order[0]} {
      assert p in rest ==> exists k :: 0 < k < |order| && order[k] == p;
    }
  }

  lemma {:induction false} NoneLive(s: State, lo: nat, hi: nat)
    requires Inv(s, lo, hi) && forall p :: p !in s.live
    ensures AsCreated(s, lo, hi)
  {
    assert forall i :: 0 <= i < |s.blocks| ==> s.blocks[i] in s.blocks && !s.blocks[i].used;
    NoneUsed(s.blocks);
    AllFreeIsOneBlock(s.blocks, lo, hi);
    assert s.blocks[1..] == [];
    assert FreeBytes(s.blocks) == 8 * s.blocks[0].len + FreeBytes(s.blocks[1..]);
  }

  // ---------- The low-water mark ----------

  /** The lowest free total seen in a run, its start included. */
  function LowestSeen(s: State, ops: seq<Op>): int
    decreases |ops|
  {
    if ops == [] then s.free
    else var rest := LowestSeen(Step(s, ops[0]), ops[1..]); if s.free < rest then s.free else rest
  }

  lemma {:induction false} WatermarkIsLowest(s: State, ops: seq<Op>)
    requires s.watermark <= s.free
    ensures Exec(s, ops).watermark == if s.watermark < LowestSeen(s, ops) then s.watermark else LowestSeen(s, ops)
    decreases |ops|
  {
    if ops != [] {
      StepWatermark(s, ops[0]);
      WatermarkIsLowest(Step(s, ops[0]), ops[1..]);
    }
  }

  lemma {:induction false} StepWatermark(s: State, op: Op)
    requires s.watermark <= s.free
    ensures var t := Step(s, op); t.watermark <= t.free && t.watermark == if t.free < s.watermark then t.free else s.watermark
  {
    hide AllocAt, FreeAt;
  }

  /** From creation on, `free_watermark` is the least `free` there has been. */
  lemma WatermarkFromCreation(lo: nat, hi: nat, ops: seq<Op>)
    requires lo <= hi
    ensures Exec(Initial(lo, hi), ops).watermark == LowestSeen(Initial(lo, hi), ops)
  {
    WatermarkIsLowest(Initial(lo, hi), ops);
    assert LowestSeen(Initial(lo, hi), ops) <= Initial(lo, hi).free;
  }

  // ---------- The audit over runs ----------

  ghost predicate LongBlocks(bs: seq<Block>) {
    forall b :: b in bs && b.used ==> b.len >= 3
  }

  /** If no request is below 8 bytes, no free block ever loses its tag. */
  lemma {:induction false} LargeRequestsKeepTags(s: State, lo: nat, hi: nat, ops: seq<Op>)
    requires Inv(s, lo, hi) && s.lost == {} && LongBlocks(s.blocks)
    requires forall op :: op in ops && op.Malloc? ==> 8 <= op.bytes < ULONG
    ensures Exec(s, ops).lost == {} && LongBlocks(Exec(s, ops).blocks)
    decreases |ops|
  {
    if ops != [] {
      var op := ops[0];
      assert op in ops;
      match op {
        case Malloc(bytes) =>
          MallocKeepsInv(s, lo, hi, bytes);
          MallocKeepsLong(s, lo, hi, bytes);
        case Free(pos) =>
          FreeKeepsInv(s, lo, hi, pos);
          FreeKeepsLong(s, lo, hi, pos);
      }
      LargeRequestsKeepTags(Step(s, op), lo, hi, ops[1..]);
    }
  }

  lemma {:induction false} MallocKeepsLong(s: State, lo: nat, hi: nat, bytes: nat)
    requires Inv(s, lo, hi) && LongBlocks(s.blocks) && 8 <= bytes < ULONG
    ensures LongBlocks(Step(s, Malloc(bytes)).blocks)
  {
    hide WellFormed, FreeList, BlockSize, AllocAt;
    BlockSizeHolds(bytes);
    var n := BlockSize(bytes) / 8;
    if bytes < ULONG - 16 && Pick(FreeList(s.blocks), n).Some? {
      var i := Spot(s.blocks, Pick(FreeList(s.blocks), n).value);
      AllocKeepsShape(s.blocks, lo, hi, i, n);
      forall b | b in AllocAt(s.blocks, i, n) && b.used ensures b.len >= 3 {
        UsedStay(s.blocks, lo, hi, i, n, b);
      }
    }
  }

  lemma {:induction false} FreeKeepsLong(s: State, lo: nat, hi: nat, pos: nat)
    requires Inv(s, lo, hi) && LongBlocks(s.blocks)
    ensures LongBlocks(Step(s, Free(pos)).blocks) && (s.lost == {} ==> Step(s, Free(pos)).lost == {})
  {
    hide WellFormed, FreeAt;
    var bs, i := s.blocks, At(s.blocks, pos);
    if i < |bs| && bs[i].used {
      forall b | b in FreeAt(bs, i) && b.used ensures b.len >= 3 {
        UsedStay(bs, lo, hi, i, 0, b);
      }
      assert bs[i] in bs;
    }
  }

  /** One allocation of less than 8 bytes, freed again: in a region of at least six words its two-word
      block takes `next` over the tag, and the block it melts into ends there; in a smaller one the
      whole region is handed out, and its tag survives. */
  lemma SmallRequestSpoilsTags(lo: nat, hi: nat, r: nat)
    requires lo + MIN_SPLIT <= hi && 1 <= r <= 7
    ensures var pos := if hi - lo >= 6 then hi - 2 else lo;
            var s := Step(Initial(lo, hi), Malloc(r));
            s.live == map[pos := r] && Step(s, Free(pos)).lost == if hi - lo >= 6 then {lo} else {}
  {
    SmallRequestServed(lo, hi, r);
    hide BlockSize, AllocAt;
    var s := Step(Initial(lo, hi), Malloc(r));
    if hi - lo >= 6 {
      assert At(s.blocks, hi - 2) == 1 by { assert s.blocks[1..][0] == s.blocks[1]; }
    } else {
      assert At(s.blocks, lo) == 0;
    }
  }

  /** The first request of at most 7 bytes takes the last two words, or all of a region below 48 bytes. */
  lemma SmallRequestServed(lo: nat, hi: nat, r: nat)
    requires lo + MIN_SPLIT <= hi && 1 <= r <= 7
    ensures var s := Step(Initial(lo, hi), Malloc(r));
            if hi - lo >= 6 then s.blocks == [Block(lo, hi - lo - 2, false), Block(hi - 2, 2, true)] && s.live == map[hi - 2 := r] && s.lost == {}
            else s.blocks == [Block(lo, hi - lo, true)] && s.live == map[lo := r] && s.lost == {}
  {
    var b := Block(lo, hi - lo, false);
    assert BlockSize(r) == 16;
    assert [b][1..] == [];
    assert FreeList([b]) == [b];
    assert Pick([b], 2) == Some(0);
    assert Spot([b], 0) == 0;
    hide BlockSize, FreeList, Pick, Spot;
    if hi - lo >= 6 {
      assert AllocAt([b], 0, 2) == [Block(lo, hi - lo - 2, false), Block(hi - 2, 2, true)];
    } else {
      assert AllocAt([b], 0, 2) == [Block(lo, hi - lo, true)];
    }
  }

  // ---------- The allocator carries out every run ----------

  /** A heap in memory stands in state s. */
  ghost predicate Stands(h: Heap, s: State)
    reads h, h.mem
  {
    && h.Valid() && h.blocks == s.blocks && h.free == s.free && h.watermark == s.watermark
    && Lost(h.mem[..], h.blocks, s.lost)
  }

  /** Executing a run of calls on the memory words ends in the state the run describes. */
  method Execute(h: Heap, ops: seq<Op>, ghost s: State)
    requires Stands(h, s) && Inv(s, h.Lo(), h.Hi()) && Honest(s, ops)
    requires forall op :: op in ops && op.Malloc? ==> op.bytes < ULONG
    modifies h, h.mem, h.totals
    ensures Stands(h, Exec(s, ops))
    ensures h.Lo() == old(h.Lo()) && h.Hi() == old(h.Hi())
    ensures h.totals.freeSize == old(h.totals.freeSize) + (h.free - old(h.free))
  {
    ghost var t := s;
    ghost var lo, hi := h.Lo(), h.Hi();
    var i := 0;
    assert ops[0..] == ops;
    while i < |ops|
      invariant 0 <= i <= |ops|
      invariant h.base == old(h.base) && h.size == old(h.size)
      invariant Stands(h, t) && Inv(t, lo, hi) && Honest(t, ops[i..]) && Exec(t, ops[i..]) == Exec(s, ops)
      invariant h.totals.freeSize == old(h.totals.freeSize) + (h.free - old(h.free))
    {
      hide Inv, Lost, Rep;
      assert ops[i..][0] == ops[i] && ops[i..][1..] == ops[i + 1..];
      ExecuteOne(h, ops[i], t, lo, hi);
      t := Step(t, ops[i]);
      i := i + 1;
    }
  }

  method ExecuteOne(h: Heap, op: Op, ghost s: State, ghost lo: nat, ghost hi: nat)
    requires Stands(h, s) && Inv(s, lo, hi) && lo == h.Lo() && hi == h.Hi()
    requires (op.Malloc? ==> op.bytes < ULONG) && (op.Free? ==> op.pos in s.live)
    modifies h, h.mem, h.totals
    ensures Stands(h, Step(s, op)) && Inv(Step(s, op), lo, hi)
    ensures h.base == old(h.base) && h.size == old(h.size)
    ensures h.totals.freeSize == old(h.totals.freeSize) + (h.free - old(h.free))
  {
    hide Inv, Stands, Step, Lost;
    match op
    case Malloc(bytes) => ExecuteMalloc(h, bytes, s, lo, hi);
    case Free(pos) => ExecuteFree(h, pos, s, lo, hi);
  }

  method ExecuteMalloc(h: Heap, bytes: nat, ghost s: State, ghost lo: nat, ghost hi: nat)
    requires Stands(h, s) && Inv(s, lo, hi) && lo == h.Lo() && hi == h.Hi() && bytes < ULONG
    modifies h, h.mem, h.totals
    ensures Stands(h, Step(s, Malloc(bytes))) && Inv(Step(s, Malloc(bytes)), lo, hi)
    ensures h.base == old(h.base) && h.size == old(h.size)
    ensures h.totals.freeSize == old(h.totals.freeSize) + (h.free - old(h.free))
  {
    hide Inv, Lost, TagsBut, Rep, AllocAt, FreeAt, FreeBytes, BlockSize;
    ghost var m := h.mem[..];
    MallocKeepsInv(s, lo, hi, bytes);
    var p := h.Allocate(bytes);
    MallocStep(s, lo, hi, bytes, h.blocks, h.free, p);
    MallocLost(m, h.mem[..], s, lo, hi, bytes);
  }

  method ExecuteFree(h: Heap, pos: nat, ghost s: State, ghost lo: nat, ghost hi: nat)
    requires Stands(h, s) && Inv(s, lo, hi) && lo == h.Lo() && hi == h.Hi() && pos in s.live
    modifies h, h.mem, h.totals
    ensures Stands(h, Step(s, Free(pos))) && Inv(Step(s, Free(pos)), lo, hi)
    ensures h.base == old(h.base) && h.size == old(h.size)
    ensures h.totals.freeSize == old(h.totals.freeSize) + (h.free - old(h.free))
  {
    hide Inv, Lost, TagsBut, Rep, AllocAt, FreeAt, FreeBytes, BlockSize;
    ghost var m := h.mem[..];
    FreeKeepsInv(s, lo, hi, pos);
    ghost var i := At(s.blocks, pos);
    assert i < |s.blocks| && s.blocks[i].used by {
      if i == |s.blocks| || !s.blocks[i].used { NotLive(s, lo, hi, pos); }
    }
    h.Deallocate(8 * pos + 8, i);
    assert WellFormed(s.blocks, lo, hi) by { Shape(s, lo, hi); }
    LostFreed(m, h.mem[..], s.blocks, lo, hi, i, s.lost);
  }

  lemma Shape(s: State, lo: nat, hi: nat)
    requires Inv(s, lo, hi)
    ensures WellFormed(s.blocks, lo, hi)
  {
  }

  /** The tags after an allocation. */
  lemma {:induction false} MallocLost(m: seq<Word>, m': seq<Word>, s: State, lo: nat, hi: nat, bytes: nat)
    requires Inv(s, lo, hi) && Lost(m, s.blocks, s.lost) && bytes < ULONG
    requires TagsBut(m, m', s.blocks, Step(s, Malloc(bytes)).blocks, TakenFrom(s.blocks, bytes), TAG_FREE)
    requires Step(s, Malloc(bytes)).blocks == s.blocks ==> m' == m
    ensures Lost(m', Step(s, Malloc(bytes)).blocks, Step(s, Malloc(bytes)).lost)
  {
    hide WellFormed, FreeList, BlockSize, Lost, TagsBut, AllocAt;
    if bytes != 0 && bytes < ULONG - 16 {
      BlockSizeHolds(bytes);
      var n := BlockSize(bytes) / 8;
      match Pick(FreeList(s.blocks), n) {
        case None =>
        case Some(k) =>
          SpotSplits(s.blocks, k);
          LostAlloc(m, m', s.blocks, lo, hi, Spot(s.blocks, k), n, s.lost);
      }
    }
  }

  /** The blocks and the free total after an allocation fix the whole next state. */
  lemma {:induction false} MallocStep(s: State, lo: nat, hi: nat, bytes: nat, bs: seq<Block>, free: int, p: nat)
    requires Inv(s, lo, hi) && AllocOutcome(s.blocks, bytes, bs, p) && free == FreeBytes(bs)
    ensures Step(s, Malloc(bytes)).blocks == bs && Step(s, Malloc(bytes)).free == free
    ensures Step(s, Malloc(bytes)).watermark == if free < s.watermark then free else s.watermark
  {
    hide AllocAt, FreeBytes, FreeList, BlockSize, WellFormed;
    if bytes != 0 && bytes < ULONG - 16 {
      BlockSizeHolds(bytes);
      AllocResult(s.blocks, lo, hi, BlockSize(bytes) / 8);
    }
  }

  // ---------- The audit after a run ----------

  /** What the audit says of blocks bs when it passes. */
  ghost predicate Exact(st: Status, bs: seq<Block>) {
    && st.usedBlock == UsedCount(bs) && st.freeBlock == |FreeList(bs)|
    && st.free == TotalRoom(FreeList(bs)) && IsLargest(FreeList(bs), st.freeLargest)
  }

  /** Creates a heap, executes a run of calls on it and audits it. The audit passes exactly when no
      free block has lost its tag in the run, and then its numbers are exact. */
  method AuditedRun(mem: array<Word>, ptr: nat, bytes: nat, ops: seq<Op>) returns (st: Status, ghost s: State)
    requires 0 < ptr && ptr + bytes <= ADDR_LIMIT && ptr + bytes <= 8 * mem.Length
    requires AlignUp(ptr) + 8 * MIN_SPLIT <= AlignDown(ptr + bytes)
    requires forall op :: op in ops && op.Malloc? ==> op.bytes < ULONG
    requires Honest(Initial(AlignUp(ptr) / 8, AlignDown(ptr + bytes) / 8), ops)
    modifies mem
    ensures s == Exec(Initial(AlignUp(ptr) / 8, AlignDown(ptr + bytes) / 8), ops)
    ensures Inv(s, AlignUp(ptr) / 8, AlignDown(ptr + bytes) / 8)
    ensures st.valid <==> s.lost == {}
    ensures st.valid ==> Exact(st, s.blocks)
  {
    hide Rep, Lost, Inv, Exec, Honest, UsedCount, FreeList, TotalRoom, IsLargest, AlignUp, AlignDown, FreeTagsIntact;
    WholeWords(ptr, bytes);
    var totals := new Totals();
    var h := new Heap(mem, totals);
    var rc := h.Init(ptr, bytes);
    ghost var lo, hi := h.Lo(), h.Hi();
    s := Initial(lo, hi);
    CreatedStands(mem[..], h.blocks);
    InitialInv(lo, hi);
    EveryRunKeepsInv(s, lo, hi, ops);
    Execute(h, ops, s);
    s := Exec(s, ops);
    st := HeapStatus(h);
    LostNone(h.mem[..], h.blocks, s.lost);
  }

  lemma CreatedStands(m: seq<Word>, bs: seq<Block>)
    requires FreeTagsIntact(m, bs)
    ensures Lost(m, bs, {})
  {
  }

  /** With requests of at least 8 bytes only, the audit passes after every run. */
  method LargeRequestsAudit(mem: array<Word>, ptr: nat, bytes: nat, ops: seq<Op>) returns (st: Status, ghost s: State)
    requires 0 < ptr && ptr + bytes <= ADDR_LIMIT && ptr + bytes <= 8 * mem.Length
    requires AlignUp(ptr) + 8 * MIN_SPLIT <= AlignDown(ptr + bytes)
    requires forall op :: op in ops && op.Malloc? ==> 8 <= op.bytes < ULONG
    requires Honest(Initial(AlignUp(ptr) / 8, AlignDown(ptr + bytes) / 8), ops)
    modifies mem
    ensures s == Exec(Initial(AlignUp(ptr) / 8, AlignDown(ptr + bytes) / 8), ops)
    ensures st.valid && Exact(st, s.blocks)
  {
    hide Inv, Exec, Honest, AlignUp, AlignDown, Exact;
    ghost var lo, hi := AlignUp(ptr) / 8, AlignDown(ptr + bytes) / 8;
    WholeWords(ptr, bytes);
    InitialInv(lo, hi);
    LargeRequestsKeepTags(Initial(lo, hi), lo, hi, ops);
    st, s := AuditedRun(mem, ptr, bytes, ops);
  }

  lemma WholeWords(ptr: nat, bytes: nat)
    requires AlignUp(ptr) + 8 * MIN_SPLIT <= AlignDown(ptr + bytes)
    ensures AlignUp(ptr) / 8 + MIN_SPLIT <= AlignDown(ptr + bytes) / 8 && AlignUp(ptr) <= ptr + bytes
    ensures AlignDown(ptr + bytes) - AlignUp(ptr) == 8 * (AlignDown(ptr + bytes) / 8 - AlignUp(ptr) / 8)
  {
  }

  lemma TwoSteps(s: State, a: Op, b: Op)
    requires a.Malloc? && b.Free?
    ensures Exec(s, [a, b]) == Step(Step(s, a), b) && (b.pos in Step(s, a).live ==> Honest(s, [a, b]))
  {
    hide Step;
    var t := Step(s, a);
    assert [a, b][1..] == [b] && [b][1..] == [];
    assert Exec(t, [b]) == Exec(Step(t, b), []);
    assert b.pos in t.live ==> Honest(t, [b]);
  }

  /** Allocating less than 8 bytes and freeing them makes the audit fail, in every region of at least
      48 bytes and in no smaller one. */
  method SmallRequestAudit(mem: array<Word>, ptr: nat, bytes: nat, r: nat) returns (st: Status)
    requires 0 < ptr && ptr + bytes <= ADDR_LIMIT && ptr + bytes <= 8 * mem.Length
    requires AlignUp(ptr) + 8 * MIN_SPLIT <= AlignDown(ptr + bytes) && 1 <= r <= 7
    modifies mem
    ensures !st.valid <==> AlignDown(ptr + bytes) - AlignUp(ptr) >= 48
  {
    hide Inv, Exact, Step, AlignUp, AlignDown;
    var lo, hi := AlignUp(ptr) / 8, AlignDown(ptr + bytes) / 8;
    WholeWords(ptr, bytes);
    var pos := if hi - lo >= 6 then hi - 2 else lo;
    var ops := [Malloc(r), Free(pos)];
    SmallRequestSpoilsTags(lo, hi, r);
    ghost var s := Initial(lo, hi);
    TwoSteps(s, Malloc(r), Free(pos));
    st, s := AuditedRun(mem, ptr, bytes, ops);
  }
}
