/** The blocks of one heap as mathematical values, in units of 8-byte words, and what the chunk
    search, the split and the coalescing of `tuya_mem_heap.c` do to them. */
module HeapSpec {
  import opened Basics

  /** A block: first word, number of words (header included), and whether it is handed out. */
  datatype Block = Block(pos: nat, len: nat, used: bool) {
    function End(): nat { pos + len }
  }

  /** Words left over below which a chunk is not split: MEM_HEAP_MIN_SIZE is 24 + 8 bytes. */
  const MIN_SPLIT: nat := 4

  /** Improvements after which the chunk search stops: FIT_FIND_DEPTH. */
  const FIND_DEPTH: nat := 3

  // ---------- The shape every reachable heap has ----------

  /** The blocks follow each other without gap or overlap from word `lo` up to word `hi`. */
  ghost predicate Tiles(bs: seq<Block>, lo: nat, hi: nat) {
    && |bs| > 0
    && bs[0].pos == lo
    && bs[|bs| - 1].End() == hi
    && forall i, j :: 0 <= i < j < |bs| && j == i + 1 ==> bs[i].End() == bs[j].pos
  }

  /** No two blocks next to each other are both free. */
  ghost predicate Coalesced(bs: seq<Block>) {
    forall i, j :: 0 <= i < j < |bs| && j == i + 1 ==> bs[i].used || bs[j].used
  }

  /** Every block has room for its header and one more word. */
  ghost predicate Sized(bs: seq<Block>) {
    forall i :: 0 <= i < |bs| ==> bs[i].len >= 2
  }

  ghost predicate WellFormed(bs: seq<Block>, lo: nat, hi: nat) {
    Tiles(bs, lo, hi) && Coalesced(bs) && Sized(bs)
  }

  /** The free blocks, in address order: what `free_list` links together. */
  function FreeList(bs: seq<Block>): (f: seq<Block>) {
    if bs == [] then [] else (if bs[0].used then [] else [bs[0]]) + FreeList(bs[1..])
  }

  /** The bytes in free blocks, headers included: what `heap->free` counts. */
  function FreeBytes(bs: seq<Block>): nat {
    if bs == [] then 0 else (if bs[0].used then 0 else 8 * bs[0].len) + FreeBytes(bs[1..])
  }

  function UsedCount(bs: seq<Block>): nat {
    if bs == [] then 0 else (if bs[0].used then 1 else 0) + UsedCount(bs[1..])
  }

  lemma {:induction false} Ordered(bs: seq<Block>, lo: nat, hi: nat, i: nat, j: nat)
    requires Tiles(bs, lo, hi) && i < j < |bs|
    ensures bs[i].End() <= bs[j].pos
    decreases j
  {
    if i + 1 < j {
      Ordered(bs, lo, hi, i, j - 1);
      assert bs[j - 1].End() == bs[j].pos;
    }
  }

  lemma {:induction false} ShapeTiles(bs: seq<Block>, lo: nat, hi: nat)
    requires WellFormed(bs, lo, hi)
    ensures Tiles(bs, lo, hi)
  {
  }

  /** Blocks are disjoint, in address order and inside the region. */
  lemma {:induction false} OrderedAll(bs: seq<Block>, lo: nat, hi: nat)
    requires Tiles(bs, lo, hi)
    ensures forall i, j :: 0 <= i < j < |bs| ==> bs[i].End() <= bs[j].pos
    ensures forall i :: 0 <= i < |bs| ==> lo <= bs[i].pos && bs[i].End() <= hi
  {
    forall i, j | 0 <= i < j < |bs| ensures bs[i].End() <= bs[j].pos {
      Ordered(bs, lo, hi, i, j);
    }
    forall i | 0 <= i < |bs| ensures lo <= bs[i].pos && bs[i].End() <= hi {
      if 0 < i { Ordered(bs, lo, hi, 0, i); }
      if i < |bs| - 1 { Ordered(bs, lo, hi, i, |bs| - 1); }
    }
  }

  /** The entry of one block in the free list, if it has one. */
  function FreeEntryOf(b: Block): seq<Block> {
    if b.used then [] else [b]
  }

  lemma FreeListHead(bs: seq<Block>)
    ensures bs == [] ==> FreeList(bs) == []
    ensures bs != [] ==> FreeList(bs) == FreeEntryOf(bs[0]) + FreeList(bs[1..])
  {
  }

  lemma {:induction false} FreeListConcat(a: seq<Block>, b: seq<Block>)
    ensures FreeList(a + b) == FreeList(a) + FreeList(b)
  {
    hide FreeList, FreeEntryOf;
    FreeListHead(a);
    if a == [] {
      assert a + b == b;
      assert [] + FreeList(b) == FreeList(b);
    } else {
      FreeListConcat(a[1..], b);
      FreeListHead(a + b);
      assert (a + b)[1..] == a[1..] + b && (a + b)[0] == a[0];
      var x, y, z := FreeEntryOf(a[0]), FreeList(a[1..]), FreeList(b);
      assert x + (y + z) == x + y + z;
    }
  }

  lemma {:induction false} CountsConcat(a: seq<Block>, b: seq<Block>)
    ensures FreeBytes(a + b) == FreeBytes(a) + FreeBytes(b)
    ensures UsedCount(a + b) == UsedCount(a) + UsedCount(b)
  {
    if a == [] {
      assert a + b == b;
    } else {
      CountsConcat(a[1..], b);
      assert (a + b)[1..] == a[1..] + b;
    }
  }

  lemma Single(b: Block)
    ensures FreeList([b]) == (if b.used then [] else [b])
    ensures FreeBytes([b]) == (if b.used then 0 else 8 * b.len)
    ensures UsedCount([b]) == (if b.used then 1 else 0)
  {
    assert [b][1..] == [];
  }

  /** FreeList, FreeBytes and UsedCount of a list cut at one block. */
  lemma {:induction false} Cut(l: seq<Block>, b: Block, r: seq<Block>)
    ensures FreeList(l + [b] + r) == FreeList(l) + (if b.used then [] else [b]) + FreeList(r)
    ensures FreeBytes(l + [b] + r) == FreeBytes(l) + (if b.used then 0 else 8 * b.len) + FreeBytes(r)
    ensures UsedCount(l + [b] + r) == UsedCount(l) + (if b.used then 1 else 0) + UsedCount(r)
  {
    Single(b);
    hide FreeList, FreeBytes, UsedCount;
    FreeListConcat(l, [b]);
    FreeListConcat(l + [b], r);
    CountsConcat(l, [b]);
    CountsConcat(l + [b], r);
  }

  /** The free list holds exactly the free blocks. */
  lemma {:induction false} FreeListMembers(bs: seq<Block>, b: Block)
    ensures b in FreeList(bs) <==> b in bs && !b.used
  {
    if bs != [] {
      FreeListMembers(bs[1..], b);
      assert bs == [bs[0]] + bs[1..];
    }
  }

  /** The index in `bs` of the k-th free block. */
  function Spot(bs: seq<Block>, k: nat): (i: nat)
    requires k < |FreeList(bs)|
    ensures i < |bs| && bs[i] == FreeList(bs)[k] && !bs[i].used
  {
    if bs[0].used then 1 + Spot(bs[1..], k)
    else if k == 0 then 0
    else 1 + Spot(bs[1..], k - 1)
  }

  lemma {:induction false} SpotSplits(bs: seq<Block>, k: nat)
    requires k < |FreeList(bs)|
    ensures bs[Spot(bs, k)] == FreeList(bs)[k] && !bs[Spot(bs, k)].used
    ensures FreeList(bs[..Spot(bs, k)]) == FreeList(bs)[..k]
    ensures FreeList(bs[Spot(bs, k) + 1..]) == FreeList(bs)[k + 1..]
  {
    FreePlaceOfSpot(bs, k);
    var i := Spot(bs, k);
    hide FreeList, Spot;
    FreePlace(bs, i);
  }

  /** As many free blocks lie before the k-th one. */
  lemma {:induction false} FreePlaceOfSpot(bs: seq<Block>, k: nat)
    requires k < |FreeList(bs)|
    ensures |FreeList(bs[..Spot(bs, k)])| == k
  {
    var i := Spot(bs, k);
    FreeListHead(bs);
    if !bs[0].used && k == 0 {
      assert bs[..i] == [];
    } else {
      FreePlaceOfSpot(bs[1..], if bs[0].used then k else k - 1);
      var head := bs[..i];
      assert head[1..] == bs[1..][..i - 1] && head[0] == bs[0];
      hide Spot;
      FreeListHead(head);
    }
  }

  /** Blocks in strictly ascending order, no two of which touch. */
  ghost predicate Ascending(f: seq<Block>) {
    && (forall a :: 0 <= a < |f| ==> f[a].len >= 2)
    && (forall a, b :: 0 <= a < b < |f| ==> f[a].End() < f[b].pos)
  }

  /** The free list is strictly ascending, and no two of its blocks touch. */
  lemma {:induction false} FreeListAscends(bs: seq<Block>, lo: nat, hi: nat)
    requires WellFormed(bs, lo, hi)
    ensures Ascending(FreeList(bs))
  {
    var f := FreeList(bs);
    forall a | 0 <= a < |f| ensures f[a].len >= 2 {
      SpotSplits(bs, a);
    }
    forall a, b | 0 <= a < b < |f| ensures f[a].End() < f[b].pos {
      SpotsApart(bs, lo, hi, a, b);
    }
  }

  lemma {:induction false} SpotsApart(bs: seq<Block>, lo: nat, hi: nat, a: nat, b: nat)
    requires WellFormed(bs, lo, hi) && a < b < |FreeList(bs)|
    ensures FreeList(bs)[a].End() < FreeList(bs)[b].pos
  {
    var i, j := Spot(bs, a), Spot(bs, b);
    SpotSplits(bs, a);
    SpotSplits(bs, b);
    SpotMonotone(bs, a, b);
    assert j != i + 1;
    Ordered(bs, lo, hi, i, i + 1);
    Ordered(bs, lo, hi, i + 1, j);
  }

  lemma {:induction false} SpotMonotone(bs: seq<Block>, a: nat, b: nat)
    requires a < b < |FreeList(bs)|
    ensures Spot(bs, a) < Spot(bs, b)
  {
    if bs[0].used {
      SpotMonotone(bs[1..], a, b);
    } else if a > 0 {
      SpotMonotone(bs[1..], a - 1, b - 1);
    }
  }

  // ---------- Choosing a chunk ----------

  /** First free block from `k` on that holds `n` words, or the length of the list. */
  function FirstFit(f: seq<Block>, n: nat, k: nat): (r: nat)
    requires k <= |f|
    ensures k <= r <= |f|
    ensures forall j :: k <= j < r ==> f[j].len < n
    ensures r < |f| ==> f[r].len >= n
    decreases |f| - k
  {
    if k == |f| || f[k].len >= n then k else FirstFit(f, n, k + 1)
  }

  /** The anti-fragmentation scan: it moves on to a later block that also fits and is no larger
      than the best so far, and gives up after FIND_DEPTH such moves. Returns the choice and the
      number of moves made. */
  function Improve(f: seq<Block>, n: nat, best: nat, k: nat, found: nat): (r: (nat, nat))
    requires best < k <= |f| && found < FIND_DEPTH && f[best].len >= n
    ensures r.0 < |f| && f[r.0].len >= n && r.1 <= FIND_DEPTH
    decreases |f| - k
  {
    if k == |f| then (best, found)
    else if f[k].len >= n && f[k].len <= f[best].len then
      if found + 1 >= FIND_DEPTH then (k, found + 1) else Improve(f, n, k, k + 1, found + 1)
    else Improve(f, n, best, k + 1, found)
  }

  /** The index in the free list of the chunk taken for a request of `n` words. */
  function Pick(f: seq<Block>, n: nat): (r: Option<nat>)
    ensures r.Some? ==> r.value < |f| && f[r.value].len >= n
  {
    var first := FirstFit(f, n, 0);
    if first == |f| then None else Some(Improve(f, n, first, first + 1, 0).0)
  }

  /** `r` is the last among the smallest of the blocks of `f[..stop]` that hold `n` words. */
  ghost predicate LastSmallest(f: seq<Block>, n: nat, r: nat, stop: nat) {
    && r < stop <= |f|
    && f[r].len >= n
    && (forall j :: 0 <= j < stop && f[j].len >= n ==> f[r].len <= f[j].len)
    && (forall j :: r < j < stop && f[j].len >= n ==> f[r].len < f[j].len)
  }

  /** Block j fits, is not the first that does, and is no larger than any that fits before it. */
  ghost predicate Improves(f: seq<Block>, n: nat, j: nat) {
    && j < |f| && f[j].len >= n
    && (exists i :: 0 <= i < j && f[i].len >= n)
    && (forall i :: 0 <= i < j && f[i].len >= n ==> f[j].len <= f[i].len)
  }

  /** The improvements among the first k blocks, counted on the list alone. */
  ghost function Improvements(f: seq<Block>, n: nat, k: nat): set<nat> {
    set j | 0 <= j < k && Improves(f, n, j)
  }

  lemma ImprovementsStep(f: seq<Block>, n: nat, best: nat, k: nat)
    requires k < |f| && LastSmallest(f, n, best, k)
    ensures Improves(f, n, k) <==> f[k].len >= n && f[k].len <= f[best].len
    ensures Improves(f, n, k) ==>
              Improvements(f, n, k + 1) == Improvements(f, n, k) + {k} && |Improvements(f, n, k + 1)| == |Improvements(f, n, k)| + 1
    ensures !Improves(f, n, k) ==> Improvements(f, n, k + 1) == Improvements(f, n, k)
    ensures LastSmallest(f, n, if Improves(f, n, k) then k else best, k + 1)
  {
    if Improves(f, n, k) {
      assert Improvements(f, n, k + 1) == Improvements(f, n, k) + {k};
    } else {
      assert Improvements(f, n, k + 1) == Improvements(f, n, k);
    }
  }

  lemma ImprovementsGrow(f: seq<Block>, n: nat, k: nat, k': nat)
    requires k <= k'
    ensures |Improvements(f, n, k)| <= |Improvements(f, n, k')|
  {
    var rest := Improvements(f, n, k') - Improvements(f, n, k);
    assert Improvements(f, n, k') == Improvements(f, n, k) + rest;
  }

  /** What the scan has chosen when it ends: with fewer than three improvements in the whole list the last
      of all the smallest fitting blocks, else the third improvement. */
  ghost predicate Chosen(f: seq<Block>, n: nat, r: nat) {
    if |Improvements(f, n, |f|)| < 3 then LastSmallest(f, n, r, |f|)
    else Improves(f, n, r) && |Improvements(f, n, r)| == 2
  }

  lemma {:induction false} ImproveIsLastSmallest(f: seq<Block>, n: nat, best: nat, k: nat, found: nat)
    requires k <= |f| && found < FIND_DEPTH && LastSmallest(f, n, best, k) && |Improvements(f, n, k)| == found
    ensures var r := Improve(f, n, best, k, found);
            && Chosen(f, n, r.0) && LastSmallest(f, n, r.0, r.0 + 1) && f[r.0].len <= f[best].len
            && r.1 == if |Improvements(f, n, |f|)| < 3 then |Improvements(f, n, |f|)| else 3
    decreases |f| - k
  {
    hide Improves, Improvements;
    if k < |f| {
      ImprovementsStep(f, n, best, k);
      if !Improves(f, n, k) {
        ImproveIsLastSmallest(f, n, best, k + 1, found);
      } else if found + 1 < FIND_DEPTH {
        ImproveIsLastSmallest(f, n, k, k + 1, found + 1);
      } else {
        ImprovementsGrow(f, n, k + 1, |f|);
      }
    }
  }

  lemma NoImprovementYet(f: seq<Block>, n: nat, first: nat)
    requires first < |f| && f[first].len >= n && forall j :: 0 <= j < first ==> f[j].len < n
    ensures Improvements(f, n, first + 1) == {} && LastSmallest(f, n, first, first + 1)
  {
  }

  /** What the search promises: it fails exactly when nothing fits; its choice fits and is the last of the
      smallest fitting blocks up to itself. With fewer than three improvements in the list it is the last
      of the smallest of all, else it is the third improvement. */
  lemma {:induction false} PickChooses(f: seq<Block>, n: nat)
    ensures Pick(f, n).None? <==> forall j :: 0 <= j < |f| ==> f[j].len < n
    ensures Pick(f, n).Some? ==>
              var r := Pick(f, n).value;
              && r < |f| && n <= f[r].len <= f[FirstFit(f, n, 0)].len && LastSmallest(f, n, r, r + 1)
              && (|Improvements(f, n, |f|)| < 3 ==> LastSmallest(f, n, r, |f|))
              && (|Improvements(f, n, |f|)| >= 3 ==> r in Improvements(f, n, |f|) && |Improvements(f, n, r)| == 2)
  {
    var first := FirstFit(f, n, 0);
    if first < |f| {
      NoImprovementYet(f, n, first);
      ImproveIsLastSmallest(f, n, first, first + 1, 0);
    }
  }

  /** Free blocks of 80, 64 and 48 bytes and a request for a block of 40: the scan moves twice. */
  lemma PickMovesTwice()
    ensures var f := [Block(2, 10, false), Block(14, 8, false), Block(24, 6, false)];
            Pick(f, 5) == Some(2)
  {
    var f := [Block(2, 10, false), Block(14, 8, false), Block(24, 6, false)];
    assert Improve(f, 5, 1, 2, 1).0 == 2;
  }

  /** Of the improvements 1 to 4, the third is taken. */
  lemma PickStopsAtThird()
    ensures var f := [Block(2, 10, false), Block(14, 9, false), Block(24, 8, false), Block(34, 7, false), Block(44, 6, false)];
            Pick(f, 5) == Some(3)
  {
    var f := [Block(2, 10, false), Block(14, 9, false), Block(24, 8, false), Block(34, 7, false), Block(44, 6, false)];
    assert Improve(f, 5, 1, 2, 1).0 == 3;
  }

  // ---------- Taking a chunk and giving it back ----------

  /** Carve `n` words from the end of free block i, or hand out the whole block when too little
      would be left. The allocated block is at index Taken(bs, i, n). */
  function AllocAt(bs: seq<Block>, i: nat, n: nat): seq<Block>
    requires i < |bs| && bs[i].len >= n
  {
    var b := bs[i];
    if b.len - n >= MIN_SPLIT
    then bs[..i] + [Block(b.pos, b.len - n, false), Block(b.pos + b.len - n, n, true)] + bs[i + 1..]
    else bs[..i] + [Block(b.pos, b.len, true)] + bs[i + 1..]
  }

  function Taken(bs: seq<Block>, i: nat, n: nat): nat
    requires i < |bs| && bs[i].len >= n
  {
    if bs[i].len - n >= MIN_SPLIT then i + 1 else i
  }

  /** A request for n words: the blocks afterwards and the block handed out, if one fits. */
  function Alloc(bs: seq<Block>, n: nat): (seq<Block>, Option<Block>) {
    match Pick(FreeList(bs), n)
    case None => (bs, None)
    case Some(k) =>
      var i := Spot(bs, k);
      (AllocAt(bs, i, n), Some(AllocAt(bs, i, n)[Taken(bs, i, n)]))
  }

  /** First and one-past-last of the blocks that freeing block i melts into one. */
  function MergeFrom(bs: seq<Block>, i: nat): nat
    requires i < |bs|
  {
    if i > 0 && !bs[i - 1].used then i - 1 else i
  }

  function MergeTo(bs: seq<Block>, i: nat): nat
    requires i < |bs|
  {
    if i + 1 < |bs| && !bs[i + 1].used then i + 2 else i + 1
  }

  /** Free block i and melt it with its free neighbours. */
  function FreeAt(bs: seq<Block>, i: nat): seq<Block>
    requires i < |bs|
  {
    bs[..MergeFrom(bs, i)] + [Melted(bs, i)] + bs[MergeTo(bs, i)..]
  }

  function Melted(bs: seq<Block>, i: nat): Block
    requires i < |bs|
  {
    var from, to := bs[MergeFrom(bs, i)].pos, bs[MergeTo(bs, i) - 1].End();
    Block(from, if from <= to then to - from else 0, false)
  }

  /** Two well-formed runs of blocks that follow each other, not both free where they meet. */
  lemma {:induction false} ShapeJoin(a: seq<Block>, b: seq<Block>, lo: nat, mid: nat, hi: nat)
    requires WellFormed(a, lo, mid) && WellFormed(b, mid, hi) && (a[|a| - 1].used || b[0].used)
    ensures WellFormed(a + b, lo, hi)
  {
    var t := a + b;
    forall x, y | 0 <= x < y < |t| && y == x + 1 ensures t[x].End() == t[y].pos && (t[x].used || t[y].used) {
      if y < |a| { assert t[x] == a[x] && t[y] == a[y]; }
      else if x >= |a| { assert t[x] == b[x - |a|] && t[y] == b[y - |a|]; }
    }
  }

  lemma {:induction false} ShapeParts(bs: seq<Block>, lo: nat, hi: nat, p: nat)
    requires WellFormed(bs, lo, hi) && 0 < p < |bs|
    ensures WellFormed(bs[..p], lo, bs[p].pos) && WellFormed(bs[p..], bs[p].pos, hi) && bs[p - 1].End() == bs[p].pos
  {
  }

  /** Other blocks in place of blocks p to q - 1. */
  lemma {:induction false} ReplaceRun(bs: seq<Block>, lo: nat, hi: nat, p: nat, q: nat, mid: seq<Block>)
    requires WellFormed(bs, lo, hi) && p < q <= |bs| && WellFormed(mid, bs[p].pos, bs[q - 1].End())
    requires p > 0 ==> bs[p - 1].used || mid[0].used
    requires q < |bs| ==> mid[|mid| - 1].used || bs[q].used
    ensures WellFormed(bs[..p] + mid + bs[q..], lo, hi)
  {
    RegionOf(bs, lo, hi);
    RegionOf(mid, bs[p].pos, bs[q - 1].End());
    var l, r := bs[..p], bs[q..];
    if p > 0 { ShapeParts(bs, lo, hi, p); }
    if q < |bs| { ShapeParts(bs, lo, hi, q); }
    hide WellFormed;
    if p > 0 { ShapeJoin(l, mid, lo, bs[p].pos, bs[q - 1].End()); } else { assert l + mid == mid; }
    var m := l + mid;
    if q < |bs| { ShapeJoin(m, r, lo, bs[q].pos, hi); } else { assert m + r == m; }
  }

  lemma RegionOf(bs: seq<Block>, lo: nat, hi: nat)
    requires WellFormed(bs, lo, hi)
    ensures bs != [] && bs[0].pos == lo && bs[|bs| - 1].End() == hi
  {
  }

  lemma {:induction false} AllocKeepsShape(bs: seq<Block>, lo: nat, hi: nat, i: nat, n: nat)
    requires WellFormed(bs, lo, hi) && i < |bs| && !bs[i].used && 2 <= n <= bs[i].len
    ensures WellFormed(AllocAt(bs, i, n), lo, hi)
    ensures var b := AllocAt(bs, i, n)[Taken(bs, i, n)];
            b.used && n <= b.len < n + MIN_SPLIT && bs[i].pos <= b.pos && b.End() == bs[i].End()
  {
    var mid := Carved(bs[i], n);
    CarvedShape(bs[i], n);
    FreeMeetsUsed(bs, lo, hi, i);
    hide WellFormed, Carved;
    ReplaceRun(bs, lo, hi, i, i + 1, mid);
    AllocAtCarves(bs, i, n);
    hide AllocAt;
  }

  /** What becomes of a free block from which n words are taken. */
  function Carved(b: Block, n: nat): seq<Block>
    requires b.len >= n
  {
    if b.len - n >= MIN_SPLIT then [Block(b.pos, b.len - n, false), Block(b.pos + b.len - n, n, true)]
    else [Block(b.pos, b.len, true)]
  }

  lemma CarvedShape(b: Block, n: nat)
    requires !b.used && 2 <= n <= b.len
    ensures Carved(b, n) != [] && WellFormed(Carved(b, n), b.pos, b.End()) && Carved(b, n)[|Carved(b, n)| - 1].used
  {
  }

  lemma AllocAtCarves(bs: seq<Block>, i: nat, n: nat)
    requires i < |bs| && 2 <= n <= bs[i].len
    ensures AllocAt(bs, i, n) == bs[..i] + Carved(bs[i], n) + bs[i + 1..]
    ensures var b := AllocAt(bs, i, n)[Taken(bs, i, n)];
            b.used && n <= b.len < n + MIN_SPLIT && bs[i].pos <= b.pos && b.End() == bs[i].End()
  {
  }

  /** The neighbours of a free block are in use. */
  lemma FreeMeetsUsed(bs: seq<Block>, lo: nat, hi: nat, i: nat)
    requires WellFormed(bs, lo, hi) && i < |bs| && !bs[i].used
    ensures (i > 0 ==> bs[i - 1].used) && (i + 1 < |bs| ==> bs[i + 1].used)
  {
  }

  lemma {:induction false} CutTwo(l: seq<Block>, x: Block, y: Block, r: seq<Block>)
    requires !x.used && y.used
    ensures FreeList(l + [x, y] + r) == FreeList(l) + [x] + FreeList(r)
    ensures FreeBytes(l + [x, y] + r) == FreeBytes(l) + 8 * x.len + FreeBytes(r)
    ensures UsedCount(l + [x, y] + r) == UsedCount(l) + 1 + UsedCount(r)
  {
    assert l + [x, y] + r == (l + [x]) + [y] + r;
    Cut(l + [x], y, r);
    Cut(l, x, []);
    assert l + [x] + [] == l + [x];
    assert FreeList(l) + [x] + [] == FreeList(l) + [x];
  }

  /** An allocation moves exactly the allocated block's bytes out of the free total, and only the
      chosen block's entry in the free list shrinks or disappears. */
  lemma {:induction false} AllocAccounts(bs: seq<Block>, i: nat, n: nat)
    requires i < |bs| && !bs[i].used && bs[i].len >= n
    ensures FreeBytes(AllocAt(bs, i, n)) + 8 * AllocAt(bs, i, n)[Taken(bs, i, n)].len == FreeBytes(bs)
    ensures UsedCount(AllocAt(bs, i, n)) == UsedCount(bs) + 1
    ensures FreeList(AllocAt(bs, i, n)) == FreeList(bs[..i])
                              + (if bs[i].len - n >= MIN_SPLIT then [Block(bs[i].pos, bs[i].len - n, false)] else [])
                              + FreeList(bs[i + 1..])
  {
    var l, b, r := bs[..i], bs[i], bs[i + 1..];
    assert bs == l + [b] + r;
    Cut(l, b, r);
    if b.len - n >= MIN_SPLIT {
      CutTwo(l, Block(b.pos, b.len - n, false), Block(b.pos + b.len - n, n, true), r);
    } else {
      Cut(l, Block(b.pos, b.len, true), r);
    }
  }

  /** The place in the free list of free block i. */
  lemma {:induction false} FreePlace(bs: seq<Block>, i: nat)
    requires i < |bs| && !bs[i].used
    ensures |FreeList(bs[..i])| < |FreeList(bs)|
    ensures FreeList(bs)[|FreeList(bs[..i])|] == bs[i]
    ensures FreeList(bs)[..|FreeList(bs[..i])|] == FreeList(bs[..i])
    ensures FreeList(bs)[|FreeList(bs[..i])| + 1..] == FreeList(bs[i + 1..])
  {
    assert bs == bs[..i] + [bs[i]] + bs[i + 1..];
    Cut(bs[..i], bs[i], bs[i + 1..]);
  }

  /** An allocation replaces or removes one entry of the free list. */
  lemma {:induction false} AllocFreeList(bs: seq<Block>, i: nat, n: nat)
    requires i < |bs| && !bs[i].used && bs[i].len >= n
    ensures var f, k := FreeList(bs), |FreeList(bs[..i])|;
            && k < |f| && f[k] == bs[i]
            && FreeList(AllocAt(bs, i, n)) ==
               if bs[i].len - n >= MIN_SPLIT
               then f[..k] + [Block(bs[i].pos, bs[i].len - n, false)] + f[k + 1..]
               else f[..k] + f[k + 1..]
  {
    hide FreeList, AllocAt, FreeBytes, UsedCount;
    AllocAccounts(bs, i, n);
    FreePlace(bs, i);
    var a, b := FreeList(bs[..i]), FreeList(bs[i + 1..]);
    assert a + [] + b == a + b;
  }

  lemma {:induction false} MergeOrdered(bs: seq<Block>, lo: nat, hi: nat, i: nat)
    requires Tiles(bs, lo, hi) && i < |bs|
    ensures var p, q := MergeFrom(bs, i), MergeTo(bs, i);
            && p <= i < q <= |bs|
            && bs[p].pos + (if p < i then bs[p].len else 0) == bs[i].pos
            && bs[i].End() + (if i + 1 < q then bs[q - 1].len else 0) == bs[q - 1].End()
  {
  }

  lemma {:induction false} FreeKeepsShape(bs: seq<Block>, lo: nat, hi: nat, i: nat)
    requires WellFormed(bs, lo, hi) && i < |bs| && bs[i].used
    ensures WellFormed(FreeAt(bs, i), lo, hi)
  {
    MergeOrdered(bs, lo, hi, i);
    var p, q := MergeFrom(bs, i), MergeTo(bs, i);
    assert (p > 0 ==> bs[p - 1].used) && (q < |bs| ==> bs[q].used);
    assert WellFormed([Melted(bs, i)], bs[p].pos, bs[q - 1].End());
    ReplaceRun(bs, lo, hi, p, q, [Melted(bs, i)]);
    hide WellFormed, Melted;
  }

  /** A run of blocks of which only block i is in use. */
  lemma {:induction false} RunAccounts(bs: seq<Block>, p: nat, i: nat, q: nat)
    requires p <= i < q <= |bs| && bs[i].used
    requires i <= p + 1 && (p < i ==> !bs[p].used)
    requires q <= i + 2 && (i + 1 < q ==> !bs[i + 1].used)
    ensures FreeBytes(bs[p..q]) == (if p < i then 8 * bs[p].len else 0) + (if i + 1 < q then 8 * bs[i + 1].len else 0)
    ensures UsedCount(bs[p..q]) == 1
  {
    var l, r := bs[p..i], bs[i + 1..q];
    assert bs[p..q] == l + [bs[i]] + r;
    Cut(l, bs[i], r);
    assert l == if p < i then [bs[p]] else [];
    assert r == if i + 1 < q then [bs[i + 1]] else [];
  }

  lemma {:induction false} FreeAccounts(bs: seq<Block>, lo: nat, hi: nat, i: nat)
    requires WellFormed(bs, lo, hi) && i < |bs| && bs[i].used
    ensures FreeBytes(FreeAt(bs, i)) == FreeBytes(bs) + 8 * bs[i].len
    ensures UsedCount(FreeAt(bs, i)) + 1 == UsedCount(bs)
    ensures FreeList(FreeAt(bs, i)) == FreeList(bs[..MergeFrom(bs, i)])
                                       + [Melted(bs, i)] + FreeList(bs[MergeTo(bs, i)..])
  {
    MergeOrdered(bs, lo, hi, i);
    var p, q := MergeFrom(bs, i), MergeTo(bs, i);
    var l, mid, r := bs[..p], bs[p..q], bs[q..];
    Cut(l, Melted(bs, i), r);
    assert bs == l + mid + r;
    CountsConcat(l, mid);
    CountsConcat(l + mid, r);
    RunAccounts(bs, p, i, q);
  }

  /** Freeing used block i puts the melted block in the free list, in place of the free neighbours
      it swallows: entry k - 1 when the block before is free, entry k when the block after is. */
  lemma {:induction false} FreeFreeList(bs: seq<Block>, lo: nat, hi: nat, i: nat)
    requires WellFormed(bs, lo, hi) && i < |bs| && bs[i].used
    ensures var f, k, p, q := FreeList(bs), |FreeList(bs[..i])|, MergeFrom(bs, i), MergeTo(bs, i);
            && k <= |f|
            && (p < i ==> k > 0 && f[k - 1] == bs[p])
            && (i + 1 < q ==> k < |f| && f[k] == bs[i + 1])
            && FreeList(FreeAt(bs, i)) == f[..if p < i then k - 1 else k] + [Melted(bs, i)] + f[if i + 1 < q then k + 1 else k..]
  {
    hide WellFormed, FreeList, FreeBytes, UsedCount, FreeAt, Melted;
    FreeAccounts(bs, lo, hi, i);
    UsedPlace(bs, i);
    ListHalves(bs, i);
    var p, q := MergeFrom(bs, i), MergeTo(bs, i);
    var x, y := bs[p], if i + 1 < q then bs[i + 1] else bs[i];
    var a, b, l, r, melted, after := FreeList(bs[..i]), FreeList(bs[i + 1..]), FreeList(bs[..p]), FreeList(bs[q..]), Melted(bs, i), FreeList(FreeAt(bs, i));
    assert after == l + [melted] + r && FreeList(bs) == a + b;
    TakeHalves(a, b, l, r, p < i, x, i + 1 < q, y);
  }

  /** The free list before and after used block i, and without the neighbours that melt with it. */
  lemma {:induction false} ListHalves(bs: seq<Block>, i: nat)
    requires i < |bs| && bs[i].used
    ensures var p, q := MergeFrom(bs, i), MergeTo(bs, i);
            && FreeList(bs[..i]) == FreeList(bs[..p]) + (if p < i then [bs[p]] else [])
            && FreeList(bs[i + 1..]) == (if i + 1 < q then [bs[i + 1]] else []) + FreeList(bs[q..])
  {
    var p, q := MergeFrom(bs, i), MergeTo(bs, i);
    hide FreeList;
    if p < i {
      LastFree(bs[..i]);
      assert bs[..i][..i - 1] == bs[..p];
    }
    if i + 1 < q {
      FreeListHead(bs[i + 1..]);
      assert bs[i + 1..][1..] == bs[q..];
    }
  }

  lemma TakeHalves(a: seq<Block>, b: seq<Block>, l: seq<Block>, r: seq<Block>, left: bool, x: Block, right: bool, y: Block)
    requires a == l + (if left then [x] else []) && b == (if right then [y] else []) + r
    ensures var f, k := a + b, |a|;
            && (left ==> k > 0 && f[k - 1] == x) && (right ==> k < |f| && f[k] == y)
            && f[..if left then k - 1 else k] == l && f[if right then k + 1 else k..] == r
  {
  }

  /** Seen from the free list: where used block i goes, and when it touches its list neighbours. */
  lemma {:induction false} FreeNeighbours(bs: seq<Block>, lo: nat, hi: nat, i: nat)
    requires WellFormed(bs, lo, hi) && i < |bs| && bs[i].used
    ensures var f, k, b := FreeList(bs), |FreeList(bs[..i])|, bs[i];
            && k <= |f|
            && (forall j :: 0 <= j < k ==> f[j].End() <= b.pos)
            && (forall j :: k <= j < |f| ==> b.End() <= f[j].pos)
            && (MergeFrom(bs, i) < i <==> k > 0 && f[k - 1].End() == b.pos)
            && (i + 1 < MergeTo(bs, i) <==> k < |f| && f[k].pos == b.End())
  {
    hide WellFormed, FreeList;
    var f, k := FreeList(bs), |FreeList(bs[..i])|;
    UsedPlace(bs, i);
    ShapeTiles(bs, lo, hi);
    OrderedAll(bs, lo, hi);
    MergeOrdered(bs, lo, hi, i);
    forall j | 0 <= j < k ensures f[j].End() <= bs[i].pos {
      FreeListMembers(bs[..i], f[j]);
    }
    forall j | k <= j < |f| ensures bs[i].End() <= f[j].pos {
      FreeListMembers(bs[i + 1..], f[j]);
    }
    FreeFreeList(bs, lo, hi, i);
    if k > 0 && f[k - 1].End() == bs[i].pos {
      FreeListMembers(bs[..i], f[k - 1]);
      TouchesBefore(bs, lo, hi, i, f[k - 1]);
    }
    if k < |f| && f[k].pos == bs[i].End() {
      FreeListMembers(bs[i + 1..], f[k]);
      TouchesAfter(bs, lo, hi, i, f[k]);
    }
  }

  lemma {:induction false} TouchesBefore(bs: seq<Block>, lo: nat, hi: nat, i: nat, b: Block)
    requires WellFormed(bs, lo, hi) && i < |bs| && b in bs[..i] && b.End() == bs[i].pos
    ensures i > 0 && bs[i - 1] == b
  {
    var j :| 0 <= j < i && bs[j] == b;
    if j < i - 1 { Ordered(bs, lo, hi, j, i - 1); }
  }

  lemma {:induction false} TouchesAfter(bs: seq<Block>, lo: nat, hi: nat, i: nat, b: Block)
    requires WellFormed(bs, lo, hi) && i < |bs| && b in bs[i + 1..] && b.pos == bs[i].End()
    ensures i + 1 < |bs| && bs[i + 1] == b
  {
    var j :| i < j < |bs| && bs[j] == b;
    if j > i + 1 { Ordered(bs, lo, hi, i + 1, j); }
  }

  lemma {:induction false} UsedPlace(bs: seq<Block>, i: nat)
    requires i < |bs| && bs[i].used
    ensures FreeList(bs) == FreeList(bs[..i]) + FreeList(bs[i + 1..])
  {
    assert bs == bs[..i] + [bs[i]] + bs[i + 1..];
    Cut(bs[..i], bs[i], bs[i + 1..]);
    assert FreeList(bs[..i]) + [] == FreeList(bs[..i]);
  }

  lemma {:induction false} LastFree(bs: seq<Block>)
    requires |bs| > 0 && !bs[|bs| - 1].used
    ensures FreeList(bs) == FreeList(bs[..|bs| - 1]) + [bs[|bs| - 1]]
  {
    var l, b := bs[..|bs| - 1], bs[|bs| - 1];
    assert bs == l + [b] + [];
    Cut(l, b, []);
    assert FreeList(l) + [b] + [] == FreeList(l) + [b];
  }

  /** Different blocks share no word. */
  lemma {:induction false} Disjoint(bs: seq<Block>, lo: nat, hi: nat, b: Block, c: Block)
    requires Tiles(bs, lo, hi) && b in bs && c in bs && b != c
    ensures b.End() <= c.pos || c.End() <= b.pos
    ensures lo <= b.pos && b.End() <= hi
  {
    var i :| 0 <= i < |bs| && bs[i] == b;
    var j :| 0 <= j < |bs| && bs[j] == c;
    OrderedAll(bs, lo, hi);
  }

  /** The blocks after an allocation: those before it, except that the chosen free block gives way
      to the allocated one and the free rest, if any. */
  lemma {:induction false} AllocMembers(bs: seq<Block>, lo: nat, hi: nat, i: nat, n: nat, b: Block)
    requires WellFormed(bs, lo, hi) && i < |bs| && !bs[i].used && 2 <= n <= bs[i].len
    ensures b in AllocAt(bs, i, n) <==>
            || (b in bs && b != bs[i])
            || b == AllocAt(bs, i, n)[Taken(bs, i, n)]
            || (bs[i].len - n >= MIN_SPLIT && b == Block(bs[i].pos, bs[i].len - n, false))
  {
    var l, r := bs[..i], bs[i + 1..];
    NotAmongOthers(bs, lo, hi, i);
    assert bs == l + [bs[i]] + r;
    hide WellFormed;
  }

  /** A block occurs once. */
  lemma {:induction false} NotAmongOthers(bs: seq<Block>, lo: nat, hi: nat, i: nat)
    requires WellFormed(bs, lo, hi) && i < |bs|
    ensures bs[i] !in bs[..i] && bs[i] !in bs[i + 1..]
  {
    ShapeTiles(bs, lo, hi);
    assert bs[i].len >= 2;
    hide WellFormed;
    OrderedAll(bs, lo, hi);
    assert forall j :: 0 <= j < |bs| && j != i ==> bs[j] != bs[i];
  }

  /** The blocks after freeing block i: the melted block, and all others that it does not cover. */
  lemma {:induction false} FreeMembers(bs: seq<Block>, lo: nat, hi: nat, i: nat, b: Block)
    requires WellFormed(bs, lo, hi) && i < |bs| && bs[i].used
    ensures var p, q := MergeFrom(bs, i), MergeTo(bs, i);
            var melted := Melted(bs, i);
            && melted.pos == bs[p].pos && melted.End() == bs[q - 1].End() && !melted.used
            && (b in FreeAt(bs, i) <==> b == melted || (b in bs && (b.End() <= melted.pos || melted.End() <= b.pos)))
  {
    MergeOrdered(bs, lo, hi, i);
    if j :| 0 <= j < |FreeAt(bs, i)| && FreeAt(bs, i)[j] == b && j != MergeFrom(bs, i) {
      FreeMemberOld(bs, lo, hi, i, j);
    }
    if j :| 0 <= j < |bs| && bs[j] == b && (j < MergeFrom(bs, i) || j >= MergeTo(bs, i)) {
      FreeMemberNew(bs, lo, hi, i, j);
    }
  }

  lemma {:induction false} FreeMemberOld(bs: seq<Block>, lo: nat, hi: nat, i: nat, j: nat)
    requires WellFormed(bs, lo, hi) && i < |bs|
    requires j < |FreeAt(bs, i)| && j != MergeFrom(bs, i)
    ensures var b, p, q := FreeAt(bs, i)[j], MergeFrom(bs, i), MergeTo(bs, i);
            b in bs && (b.End() <= bs[p].pos || bs[q - 1].End() <= b.pos)
  {
    var p, q := MergeFrom(bs, i), MergeTo(bs, i);
    var was := if j < p then j else j - p - 1 + q;
    assert FreeAt(bs, i)[j] == bs[was];
    if was < p { Ordered(bs, lo, hi, was, p); } else { Ordered(bs, lo, hi, q - 1, was); }
  }

  lemma {:induction false} FreeMemberNew(bs: seq<Block>, lo: nat, hi: nat, i: nat, j: nat)
    requires WellFormed(bs, lo, hi) && i < |bs|
    requires j < |bs| && (j < MergeFrom(bs, i) || j >= MergeTo(bs, i))
    ensures bs[j] in FreeAt(bs, i)
  {
    var p, q := MergeFrom(bs, i), MergeTo(bs, i);
    var now := if j < p then j else j - q + p + 1;
    assert FreeAt(bs, i)[now] == bs[j];
  }

  /** A used block stays where it is through an allocation and through the freeing of another. */
  lemma {:induction false} UsedStay(bs: seq<Block>, lo: nat, hi: nat, i: nat, n: nat, b: Block)
    requires WellFormed(bs, lo, hi) && i < |bs| && b.used
    ensures !bs[i].used && 2 <= n <= bs[i].len ==>
              (b in AllocAt(bs, i, n) <==> b in bs || b == AllocAt(bs, i, n)[Taken(bs, i, n)])
    ensures bs[i].used ==> (b in FreeAt(bs, i) <==> b in bs && b != bs[i])
  {
    if !bs[i].used && 2 <= n <= bs[i].len { AllocMembers(bs, lo, hi, i, n, b); }
    if bs[i].used {
      FreeMembers(bs, lo, hi, i, b);
      MergeOrdered(bs, lo, hi, i);
      var p, q := MergeFrom(bs, i), MergeTo(bs, i);
      if b in bs && b != bs[i] {
        Disjoint(bs, lo, hi, b, bs[i]);
        if p < i { Disjoint(bs, lo, hi, b, bs[p]); }
        if i + 1 < q { Disjoint(bs, lo, hi, b, bs[i + 1]); }
      }
    }
  }

  /** With nothing handed out, the region is one free block again. */
  lemma {:induction false} AllFreeIsOneBlock(bs: seq<Block>, lo: nat, hi: nat)
    requires WellFormed(bs, lo, hi) && UsedCount(bs) == 0
    ensures lo <= hi && bs == [Block(lo, hi - lo, false)]
  {
    NoneUsed(bs);
    if |bs| > 1 {
      FirstTwo(bs);
      assert false;
    }
  }

  lemma {:induction false} FirstTwo(bs: seq<Block>)
    requires Coalesced(bs) && |bs| > 1
    ensures bs[0].used || bs[1].used
  {
  }

  lemma {:induction false} NoneUsed(bs: seq<Block>)
    ensures UsedCount(bs) == 0 <==> forall i :: 0 <= i < |bs| ==> !bs[i].used
  {
    if bs != [] {
      NoneUsed(bs[1..]);
      assert forall i :: 0 < i < |bs| ==> bs[i] == bs[1..][i - 1];
    }
  }
}
