/** How the blocks of a heap lie in memory: in-band headers, the intrusive free list that runs
    through the second word of every free block, and the tag byte that ends each block. */
module HeapLayout {
  import opened Basics
  import opened Words
  import opened HeapSpec

  const TAG_USE: byte := 0x55
  const TAG_FREE: byte := 0xaa

  /** User-space addresses on LP64 Linux end here, so the top byte of a pointer is zero. */
  const ADDR_LIMIT: nat := 0x8000_0000_0000

  ghost function NextWord(m: seq<Word>, b: Block): nat
    requires b.pos + 1 < |m|
  {
    Num(m[b.pos + 1])
  }

  ghost function Tag(m: seq<Word>, b: Block): byte
    requires 0 < b.len && b.End() <= |m|
  {
    m[b.End() - 1].top
  }

  /** The header gives the size. A used block ends in the USE tag; a free one in the FREE tag, or
      in zero where the `next` pointer of a two-word block has run over it. */
  ghost predicate BlockOk(m: seq<Word>, b: Block) {
    && 2 <= b.len && b.End() <= |m|
    && Num(m[b.pos]) == 8 * b.len
    && (b.used ==> Tag(m, b) == TAG_USE)
    && (!b.used ==> Tag(m, b) == TAG_FREE || Tag(m, b) == 0)
  }

  ghost predicate BlocksOk(m: seq<Word>, bs: seq<Block>) {
    forall b :: b in bs ==> BlockOk(m, b)
  }

  /** The pointer to the k-th free block; NULL past the end of the list. */
  ghost function Ptr(f: seq<Block>, k: nat): nat {
    if k < |f| then 8 * f[k].pos else 0
  }

  ghost predicate Linked(m: seq<Word>, f: seq<Block>, head: nat) {
    && head == Ptr(f, 0)
    && (forall k :: 0 <= k < |f| ==> f[k].pos + 1 < |m|)
    && (forall k {:trigger NextWord(m, f[k])} :: 0 <= k < |f| ==> NextWord(m, f[k]) == Ptr(f, k + 1))
  }

  ghost predicate Rep(m: seq<Word>, bs: seq<Block>, lo: nat, hi: nat, head: nat) {
    && 0 < lo && hi <= |m| && 8 * hi <= ADDR_LIMIT
    && WellFormed(bs, lo, hi)
    && BlocksOk(m, bs)
    && Linked(m, FreeList(bs), head)
  }

  /** The bytes at the two ends of a block: the header is its size, and its last byte is 0x55 while it is
      in use; every free block ends in 0xAA exactly when all free tags are intact. */
  lemma TagBytes(m: seq<Word>, bs: seq<Block>, lo: nat, hi: nat, head: nat)
    requires Rep(m, bs, lo, hi, head)
    ensures forall b :: b in bs ==> 0 < b.len && b.End() <= |m| && Num(m[b.pos]) == 8 * b.len
    ensures forall b :: b in bs && b.used ==> ByteAt(m, 8 * b.End() - 1) == 0x55
    ensures FreeTagsIntact(m, bs) <==> forall b :: b in bs && !b.used ==> ByteAt(m, 8 * b.End() - 1) == 0xAA
  {
    hide WellFormed, Linked, FreeList;
    forall b | b in bs ensures 0 < b.len && b.End() <= |m| && ByteAt(m, 8 * b.End() - 1) == Tag(m, b) {
      assert BlockOk(m, b);
    }
  }

  /** Memory agrees on words p..q. */
  ghost predicate Untouched(m: seq<Word>, m': seq<Word>, p: nat, q: nat) {
    |m'| == |m| && forall w :: p <= w < q && w < |m| ==> m'[w] == m[w]
  }

  /** Memory differs at most on words p..q and on word x. */
  ghost predicate SameOutside(m: seq<Word>, m': seq<Word>, p: nat, q: nat, x: nat) {
    |m'| == |m| && forall w :: 0 <= w < |m| && !(p <= w < q) && w != x ==> m'[w] == m[w]
  }

  /** No word of a used block other than `but` differs: header, payload and tag. */
  ghost predicate UsedUntouched(m: seq<Word>, m': seq<Word>, bs: seq<Block>, but: Block) {
    forall b :: b in bs && b.used && b != but ==> Untouched(m, m', b.pos, b.End())
  }

  /** What an operation on a heap at words lo..hi leaves alone: memory outside its region, and
      every used block. */
  ghost predicate Preserves(m: seq<Word>, m': seq<Word>, bs: seq<Block>, lo: nat, hi: nat, but: Block) {
    SameOutside(m, m', lo, hi, lo) && UsedUntouched(m, m', bs, but)
  }

  /** Every free block carries the FREE tag: what the audit walk looks for. */
  ghost predicate FreeTagsIntact(m: seq<Word>, bs: seq<Block>) {
    forall b :: b in bs && !b.used ==> 0 < b.len && b.End() <= |m| && Tag(m, b) == TAG_FREE
  }

  /** The tags of the free blocks bs' against those of the free blocks bs before: the block at word
      pos has the given tag, every other one was there already and keeps its tag. No block is at
      word 0. */
  ghost predicate TagsBut(m: seq<Word>, m': seq<Word>, bs: seq<Block>, bs': seq<Block>, pos: nat, tag: byte) {
    |m'| == |m| &&
    forall b :: b in bs' && !b.used ==>
                  && 0 < b.len && b.End() <= |m|
                  && if b.pos == pos then Tag(m', b) == tag else b in bs && Tag(m', b) == Tag(m, b)
  }

  /** Intact tags stay so exactly if the new one is FREE. */
  lemma TagsButIntact(m: seq<Word>, m': seq<Word>, bs: seq<Block>, bs': seq<Block>, pos: nat, tag: byte)
    requires TagsBut(m, m', bs, bs', pos, tag) && FreeTagsIntact(m, bs)
    ensures tag == TAG_FREE ==> FreeTagsIntact(m', bs')
    ensures (exists b :: b in bs' && !b.used && b.pos == pos) && tag != TAG_FREE ==> !FreeTagsIntact(m', bs')
  {
  }

  lemma PointerTopByte(w: Word)
    requires Num(w) < ADDR_LIMIT
    ensures w.top == 0
  {
  }

  /** The k-th entry of the free list is a block of the heap, laid out as such. */
  lemma {:induction false} FreeEntry(m: seq<Word>, bs: seq<Block>, lo: nat, hi: nat, head: nat, k: nat)
    requires Rep(m, bs, lo, hi, head) && k < |FreeList(bs)|
    ensures var b := FreeList(bs)[k];
            && b in bs && !b.used && BlockOk(m, b)
            && lo <= b.pos && b.End() <= hi
            && NextWord(m, b) == Ptr(FreeList(bs), k + 1)
  {
    FreeListMembers(bs, FreeList(bs)[k]);
    InRegion(bs, lo, hi, FreeList(bs)[k]);
  }

  lemma {:induction false} InRegion(bs: seq<Block>, lo: nat, hi: nat, b: Block)
    requires Tiles(bs, lo, hi) && b in bs
    ensures lo <= b.pos && b.End() <= hi
  {
    OrderedAll(bs, lo, hi);
  }

  /** A block of a heap: laid out, inside the region, below the address limit. */
  lemma {:induction false} BlockFacts(m: seq<Word>, bs: seq<Block>, lo: nat, hi: nat, head: nat, b: Block)
    requires Rep(m, bs, lo, hi, head) && b in bs
    ensures BlockOk(m, b) && 0 < lo <= b.pos && b.End() <= hi <= |m| && 8 * hi <= ADDR_LIMIT
  {
    InRegion(bs, lo, hi, b);
  }

  lemma {:induction false} RegionFacts(m: seq<Word>, bs: seq<Block>, lo: nat, hi: nat, head: nat)
    requires Rep(m, bs, lo, hi, head)
    ensures 0 < lo < hi <= |m|
  {
    BlockFacts(m, bs, lo, hi, head, bs[0]);
  }

  /** Every pointer of the free list is an address below the limit. */
  lemma {:induction false} PtrBound(m: seq<Word>, bs: seq<Block>, lo: nat, hi: nat, head: nat, k: nat)
    requires Rep(m, bs, lo, hi, head)
    ensures Ptr(FreeList(bs), k) < ADDR_LIMIT
    ensures k < |FreeList(bs)| ==> Ptr(FreeList(bs), k) > 0
  {
    if k < |FreeList(bs)| { FreeEntry(m, bs, lo, hi, head, k); }
  }

  /** A free block of two words keeps its `next` where its tag should be. */
  lemma {:induction false} TwoWordFreeBlockHasNoTag(m: seq<Word>, bs: seq<Block>, lo: nat, hi: nat, head: nat, b: Block)
    requires Rep(m, bs, lo, hi, head) && b in bs && !b.used && b.len == 2
    ensures Tag(m, b) == 0
  {
    FreeListMembers(bs, b);
    var k :| 0 <= k < |FreeList(bs)| && FreeList(bs)[k] == b;
    FreeEntry(m, bs, lo, hi, head, k);
    PtrBound(m, bs, lo, hi, head, k + 1);
    PointerTopByte(m[b.pos + 1]);
  }

  /** A block is laid out the same in a memory that agrees on its words. */
  lemma BlockFrame(m: seq<Word>, m': seq<Word>, b: Block)
    requires BlockOk(m, b) && Untouched(m, m', b.pos, b.End())
    ensures BlockOk(m', b) && Tag(m', b) == Tag(m, b) && NextWord(m', b) == NextWord(m, b)
  {
  }

  /** A heap only depends on its own region. */
  lemma {:induction false} RepFrame(m: seq<Word>, m': seq<Word>, bs: seq<Block>, lo: nat, hi: nat, head: nat)
    requires Rep(m, bs, lo, hi, head) && Untouched(m, m', lo, hi)
    ensures Rep(m', bs, lo, hi, head)
    ensures FreeTagsIntact(m', bs) == FreeTagsIntact(m, bs)
  {
    forall b | b in bs ensures BlockOk(m', b) && Tag(m', b) == Tag(m, b) {
      InRegion(bs, lo, hi, b);
      BlockFrame(m, m', b);
    }
    var f := FreeList(bs);
    forall k | 0 <= k < |f| ensures f[k].pos + 1 < |m'| && NextWord(m', f[k]) == Ptr(f, k + 1) {
      FreeEntry(m, bs, lo, hi, head, k);
    }
  }

  /** Whatever the program stores in the payload of its own blocks, strictly before the tag byte,
      the heap stays intact, although `next` shares those bytes in a free block. */
  lemma {:induction false} PayloadStoresKeepHeap(m: seq<Word>, m': seq<Word>, bs: seq<Block>, lo: nat, hi: nat, head: nat)
    requires Rep(m, bs, lo, hi, head) && |m'| == |m|
    requires forall b, w {:trigger b in bs, m'[w]} :: b in bs && b.pos <= w < b.End() && m'[w] != m[w] ==>
               b.used && w != b.pos && (w == b.End() - 1 ==> m'[w].top == m[w].top)
    ensures Rep(m', bs, lo, hi, head)
    ensures FreeTagsIntact(m', bs) == FreeTagsIntact(m, bs)
  {
    forall b | b in bs ensures BlockOk(m', b) && Tag(m', b) == Tag(m, b) {
      assert BlockOk(m, b);
      assert m'[b.pos] == m[b.pos];
      assert m'[b.End() - 1].top == m[b.End() - 1].top;
    }
    var f := FreeList(bs);
    forall k | 0 <= k < |f| ensures f[k].pos + 1 < |m'| && NextWord(m', f[k]) == Ptr(f, k + 1) {
      FreeEntry(m, bs, lo, hi, head, k);
      assert m'[f[k].pos + 1] == m[f[k].pos + 1];
    }
  }

  /** Entry k of the list as the code reads it through the pointer to it. */
  ghost predicate Entry(m: seq<Word>, f: seq<Block>, k: nat) {
    && k < |f| && 0 < f[k].pos && f[k].pos + 1 < |m|
    && Num(m[f[k].pos]) == 8 * f[k].len
    && Num(m[f[k].pos + 1]) == Ptr(f, k + 1)
    && (k + 1 < |f| ==> f[k + 1].pos > 0)
  }

  ghost predicate Entries(m: seq<Word>, f: seq<Block>) {
    forall k {:trigger Entry(m, f, k)} :: 0 <= k < |f| ==> Entry(m, f, k)
  }

  lemma {:induction false} ListEntries(m: seq<Word>, bs: seq<Block>, lo: nat, hi: nat, head: nat)
    requires Rep(m, bs, lo, hi, head)
    ensures Entries(m, FreeList(bs)) && head == Ptr(FreeList(bs), 0)
    ensures FreeList(bs) != [] ==> head > 0
  {
    var f := FreeList(bs);
    forall k | 0 <= k < |f| ensures Entry(m, f, k) {
      FreeEntry(m, bs, lo, hi, head, k);
      if k + 1 < |f| { FreeEntry(m, bs, lo, hi, head, k + 1); }
    }
    PtrBound(m, bs, lo, hi, head, 0);
  }

  // ---------- The free list apart from the blocks ----------
  // It is ascending, so the `next` words of its entries are all different.

  lemma ResizeEntry(m: seq<Word>, m': seq<Word>, f: seq<Block>, head: nat, k: nat, b: Block)
    requires Linked(m, f, head) && Ascending(f) && k < |f| && b.pos == f[k].pos
    requires SameOutside(m, m', b.pos, f[k].End(), b.pos) && m'[b.pos + 1] == m[b.pos + 1]
    ensures Linked(m', f[..k] + [b] + f[k + 1..], head)
  {
    var g := f[..k] + [b] + f[k + 1..];
    forall j | 0 <= j < |g| ensures g[j].pos + 1 < |m'| && NextWord(m', g[j]) == Ptr(g, j + 1) {
      assert g[j].pos == f[j].pos && NextWord(m, f[j]) == Ptr(f, j + 1);
    }
  }

  lemma RemoveEntry(m: seq<Word>, m': seq<Word>, f: seq<Block>, head: nat, head': nat, k: nat, x: nat)
    requires Linked(m, f, head) && Ascending(f) && k < |f| && SameOutside(m, m', f[k].pos, f[k].End(), x)
    requires if k == 0 then x == f[k].pos && head' == Ptr(f, 1)
             else head' == head && x == f[k - 1].pos + 1 && x < |m'| && Num(m'[x]) == Ptr(f, k + 1)
    ensures Linked(m', f[..k] + f[k + 1..], head')
  {
    var g := f[..k] + f[k + 1..];
    forall j | 0 <= j < |g| ensures g[j].pos + 1 < |m'| && NextWord(m', g[j]) == Ptr(g, j + 1) {
      var o := if j < k then j else j + 1;
      assert g[j] == f[o] && NextWord(m, f[o]) == Ptr(f, o + 1);
      if o + 1 != k { assert m'[f[o].pos + 1] == m[f[o].pos + 1]; }
    }
  }

  /** Block b replaces the entries a..c of the list. */
  lemma ReplaceEntries(m: seq<Word>, m': seq<Word>, f: seq<Block>, head: nat, head': nat, a: nat, c: nat, b: Block, x: nat)
    requires Linked(m, f, head) && a <= c <= |f| && Ascending(f[..a] + [b] + f[c..])
    requires SameOutside(m, m', b.pos, b.End(), x) && b.len >= 2 && b.End() <= |m|
    requires Num(m'[b.pos + 1]) == Ptr(f, c)
    requires Joins(m', f, a, b.pos, head, head', x)
    ensures Linked(m', f[..a] + [b] + f[c..], head')
  {
    var g := f[..a] + [b] + f[c..];
    assert g[a] == b;
    forall j | 0 <= j < |g| ensures g[j].pos + 1 < |m'| && NextWord(m', g[j]) == Ptr(g, j + 1) {
      if j != a {
        var o := if j < a then j else j - a - 1 + c;
        assert g[j] == f[o] && NextWord(m, f[o]) == Ptr(f, o + 1);
        if o + 1 != a {
          assert a > 0 ==> g[a - 1] == f[a - 1] && g[a - 1].pos != g[j].pos;
          assert m'[f[o].pos + 1] == m[f[o].pos + 1];
        }
      }
    }
  }

  /** The list entry before place a, or the list head, points to the block at `pos`; a store to
      that effect goes to word x if it is needed. */
  ghost predicate Joins(m': seq<Word>, f: seq<Block>, a: nat, pos: nat, head: nat, head': nat, x: nat) {
    if a == 0 then head' == 8 * pos && x == pos
    else && a <= |f| && head' == head && f[a - 1].pos + 1 < |m'| && Num(m'[f[a - 1].pos + 1]) == 8 * pos
         && (x == pos || x == f[a - 1].pos + 1)
  }

  // ---------- What one operation does to the layout ----------

  /** Storing a pointer into the `next` word of a free block leaves it as well laid out as before. */
  lemma {:induction false} LinkStoreKeepsBlock(m: seq<Word>, m': seq<Word>, bs: seq<Block>, lo: nat, hi: nat, head: nat, b: Block)
    requires Rep(m, bs, lo, hi, head) && b in bs && !b.used && |m'| == |m|
    requires forall w :: b.pos <= w < b.End() && w != b.pos + 1 ==> m'[w] == m[w]
    requires Num(m'[b.pos + 1]) < ADDR_LIMIT
    ensures BlockOk(m', b) && Tag(m', b) == Tag(m, b)
  {
    if b.len == 2 {
      TwoWordFreeBlockHasNoTag(m, bs, lo, hi, head, b);
      PointerTopByte(m'[b.pos + 1]);
    }
  }

  /** What splitting free block i writes: two headers, two tags, nothing else. */
  ghost predicate SplitWrites(m: seq<Word>, m': seq<Word>, b: Block, n: nat) {
    && 2 <= n && b.len - n >= MIN_SPLIT && b.End() <= |m|
    && SameOutside(m, m', b.pos, b.End(), b.pos) && m'[b.pos + 1] == m[b.pos + 1]
    && BlockOk(m', Block(b.pos, b.len - n, false)) && Tag(m', Block(b.pos, b.len - n, false)) == TAG_FREE
    && BlockOk(m', Block(b.pos + b.len - n, n, true))
  }

  /** Splitting free block i: its head keeps the list place, its tail becomes a used block. */
  lemma {:induction false} LayoutSplit(m: seq<Word>, m': seq<Word>, bs: seq<Block>, lo: nat, hi: nat, head: nat, i: nat, n: nat)
    requires Rep(m, bs, lo, hi, head) && i < |bs| && !bs[i].used && SplitWrites(m, m', bs[i], n)
    ensures Rep(m', AllocAt(bs, i, n), lo, hi, head)
    ensures TagsBut(m, m', bs, AllocAt(bs, i, n), bs[i].pos, TAG_FREE)
    ensures UsedUntouched(m, m', bs, bs[i])
  {
    hide WellFormed, FreeList, AllocAt, Linked, Ascending;
    AllocKeepsShape(bs, lo, hi, i, n);
    FreeListAscends(bs, lo, hi);
    SplitLinks(m, m', bs, head, i, n);
    forall b | b in bs && b != bs[i] ensures Untouched(m, m', b.pos, b.End()) && BlockOk(m, b) && b.pos != bs[i].pos {
      SplitKeepsOther(m, m', bs, lo, hi, i, n, b);
    }
    forall b | b in AllocAt(bs, i, n)
      ensures BlockOk(m', b)
      ensures !b.used ==> if b.pos == bs[i].pos then Tag(m', b) == TAG_FREE else b in bs && Tag(m', b) == Tag(m, b)
    {
      SplitBlock(m, m', bs, lo, hi, i, n, b);
    }
    hide BlockOk, Tag, SplitWrites;
  }

  lemma {:induction false} SplitKeepsOther(m: seq<Word>, m': seq<Word>, bs: seq<Block>, lo: nat, hi: nat, i: nat, n: nat, b: Block)
    requires WellFormed(bs, lo, hi) && BlocksOk(m, bs) && i < |bs| && SplitWrites(m, m', bs[i], n) && b in bs && b != bs[i]
    ensures BlockOk(m, b) && Untouched(m, m', b.pos, b.End()) && b.pos != bs[i].pos
  {
    ShapeTiles(bs, lo, hi);
    hide WellFormed;
    Disjoint(bs, lo, hi, b, bs[i]);
  }

  lemma {:induction false} SplitBlock(m: seq<Word>, m': seq<Word>, bs: seq<Block>, lo: nat, hi: nat, i: nat, n: nat, b: Block)
    requires WellFormed(bs, lo, hi) && BlocksOk(m, bs) && i < |bs| && !bs[i].used && SplitWrites(m, m', bs[i], n) && b in AllocAt(bs, i, n)
    ensures BlockOk(m', b)
    ensures !b.used ==> if b.pos == bs[i].pos then Tag(m', b) == TAG_FREE else b in bs && BlockOk(m, b) && Tag(m', b) == Tag(m, b)
  {
    AllocMembers(bs, lo, hi, i, n, b);
    AllocAtCarves(bs, i, n);
    assert AllocAt(bs, i, n)[Taken(bs, i, n)] == Block(bs[i].pos + bs[i].len - n, n, true);
    hide AllocAt, WellFormed;
    if b in bs && b != bs[i] {
      SplitKeepsOther(m, m', bs, lo, hi, i, n, b);
      BlockFrame(m, m', b);
    }
  }

  lemma {:induction false} SplitLinks(m: seq<Word>, m': seq<Word>, bs: seq<Block>, head: nat, i: nat, n: nat)
    requires Linked(m, FreeList(bs), head) && Ascending(FreeList(bs))
    requires i < |bs| && !bs[i].used && SplitWrites(m, m', bs[i], n)
    ensures Linked(m', FreeList(AllocAt(bs, i, n)), head)
  {
    hide FreeList, AllocAt, Linked, Ascending, BlockOk;
    AllocFreeList(bs, i, n);
    ResizeEntry(m, m', FreeList(bs), head, |FreeList(bs[..i])|, Block(bs[i].pos, bs[i].len - n, false));
  }

  /** Where the pointer that skips entry k of the list is stored, and what it must be. */
  ghost predicate Skips(m': seq<Word>, f: seq<Block>, k: nat, head: nat, head': nat, x: nat) {
    k < |f| &&
    if k == 0 then x == f[k].pos && head' == Ptr(f, 1)
    else head' == head && x == f[k - 1].pos + 1 && x < |m'| && Num(m'[x]) == Ptr(f, k + 1)
  }

  /** Handing out all of free block i: the list entry before it (or the list head) skips it. */
  lemma {:induction false} LayoutTake(m: seq<Word>, m': seq<Word>, bs: seq<Block>, lo: nat, hi: nat, head: nat, head': nat, i: nat, n: nat, x: nat)
    requires Rep(m, bs, lo, hi, head) && i < |bs| && !bs[i].used
    requires 2 <= n <= bs[i].len && bs[i].len - n < MIN_SPLIT
    requires SameOutside(m, m', bs[i].pos, bs[i].End(), x)
    requires BlockOk(m', Block(bs[i].pos, bs[i].len, true))
    requires Skips(m', FreeList(bs), |FreeList(bs[..i])|, head, head', x)
    ensures Rep(m', AllocAt(bs, i, n), lo, hi, head')
    ensures TagsBut(m, m', bs, AllocAt(bs, i, n), bs[i].pos, TAG_FREE)
    ensures UsedUntouched(m, m', bs, bs[i])
  {
    AllocKeepsShape(bs, lo, hi, i, n);
    FreeListAscends(bs, lo, hi);
    TakeLinks(m, m', bs, head, head', i, n, x);
    forall b | b in bs && b != bs[i]
      ensures BlockOk(m', b) && Tag(m', b) == Tag(m, b) && b.pos != bs[i].pos
      ensures b.used ==> Untouched(m, m', b.pos, b.End())
    {
      TakeKeepsOther(m, m', bs, lo, hi, head, head', i, x, b);
      Disjoint(bs, lo, hi, b, bs[i]);
    }
    forall b | b in AllocAt(bs, i, n)
      ensures BlockOk(m', b)
      ensures !b.used ==> b.pos != bs[i].pos && b in bs && Tag(m', b) == Tag(m, b)
    {
      AllocMembers(bs, lo, hi, i, n, b);
    }
  }

  lemma {:induction false} TakeLinks(m: seq<Word>, m': seq<Word>, bs: seq<Block>, head: nat, head': nat, i: nat, n: nat, x: nat)
    requires Linked(m, FreeList(bs), head) && Ascending(FreeList(bs))
    requires i < |bs| && !bs[i].used
    requires 2 <= n <= bs[i].len && bs[i].len - n < MIN_SPLIT
    requires SameOutside(m, m', bs[i].pos, bs[i].End(), x)
    requires Skips(m', FreeList(bs), |FreeList(bs[..i])|, head, head', x)
    ensures Linked(m', FreeList(AllocAt(bs, i, n)), head')
  {
    hide FreeList, AllocAt, Linked, Ascending, SameOutside;
    AllocFreeList(bs, i, n);
    RemoveEntry(m, m', FreeList(bs), head, head', |FreeList(bs[..i])|, x);
  }

  lemma {:induction false} TakeKeepsOther(m: seq<Word>, m': seq<Word>, bs: seq<Block>, lo: nat, hi: nat, head: nat, head': nat, i: nat, x: nat, b: Block)
    requires Rep(m, bs, lo, hi, head) && i < |bs| && !bs[i].used
    requires SameOutside(m, m', bs[i].pos, bs[i].End(), x)
    requires Skips(m', FreeList(bs), |FreeList(bs[..i])|, head, head', x)
    requires b in bs && b != bs[i]
    ensures BlockOk(m', b) && Tag(m', b) == Tag(m, b)
    ensures b.used ==> Untouched(m, m', b.pos, b.End())
  {
    var f, k := FreeList(bs), |FreeList(bs[..i])|;
    Disjoint(bs, lo, hi, b, bs[i]);
    FreePlace(bs, i);
    if k > 0 {
      PtrBound(m, bs, lo, hi, head, k + 1);
      OtherThanLinked(m, m', bs, lo, hi, head, k - 1, bs[i].pos, bs[i].End(), b);
    } else {
      BlockFrame(m, m', b);
    }
  }

  /** What freeing block i writes: the melted block's header, `next` and tag, and the link to it. */
  ghost predicate FreeWrites(m: seq<Word>, m': seq<Word>, f: seq<Block>, k: nat, left: bool, right: bool, melted: Block, head: nat, head': nat, x: nat) {
    var a := if left then k - 1 else k;
    var c := if right then k + 1 else k;
    && 0 <= a
    && SameOutside(m, m', melted.pos, melted.End(), x)
    && BlockOk(m', melted)
    && Num(m'[melted.pos + 1]) == Ptr(f, c)
    && Joins(m', f, a, melted.pos, head, head', x)
  }

  /** Freeing used block i. The heap stays laid out as one, no other used block changes, and no free
      block changes its tag but the melted one. */
  lemma {:induction false} LayoutFree(m: seq<Word>, m': seq<Word>, bs: seq<Block>, lo: nat, hi: nat, head: nat, head': nat, i: nat, melted: Block, x: nat)
    requires Rep(m, bs, lo, hi, head) && i < |bs| && bs[i].used
    requires melted == Melted(bs, i)
    requires FreeWrites(m, m', FreeList(bs), |FreeList(bs[..i])|, MergeFrom(bs, i) < i, i + 1 < MergeTo(bs, i), melted, head, head', x)
    ensures Rep(m', FreeAt(bs, i), lo, hi, head')
    ensures UsedUntouched(m, m', bs, bs[i])
    ensures melted in FreeAt(bs, i) && TagsBut(m, m', bs, FreeAt(bs, i), melted.pos, Tag(m', melted))
  {
    FreeKeepsShape(bs, lo, hi, i);
    FreeLinks(m, m', bs, lo, hi, head, head', i, melted, x);
    assert melted == FreeAt(bs, i)[MergeFrom(bs, i)];
    forall b | b in FreeAt(bs, i) && b != melted
      ensures b in bs && BlockOk(m', b) && Tag(m', b) == Tag(m, b) && b.pos != melted.pos
      ensures b.used ==> Untouched(m, m', b.pos, b.End())
    {
      FreeKeepsOther(m, m', bs, lo, hi, head, head', i, melted, x, b);
      Disjoint(FreeAt(bs, i), lo, hi, b, melted);
    }
    forall b | b in bs && b.used && b != bs[i] ensures b in FreeAt(bs, i) && b != melted {
      UsedStay(bs, lo, hi, i, 0, b);
    }
    assert melted in FreeAt(bs, i);
  }

  lemma {:induction false} FreeLinks(m: seq<Word>, m': seq<Word>, bs: seq<Block>, lo: nat, hi: nat, head: nat, head': nat, i: nat, melted: Block, x: nat)
    requires Rep(m, bs, lo, hi, head) && i < |bs| && bs[i].used
    requires melted == Melted(bs, i)
    requires FreeWrites(m, m', FreeList(bs), |FreeList(bs[..i])|, MergeFrom(bs, i) < i, i + 1 < MergeTo(bs, i), melted, head, head', x)
    ensures Linked(m', FreeList(FreeAt(bs, i)), head')
  {
    FreeFreeList(bs, lo, hi, i);
    FreeKeepsShape(bs, lo, hi, i);
    FreeListAscends(FreeAt(bs, i), lo, hi);
    var f, k := FreeList(bs), |FreeList(bs[..i])|;
    var a := if MergeFrom(bs, i) < i then k - 1 else k;
    var c := if i + 1 < MergeTo(bs, i) then k + 1 else k;
    ReplaceEntries(m, m', f, head, head', a, c, melted, x);
  }

  lemma {:induction false} FreeKeepsOther(m: seq<Word>, m': seq<Word>, bs: seq<Block>, lo: nat, hi: nat, head: nat, head': nat, i: nat, melted: Block, x: nat, b: Block)
    requires Rep(m, bs, lo, hi, head) && i < |bs| && bs[i].used
    requires melted == Melted(bs, i)
    requires FreeWrites(m, m', FreeList(bs), |FreeList(bs[..i])|, MergeFrom(bs, i) < i, i + 1 < MergeTo(bs, i), melted, head, head', x)
    requires b in FreeAt(bs, i) && b != melted
    ensures b in bs && BlockOk(m', b) && Tag(m', b) == Tag(m, b)
    ensures b.used ==> Untouched(m, m', b.pos, b.End())
  {
    hide WellFormed, FreeList;
    FreeMembers(bs, lo, hi, i, b);
    var f, k := FreeList(bs), |FreeList(bs[..i])|;
    var a := if MergeFrom(bs, i) < i then k - 1 else k;
    if a > 0 && x == f[a - 1].pos + 1 {
      FreeKeepsShape(bs, lo, hi, i);
      ShapeTiles(FreeAt(bs, i), lo, hi);
      InRegion(FreeAt(bs, i), lo, hi, melted);
      OtherThanLinked(m, m', bs, lo, hi, head, a - 1, melted.pos, melted.End(), b);
    } else {
      BlockFrame(m, m', b);
    }
  }

  /** Stores to words p..q and a pointer store into entry e of the list, seen from a block b away
      from p..q. */
  lemma {:induction false} OtherThanLinked(m: seq<Word>, m': seq<Word>, bs: seq<Block>, lo: nat, hi: nat, head: nat, e: nat, p: nat, q: nat, b: Block)
    requires Rep(m, bs, lo, hi, head) && b in bs && (b.End() <= p || q <= b.pos)
    requires e < |FreeList(bs)| && SameOutside(m, m', p, q, FreeList(bs)[e].pos + 1)
    requires FreeList(bs)[e].pos + 1 < |m'| && Num(m'[FreeList(bs)[e].pos + 1]) < ADDR_LIMIT
    ensures BlockOk(m', b) && Tag(m', b) == Tag(m, b)
    ensures b.used ==> Untouched(m, m', b.pos, b.End())
  {
    FreeEntry(m, bs, lo, hi, head, e);
    if b == FreeList(bs)[e] {
      LinkStoreKeepsBlock(m, m', bs, lo, hi, head, b);
    } else {
      Disjoint(bs, lo, hi, b, FreeList(bs)[e]);
      BlockFrame(m, m', b);
    }
  }
}
