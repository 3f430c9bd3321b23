/** The table of heaps over one memory, and the public calls of `tuya_mem_heap.c`. */
module HeapSystem {
  import opened Basics
  import opened Words
  import opened HeapSpec
  import opened HeapLayout
  import opened MemHeap

  /** MEM_HEAP_LIST_NUM */
  const HEAP_NUM: nat := 4

  /** Bytes of the block `tuya_mem_heap_realloc` compares with: `size + 1` wraps at 32 bits. */
  function ReallocSize(size: nat): nat {
    AlignDown((AtLeast4(size) + 1) % UINT + 7) + 8
  }

  /** The 32-bit computation agrees with the allocator's for every size but the largest, for which
      it gives 8, so that any block looks large enough. */
  lemma ReallocSizeExact(size: nat)
    requires size < UINT
    ensures ReallocSize(size) == BlockSize(size) <==> size != 0xFFFF_FFFF
    ensures size == 0xFFFF_FFFF ==> ReallocSize(size) == 8
  {
  }

  /** Regions as (base, size), size 0 for an unused descriptor: the used ones come first and do not
      overlap. */
  ghost predicate RegionsOk(r: seq<(nat, nat)>) {
    && |r| == HEAP_NUM
    && (forall i, j :: 0 <= i < j < HEAP_NUM && r[j].1 > 0 ==> r[i].1 > 0)
    && (forall i, j :: 0 <= i < HEAP_NUM && 0 <= j < HEAP_NUM && i != j && r[i].1 > 0 && r[j].1 > 0 ==> Apart(r[i], r[j]))
  }

  ghost predicate Apart(a: (nat, nat), b: (nat, nat)) {
    a.0 + a.1 <= b.0 || b.0 + b.1 <= a.0
  }

  lemma ApartWords(a: (nat, nat), b: (nat, nat))
    requires Apart(a, b)
    ensures AlignDown(a.0 + a.1) / 8 <= AlignUp(b.0) / 8 || AlignDown(b.0 + b.1) / 8 <= AlignUp(a.0) / 8
  {
  }

  type Place = (nat, Block)   // a block and the number of its heap

  // ---------- The blocks in use ----------

  ghost function UsedOf(bs: seq<Block>, j: nat, active: bool): set<Place> {
    set b | b in bs && b.used && active :: (j, b)
  }

  /** The blocks in use of four heaps, given by their blocks and regions. */
  ghost function UsedIn(bss: seq<seq<Block>>, r: seq<(nat, nat)>): (u: set<Place>)
    requires |bss| == |r| == HEAP_NUM
    ensures forall j: nat, b: Block :: (j, b) in u <==> j < HEAP_NUM && r[j].1 > 0 && b in bss[j] && b.used
  {
    UsedOf(bss[0], 0, r[0].1 > 0) + UsedOf(bss[1], 1, r[1].1 > 0) + UsedOf(bss[2], 2, r[2].1 > 0) + UsedOf(bss[3], 3, r[3].1 > 0)
  }

  lemma SamePlaces(u: set<Place>, v: set<Place>)
    requires forall j: nat, b: Block :: (j, b) in u <==> (j, b) in v
    ensures u == v
  {
    forall x: Place ensures x in u <==> x in v { assert x == (x.0, x.1); }
  }

  /** The same blocks are in use. */
  lemma UsedSame(bss: seq<seq<Block>>, bss': seq<seq<Block>>, r: seq<(nat, nat)>, r': seq<(nat, nat)>)
    requires |bss| == |bss'| == |r| == |r'| == HEAP_NUM
    requires forall j, d: Block :: 0 <= j < HEAP_NUM && d.used ==> (r'[j].1 > 0 && d in bss'[j] <==> r[j].1 > 0 && d in bss[j])
    ensures UsedIn(bss', r') == UsedIn(bss, r)
  {
    hide UsedIn;
    SamePlaces(UsedIn(bss', r'), UsedIn(bss, r));
  }

  /** Exactly block b of heap h is new. */
  lemma UsedGrows(bss: seq<seq<Block>>, bss': seq<seq<Block>>, r: seq<(nat, nat)>, h: nat, b: Block)
    requires |bss| == |bss'| == |r| == HEAP_NUM && h < HEAP_NUM && r[h].1 > 0 && b.used
    requires forall j, d: Block :: 0 <= j < HEAP_NUM && r[j].1 > 0 && d.used ==> (d in bss'[j] <==> d in bss[j] || (j == h && d == b))
    ensures UsedIn(bss', r) == UsedIn(bss, r) + {(h, b)}
  {
    hide UsedIn;
    SamePlaces(UsedIn(bss', r), UsedIn(bss, r) + {(h, b)});
  }

  /** Exactly block c of heap g is gone. */
  lemma UsedShrinks(bss: seq<seq<Block>>, bss': seq<seq<Block>>, r: seq<(nat, nat)>, g: nat, c: Block)
    requires |bss| == |bss'| == |r| == HEAP_NUM
    requires forall j, d: Block :: 0 <= j < HEAP_NUM && r[j].1 > 0 && d.used ==> (d in bss'[j] <==> d in bss[j] && !(j == g && d == c))
    ensures UsedIn(bss', r) == UsedIn(bss, r) - {(g, c)}
  {
    hide UsedIn;
    SamePlaces(UsedIn(bss', r), UsedIn(bss, r) - {(g, c)});
  }

  ghost predicate AllTagged(m: seq<Word>, bss: seq<seq<Block>>, r: seq<(nat, nat)>)
    requires |bss| == |r| == HEAP_NUM
  {
    forall j :: 0 <= j < HEAP_NUM && r[j].1 > 0 ==> FreeTagsIntact(m, bss[j])
  }

  /** When only heap h changed, its tags decide. */
  lemma OneTagged(m: seq<Word>, m': seq<Word>, bss: seq<seq<Block>>, bss': seq<seq<Block>>, r: seq<(nat, nat)>, h: nat)
    requires |bss| == |bss'| == |r| == HEAP_NUM && h < HEAP_NUM && r[h].1 > 0 && AllTagged(m, bss, r)
    requires forall j :: 0 <= j < HEAP_NUM && j != h ==> bss'[j] == bss[j]
    requires forall j :: 0 <= j < HEAP_NUM && j != h && r[j].1 > 0 ==> FreeTagsIntact(m', bss[j]) == FreeTagsIntact(m, bss[j])
    ensures AllTagged(m', bss', r) <==> FreeTagsIntact(m', bss'[h])
  {
    hide FreeTagsIntact;
  }

  /** When no heap changed its tags. */
  lemma SameTagged(m: seq<Word>, m': seq<Word>, bss: seq<seq<Block>>, r: seq<(nat, nat)>)
    requires |bss| == |r| == HEAP_NUM
    requires forall j :: 0 <= j < HEAP_NUM && r[j].1 > 0 ==> FreeTagsIntact(m', bss[j]) == FreeTagsIntact(m, bss[j])
    ensures AllTagged(m', bss, r) == AllTagged(m, bss, r)
  {
    hide FreeTagsIntact;
  }

  /** When heap i is new, and the others are as they were. */
  lemma TaggedWith(m: seq<Word>, m': seq<Word>, bss: seq<seq<Block>>, bss': seq<seq<Block>>, r: seq<(nat, nat)>, r': seq<(nat, nat)>, i: nat)
    requires |bss| == |bss'| == |r| == |r'| == HEAP_NUM && i < HEAP_NUM && AllTagged(m, bss, r)
    requires forall j :: 0 <= j < HEAP_NUM && j != i ==> bss'[j] == bss[j] && r'[j] == r[j]
    requires forall j :: 0 <= j < HEAP_NUM && j != i && r[j].1 > 0 ==> FreeTagsIntact(m', bss[j]) == FreeTagsIntact(m, bss[j])
    requires r'[i].1 > 0 ==> FreeTagsIntact(m', bss'[i])
    ensures AllTagged(m', bss', r')
  {
    hide FreeTagsIntact;
  }

  /** Heap j can serve a request without a handle: its free bytes pass the first test, in which
      `size + 24` wraps at 32 bits, and one of its free blocks fits. */
  ghost predicate ServesIn(bss: seq<seq<Block>>, fs: seq<int>, r: seq<(nat, nat)>, j: nat, size: nat)
    requires |bss| == |fs| == |r| == HEAP_NUM && j < HEAP_NUM
  {
    r[j].1 > 0 && fs[j] > (size + 24) % UINT && !Fails(bss[j], size)
  }

  /** The heap named if it can serve, or without a handle the first that can; else HEAP_NUM. */
  ghost function ServerIn(bss: seq<seq<Block>>, fs: seq<int>, r: seq<(nat, nat)>, handle: Option<nat>, size: nat): (h: nat)
    requires |bss| == |fs| == |r| == HEAP_NUM && (handle.Some? ==> handle.value < HEAP_NUM)
    ensures h <= HEAP_NUM && (handle.Some? ==> h == HEAP_NUM || h == handle.value)
  {
    if handle.Some? then (if Fails(bss[handle.value], size) then HEAP_NUM else handle.value)
    else if ServesIn(bss, fs, r, 0, size) then 0 else if ServesIn(bss, fs, r, 1, size) then 1
    else if ServesIn(bss, fs, r, 2, size) then 2 else if ServesIn(bss, fs, r, 3, size) then 3 else HEAP_NUM
  }

  lemma ServesWhen(bss: seq<seq<Block>>, fs: seq<int>, r: seq<(nat, nat)>, j: nat, size: nat)
    requires |bss| == |fs| == |r| == HEAP_NUM && j < HEAP_NUM
    ensures ServesIn(bss, fs, r, j, size) <==> r[j].1 > 0 && fs[j] > (size + 24) % UINT && !Fails(bss[j], size)
  {
  }

  /** A heap that is named serves unless it fails. */
  lemma NamedServes(bss: seq<seq<Block>>, fs: seq<int>, r: seq<(nat, nat)>, h: nat, size: nat)
    requires |bss| == |fs| == |r| == HEAP_NUM && h < HEAP_NUM
    ensures ServerIn(bss, fs, r, Some(h), size) == if Fails(bss[h], size) then HEAP_NUM else h
  {
  }

  lemma FirstServes(bss: seq<seq<Block>>, fs: seq<int>, r: seq<(nat, nat)>, k: nat, size: nat)
    requires |bss| == |fs| == |r| == HEAP_NUM && k < HEAP_NUM
    requires ServesIn(bss, fs, r, k, size) && forall j :: 0 <= j < k ==> !ServesIn(bss, fs, r, j, size)
    ensures ServerIn(bss, fs, r, None, size) == k
  {
    hide ServesIn;
  }

  lemma NoneServe(bss: seq<seq<Block>>, fs: seq<int>, r: seq<(nat, nat)>, k: nat, size: nat)
    requires |bss| == |fs| == |r| == HEAP_NUM && k <= HEAP_NUM
    requires forall j :: 0 <= j < k ==> !ServesIn(bss, fs, r, j, size)
    requires forall j :: k <= j < HEAP_NUM ==> r[j].1 == 0
    ensures ServerIn(bss, fs, r, None, size) == HEAP_NUM
  {
    hide Fails;
  }

  /** No word of the blocks in u differs. */
  ghost predicate Kept(m: seq<Word>, m': seq<Word>, u: set<Place>) {
    forall j: nat, b: Block :: (j, b) in u ==> Untouched(m, m', b.pos, b.End())
  }

  lemma KeptBoth(m: seq<Word>, m1: seq<Word>, m2: seq<Word>, u: set<Place>, v: set<Place>, w: set<Place>)
    requires Kept(m, m1, u) && Kept(m1, m2, v) && w <= u && w <= v
    ensures Kept(m, m2, w)
  {
    forall j: nat, b: Block | (j, b) in w ensures Untouched(m, m2, b.pos, b.End()) {
      assert Untouched(m, m1, b.pos, b.End()) && Untouched(m1, m2, b.pos, b.End());
    }
  }

  lemma MovedPlaces(m: seq<Word>, m1: seq<Word>, m2: seq<Word>, u: set<Place>, x: Place, y: Place)
    requires Kept(m, m1, u - {y}) && Kept(m1, m2, u - {x}) && y in u && x != y
    ensures Kept(m, m2, u - {x} - {y}) && Untouched(m1, m2, y.1.pos, y.1.End()) && y in u - {x}
  {
    KeptBoth(m, m1, m2, u - {y}, u - {x}, u - {x} - {y});
    KeptOne(m1, m2, u - {x}, y);
  }

  lemma GrownPlaces(m: seq<Word>, m1: seq<Word>, m2: seq<Word>, u: set<Place>, x: Place, y: Place)
    requires Kept(m, m1, u) && Kept(m1, m2, u + {y} - {x} - {y}) && x in u && y !in u
    ensures Kept(m, m2, u - {x}) && u + {y} - {x} == u - {x} + {y}
  {
    KeptBoth(m, m1, m2, u, u + {y} - {x} - {y}, u - {x});
  }

  /** What each heap keeps, for all heaps: all blocks in use but those named. */
  lemma KeptAll(m: seq<Word>, m': seq<Word>, bss: seq<seq<Block>>, r: seq<(nat, nat)>, h: nat, b: Block)
    requires |bss| == |r| == HEAP_NUM
    requires forall j :: 0 <= j < HEAP_NUM && r[j].1 > 0 ==> UsedUntouched(m, m', bss[j], if j == h then b else NOTHING)
    ensures Kept(m, m', UsedIn(bss, r) - {(h, b)})
  {
    hide UsedIn, Untouched;
  }

  class Heaps {
    const mem: array<Word>
    const totals: Totals
    const heaps: seq<Heap>

    /** The parts fit together: four descriptors over the same memory and counters. */
    ghost predicate Wired() {
      && |heaps| == HEAP_NUM
      && (forall i :: 0 <= i < HEAP_NUM ==> heaps[i].mem == mem && heaps[i].totals == totals)
      && (forall i, j :: 0 <= i < j < HEAP_NUM ==> heaps[i] != heaps[j])
    }

    /** Base and size of each heap. */
    ghost function Regions(): (r: seq<(nat, nat)>)
      requires Wired()
      reads heaps
      ensures |r| == HEAP_NUM && forall i :: 0 <= i < HEAP_NUM ==> r[i] == (heaps[i].base, heaps[i].size)
    {
      [(heaps[0].base, heaps[0].size), (heaps[1].base, heaps[1].size), (heaps[2].base, heaps[2].size), (heaps[3].base, heaps[3].size)]
    }

    ghost predicate Active(i: nat)
      requires Wired()
      reads heaps
    {
      i < HEAP_NUM && heaps[i].size > 0
    }

    ghost predicate Accounts()
      requires Wired()
      reads heaps, totals
    {
      && (forall i :: 0 <= i < HEAP_NUM && !Active(i) ==> heaps[i].free == 0)
      && totals.freeSize == heaps[0].free + heaps[1].free + heaps[2].free + heaps[3].free
      && totals.Valid()
    }

    ghost predicate EachValid()
      requires Wired()
      reads heaps, mem
    {
      forall i :: 0 <= i < HEAP_NUM && Active(i) ==> heaps[i].Valid()
    }

    ghost predicate Valid()
      reads heaps, mem, totals
    {
      Wired() && RegionsOk(Regions()) && EachValid() && Accounts()
    }

    ghost function Blocks(): (bss: seq<seq<Block>>)
      requires Wired()
      reads heaps
      ensures |bss| == HEAP_NUM && forall j :: 0 <= j < HEAP_NUM ==> bss[j] == heaps[j].blocks
    {
      [heaps[0].blocks, heaps[1].blocks, heaps[2].blocks, heaps[3].blocks]
    }

    /** The blocks in use, each with the number of its heap. */
    ghost function Used(): set<Place>
      requires Wired()
      reads heaps
    {
      UsedIn(Blocks(), Regions())
    }

    /** Every free block of every heap carries its tag, so that the audit of each heap passes. */
    ghost predicate AllIntact()
      requires Wired()
      reads heaps, mem
    {
      AllTagged(mem[..], Blocks(), Regions())
    }

    /** The static table: no heap yet. */
    constructor (mem: array<Word>)
      ensures this.mem == mem && Valid() && forall i :: 0 <= i < HEAP_NUM ==> !Active(i)
      ensures fresh(totals) && forall i :: 0 <= i < HEAP_NUM ==> fresh(heaps[i]) && heaps[i].blocks == []
    {
      var t := new Totals();
      var h0 := new Heap(mem, t);
      var h1 := new Heap(mem, t);
      var h2 := new Heap(mem, t);
      var h3 := new Heap(mem, t);
      this.mem, totals, heaps := mem, t, [h0, h1, h2, h3];
      new;
      NoHeaps();
    }

    lemma NoHeaps()
      requires Wired() && totals.freeSize == 0 && totals.Valid()
      requires forall i :: 0 <= i < HEAP_NUM ==> heaps[i].size == 0 && heaps[i].free == 0
      ensures Valid()
    {
      hide AlignUp, AlignDown, Rep, FreeBytes;
    }

    /** `MEM_HeapCreate`: take the first unused descriptor. NULL is HEAP_NUM. */
    method Create(ptr: nat, bytes: nat) returns (h: nat)
      requires Valid()
      requires ptr + bytes <= ADDR_LIMIT && ptr + bytes <= 8 * mem.Length && AlignUp(ptr) <= ptr + bytes
      requires forall j :: 0 <= j < HEAP_NUM && Active(j) ==> Apart((ptr, bytes), (heaps[j].base, heaps[j].size))
      modifies heaps, mem, totals
      ensures Valid() && h <= HEAP_NUM
      ensures h < HEAP_NUM <==> ptr != 0 && bytes != 0 && !old(Active(3)) && AlignDown(ptr + bytes) - AlignUp(ptr) >= 8 * MIN_SPLIT
      ensures h < HEAP_NUM ==>
                && !old(Active(h)) && Active(h) && heaps[h].base == ptr && heaps[h].size == bytes
                && heaps[h].blocks == [Block(heaps[h].Lo(), heaps[h].Hi() - heaps[h].Lo(), false)]
                && FreeTagsIntact(mem[..], heaps[h].blocks)
      ensures forall j :: 0 <= j < HEAP_NUM && j != h ==> heaps[j].blocks == old(heaps[j].blocks) && Active(j) == old(Active(j))
      ensures forall j :: 0 <= j < HEAP_NUM && old(Active(j)) ==> UsedUntouched(old(mem[..]), mem[..], old(heaps[j].blocks), NOTHING)
      ensures forall j :: 0 <= j < HEAP_NUM && old(Active(j)) ==> heaps[j].base == old(heaps[j].base) && heaps[j].size == old(heaps[j].size)
      ensures old(AllIntact()) ==> AllIntact()
    {
      hide AlignUp, AlignDown, FreeTagsIntact, UsedUntouched, Regions, RegionsOk, EachValid, Accounts, AllTagged;
      NothingChangedAnywhere();
      if ptr == 0 || bytes == 0 {
        return HEAP_NUM;
      }
      var i := 0;
      while i < HEAP_NUM && heaps[i].size != 0
        invariant 0 <= i <= HEAP_NUM && forall j :: 0 <= j < i ==> Active(j)
      {
        i := i + 1;
      }
      if i == HEAP_NUM {
        return HEAP_NUM;
      }
      NoneActiveFrom(i);
      h := InitSlot(i, ptr, bytes);
    }

    /** Initialise unused descriptor i; if the region is too small the descriptor stays unused. */
    method InitSlot(i: nat, ptr: nat, bytes: nat) returns (h: nat)
      requires Valid() && i < HEAP_NUM && !Active(i) && forall j :: 0 <= j < i ==> Active(j)
      requires 0 < ptr && 0 < bytes && ptr + bytes <= ADDR_LIMIT && ptr + bytes <= 8 * mem.Length && AlignUp(ptr) <= ptr + bytes
      requires forall j :: 0 <= j < HEAP_NUM && Active(j) ==> Apart((ptr, bytes), (heaps[j].base, heaps[j].size))
      modifies heaps[i], mem, totals
      ensures Valid() && (h == HEAP_NUM || h == i)
      ensures h == i <==> AlignDown(ptr + bytes) - AlignUp(ptr) >= 8 * MIN_SPLIT
      ensures h == i ==>
                && Active(h) && heaps[h].base == ptr && heaps[h].size == bytes
                && heaps[h].blocks == [Block(heaps[h].Lo(), heaps[h].Hi() - heaps[h].Lo(), false)]
                && FreeTagsIntact(mem[..], heaps[h].blocks)
      ensures h != i ==> heaps[i].size == 0 && heaps[i].blocks == old(heaps[i].blocks)
      ensures forall j :: 0 <= j < HEAP_NUM && old(Active(j)) ==> UsedUntouched(old(mem[..]), mem[..], heaps[j].blocks, NOTHING)
      ensures old(AllIntact()) ==> AllIntact()
    {
      hide Rep, Marks, FreeBytes, AlignUp, AlignDown, FreeTagsIntact, UsedUntouched, Regions, RegionsOk, EachValid, AllTagged, Accounts, Heap.Valid, Totals.Valid;
      ghost var m, r, bss, fs := mem[..], Regions(), Blocks(), Frees();
      Sum();
      NoneActiveFrom(i);
      LaidOut();
      forall j | 0 <= j < i ensures r[j].1 > 0 && Apart((ptr, bytes), r[j]) { assert Active(j); }
      forall j | i <= j < HEAP_NUM ensures r[j].1 == 0 { assert !Active(j); }
      var ok := InitDescriptor(i, ptr, bytes);
      h := if ok then i else HEAP_NUM;
      SumWith(fs, i);
      forall j | 0 <= j < i ensures Active(j) && RepAt(m, j) {
        assert heaps[j] != heaps[i] && old(Active(j)) && old(RepAt(mem[..], j));
      }
      SlotDone(m, r, i, ok, ptr, bytes);
      if old(AllIntact()) { TaggedWith(m, mem[..], bss, Blocks(), r, Regions(), i); }
    }

    /** All heaps after descriptor i was given a region, or was left unused. */
    lemma {:induction false} SlotDone(m: seq<Word>, r: seq<(nat, nat)>, i: nat, ok: bool, ptr: nat, bytes: nat)
      requires Wired() && RegionsOk(r) && i < HEAP_NUM && bytes > 0 && (forall j :: i <= j < HEAP_NUM ==> r[j].1 == 0)
      requires forall j :: 0 <= j < i ==> r[j].1 > 0 && Apart((ptr, bytes), r[j]) && Active(j) && RepAt(m, j)
      requires forall j :: 0 <= j < HEAP_NUM && j != i ==> Regions()[j] == r[j]
      requires if ok then Regions()[i] == (ptr, bytes) && heaps[i].Valid() && SameOutside(m, mem[..], heaps[i].Lo(), heaps[i].Hi(), heaps[i].Lo())
               else heaps[i].size == 0 && mem[..] == m
      ensures RegionsOk(Regions()) && EachValid()
      ensures forall j :: 0 <= j < HEAP_NUM && r[j].1 > 0 ==> UsedUntouched(m, mem[..], heaps[j].blocks, NOTHING)
      ensures forall j :: 0 <= j < HEAP_NUM && r[j].1 > 0 ==> FreeTagsIntact(mem[..], heaps[j].blocks) == FreeTagsIntact(m, heaps[j].blocks)
    {
      hide Rep, Marks, FreeBytes, AlignUp, AlignDown, FreeTagsIntact, UsedUntouched, Regions, RegionsOk, EachValid;
      if ok {
        RegionsAdded(r, Regions(), i, ptr, bytes);
        OnlyHeap(m, i);
      } else {
        RegionsDropped(r, Regions(), i);
        SlotEmpty(m, i);
        NothingChangedAnywhere();
      }
    }

    /** `mem_heap_init` on a descriptor, which is marked unused again if that fails. */
    method InitDescriptor(i: nat, ptr: nat, bytes: nat) returns (ok: bool)
      requires Wired() && i < HEAP_NUM
      requires 0 < ptr && ptr + bytes <= ADDR_LIMIT && ptr + bytes <= 8 * mem.Length && AlignUp(ptr) <= ptr + bytes
      modifies heaps[i], mem, totals
      ensures ok <==> AlignDown(ptr + bytes) - AlignUp(ptr) >= 8 * MIN_SPLIT
      ensures !ok ==> heaps[i].size == 0 && heaps[i].free == old(heaps[i].free) && heaps[i].blocks == old(heaps[i].blocks)
      ensures !ok ==> mem[..] == old(mem[..]) && totals.freeSize == old(totals.freeSize)
      ensures ok || old(totals.Valid()) ==> totals.Valid()
      ensures ok ==> heaps[i].Valid() && heaps[i].base == ptr && heaps[i].size == bytes
                     && heaps[i].blocks == [Block(heaps[i].Lo(), heaps[i].Hi() - heaps[i].Lo(), false)]
                     && FreeTagsIntact(mem[..], heaps[i].blocks)
      ensures forall j :: 0 <= j < HEAP_NUM && j != i ==>
                Regions()[j] == old(Regions())[j] && Frees()[j] == old(Frees())[j] && Blocks()[j] == old(Blocks())[j]
      ensures ok ==> totals.freeSize == old(totals.freeSize) + heaps[i].free
                     && SameOutside(old(mem[..]), mem[..], heaps[i].Lo(), heaps[i].Hi(), heaps[i].Lo())
    {
      hide Rep, Marks, FreeBytes, AlignUp, AlignDown, FreeTagsIntact;
      var rc := heaps[i].Init(ptr, bytes);
      ok := rc == 0;
      if !ok {
        heaps[i].size := 0;
      }
    }

    lemma Sum()
      requires Wired() && Accounts()
      ensures totals.Valid() && totals.freeSize == Frees()[0] + Frees()[1] + Frees()[2] + Frees()[3]
      ensures forall j :: 0 <= j < HEAP_NUM && !Active(j) ==> Frees()[j] == 0
    {
    }

    /** The counters, when the free bytes of heap i changed. */
    lemma SumWith(fs: seq<int>, i: nat)
      requires Wired() && |fs| == HEAP_NUM && i < HEAP_NUM && totals.Valid()
      requires forall j :: 0 <= j < HEAP_NUM && j != i ==> Frees()[j] == fs[j] && (!Active(j) ==> fs[j] == 0)
      requires totals.freeSize == fs[0] + fs[1] + fs[2] + fs[3] + (Frees()[i] - fs[i]) && (!Active(i) ==> Frees()[i] == 0)
      ensures Accounts()
    {
    }

    lemma LaidOut()
      requires Wired() && EachValid()
      ensures forall j :: 0 <= j < HEAP_NUM && Active(j) ==> RepAt(mem[..], j) && heaps[j].Valid()
    {
      hide Rep, Marks, FreeBytes, AlignUp, AlignDown;
    }

    lemma SlotEmpty(m: seq<Word>, i: nat)
      requires Wired() && mem[..] == m && forall j :: 0 <= j < i && j < HEAP_NUM ==> Active(j) && RepAt(m, j)
      requires forall j :: i <= j < HEAP_NUM ==> !Active(j)
      ensures EachValid()
    {
      hide Rep, Marks, FreeBytes, AlignUp, AlignDown;
      forall j | 0 <= j < HEAP_NUM && Active(j) ensures heaps[j].Valid() { assert RepAt(m, j); }
    }

    /** What a change inside the region of heap h does to another heap: nothing. */
    lemma {:induction false} OtherHeap(m: seq<Word>, h: nat, j: nat)
      requires Wired() && RegionsOk(Regions()) && Active(h) && Active(j) && h != j
      requires Rep(m, heaps[j].blocks, heaps[j].Lo(), heaps[j].Hi(), heaps[j].freeList)
      requires heaps[h].Lo() < heaps[h].Hi() && SameOutside(m, mem[..], heaps[h].Lo(), heaps[h].Hi(), heaps[h].Lo())
      ensures Rep(mem[..], heaps[j].blocks, heaps[j].Lo(), heaps[j].Hi(), heaps[j].freeList)
      ensures UsedUntouched(m, mem[..], heaps[j].blocks, NOTHING)
      ensures FreeTagsIntact(mem[..], heaps[j].blocks) == FreeTagsIntact(m, heaps[j].blocks)
    {
      hide Rep, Marks, AlignUp, AlignDown, UsedUntouched, FreeTagsIntact;
      ApartWords(Regions()[h], Regions()[j]);
      RepFrame(m, mem[..], heaps[j].blocks, heaps[j].Lo(), heaps[j].Hi(), heaps[j].freeList);
      RegionUntouched(m, mem[..], heaps[j].blocks, heaps[j].Lo(), heaps[j].Hi(), heaps[j].freeList);
    }

    lemma NoneActiveFrom(idx: nat)
      requires Wired() && RegionsOk(Regions()) && idx < HEAP_NUM && !Active(idx)
      ensures forall j :: idx <= j < HEAP_NUM ==> !Active(j)
    {
      var r := Regions();
      assert r[idx].1 == 0;
    }

    /** All heaps, when memory changed only in the region of heap h. */
    lemma {:induction false} OnlyHeap(m: seq<Word>, h: nat)
      requires Wired() && RegionsOk(Regions()) && Active(h) && heaps[h].Valid()
      requires SameOutside(m, mem[..], heaps[h].Lo(), heaps[h].Hi(), heaps[h].Lo())
      requires forall j :: 0 <= j < HEAP_NUM && Active(j) && j != h ==> RepAt(m, j)
      ensures EachValid()
      ensures forall j :: 0 <= j < HEAP_NUM && Active(j) && j != h ==> UsedUntouched(m, mem[..], heaps[j].blocks, NOTHING)
      ensures forall j :: 0 <= j < HEAP_NUM && Active(j) && j != h ==> FreeTagsIntact(mem[..], heaps[j].blocks) == FreeTagsIntact(m, heaps[j].blocks)
    {
      hide Rep, Marks, FreeBytes, AlignUp, AlignDown, UsedUntouched, Regions, RegionsOk, FreeTagsIntact;
      RegionFacts(mem[..], heaps[h].blocks, heaps[h].Lo(), heaps[h].Hi(), heaps[h].freeList);
      forall j | 0 <= j < HEAP_NUM && Active(j) && j != h
        ensures heaps[j].Valid() && UsedUntouched(m, mem[..], heaps[j].blocks, NOTHING)
        ensures FreeTagsIntact(mem[..], heaps[j].blocks) == FreeTagsIntact(m, heaps[j].blocks)
      {
        assert RepAt(m, j);
        OtherHeap(m, h, j);
      }
    }

    /** `MEM_Allocate` on heap h, seen from the whole table. */
    method AllocateIn(h: nat, size: nat) returns (p: nat)
      requires Valid() && Active(h) && size < ULONG
      modifies heaps[h], mem, totals
      ensures Valid()
      ensures heaps[h].base == old(heaps[h].base) && heaps[h].size == old(heaps[h].size)
      ensures AllocOutcome(old(heaps[h].blocks), size, heaps[h].blocks, p)
      ensures p == 0 ==> mem[..] == old(mem[..]) && heaps[h].blocks == old(heaps[h].blocks)
      ensures p == 0 <==> Fails(old(heaps[h].blocks), size)
      ensures Regions() == old(Regions()) && (p == 0 ==> Blocks() == old(Blocks()) && Frees() == old(Frees()))
      ensures forall j :: 0 <= j < HEAP_NUM && Active(j) ==> UsedUntouched(old(mem[..]), mem[..], old(heaps[j].blocks), NOTHING)
      ensures old(AllIntact()) ==> AllIntact()
    {
      hide Rep, Marks, FreeBytes, AllocOutcome, RegionsOk, UsedUntouched, Regions, AlignUp, AlignDown, FreeTagsIntact, Fails, TagsBut, AllTagged, EachValid, Accounts;
      ghost var m, bss, fs := mem[..], Blocks(), Frees();
      LaidOut();
      Sum();
      TaggedOne(h);
      p := heaps[h].Allocate(size);
      FailsExactly(old(heaps[h].blocks), size, heaps[h].blocks, p);
      assert Regions() == old(Regions());
      SumWith(fs, h);
      forall j | 0 <= j < HEAP_NUM && Active(j) && j != h ensures RepAt(m, j) {
        assert heaps[j] != heaps[h] && old(Active(j)) && old(RepAt(mem[..], j));
      }
      OnlyHeap(m, h);
      if old(AllIntact()) { OneTagged(m, mem[..], bss, Blocks(), Regions(), h); }
    }

    lemma TaggedOne(h: nat)
      requires Wired() && Active(h)
      ensures AllIntact() ==> FreeTagsIntact(mem[..], heaps[h].blocks)
    {
    }

    /** `MEM_Deallocate` on heap h, seen from the whole table. */
    method DeallocateIn(h: nat, ptr: nat, ghost i: nat)
      requires Valid() && Active(h)
      requires ptr != 0 ==> i < |heaps[h].blocks| && ptr == 8 * heaps[h].blocks[i].pos + 8
      modifies heaps[h], mem, totals
      ensures Valid() && Regions() == old(Regions())
      ensures if ptr != 0 && old(heaps[h].blocks)[i].used then heaps[h].blocks == FreeAt(old(heaps[h].blocks), i)
              else heaps[h].blocks == old(heaps[h].blocks) && mem[..] == old(mem[..])
      ensures forall j :: 0 <= j < HEAP_NUM && Active(j) ==>
                UsedUntouched(old(mem[..]), mem[..], old(heaps[j].blocks), if ptr != 0 && j == h then old(heaps[h].blocks)[i] else NOTHING)
      ensures old(AllIntact()) ==>
                (AllIntact() <==> ptr == 0 || !old(heaps[h].blocks)[i].used || Heap.TagSurvives(old(heaps[h].blocks), i))
    {
      hide Rep, Marks, FreeBytes, FreeAt, RegionsOk, Melted, Heap.TagSurvives, UsedUntouched, Regions, AlignUp, AlignDown, FreeTagsIntact, TagsBut, AllTagged, EachValid, Accounts;
      ghost var m, bss, fs := mem[..], Blocks(), Frees();
      LaidOut();
      Sum();
      TaggedOne(h);
      heaps[h].Deallocate(ptr, i);
      assert Regions() == old(Regions());
      SumWith(fs, h);
      forall j | 0 <= j < HEAP_NUM && Active(j) && j != h ensures RepAt(m, j) {
        assert heaps[j] != heaps[h] && old(Active(j)) && old(RepAt(mem[..], j));
      }
      OnlyHeap(m, h);
      if old(AllIntact()) { OneTagged(m, mem[..], bss, Blocks(), Regions(), h); }
    }

    ghost function Frees(): (fs: seq<int>)
      requires Wired()
      reads heaps
      ensures |fs| == HEAP_NUM && forall j :: 0 <= j < HEAP_NUM ==> fs[j] == heaps[j].free
    {
      [heaps[0].free, heaps[1].free, heaps[2].free, heaps[3].free]
    }

    /** The heap that serves a request, HEAP_NUM when none does. */
    ghost function Server(handle: Option<nat>, size: nat): (h: nat)
      requires Wired() && (handle.Some? ==> handle.value < HEAP_NUM)
      reads heaps
      ensures h <= HEAP_NUM
    {
      ServerIn(Blocks(), Frees(), Regions(), handle, size)
    }

    /** The call without a handle: the heaps in turn, skipping those with too little free. */
    method MallocAny(size: nat) returns (p: nat, ghost h: nat)
      requires Valid() && size < UINT
      modifies heaps, mem, totals
      ensures Valid() && Regions() == old(Regions()) && h <= HEAP_NUM && (p == 0 <==> h == HEAP_NUM)
      ensures forall j :: 0 <= j < HEAP_NUM && j != h ==> heaps[j].blocks == old(heaps[j].blocks)
      ensures p == 0 ==> mem[..] == old(mem[..])
      ensures h == old(Server(None, size))
      ensures p != 0 ==> Active(h) && AllocOutcome(old(heaps[h].blocks), size, heaps[h].blocks, p)
      ensures forall j :: 0 <= j < HEAP_NUM && Active(j) ==> UsedUntouched(old(mem[..]), mem[..], old(heaps[j].blocks), NOTHING)
      ensures old(AllIntact()) ==> AllIntact()
    {
      hide Rep, Marks, FreeBytes, AllocOutcome, RegionsOk, Regions, Fails, FreeTagsIntact, AllTagged, EachValid, Accounts, ServesIn, ServerIn, UsedUntouched;
      ghost var bss, fs, r := Blocks(), Frees(), Regions();
      NothingChangedAnywhere();
      var idx := 0;
      p, h := 0, HEAP_NUM;
      while idx < HEAP_NUM
        invariant 0 <= idx <= HEAP_NUM && p == 0 && h == HEAP_NUM && Valid()
        invariant mem[..] == old(mem[..]) && Blocks() == bss && Frees() == fs && Regions() == r
        invariant forall j :: 0 <= j < idx ==> !ServesIn(bss, fs, r, j, size)
      {
        ServesWhen(bss, fs, r, idx, size);
        if heaps[idx].size == 0 {
          NoneActiveFrom(idx);
          forall j | idx <= j < HEAP_NUM ensures r[j].1 == 0 { assert !Active(j); }
          NoneServe(bss, fs, r, idx, size);
          return;
        }
        if heaps[idx].free > (size + 24) % UINT {
          p := AllocateIn(idx, size);
          if p != 0 {
            h := idx;
            FirstServes(bss, fs, r, idx, size);
            return;
          }
        }
        idx := idx + 1;
      }
      NoneServe(bss, fs, r, idx, size);
    }

    /** `tuya_mem_heap_malloc`: on the given heap, or on the first heap that has room. */
    method Malloc(handle: Option<nat>, size: nat) returns (p: nat, ghost h: nat)
      requires Valid() && size < UINT && (handle.Some? ==> Active(handle.value))
      modifies heaps, mem, totals
      ensures Valid() && Regions() == old(Regions()) && h <= HEAP_NUM && (p == 0 <==> h == HEAP_NUM)
      ensures forall j :: 0 <= j < HEAP_NUM && j != h ==> heaps[j].blocks == old(heaps[j].blocks)
      ensures p == 0 ==> mem[..] == old(mem[..])
      ensures p != 0 ==> Active(h) && AllocOutcome(old(heaps[h].blocks), size, heaps[h].blocks, p)
      ensures h == old(Server(handle, size))
      ensures forall j :: 0 <= j < HEAP_NUM && Active(j) ==> UsedUntouched(old(mem[..]), mem[..], old(heaps[j].blocks), NOTHING)
      ensures old(AllIntact()) ==> AllIntact()
    {
      hide Rep, Marks, FreeBytes, AllocOutcome, RegionsOk, Regions, UsedUntouched, Fails, FreeTagsIntact;
      if handle.Some? {
        p := AllocateIn(handle.value, size);
        h := if p == 0 then HEAP_NUM else handle.value;
        assert Regions() == old(Regions());
      } else {
        p, h := MallocAny(size);
      }
    }

    /** Where a pointer passed to free points: to the payload of block i of heap h, or (h = HEAP_NUM)
        nowhere: it is NULL, or no handle is given and it lies in no heap. */
    ghost predicate PointsTo(handle: Option<nat>, ptr: nat, h: nat, i: nat)
      requires Wired()
      reads heaps
    {
      && (handle.Some? ==> Active(handle.value))
      && if h < HEAP_NUM then
           && Active(h) && (handle.Some? ==> handle.value == h)
           && i < |heaps[h].blocks| && ptr == 8 * heaps[h].blocks[i].pos + 8
         else
           && h == HEAP_NUM
           && (ptr == 0 || (handle.None? && forall j :: 0 <= j < HEAP_NUM && Active(j) ==> !(heaps[j].base < ptr < heaps[j].base + heaps[j].size)))
    }

    /** `tuya_mem_heap_free`: on the given heap, or on the heap whose region the pointer is in. */
    method Free(handle: Option<nat>, ptr: nat, ghost h: nat, ghost i: nat)
      requires Valid() && PointsTo(handle, ptr, h, i)
      modifies heaps, mem, totals
      ensures Valid() && Regions() == old(Regions())
      ensures forall j :: 0 <= j < HEAP_NUM && j != h ==> heaps[j].blocks == old(heaps[j].blocks)
      ensures if h < HEAP_NUM && old(heaps[h].blocks)[i].used then heaps[h].blocks == FreeAt(old(heaps[h].blocks), i)
              else mem[..] == old(mem[..]) && (h < HEAP_NUM ==> heaps[h].blocks == old(heaps[h].blocks))
      ensures forall j :: 0 <= j < HEAP_NUM && Active(j) ==>
                UsedUntouched(old(mem[..]), mem[..], old(heaps[j].blocks), if j == h then old(heaps[h].blocks)[i] else NOTHING)
      ensures old(AllIntact()) ==>
                (AllIntact() <==> h == HEAP_NUM || !old(heaps[h].blocks)[i].used || Heap.TagSurvives(old(heaps[h].blocks), i))
    {
      hide FreeAt, UsedUntouched, AllIntact, EachValid, Accounts, RegionsOk, Regions;
      if handle.Some? {
        DeallocateIn(handle.value, ptr, i);
      } else {
        FreeAny(ptr, h, i);
      }
    }

    /** The call without a handle. */
    method FreeAny(ptr: nat, ghost h: nat, ghost i: nat)
      requires Valid() && PointsTo(None, ptr, h, i)
      modifies heaps, mem, totals
      ensures Valid() && Regions() == old(Regions())
      ensures forall j :: 0 <= j < HEAP_NUM && j != h ==> heaps[j].blocks == old(heaps[j].blocks)
      ensures if h < HEAP_NUM && old(heaps[h].blocks)[i].used then heaps[h].blocks == FreeAt(old(heaps[h].blocks), i)
              else mem[..] == old(mem[..]) && (h < HEAP_NUM ==> heaps[h].blocks == old(heaps[h].blocks))
      ensures forall j :: 0 <= j < HEAP_NUM && Active(j) ==>
                UsedUntouched(old(mem[..]), mem[..], old(heaps[j].blocks), if j == h then old(heaps[h].blocks)[i] else NOTHING)
      ensures old(AllIntact()) ==>
                (AllIntact() <==> h == HEAP_NUM || !old(heaps[h].blocks)[i].used || Heap.TagSurvives(old(heaps[h].blocks), i))
    {
      hide FreeAt, UsedUntouched, AllIntact, EachValid, Accounts, RegionsOk, Regions;
      InsideOnly(ptr, h, i);
      NothingChangedAnywhere();
      var idx := 0;
      while idx < HEAP_NUM
        invariant 0 <= idx <= HEAP_NUM
        invariant h < HEAP_NUM ==> idx <= h
      {
        if heaps[idx].size == 0 {
          break;
        }
        if heaps[idx].base < ptr < heaps[idx].base + heaps[idx].size {
          assert Active(idx) && idx == h;
          DeallocateIn(idx, ptr, i);
          break;
        }
        idx := idx + 1;
      }
    }

    lemma NothingChangedAnywhere()
      requires Wired()
      ensures forall j, b :: 0 <= j < HEAP_NUM ==> UsedUntouched(mem[..], mem[..], heaps[j].blocks, b)
    {
    }

    /** The payload of a block lies inside the region of its heap and of no other heap. */
    lemma {:induction false} InsideOnly(ptr: nat, h: nat, i: nat)
      requires Valid() && PointsTo(None, ptr, h, i)
      ensures h < HEAP_NUM ==> heaps[h].base < ptr < heaps[h].base + heaps[h].size
      ensures h < HEAP_NUM ==> forall j :: 0 <= j < h ==> heaps[j].size > 0
      ensures forall j :: 0 <= j < HEAP_NUM && j != h && Active(j) ==> !(heaps[j].base < ptr < heaps[j].base + heaps[j].size)
    {
      hide Rep, Marks, AlignUp, AlignDown;
      if h < HEAP_NUM {
        InsideOwn(ptr, h, i);
        OutsideOthers(ptr, h, Regions());
        var r := Regions();
      }
    }

    lemma {:induction false} InsideOwn(ptr: nat, h: nat, i: nat)
      requires Wired() && h < HEAP_NUM && heaps[h].Valid() && i < |heaps[h].blocks| && ptr == 8 * heaps[h].blocks[i].pos + 8
      ensures heaps[h].base < ptr < heaps[h].base + heaps[h].size
    {
      hide Rep;
      BlockFacts(mem[..], heaps[h].blocks, heaps[h].Lo(), heaps[h].Hi(), heaps[h].freeList, heaps[h].blocks[i]);
      assert 8 * heaps[h].Lo() >= heaps[h].base && 8 * heaps[h].Hi() <= heaps[h].base + heaps[h].size;
    }

    static lemma OutsideOthers(ptr: nat, h: nat, r: seq<(nat, nat)>)
      requires RegionsOk(r) && h < HEAP_NUM && r[h].0 < ptr < r[h].0 + r[h].1
      ensures forall j :: 0 <= j < h ==> r[j].1 > 0
      ensures forall j :: 0 <= j < HEAP_NUM && j != h && r[j].1 > 0 ==> !(r[j].0 < ptr < r[j].0 + r[j].1)
    {
      forall j | 0 <= j < HEAP_NUM && j != h && r[j].1 > 0 ensures !(r[j].0 < ptr < r[j].0 + r[j].1) {
        assert Apart(r[j], r[h]);
      }
    }

    // ---------- Stores into a payload ----------

    /** A change that stays in the payload of used block b of heap h keeps the table valid and every
        other used block as it is. */
    lemma {:induction false} PayloadWrites(m: seq<Word>, h: nat, b: Block)
      requires Wired() && RegionsOk(Regions()) && Accounts() && Active(h) && b in heaps[h].blocks && b.used
      requires |m| == mem.Length && forall j :: 0 <= j < HEAP_NUM && Active(j) ==> RepAt(m, j)
      requires PayloadOnly(m, mem[..], b)
      ensures Valid()
      ensures forall j :: 0 <= j < HEAP_NUM && Active(j) ==> UsedUntouched(m, mem[..], heaps[j].blocks, if j == h then b else NOTHING)
      ensures forall j :: 0 <= j < HEAP_NUM && Active(j) ==> FreeTagsIntact(mem[..], heaps[j].blocks) == FreeTagsIntact(m, heaps[j].blocks)
    {
      hide Rep, Marks, RegionsOk, Regions, FreeBytes, UsedUntouched, PayloadOnly, FreeTagsIntact;
      assert RepAt(m, h);
      PayloadStays(m, mem[..], heaps[h].blocks, heaps[h].Lo(), heaps[h].Hi(), heaps[h].freeList, b);
      OnlyHeap(m, h);
    }

    /** Heap j is laid out in memory m. */
    ghost predicate RepAt(m: seq<Word>, j: nat)
      requires Wired() && j < HEAP_NUM
      reads heaps
    {
      && Rep(m, heaps[j].blocks, heaps[j].Lo(), heaps[j].Hi(), heaps[j].freeList)
      && heaps[j].free == FreeBytes(heaps[j].blocks) && Marks(heaps[j].free, heaps[j].watermark, heaps[j].history)
    }

    /** memset(p, 0, size) on words: whole words, then the first bytes of the last one. */
    method Zero(p: nat, size: nat)
      requires p % 8 == 0 && p + size < 8 * mem.Length
      modifies mem
      ensures Cleared(old(mem[..]), mem[..], p / 8, size)
    {
      var w, k := p / 8, 0;
      while k < size / 8
        invariant 0 <= k <= size / 8
        invariant forall x :: 0 <= x < mem.Length ==> mem[x] == if w <= x < w + k then Word(0, 0) else old(mem[x])
      {
        mem[w + k] := Word(0, 0);
        k := k + 1;
      }
      if size % 8 > 0 {
        mem[w + k] := ClearBytes(mem[w + k], size % 8);
      }
    }

    /** Zero the first bytes of the payload of used block b. */
    method ZeroPayload(p: nat, size: nat, ghost h: nat, ghost b: Block)
      requires Valid() && Active(h) && b in heaps[h].blocks && b.used && p == 8 * b.pos + 8 && 8 + size + 1 <= 8 * b.len
      modifies mem
      ensures Valid() && ZeroBytes(mem[..], p, size)
      ensures AllIntact() == old(AllIntact())
      ensures forall j :: 0 <= j < HEAP_NUM && Active(j) ==> UsedUntouched(old(mem[..]), mem[..], heaps[j].blocks, if j == h then b else NOTHING)
    {
      hide Rep, Marks, RegionsOk, Regions, FreeBytes, UsedUntouched, PayloadOnly, Cleared, ZeroBytes, FreeTagsIntact, AllTagged, EachValid, Accounts;
      ghost var m := mem[..];
      LaidOut();
      assert RepAt(m, h);
      BlockFacts(m, heaps[h].blocks, heaps[h].Lo(), heaps[h].Hi(), heaps[h].freeList, b);
      Zero(p, size);
      ClearedInPayload(m, mem[..], b, size);
      ClearedIsZero(m, mem[..], p / 8, size);
      PayloadWrites(m, h, b);
      SameTagged(m, mem[..], Blocks(), Regions());
    }

    /** `tuya_mem_heap_calloc`: as malloc, and the requested bytes are zero. */
    method Calloc(handle: Option<nat>, size: nat) returns (p: nat, ghost h: nat)
      requires Valid() && size < UINT && (handle.Some? ==> Active(handle.value))
      modifies heaps, mem, totals
      ensures Valid() && Regions() == old(Regions()) && h <= HEAP_NUM && (p == 0 <==> h == HEAP_NUM)
      ensures forall j :: 0 <= j < HEAP_NUM && j != h ==> heaps[j].blocks == old(heaps[j].blocks)
      ensures p == 0 ==> mem[..] == old(mem[..])
      ensures p != 0 ==> Active(h) && AllocOutcome(old(heaps[h].blocks), size, heaps[h].blocks, p)
      ensures p != 0 ==> ZeroBytes(mem[..], p, size)
      ensures h == old(Server(handle, size)) && (old(AllIntact()) ==> AllIntact())
      ensures forall j :: 0 <= j < HEAP_NUM && Active(j) ==> UsedUntouched(old(mem[..]), mem[..], old(heaps[j].blocks), NOTHING)
    {
      hide Rep, Marks, RegionsOk, Regions, FreeBytes, UsedUntouched, ZeroBytes, AllocOutcome, Fails, AllIntact, Server, Accounts, AlignUp, AlignDown;
      ghost var m0, r0 := mem[..], Regions();
      p, h := Malloc(handle, size);
      if p != 0 {
        ghost var m := mem[..];
        ghost var b := GotBlock(old(heaps[h].blocks), size, heaps[h].blocks, p);
        ZeroPayload(p, size, h, b);
        assert Regions() == r0;
        AllocKeepsUsed(m0, old(heaps[h].blocks), old(heaps[h].Lo()), old(heaps[h].Hi()), old(heaps[h].freeList), size, heaps[h].blocks, p);
        forall j | 0 <= j < HEAP_NUM && Active(j) ensures UsedUntouched(m0, mem[..], old(heaps[j].blocks), NOTHING) {
          StillUntouched(m0, m, mem[..], old(heaps[j].blocks), heaps[j].blocks, if j == h then b else NOTHING);
        }
      }
    }

    /** memcpy of whole words between different blocks. */
    method Copy(dst: nat, src: nat, count: nat)
      requires dst % 8 == 0 && src % 8 == 0 && dst / 8 + count <= mem.Length && src / 8 + count <= mem.Length
      requires dst / 8 + count <= src / 8 || src / 8 + count <= dst / 8
      modifies mem
      ensures Copied(old(mem[..]), mem[..], dst / 8, src / 8, count)
    {
      var d, s, k := dst / 8, src / 8, 0;
      ghost var m := mem[..];
      assert Copied(m, mem[..], d, s, 0);
      while k < count
        invariant 0 <= k <= count && Copied(m, mem[..], d, s, k)
      {
        hide Copied;
        CopyWord(m, mem[..], d, s, k);
        mem[d + k] := mem[s + k];
        k := k + 1;
      }
    }

    /** Copy the payload of used block c of heap g, tag included, to that of a longer used block b. */
    method CopyPayload(dst: nat, src: nat, ghost h: nat, ghost b: Block, ghost g: nat, ghost c: Block)
      requires Valid() && Active(h) && b in heaps[h].blocks && b.used && dst == 8 * b.pos + 8
      requires Active(g) && c in heaps[g].blocks && c.used && src == 8 * c.pos + 8
      requires c.len < b.len && (g == h ==> b != c)
      modifies mem
      ensures Valid() && Copied(old(mem[..]), mem[..], b.pos + 1, c.pos + 1, c.len - 1)
      ensures AllIntact() == old(AllIntact())
      ensures forall j :: 0 <= j < HEAP_NUM && Active(j) ==> UsedUntouched(old(mem[..]), mem[..], heaps[j].blocks, if j == h then b else NOTHING)
    {
      hide Rep, Marks, RegionsOk, Regions, FreeBytes, UsedUntouched, PayloadOnly, Copied, FreeTagsIntact, AlignUp, AlignDown, AllTagged, EachValid, Accounts;
      ghost var m := mem[..];
      LaidOut();
      assert RepAt(m, h) && RepAt(m, g);
      BlockFacts(m, heaps[h].blocks, heaps[h].Lo(), heaps[h].Hi(), heaps[h].freeList, b);
      BlockFacts(m, heaps[g].blocks, heaps[g].Lo(), heaps[g].Hi(), heaps[g].freeList, c);
      BlocksApart(h, b, g, c);
      var bytes := Num(mem[(src - 8) / 8]) - 8;
      Copy(dst, src, bytes / 8);
      CopiedInPayload(m, mem[..], b, c);
      PayloadWrites(m, h, b);
      SameTagged(m, mem[..], Blocks(), Regions());
    }

    lemma {:induction false} BlocksApart(h: nat, b: Block, g: nat, c: Block)
      requires Valid() && Active(h) && Active(g) && b in heaps[h].blocks && c in heaps[g].blocks && (g == h ==> b != c)
      ensures b.End() <= c.pos || c.End() <= b.pos
    {
      hide Rep, Marks, RegionsOk, Regions, AlignUp, AlignDown;
      if g == h {
        ShapeOf(mem[..], heaps[h].blocks, heaps[h].Lo(), heaps[h].Hi(), heaps[h].freeList);
        ShapeTiles(heaps[h].blocks, heaps[h].Lo(), heaps[h].Hi());
        Disjoint(heaps[h].blocks, heaps[h].Lo(), heaps[h].Hi(), b, c);
      } else {
        BlockFacts(mem[..], heaps[h].blocks, heaps[h].Lo(), heaps[h].Hi(), heaps[h].freeList, b);
        BlockFacts(mem[..], heaps[g].blocks, heaps[g].Lo(), heaps[g].Hi(), heaps[g].freeList, c);
        HeapsApart(h, g);
      }
    }

    lemma HeapsApart(h: nat, g: nat)
      requires Wired() && RegionsOk(Regions()) && Active(h) && Active(g) && h != g
      ensures heaps[h].Hi() <= heaps[g].Lo() || heaps[g].Hi() <= heaps[h].Lo()
    {
      hide AlignUp, AlignDown;
      ApartWords(Regions()[h], Regions()[g]);
    }

    /** free of a pointer to a block in use, told by the blocks in use. */
    method ReleaseBlock(handle: Option<nat>, ptr: nat, ghost x: Place)
      requires Valid() && x in Used() && ptr == 8 * x.1.pos + 8 && (handle.Some? ==> handle.value == x.0)
      modifies heaps, mem, totals
      ensures Valid() && Regions() == old(Regions())
      ensures Used() == old(Used()) - {x} && Kept(old(mem[..]), mem[..], old(Used()) - {x})
      ensures old(AllIntact()) && x.1.len > 2 ==> AllIntact()
    {
      hide Rep, Marks, RegionsOk, FreeBytes, UsedUntouched, UsedIn, FreeAt, AllIntact, Kept, Regions;
      ghost var bss, r, m := Blocks(), Regions(), mem[..];
      ghost var g, c := x.0, x.1;
      ghost var i :| 0 <= i < |heaps[g].blocks| && heaps[g].blocks[i] == c;
      ghost var lo, hi, head := heaps[g].Lo(), heaps[g].Hi(), heaps[g].freeList;
      Free(handle, ptr, g, i);
      forall d: Block | d.used ensures d in FreeAt(bss[g], i) <==> d in bss[g] && d != c {
        UsedAfterFree(m, bss[g], lo, hi, head, i, d);
      }
      UsedShrinks(bss, Blocks(), r, g, c);
      KeptAll(m, mem[..], bss, r, g, c);
    }

    /** malloc or calloc, told by the blocks in use: x is new, and holds the request before its tag. */
    method Obtain(handle: Option<nat>, size: nat, clear: bool) returns (p: nat, ghost x: Place)
      requires Valid() && size < UINT && (handle.Some? ==> Active(handle.value))
      modifies heaps, mem, totals
      ensures Valid() && Regions() == old(Regions()) && Kept(old(mem[..]), mem[..], old(Used()))
      ensures x.0 == old(Server(handle, size)) && (p == 0 <==> x.0 == HEAP_NUM)
      ensures p == 0 ==> mem[..] == old(mem[..]) && Blocks() == old(Blocks())
      ensures p != 0 ==> p == 8 * x.1.pos + 8 && x !in old(Used()) && Used() == old(Used()) + {x}
      ensures p != 0 ==> 8 + size + 1 <= 8 * x.1.len && BlockSize(size) <= 8 * x.1.len
      ensures p != 0 && clear ==> ZeroBytes(mem[..], p, size)
      ensures p != 0 ==> AllocOutcome(old(Blocks())[x.0], size, Blocks()[x.0], p) && x in Used()
      ensures forall j :: 0 <= j < HEAP_NUM && j != x.0 ==> Blocks()[j] == old(Blocks())[j]
      ensures old(AllIntact()) ==> AllIntact()
    {
      hide Rep, Marks, RegionsOk, FreeBytes, AllocOutcome, BlockSize, UsedUntouched, ZeroBytes, UsedIn, AllIntact, Kept, Regions, Server;
      ghost var bss, r, m := Blocks(), Regions(), mem[..];
      ghost var h, b := HEAP_NUM, NOTHING;
      if clear {
        p, h := Calloc(handle, size);
      } else {
        p, h := Malloc(handle, size);
      }
      x := (h, b);
      NothingUsed(bss, r);
      KeptAll(m, mem[..], bss, r, h, b);
      if p == 0 {
        assert Blocks() == bss;
      } else {
        b := GotBlock(bss[h], size, heaps[h].blocks, p);
        AllocKeepsUsed(m, bss[h], old(heaps[h].Lo()), old(heaps[h].Hi()), old(heaps[h].freeList), size, heaps[h].blocks, p);
        UsedGrows(bss, Blocks(), r, h, b);
        x := (h, b);
      }
    }

    /** Two places in use lie apart. */
    lemma PlacesApart(x: Place, y: Place)
      requires Valid() && x in Used() && y in Used() && x != y
      ensures x.1.End() <= y.1.pos || y.1.End() <= x.1.pos
    {
      hide Rep, Marks, RegionsOk, FreeBytes, UsedIn, Regions;
      BlocksApart(x.0, x.1, y.0, y.1);
    }

    /** The move of a reallocation: payload of x copied to the longer y, then x freed. m1 is the memory
        between the two. */
    method CopyAndFree(handle: Option<nat>, dst: nat, src: nat, ghost y: Place, ghost x: Place) returns (ghost m1: seq<Word>)
      requires Valid() && x in Used() && y in Used() && x != y && dst == 8 * y.1.pos + 8 && src == 8 * x.1.pos + 8
      requires 0 < x.1.len < y.1.len && (handle.Some? ==> handle.value == x.0)
      modifies heaps, mem, totals
      ensures Valid() && Regions() == old(Regions()) && Used() == old(Used()) - {x}
      ensures Copied(old(mem[..]), m1, y.1.pos + 1, x.1.pos + 1, x.1.len - 1)
      ensures Kept(old(mem[..]), m1, old(Used()) - {y}) && Kept(m1, mem[..], old(Used()) - {x})
      ensures old(AllIntact()) && x.1.len > 2 ==> AllIntact()
    {
      hide RegionsOk, Regions, EachValid, Accounts, UsedIn, AllIntact, Kept, Copied;
      assert Wired();
      hide Heaps.Valid, Wired, Used;
      CopyTo(dst, src, y, x);
      assert Used() == old(Used()) && Regions() == old(Regions());
      m1 := mem[..];
      ReleaseBlock(handle, src, x);
    }

    method CopyTo(dst: nat, src: nat, ghost y: Place, ghost x: Place)
      requires Valid() && x in Used() && y in Used() && x != y && dst == 8 * y.1.pos + 8 && src == 8 * x.1.pos + 8
      requires 0 < x.1.len < y.1.len
      modifies mem
      ensures Valid() && AllIntact() == old(AllIntact())
      ensures Copied(old(mem[..]), mem[..], y.1.pos + 1, x.1.pos + 1, x.1.len - 1) && Kept(old(mem[..]), mem[..], old(Used()) - {y})
    {
      hide Rep, Marks, RegionsOk, FreeBytes, UsedIn, Regions, AllIntact, Kept, Copied, UsedUntouched;
      ghost var m0 := mem[..];
      CopyPayload(dst, src, y.0, y.1, x.0, x.1);
      KeptAll(m0, mem[..], Blocks(), Regions(), y.0, y.1);
    }

    /** The payload of a block in use lies in the region of its heap and in no other. */
    lemma {:induction false} LiesIn(x: Place)
      requires Valid() && x in Used()
      ensures Wired() && x.0 < HEAP_NUM
      ensures forall j :: 0 <= j < HEAP_NUM ==>
                (j == x.0 <==> heaps[j].size > 0 && heaps[j].base < 8 * x.1.pos + 8 < heaps[j].base + heaps[j].size)
    {
      hide Rep, Marks, FreeBytes, UsedIn, RegionsOk, Regions;
      var i :| 0 <= i < |heaps[x.0].blocks| && heaps[x.0].blocks[i] == x.1;
      InsideOnly(8 * x.1.pos + 8, x.0, i);
      assert forall j :: 0 <= j < HEAP_NUM && heaps[j].size > 0 ==> Active(j);
    }

    lemma Named(handle: Option<nat>, x: Place)
      requires Valid() && x in Used() && (handle.Some? ==> handle.value == x.0)
      ensures handle.Some? ==> Active(handle.value)
    {
      hide UsedIn;
    }

    lemma PlaceOk(x: Place)
      requires Valid() && x in Used()
      ensures BlockOk(mem[..], x.1) && x.1.used && x.1.len >= 2
    {
      hide Rep, Marks, RegionsOk, FreeBytes, UsedIn, Regions;
      BlockFacts(mem[..], heaps[x.0].blocks, heaps[x.0].Lo(), heaps[x.0].Hi(), heaps[x.0].freeList, x.1);
    }

    /** The second half of `tuya_mem_heap_realloc`: allocate, copy, free. Block y is the new one. */
    method Grow(handle: Option<nat>, ptr: nat, size: nat, ghost x: Place) returns (p: nat, ghost y: Place)
      requires Valid() && size < UINT && x in Used() && ptr == 8 * x.1.pos + 8 && (handle.Some? ==> handle.value == x.0)
      requires ReallocSize(size) > 8 * x.1.len
      modifies heaps, mem, totals
      ensures Valid() && Regions() == old(Regions())
      ensures y.0 == old(Server(handle, AtLeast4(size))) && (p == 0 <==> y.0 == HEAP_NUM)
      ensures p == 0 ==> mem[..] == old(mem[..]) && Blocks() == old(Blocks())
      ensures p != 0 ==> p != ptr && y !in old(Used()) && Used() == old(Used()) - {x} + {y}
      ensures p != 0 ==> Moved(old(mem[..]), mem[..], size, p, y.1, x.1) && Kept(old(mem[..]), mem[..], old(Used()) - {x})
      ensures old(AllIntact()) && x.1.len > 2 ==> AllIntact()
    {
      hide RegionsOk, Regions, EachValid, Accounts, UsedIn, AllIntact, Kept, Moved, BlockSize, ReallocSize, Server, BlockOk, Untouched, AllocOutcome;
      PlaceOk(x);
      Named(handle, x);
      assert Wired();
      hide Heaps.Valid, Wired, Used, Active;
      ghost var m, u := mem[..], Used();
      p, y := Obtain(handle, AtLeast4(size), false);
      if p != 0 {
        ReallocGrows(size, x.1.len, y.1.len);
        PlacesApart(x, y);
        ghost var m1 := mem[..];
        ghost var m2 := CopyAndFree(handle, p, ptr, y, x);
        assert y in u + {y} - {x};
        PlaceOk(y);
        GrowDone(m, m1, m2, mem[..], size, p, u, x, y);
      }
    }

    /** `tuya_mem_heap_realloc`: as malloc for NULL; else keep the block if it is large enough, or move
        to a new one; NULL if the block is not in use or no heap can serve, and then nothing is changed.
        Block i of heap g is the old one, y the new one. */
    method Realloc(handle: Option<nat>, ptr: nat, size: nat, ghost g: nat, ghost i: nat) returns (p: nat, ghost y: Place)
      requires Valid() && size < UINT && PointsTo(handle, ptr, g, i) && (ptr != 0 ==> g < HEAP_NUM)
      modifies heaps, mem, totals
      ensures Valid() && Regions() == old(Regions())
      ensures ptr == 0 ==>
                && y.0 == old(Server(handle, size)) && (p == 0 <==> y.0 == HEAP_NUM) && Kept(old(mem[..]), mem[..], old(Used()))
                && (p != 0 ==> && p == 8 * y.1.pos + 8 && y !in old(Used()) && Used() == old(Used()) + {y}
                               && 8 + size + 1 <= 8 * y.1.len && AllocOutcome(old(Blocks())[y.0], size, Blocks()[y.0], p))
                && (forall j :: 0 <= j < HEAP_NUM && j != y.0 ==> Blocks()[j] == old(Blocks())[j])
      ensures ptr != 0 ==> var c := old(heaps[g].blocks)[i];
                && (p == ptr <==> c.used && ReallocSize(size) <= 8 * c.len)
                && (p == 0 <==> !c.used || (ReallocSize(size) > 8 * c.len && old(Server(handle, if size < 4 then 4 else size)) == HEAP_NUM))
                && (p != 0 && p != ptr ==>
                      && y.0 == old(Server(handle, if size < 4 then 4 else size)) && y !in old(Used()) && Used() == old(Used()) - {(g, c)} + {y}
                      && Moved(old(mem[..]), mem[..], size, p, y.1, c) && Kept(old(mem[..]), mem[..], old(Used()) - {(g, c)}))
      ensures p == 0 || (ptr != 0 && p == ptr) ==> mem[..] == old(mem[..]) && Blocks() == old(Blocks())
      ensures old(AllIntact()) && (ptr != 0 ==> old(heaps[g].blocks)[i].len > 2) ==> AllIntact()
    {
      hide Rep, Marks, RegionsOk, Regions, FreeBytes, ReallocSize, Moved, AllIntact, Kept, UsedIn, Server, BlockSize, ZeroBytes, AllocOutcome;
      if ptr == 0 {
        p, y := Obtain(handle, size, false);
        return;
      }
      y := (HEAP_NUM, NOTHING);
      ghost var c := heaps[g].blocks[i];
      BlockFacts(mem[..], heaps[g].blocks, heaps[g].Lo(), heaps[g].Hi(), heaps[g].freeList, c);
      var old_size := Num(mem[(ptr - 8) / 8]);
      var dog := (ptr - 8 + old_size - 1) / 8;
      assert dog == c.End() - 1 && mem[dog] == mem[..][dog];
      if mem[dog].top != TAG_USE {
        return 0, y;
      }
      if ReallocSize(size) <= old_size {
        return ptr, y;
      }
      p, y := Grow(handle, ptr, size, (g, c));
    }

    /** realloc of a pointer to block x in use. */
    method ResizeBlock(handle: Option<nat>, ptr: nat, size: nat, ghost x: Place) returns (p: nat, ghost y: Place)
      requires Valid() && size < UINT && x in Used() && ptr == 8 * x.1.pos + 8 && (handle.Some? ==> handle.value == x.0)
      modifies heaps, mem, totals
      ensures Valid() && Regions() == old(Regions())
      ensures p == ptr <==> ReallocSize(size) <= 8 * x.1.len
      ensures p == 0 || p == ptr ==> mem[..] == old(mem[..]) && Used() == old(Used())
      ensures p != 0 && p != ptr ==> p == 8 * y.1.pos + 8 && (handle.Some? ==> handle.value == y.0) && 8 + size + 1 <= 8 * y.1.len
      ensures p != 0 && p != ptr ==> y !in old(Used()) && Used() == old(Used()) - {x} + {y} && x.1.len < y.1.len
      ensures p != 0 && p != ptr ==> Moved(old(mem[..]), mem[..], size, p, y.1, x.1) && Kept(old(mem[..]), mem[..], old(Used()) - {x})
      ensures old(AllIntact()) && x.1.len > 2 ==> AllIntact()
    {
      hide Rep, Marks, RegionsOk, Regions, FreeBytes, ReallocSize, AllIntact, Kept, UsedIn, ServerIn, AllocOutcome, Carried, BlockOk;
      Named(handle, x);
      ghost var i :| 0 <= i < |heaps[x.0].blocks| && heaps[x.0].blocks[i] == x.1;
      p, y := Realloc(handle, ptr, size, x.0, i);
    }
  }

  lemma NothingUsed(bss: seq<seq<Block>>, r: seq<(nat, nat)>)
    requires |bss| == |r| == HEAP_NUM
    ensures forall j: nat :: UsedIn(bss, r) - {(j, NOTHING)} == UsedIn(bss, r)
  {
    hide UsedIn;
  }

  lemma GrowDone(m: seq<Word>, m0: seq<Word>, m1: seq<Word>, m2: seq<Word>, size: nat, p: nat, u: set<Place>, x: Place, y: Place)
    requires 0 < x.1.len < y.1.len && p == 8 * y.1.pos + 8 && y.1.used && BlockOk(m2, y.1) && 8 + AtLeast4(size) + 1 <= 8 * y.1.len
    requires Kept(m, m0, u) && Copied(m0, m1, y.1.pos + 1, x.1.pos + 1, x.1.len - 1)
    requires Kept(m0, m1, u + {y} - {y}) && Kept(m1, m2, u + {y} - {x}) && x in u && y !in u
    ensures Moved(m, m2, size, p, y.1, x.1) && Kept(m, m2, u - {x}) && u + {y} - {x} == u - {x} + {y}
  {
    hide Kept, Moved, Copied, Untouched, BlockOk;
    KeptOne(m, m0, u, x);
    MovedPlaces(m0, m1, m2, u + {y}, x, y);
    MovedFrom(m, m0, m1, m2, size, p, y.1, x.1);
    GrownPlaces(m, m0, m2, u, x, y);
  }

  lemma KeptOne(m: seq<Word>, m': seq<Word>, u: set<Place>, x: Place)
    requires Kept(m, m', u) && x in u
    ensures Untouched(m, m', x.1.pos, x.1.End())
  {
    assert x == (x.0, x.1);
  }

  lemma {:induction false} RegionUntouched(m: seq<Word>, m': seq<Word>, bs: seq<Block>, lo: nat, hi: nat, head: nat)
    requires Rep(m, bs, lo, hi, head) && Untouched(m, m', lo, hi)
    ensures UsedUntouched(m, m', bs, NOTHING)
  {
    forall b | b in bs ensures Untouched(m, m', b.pos, b.End()) {
      InRegion(bs, lo, hi, b);
    }
  }

  /** Memory differs at most in the payload of block b, before its tag byte. */
  ghost predicate PayloadOnly(m: seq<Word>, m': seq<Word>, b: Block) {
    && |m'| == |m|
    && forall w :: 0 <= w < |m| && m'[w] != m[w] ==> b.pos < w < b.End() && (w == b.End() - 1 ==> m'[w].top == m[w].top)
  }

  lemma {:induction false} PayloadStays(m: seq<Word>, m': seq<Word>, bs: seq<Block>, lo: nat, hi: nat, head: nat, b: Block)
    requires Rep(m, bs, lo, hi, head) && b in bs && b.used && PayloadOnly(m, m', b)
    ensures Rep(m', bs, lo, hi, head) && UsedUntouched(m, m', bs, b)
    ensures lo < hi && SameOutside(m, m', lo, hi, lo)
    ensures FreeTagsIntact(m', bs) == FreeTagsIntact(m, bs)
  {
    ShapeOf(m, bs, lo, hi, head);
    ShapeTiles(bs, lo, hi);
    InRegion(bs, lo, hi, b);
    forall c | c in bs && c != b ensures Untouched(m, m', c.pos, c.End()) {
      Disjoint(bs, lo, hi, b, c);
    }
    PayloadStoresKeepHeap(m, m', bs, lo, hi, head);
  }

  /** The first `size` bytes from word w on are set to zero, and nothing else changes. */
  ghost predicate Cleared(m: seq<Word>, m': seq<Word>, w: nat, size: nat) {
    && |m'| == |m| && 8 * w + size <= 8 * |m|
    && forall x :: 0 <= x < |m| ==> m'[x] == if w <= x < w + size / 8 then Word(0, 0)
                                           else if x == w + size / 8 then ClearBytes(m[x], size % 8) else m[x]
  }

  lemma ClearedInPayload(m: seq<Word>, m': seq<Word>, b: Block, size: nat)
    requires Cleared(m, m', b.pos + 1, size) && 8 + size + 1 <= 8 * b.len
    ensures PayloadOnly(m, m', b)
  {
  }

  /** The bytes at addresses p .. p + size are zero. */
  ghost predicate ZeroBytes(m: seq<Word>, p: nat, size: nat) {
    p + size <= 8 * |m| && forall a :: p <= a < p + size && a / 8 < |m| ==> ByteAt(m, a) == 0
  }

  lemma ClearedIsZero(m: seq<Word>, m': seq<Word>, w: nat, size: nat)
    requires Cleared(m, m', w, size)
    ensures ZeroBytes(m', 8 * w, size)
  {
    forall a | 8 * w <= a < 8 * w + size && a / 8 < |m'| ensures ByteAt(m', a) == 0 {
      if a / 8 < w + size / 8 {
        assert m'[a / 8] == Word(0, 0);
        ZeroWordBytes(a % 8);
      } else {
        ClearBytesBytes(m[a / 8], size % 8, a % 8);
      }
    }
  }

  lemma ZeroWordBytes(k: nat)
    requires k < 8
    ensures ByteOf(Word(0, 0), k) == 0
  {
  }

  /** The block an allocation returned. */
  ghost function GotBlock(bs: seq<Block>, size: nat, bs': seq<Block>, p: nat): (b: Block)
    requires AllocOutcome(bs, size, bs', p) && p != 0
    ensures b in bs' && b.used && p == 8 * b.pos + 8 && 8 + size + 1 <= 8 * b.len && BlockSize(size) <= 8 * b.len
  {
    Alloc(bs, BlockSize(size) / 8).1.value
  }

  /** An allocation keeps every used block, and hands out none of them again. */
  lemma {:induction false} AllocKeepsUsed(m: seq<Word>, bs: seq<Block>, lo: nat, hi: nat, head: nat, size: nat, bs': seq<Block>, p: nat)
    requires Rep(m, bs, lo, hi, head) && AllocOutcome(bs, size, bs', p) && p != 0
    ensures GotBlock(bs, size, bs', p) !in bs
    ensures forall c: Block :: c.used ==> (c in bs' <==> c in bs || c == GotBlock(bs, size, bs', p))
  {
    hide FreeList, BlockSize, Rep, WellFormed;
    BlockSizeHolds(size);
    ShapeOf(m, bs, lo, hi, head);
    ShapeTiles(bs, lo, hi);
    var n := BlockSize(size) / 8;
    var i := Spot(bs, Pick(FreeList(bs), n).value);
    AllocKeepsShape(bs, lo, hi, i, n);
    forall c: Block | c.used ensures c in bs' <==> c in bs || c == GotBlock(bs, size, bs', p) {
      UsedStay(bs, lo, hi, i, n, c);
    }
    if GotBlock(bs, size, bs', p) in bs {
      Disjoint(bs, lo, hi, GotBlock(bs, size, bs', p), bs[i]);
    }
  }

  /** Used blocks untouched by one change and then by another. */
  lemma StillUntouched(m0: seq<Word>, m1: seq<Word>, m2: seq<Word>, bs0: seq<Block>, bs1: seq<Block>, but: Block)
    requires UsedUntouched(m0, m1, bs0, NOTHING) && UsedUntouched(m1, m2, bs1, but)
    requires forall c :: c in bs0 && c.used ==> c in bs1 && c != but
    ensures UsedUntouched(m0, m2, bs0, NOTHING)
  {
    forall c | c in bs0 && c.used ensures Untouched(m0, m2, c.pos, c.End()) {
      assert Untouched(m0, m1, c.pos, c.End()) && Untouched(m1, m2, c.pos, c.End());
    }
  }

  /** `count` words are copied from word `src` to word `dst`, and nothing else changes. */
  ghost predicate Copied(m: seq<Word>, m': seq<Word>, dst: nat, src: nat, count: nat) {
    && |m'| == |m| && dst + count <= |m| && src + count <= |m|
    && (forall x :: dst <= x < dst + count ==> m'[x] == m[x - dst + src])
    && (forall x :: 0 <= x < |m| && !(dst <= x < dst + count) ==> m'[x] == m[x])
  }

  lemma CopyWord(m: seq<Word>, a: seq<Word>, dst: nat, src: nat, k: nat)
    requires Copied(m, a, dst, src, k) && dst + k < |m| && src + k < |m| && (dst + k < src || src + k < dst)
    ensures |a| == |m| && Copied(m, a[dst + k := a[src + k]], dst, src, k + 1)
  {
  }

  lemma CopiedInPayload(m: seq<Word>, m': seq<Word>, b: Block, c: Block)
    requires 0 < c.len < b.len && Copied(m, m', b.pos + 1, c.pos + 1, c.len - 1)
    ensures PayloadOnly(m, m', b)
  {
  }

  /** Words src .. src + count of the memory before are words dst .. dst + count of the memory after. */
  ghost predicate Carried(m: seq<Word>, m': seq<Word>, dst: nat, src: nat, count: nat) {
    && |m'| == |m| && dst + count <= |m| && src + count <= |m|
    && forall x :: dst <= x < dst + count ==> m'[x] == m[x - dst + src]
  }

  lemma {:induction false} UsedAfterFree(m: seq<Word>, bs: seq<Block>, lo: nat, hi: nat, head: nat, i: nat, d: Block)
    requires Rep(m, bs, lo, hi, head) && i < |bs| && bs[i].used && d.used
    ensures d in FreeAt(bs, i) <==> d in bs && d != bs[i]
  {
    UsedStay(bs, lo, hi, i, 0, d);
  }

  /** A reallocation moved block c to block b, whose payload is at p: b holds the new size before its
      USE tag, and every payload byte of c is in b. */
  ghost predicate Moved(m: seq<Word>, m': seq<Word>, size: nat, p: nat, b: Block, c: Block) {
    && p == 8 * b.pos + 8 && b.used && BlockOk(m', b) && 8 + size + 1 <= 8 * b.len && 0 < c.len < b.len
    && Carried(m, m', b.pos + 1, c.pos + 1, c.len - 1)
  }

  /** A block that was too small for `realloc` is shorter than the one `malloc` gives. */
  lemma ReallocGrows(size: nat, old_len: nat, new_len: nat)
    requires size < UINT && ReallocSize(size) > 8 * old_len && old_len >= 2 && BlockSize(AtLeast4(size)) <= 8 * new_len
    ensures old_len < new_len
  {
    ReallocSizeExact(size);
  }

  lemma MovedFrom(m: seq<Word>, m0: seq<Word>, m1: seq<Word>, m2: seq<Word>, size: nat, p: nat, b: Block, c: Block)
    requires 0 < c.len < b.len && p == 8 * b.pos + 8 && b.used && BlockOk(m2, b) && 8 + AtLeast4(size) + 1 <= 8 * b.len
    requires Untouched(m, m0, c.pos, c.End()) && Copied(m0, m1, b.pos + 1, c.pos + 1, c.len - 1) && Untouched(m1, m2, b.pos, b.End())
    ensures Moved(m, m2, size, p, b, c)
  {
  }

  lemma RegionsDropped(r: seq<(nat, nat)>, r': seq<(nat, nat)>, i: nat)
    requires RegionsOk(r) && |r'| == HEAP_NUM && i < HEAP_NUM && r[i].1 == 0 && r'[i].1 == 0
    requires forall j :: 0 <= j < HEAP_NUM && j != i ==> r'[j] == r[j]
    ensures RegionsOk(r')
  {
  }

  lemma RegionsAdded(r: seq<(nat, nat)>, r': seq<(nat, nat)>, i: nat, ptr: nat, bytes: nat)
    requires RegionsOk(r) && |r'| == HEAP_NUM && i < HEAP_NUM && r'[i] == (ptr, bytes) && bytes > 0
    requires (forall j :: 0 <= j < i ==> r[j].1 > 0) && (forall j :: i <= j < HEAP_NUM ==> r[j].1 == 0)
    requires forall j :: 0 <= j < HEAP_NUM && j != i ==> r'[j] == r[j]
    requires forall j :: 0 <= j < HEAP_NUM && r[j].1 > 0 ==> Apart((ptr, bytes), r[j])
    ensures RegionsOk(r')
  {
  }
}
