/** Programs over the whole allocator: a program keeps its pointers in variables and makes any
    sequence of create, malloc, calloc, realloc and free calls. */
module HeapProgram {
  import opened Basics
  import opened Words
  import opened HeapSpec
  import opened HeapLayout
  import opened MemHeap
  import opened HeapAudit
  import opened HeapSystem

  // ---------- Variables ----------

  /** A variable: NULL, or a pointer and the size last asked for. */
  datatype Var = Var(ptr: nat, size: nat)

  const NULL: Var := Var(0, 0)

  /** The variables hold exactly the blocks in use: `own` tells which block each variable that is
      not NULL points to, no two the same, and no block is left over. */
  ghost predicate Holds(u: set<Place>, vars: seq<Var>, own: map<nat, Place>) {
    && own.Values == u && Injective(own)
    && (forall k :: k in own ==> k < |vars| && vars[k].ptr == 8 * own[k].1.pos + 8)
    && (forall k :: 0 <= k < |vars| && k !in own ==> vars[k].ptr == 0)
  }

  ghost predicate Injective(own: map<nat, Place>) {
    forall k, l :: k in own && l in own && k != l ==> own[k] != own[l]
  }

  /** Block b has room for a header, `size` bytes and the tag. */
  ghost predicate Room(b: Block, size: nat) {
    8 + size + 1 <= 8 * b.len
  }

  /** Every variable points to a block that holds what was last asked for, strictly before the tag. */
  ghost predicate Fits(vars: seq<Var>, own: map<nat, Place>) {
    forall k :: k in own && k < |vars| ==> Room(own[k].1, vars[k].size)
  }

  /** Every block held is longer than two words. */
  ghost predicate Long(own: map<nat, Place>) {
    forall k :: k in own ==> own[k].1.len > 2
  }

  /** What a call on variable k leaves alone: the other variables, their blocks and every word of them. */
  ghost predicate OthersKept(m: seq<Word>, m': seq<Word>, own: map<nat, Place>, own': map<nat, Place>, k: nat) {
    forall l :: l in own && l != k ==> l in own' && own'[l] == own[l] && Untouched(m, m', own[l].1.pos, own[l].1.End())
  }

  lemma HoldsMore(u: set<Place>, vars: seq<Var>, own: map<nat, Place>, k: nat, x: Place, v: Var)
    requires Holds(u, vars, own) && k < |vars| && k !in own && x !in u
    requires v.ptr == 8 * x.1.pos + 8
    ensures Holds(u + {x}, vars[k := v], own[k := x])
  {
    var own' := own[k := x];
    forall y | y in own.Values ensures y in own'.Values {
      var i :| i in own && own[i] == y;
      assert own'[i] == y;
    }
    assert own'[k] == x;
    assert own'.Values == u + {x};
  }

  lemma HoldsLess(u: set<Place>, vars: seq<Var>, own: map<nat, Place>, k: nat)
    requires Holds(u, vars, own) && k in own
    ensures Holds(u - {own[k]}, vars[k := NULL], own - {k})
  {
    var own' := own - {k};
    forall y | y in own.Values - {own[k]} ensures y in own'.Values {
      var i :| i in own && own[i] == y;
      assert own'[i] == y;
    }
    assert own'.Values == u - {own[k]};
  }

  /** What a variable tells. */
  lemma HeldPlace(u: set<Place>, vars: seq<Var>, own: map<nat, Place>, k: nat)
    requires Holds(u, vars, own) && k < |vars|
    ensures vars[k].ptr == 0 <==> k !in own
    ensures k in own ==> own[k] in u && vars[k].ptr == 8 * own[k].1.pos + 8
  {
  }

  lemma OthersSame(m: seq<Word>, m': seq<Word>, u: set<Place>, v: set<Place>, vars: seq<Var>, own: map<nat, Place>, own': map<nat, Place>, k: nat)
    requires Holds(u, vars, own) && Kept(m, m', v) && (forall l :: l in own && l != k ==> l in own' && own'[l] == own[l])
    requires v == u || (k in own && v == u - {own[k]})
    ensures OthersKept(m, m', own, own', k)
  {
    forall l | l in own && l != k ensures Untouched(m, m', own[l].1.pos, own[l].1.End()) {
      assert own[l] in u;
      KeptOne(m, m', v, own[l]);
    }
  }

  // ---------- Calls ----------

  /** Calls name a variable; create names a region. Only a NULL variable is allocated to; one that is
      freed becomes NULL; a reallocation that fails leaves it as it is, and of a NULL variable it is
      an allocation. */
  datatype Call =
    | Create(ptr: nat, bytes: nat)
    | Malloc(k: nat, handle: Option<nat>, size: nat)
    | Calloc(k: nat, handle: Option<nat>, size: nat)
    | Realloc(k: nat, handle: Option<nat>, size: nat)
    | Free(k: nat, handle: Option<nat>)

  /** The variable exists, sizes are 32 bits wide, and a region lies in memory. */
  predicate Makeable(call: Call, n: nat, words: nat) {
    match call
    case Create(ptr, bytes) => ptr + bytes <= ADDR_LIMIT && ptr + bytes <= 8 * words && AlignUp(ptr) <= ptr + bytes
    case Malloc(k, _, size) => k < n && size < UINT
    case Calloc(k, _, size) => k < n && size < UINT
    case Realloc(k, _, size) => k < n && size < UINT
    case Free(k, _) => k < n
  }

  /** A request for at least 8 bytes. */
  predicate Large(call: Call) {
    call.Malloc? || call.Calloc? || call.Realloc? ==> call.size >= 8
  }

  /** A reallocation to the one size for which the 32-bit computation wraps. */
  predicate Wraps(call: Call) {
    call.Realloc? && call.size == UINT - 1
  }

  /** The program knows the handle, if it names one. */
  method Known(sys: Heaps, handle: Option<nat>) returns (ok: bool)
    requires sys.Valid()
    ensures ok <==> (handle.Some? ==> sys.Active(handle.value))
  {
    ok := handle.None? || (handle.value < HEAP_NUM && sys.heaps[handle.value].size > 0);
  }

  /** The variables after an allocation into variable k. */
  lemma TakeDone(m: seq<Word>, m': seq<Word>, u: set<Place>, vars: seq<Var>, own: map<nat, Place>, k: nat, x: Place, v: Var)
    requires Holds(u, vars, own) && k < |vars| && k !in own && x !in u && Kept(m, m', u)
    requires v.ptr == 8 * x.1.pos + 8 && Room(x.1, v.size)
    ensures Holds(u + {x}, vars[k := v], own[k := x]) && OthersKept(m, m', own, own[k := x], k)
    ensures Fits(vars, own) ==> Fits(vars[k := v], own[k := x])
    ensures Long(own) && v.size >= 8 ==> Long(own[k := x])
  {
    HoldsMore(u, vars, own, k, x, v);
    OthersSame(m, m', u, u, vars, own, own[k := x], k);
    hide Holds, Kept, OthersKept;
  }

  lemma NothingDone(m: seq<Word>, m': seq<Word>, u: set<Place>, vars: seq<Var>, own: map<nat, Place>, k: nat)
    requires Holds(u, vars, own) && m' == m
    ensures OthersKept(m, m', own, own, k)
  {
  }

  /** malloc or calloc into a NULL variable. */
  method Take(sys: Heaps, k: nat, handle: Option<nat>, size: nat, clear: bool, vars: seq<Var>, ghost own: map<nat, Place>)
    returns (vars': seq<Var>, ghost own': map<nat, Place>)
    requires sys.Valid() && Holds(sys.Used(), vars, own) && k < |vars| && vars[k].ptr == 0 && size < UINT
    requires handle.Some? ==> sys.Active(handle.value)
    modifies sys.heaps, sys.mem, sys.totals
    ensures sys.Valid() && sys.Regions() == old(sys.Regions())
    ensures |vars'| == |vars| && Holds(sys.Used(), vars', own') && OthersKept(old(sys.mem[..]), sys.mem[..], own, own', k)
    ensures Fits(vars, own) ==> Fits(vars', own')
    ensures old(sys.AllIntact()) ==> sys.AllIntact()
    ensures Long(own) && size >= 8 ==> Long(own')
  {
    hide RegionsOk, Heaps.Regions, Heaps.EachValid, Heaps.Accounts, UsedIn;
    assert sys.Wired();
    ghost var u, m := sys.Used(), sys.mem[..];
    HeldPlace(u, vars, own, k);
    NothingDone(m, m, u, vars, own, k);
    hide Holds, Kept, OthersKept, Fits, Long, BlockSize, ZeroBytes, AllocOutcome, UsedIn;
    hide Heaps.Valid, Heaps.AllIntact, Heaps.Regions, Heaps.Server;
    vars', own' := vars, own;
    var p;
    ghost var x;
    p, x := sys.Obtain(handle, size, clear);
    if p != 0 {
      TakeDone(m, sys.mem[..], u, vars, own, k, x, Var(p, size));
      vars', own' := vars[k := Var(p, size)], own[k := x];
    }
  }

  /** free of a variable that holds a pointer. */
  method Give(sys: Heaps, k: nat, handle: Option<nat>, vars: seq<Var>, ghost own: map<nat, Place>)
    returns (vars': seq<Var>, ghost own': map<nat, Place>)
    requires sys.Valid() && Holds(sys.Used(), vars, own) && k < |vars| && vars[k].ptr != 0
    requires handle.Some? && k in own ==> handle.value == own[k].0
    modifies sys.heaps, sys.mem, sys.totals
    ensures sys.Valid() && sys.Regions() == old(sys.Regions())
    ensures |vars'| == |vars| && Holds(sys.Used(), vars', own') && OthersKept(old(sys.mem[..]), sys.mem[..], own, own', k)
    ensures own' == own - {k} && vars' == vars[k := NULL]
    ensures Fits(vars, own) ==> Fits(vars', own')
    ensures old(sys.AllIntact()) && Long(own) ==> sys.AllIntact() && Long(own')
  {
    hide RegionsOk, Heaps.Regions, Heaps.EachValid, Heaps.Accounts, UsedIn;
    assert sys.Wired();
    ghost var u, m := sys.Used(), sys.mem[..];
    HeldPlace(u, vars, own, k);
    assert Long(own) ==> own[k].1.len > 2;
    hide Holds, Kept, OthersKept, UsedIn, Fits, Long;
    hide Heaps.Valid, Heaps.AllIntact, Heaps.Regions;
    sys.ReleaseBlock(handle, vars[k].ptr, own[k]);
    GiveDone(m, sys.mem[..], u, vars, own, k);
    vars', own' := vars[k := NULL], own - {k};
  }

  /** The variables after variable k was freed. */
  lemma GiveDone(m: seq<Word>, m': seq<Word>, u: set<Place>, vars: seq<Var>, own: map<nat, Place>, k: nat)
    requires Holds(u, vars, own) && k in own && Kept(m, m', u - {own[k]})
    ensures Holds(u - {own[k]}, vars[k := NULL], own - {k}) && OthersKept(m, m', own, own - {k}, k)
    ensures Fits(vars, own) ==> Fits(vars[k := NULL], own - {k})
    ensures Long(own) ==> Long(own - {k})
  {
    HoldsLess(u, vars, own, k);
    OthersSame(m, m', u, u - {own[k]}, vars, own, own - {k}, k);
  }

  /** A block that realloc keeps holds the new size, unless that is 2^32-1 and the block shorter. */
  lemma KeptRoom(size: nat, b: Block)
    requires size < UINT && ReallocSize(size) <= 8 * b.len
    ensures Room(b, size) <==> !(size == UINT - 1 && 8 * b.len < UINT + 8)
  {
    hide ReallocSize, BlockSize;
    ReallocSizeExact(size);
    BlockSizeHolds(size);
  }

  /** The variables after realloc kept the block of variable k. */
  lemma KeptDone(u: set<Place>, vars: seq<Var>, own: map<nat, Place>, k: nat, size: nat)
    requires Holds(u, vars, own) && k in own
    ensures var vars' := vars[k := vars[k].(size := size)];
            Holds(u, vars', own) && (Fits(vars, own) ==> (Fits(vars', own) <==> Room(own[k].1, size)))
  {
  }

  /** The variables after realloc moved the block of variable k. */
  lemma MoveDone(m: seq<Word>, m': seq<Word>, u: set<Place>, vars: seq<Var>, own: map<nat, Place>, k: nat, y: Place, v: Var)
    requires Holds(u, vars, own) && k in own && y !in u && Kept(m, m', u - {own[k]}) && own[k].1.len < y.1.len
    requires v.ptr == 8 * y.1.pos + 8 && Room(y.1, v.size)
    ensures Holds(u - {own[k]} + {y}, vars[k := v], own[k := y]) && OthersKept(m, m', own, own[k := y], k)
    ensures Fits(vars, own) ==> Fits(vars[k := v], own[k := y])
    ensures Long(own) ==> Long(own[k := y])
  {
    HoldsLess(u, vars, own, k);
    HoldsMore(u - {own[k]}, vars[k := NULL], own - {k}, k, y, v);
    assert vars[k := NULL][k := v] == vars[k := v] && (own - {k})[k := y] == own[k := y];
    OthersSame(m, m', u, u - {own[k]}, vars, own, own[k := y], k);
    hide Holds, Kept, OthersKept;
  }

  /** realloc of a variable that holds a pointer. */
  method Change(sys: Heaps, k: nat, handle: Option<nat>, size: nat, vars: seq<Var>, ghost own: map<nat, Place>)
    returns (vars': seq<Var>, ghost own': map<nat, Place>)
    requires sys.Valid() && Holds(sys.Used(), vars, own) && k < |vars| && vars[k].ptr != 0 && size < UINT
    requires handle.Some? && k in own ==> handle.value == own[k].0
    modifies sys.heaps, sys.mem, sys.totals
    ensures sys.Valid() && sys.Regions() == old(sys.Regions())
    ensures |vars'| == |vars| && Holds(sys.Used(), vars', own') && OthersKept(old(sys.mem[..]), sys.mem[..], own, own', k)
    ensures Fits(vars, own) && k in own ==> (Fits(vars', own') <==> !(size == UINT - 1 && 8 * own[k].1.len < UINT + 8))
    ensures old(sys.AllIntact()) && Long(own) ==> sys.AllIntact() && Long(own')
  {
    hide RegionsOk, Heaps.Regions, Heaps.EachValid, Heaps.Accounts, UsedIn;
    assert sys.Wired();
    ghost var u, m := sys.Used(), sys.mem[..];
    HeldPlace(u, vars, own, k);
    NothingDone(m, m, u, vars, own, k);
    KeptDone(u, vars, own, k, size);
    if ReallocSize(size) <= 8 * own[k].1.len { KeptRoom(size, own[k].1); } else { ReallocSizeExact(size); }
    ghost var long := own[k].1.len > 2;
    assert Long(own) ==> long;
    hide Holds, Kept, OthersKept, Fits, Long, UsedIn, ReallocSize, Moved, Room;
    hide Heaps.Valid, Heaps.AllIntact, Heaps.Regions;
    vars', own' := vars, own;
    var v := vars[k];
    var p;
    ghost var y;
    p, y := sys.ResizeBlock(handle, v.ptr, size, own[k]);
    if p == v.ptr {
      vars' := vars[k := v.(size := size)];
    } else if p != 0 {
      RoomOf(y.1, size);
      MoveDone(m, sys.mem[..], u, vars, own, k, y, Var(p, size));
      vars', own' := vars[k := Var(p, size)], own[k := y];
    }
  }

  lemma RoomOf(b: Block, size: nat)
    ensures Room(b, size) <==> 8 + size + 1 <= 8 * b.len
  {
  }

  /** The region overlaps no heap. */
  method Unclaimed(sys: Heaps, ptr: nat, bytes: nat) returns (ok: bool)
    requires sys.Valid()
    ensures ok <==> forall j :: 0 <= j < HEAP_NUM && sys.Active(j) ==> Apart((ptr, bytes), (sys.heaps[j].base, sys.heaps[j].size))
  {
    hide RegionsOk, Rep, FreeBytes;
    ok := true;
    for i := 0 to HEAP_NUM
      invariant ok <==> forall j :: 0 <= j < i && sys.Active(j) ==> Apart((ptr, bytes), (sys.heaps[j].base, sys.heaps[j].size))
    {
      var h := sys.heaps[i];
      if h.size > 0 && !(ptr + bytes <= h.base || h.base + h.size <= ptr) {
        assert sys.Active(i) && !Apart((ptr, bytes), (h.base, h.size));
        ok := false;
      }
    }
  }

  /** create of a heap on memory that no heap has: no block in use is made, lost or changed. */
  method MakeHeap(sys: Heaps, ptr: nat, bytes: nat)
    requires sys.Valid() && ptr + bytes <= ADDR_LIMIT && ptr + bytes <= 8 * sys.mem.Length && AlignUp(ptr) <= ptr + bytes
    modifies sys.heaps, sys.mem, sys.totals
    ensures sys.Valid() && sys.Used() == old(sys.Used()) && Kept(old(sys.mem[..]), sys.mem[..], old(sys.Used()))
    ensures old(sys.AllIntact()) ==> sys.AllIntact()
  {
    hide UsedIn, RegionsOk, Heaps.Regions, Heaps.EachValid, Heaps.Accounts;
    assert sys.Wired();
    KeptSame(sys.mem[..], sys.Used());
    hide Kept, AlignUp, AlignDown, Heaps.Used, Heaps.Valid, Heaps.AllIntact;
    var ok := Unclaimed(sys, ptr, bytes);
    if ok {
      var _ := CreateKeeping(sys, ptr, bytes);
    }
  }

  /** create, told by the blocks in use. */
  method CreateKeeping(sys: Heaps, ptr: nat, bytes: nat) returns (h: nat)
    requires sys.Valid() && ptr + bytes <= ADDR_LIMIT && ptr + bytes <= 8 * sys.mem.Length && AlignUp(ptr) <= ptr + bytes
    requires forall j :: 0 <= j < HEAP_NUM && sys.Active(j) ==> Apart((ptr, bytes), (sys.heaps[j].base, sys.heaps[j].size))
    modifies sys.heaps, sys.mem, sys.totals
    ensures sys.Valid() && sys.Used() == old(sys.Used()) && Kept(old(sys.mem[..]), sys.mem[..], old(sys.Used()))
    ensures old(sys.AllIntact()) ==> sys.AllIntact()
  {
    hide RegionsOk, Heaps.Regions, Heaps.EachValid, Heaps.Accounts;
    assert sys.Wired();
    hide UsedUntouched, UsedIn, Kept, AlignUp, AlignDown, FreeTagsIntact, Heaps.Valid, Heaps.AllIntact;
    ghost var bss, r, m := sys.Blocks(), sys.Regions(), sys.mem[..];
    assert forall j :: 0 <= j < HEAP_NUM ==> (r[j].1 > 0 <==> sys.Active(j));
    h := sys.Create(ptr, bytes);
    MadeHeap(m, sys.mem[..], bss, sys.Blocks(), r, sys.Regions(), h);
  }

  lemma MadeHeap(m: seq<Word>, m': seq<Word>, bss: seq<seq<Block>>, bss': seq<seq<Block>>, r: seq<(nat, nat)>, r': seq<(nat, nat)>, h: nat)
    requires |bss| == |bss'| == |r| == |r'| == HEAP_NUM
    requires forall j :: 0 <= j < HEAP_NUM && j != h ==> bss'[j] == bss[j] && (r'[j].1 > 0 <==> r[j].1 > 0)
    requires h < HEAP_NUM ==> r[h].1 == 0 && forall b :: b in bss'[h] ==> !b.used
    requires forall j :: 0 <= j < HEAP_NUM && r[j].1 > 0 ==> UsedUntouched(m, m', bss[j], NOTHING)
    ensures UsedIn(bss', r') == UsedIn(bss, r) && Kept(m, m', UsedIn(bss, r))
  {
    hide UsedIn, UsedUntouched, Kept;
    UsedSame(bss, bss', r, r');
    NothingUsed(bss, r);
    KeptAll(m, m', bss, r, HEAP_NUM, NOTHING);
  }

  lemma KeptSame(m: seq<Word>, u: set<Place>)
    ensures Kept(m, m, u)
  {
  }

  /** The variable a call is about, or none. */
  function Target(call: Call, n: nat): nat {
    if call.Create? then n else call.k
  }

  /** One call. It keeps the heaps valid and the variables exact, touches no other variable's block,
      and keeps every request held except when realloc to 2^32-1 bytes keeps a block shorter than that. */
  method Perform(sys: Heaps, call: Call, vars: seq<Var>, ghost own: map<nat, Place>)
    returns (vars': seq<Var>, ghost own': map<nat, Place>)
    requires sys.Valid() && Holds(sys.Used(), vars, own) && Makeable(call, |vars|, sys.mem.Length)
    modifies sys.heaps, sys.mem, sys.totals
    ensures sys.Valid() && |vars'| == |vars| && Holds(sys.Used(), vars', own')
    ensures OthersKept(old(sys.mem[..]), sys.mem[..], own, own', Target(call, |vars|))
    ensures Fits(vars, own) ==>
              (Fits(vars', own') <==> !(Wraps(call) && Sound(call, own) && 8 * own[call.k].1.len < UINT + 8))
    ensures old(sys.AllIntact()) && Long(own) && Large(call) ==> sys.AllIntact() && Long(own')
  {
    hide RegionsOk, Heaps.Regions, Heaps.EachValid, Heaps.Accounts, UsedIn;
    assert sys.Wired();
    hide Holds, OthersKept, Fits, Long, Heaps.Valid, Heaps.AllIntact, Heaps.Used, AlignUp;
    if call.Create? {
      ghost var u, m := sys.Used(), sys.mem[..];
      MakeHeap(sys, call.ptr, call.bytes);
      OthersSame(m, sys.mem[..], u, u, vars, own, own, |vars|);
      vars', own' := vars, own;
    } else {
      vars', own' := PerformOn(sys, call, vars, own);
    }
  }

  /** The call is on a variable that holds a pointer, and names no other heap than that of its block. */
  ghost predicate Sound(call: Call, own: map<nat, Place>)
    requires call.Free? || call.Realloc?
  {
    call.k in own && (call.handle.Some? ==> call.handle.value == own[call.k].0)
  }

  /** A handle given with a pointer is right: the pointer lies in its region. Such a handle may also be
      left out. */
  method Right(sys: Heaps, handle: Option<nat>, ptr: nat, ghost x: Place) returns (ok: bool)
    requires sys.Valid() && x in sys.Used() && ptr == 8 * x.1.pos + 8
    ensures ok <==> (handle.Some? ==> handle.value == x.0)
  {
    sys.LiesIn(x);
    hide Heaps.Valid, Heaps.Used;
    if handle.None? || handle.value >= HEAP_NUM {
      return handle.None?;
    }
    var h := sys.heaps[handle.value];
    ok := h.size > 0 && h.base < ptr < h.base + h.size;
  }

  /** free or realloc of a variable that holds a pointer; with a wrong handle the call is not made. */
  method PerformHeld(sys: Heaps, call: Call, vars: seq<Var>, ghost own: map<nat, Place>)
    returns (vars': seq<Var>, ghost own': map<nat, Place>)
    requires sys.Valid() && Holds(sys.Used(), vars, own) && Makeable(call, |vars|, sys.mem.Length) && (call.Free? || call.Realloc?)
    requires vars[call.k].ptr != 0
    modifies sys.heaps, sys.mem, sys.totals
    ensures sys.Valid() && |vars'| == |vars| && Holds(sys.Used(), vars', own')
    ensures OthersKept(old(sys.mem[..]), sys.mem[..], own, own', call.k)
    ensures Fits(vars, own) ==>
              (Fits(vars', own') <==> !(Wraps(call) && Sound(call, own) && 8 * own[call.k].1.len < UINT + 8))
    ensures old(sys.AllIntact()) && Long(own) && Large(call) ==> sys.AllIntact() && Long(own')
  {
    hide RegionsOk, Heaps.Regions, Heaps.EachValid, Heaps.Accounts, Heaps.AllIntact, UsedIn;
    assert sys.Wired();
    NothingDone(sys.mem[..], sys.mem[..], sys.Used(), vars, own, call.k);
    HeldPlace(sys.Used(), vars, own, call.k);
    hide Holds, OthersKept, Fits, Long, Heaps.AllIntact, Heaps.Used, Heaps.Valid, Heaps.Regions;
    var ok := Right(sys, call.handle, vars[call.k].ptr, own[call.k]);
    if !ok {
      vars', own' := vars, own;
    } else if call.Free? {
      vars', own' := Give(sys, call.k, call.handle, vars, own);
    } else {
      vars', own' := Change(sys, call.k, call.handle, call.size, vars, own);
    }
  }

  method PerformOn(sys: Heaps, call: Call, vars: seq<Var>, ghost own: map<nat, Place>)
    returns (vars': seq<Var>, ghost own': map<nat, Place>)
    requires sys.Valid() && Holds(sys.Used(), vars, own) && Makeable(call, |vars|, sys.mem.Length) && !call.Create?
    modifies sys.heaps, sys.mem, sys.totals
    ensures sys.Valid() && |vars'| == |vars| && Holds(sys.Used(), vars', own')
    ensures OthersKept(old(sys.mem[..]), sys.mem[..], own, own', call.k)
    ensures Fits(vars, own) ==>
              (Fits(vars', own') <==> !(Wraps(call) && Sound(call, own) && 8 * own[call.k].1.len < UINT + 8))
    ensures old(sys.AllIntact()) && Long(own) && Large(call) ==> sys.AllIntact() && Long(own')
  {
    hide RegionsOk, Heaps.Regions, Heaps.EachValid, Heaps.Accounts, Heaps.AllIntact, UsedIn;
    assert sys.Wired();
    NothingDone(sys.mem[..], sys.mem[..], sys.Used(), vars, own, call.k);
    HeldPlace(sys.Used(), vars, own, call.k);
    hide Holds, OthersKept, Fits, Long, Heaps.AllIntact, Heaps.Used, Heaps.Valid, Heaps.Regions;
    vars', own' := vars, own;
    if vars[call.k].ptr != 0 {
      if call.Free? || call.Realloc? { vars', own' := PerformHeld(sys, call, vars, own); }
    } else if !call.Free? {
      var ok := Known(sys, call.handle);
      if ok { vars', own' := Take(sys, call.k, call.handle, call.size, call.Calloc?, vars, own); }
    }
  }

  // ---------- Whole programs ----------

  /** Any program: however its calls are chosen, the heaps stay valid and its variables stay the
      exact list of the blocks in use. Without a realloc to 2^32-1 bytes every variable holds what
      was last asked for; with requests of at least 8 bytes only, no free block loses its tag; and
      when all variables are NULL every heap is one free block again. */
  method Run(sys: Heaps, calls: seq<Call>, n: nat) returns (vars: seq<Var>, ghost own: map<nat, Place>)
    requires sys.Valid() && sys.Used() == {}
    requires forall c <- calls :: Makeable(c, n, sys.mem.Length)
    modifies sys.heaps, sys.mem, sys.totals
    ensures sys.Valid() && |vars| == n && Holds(sys.Used(), vars, own)
    ensures (forall c <- calls :: !Wraps(c)) ==> Fits(vars, own)
    ensures old(sys.AllIntact()) && (forall c <- calls :: Large(c)) ==> sys.AllIntact()
    ensures (forall k :: 0 <= k < n ==> vars[k].ptr == 0) ==> AllAsCreated(sys)
  {
    hide RegionsOk, Heaps.Regions, Heaps.EachValid, Heaps.Accounts, UsedIn;
    assert sys.Wired();
    vars, own := seq(n, _ => NULL), map[];
    var i := 0;
    hide Makeable, Wraps, Large, Heaps.AllIntact, Heaps.Used, Heaps.Valid;
    while i < |calls|
      invariant 0 <= i <= |calls| && sys.Valid() && |vars| == n && Holds(sys.Used(), vars, own)
      invariant (forall c <- calls :: !Wraps(c)) ==> Fits(vars, own)
      invariant old(sys.AllIntact()) && (forall c <- calls :: Large(c)) ==> sys.AllIntact() && Long(own)
    {
      hide Holds, Fits, Long;
      assert calls[i] in calls;
      vars, own := Perform(sys, calls[i], vars, own);
      i := i + 1;
    }
    if forall k :: 0 <= k < n ==> vars[k].ptr == 0 {
      NothingHeld(sys.Used(), vars, own);
      AllFreed(sys);
    }
  }

  lemma NothingHeld(u: set<Place>, vars: seq<Var>, own: map<nat, Place>)
    requires Holds(u, vars, own) && forall k :: 0 <= k < |vars| ==> vars[k].ptr == 0
    ensures u == {}
  {
    assert own.Keys == {};
  }

  /** Every heap is one free block over its aligned region again, and all its bytes are free. */
  ghost predicate AllAsCreated(sys: Heaps)
    requires sys.Wired()
    reads sys.heaps
  {
    forall j :: 0 <= j < HEAP_NUM && sys.Active(j) ==> AsCreated(sys.heaps[j])
  }

  ghost predicate AsCreated(h: Heap)
    reads h
  {
    h.Lo() <= h.Hi() && h.blocks == [Block(h.Lo(), h.Hi() - h.Lo(), false)] && h.free == 8 * (h.Hi() - h.Lo())
  }

  lemma AllFreed(sys: Heaps)
    requires sys.Valid() && sys.Used() == {}
    ensures AllAsCreated(sys)
  {
    hide Rep, FreeBytes, UsedIn, RegionsOk, AlignUp, AlignDown;
    forall j | 0 <= j < HEAP_NUM && sys.Active(j) ensures AsCreated(sys.heaps[j]) {
      var h := sys.heaps[j];
      forall i | 0 <= i < |h.blocks| ensures !h.blocks[i].used {
        assert (j, h.blocks[i]) !in sys.Used();
      }
      OneBlock(sys.mem[..], h.blocks, h.Lo(), h.Hi(), h.freeList);
    }
  }

  lemma OneBlock(m: seq<Word>, bs: seq<Block>, lo: nat, hi: nat, head: nat)
    requires Rep(m, bs, lo, hi, head) && forall i :: 0 <= i < |bs| ==> !bs[i].used
    ensures lo <= hi && bs == [Block(lo, hi - lo, false)] && FreeBytes(bs) == 8 * (hi - lo)
  {
    ShapeOf(m, bs, lo, hi, head);
    NoneUsed(bs);
    AllFreeIsOneBlock(bs, lo, hi);
    assert bs[1..] == [];
  }

  /** A program from the empty table of heaps on, and the audit of heap j after it. With requests of
      at least 8 bytes only, whatever the calls, it passes with exact numbers. */
  method RunAndAudit(mem: array<Word>, calls: seq<Call>, n: nat, j: nat)
    returns (sys: Heaps, vars: seq<Var>, ghost own: map<nat, Place>, st: Option<Status>)
    requires j < HEAP_NUM && forall c <- calls :: Makeable(c, n, mem.Length)
    modifies mem
    ensures fresh(sys) && sys.mem == mem && sys.Valid() && |vars| == n && Holds(sys.Used(), vars, own)
    ensures (forall c <- calls :: !Wraps(c)) ==> Fits(vars, own)
    ensures StatusOf(sys, j, st) && (st.Some? && (forall c <- calls :: Large(c)) ==> st.value.valid)
  {
    hide RegionsOk, Heaps.Regions, Heaps.EachValid, Heaps.Accounts, Makeable, Wraps, Large, Holds, Fits, UsedIn, AllTagged, StatusOf, AllAsCreated;
    sys := Empty(mem);
    assert sys.Wired();
    hide Heaps.Valid, Heaps.AllIntact, Heaps.Used, Heaps.Active;
    vars, own := Run(sys, calls, n);
    st := Audit(sys, j);
  }

  /** The static table of heaps. */
  method Empty(mem: array<Word>) returns (sys: Heaps)
    ensures fresh(sys) && sys.mem == mem && sys.Valid() && sys.Used() == {} && sys.AllIntact()
    ensures fresh(sys.totals) && forall i :: 0 <= i < HEAP_NUM ==> fresh(sys.heaps[i])
  {
    hide Rep, RegionsOk, FreeBytes, UsedIn, AllTagged, Heaps.Regions;
    sys := new Heaps(mem);
    NoneInUse(sys);
  }

  /** What an audit of heap j finds: nothing on an unused descriptor; else whether all free tags are
      intact, and if so the exact numbers. */
  ghost predicate StatusOf(sys: Heaps, j: nat, st: Option<Status>)
    requires sys.Wired() && j < HEAP_NUM
    reads sys.heaps, sys.mem
  {
    && (st.Some? <==> sys.Active(j))
    && (st.Some? ==> (st.value.valid <==> FreeTagsIntact(sys.mem[..], sys.heaps[j].blocks)))
    && (st.Some? && st.value.valid ==>
          && st.value.usedBlock == UsedCount(sys.heaps[j].blocks) && st.value.freeBlock == |FreeList(sys.heaps[j].blocks)|
          && st.value.free == TotalRoom(FreeList(sys.heaps[j].blocks)) && IsLargest(FreeList(sys.heaps[j].blocks), st.value.freeLargest))
  }

  method Audit(sys: Heaps, j: nat) returns (st: Option<Status>)
    requires sys.Valid() && j < HEAP_NUM
    ensures StatusOf(sys, j, st) && (sys.AllIntact() && st.Some? ==> st.value.valid)
  {
    hide UsedCount, FreeList, TotalRoom, IsLargest, FreeTagsIntact, Rep, RegionsOk, FreeBytes, Heaps.Regions, Heaps.AllIntact;
    st := None;
    if sys.heaps[j].size > 0 {
      var s := HeapStatus(sys.heaps[j]);
      st := Some(s);
      sys.TaggedOne(j);
    }
  }

  /** The empty table. */
  lemma NoneInUse(sys: Heaps)
    requires sys.Wired() && forall i :: 0 <= i < HEAP_NUM ==> !sys.Active(i)
    ensures sys.Used() == {} && sys.AllIntact()
  {
    hide UsedIn, FreeTagsIntact;
    forall j | 0 <= j < HEAP_NUM ensures sys.Regions()[j].1 == 0 { assert !sys.Active(j); }
    SamePlaces(sys.Used(), {});
  }
}
