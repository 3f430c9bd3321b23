/** Which free blocks have lost their tag, exactly, through allocations and frees. */
module HeapTags {
  import opened Words
  import opened HeapSpec
  import opened HeapLayout
  import opened MemHeap

  /** `lost` holds the first words of the free blocks whose tag is not FREE, and nothing else. */
  ghost predicate Lost(m: seq<Word>, bs: seq<Block>, lost: set<nat>) {
    && (forall b :: b in bs && !b.used ==> 0 < b.len && b.End() <= |m| && (Tag(m, b) == TAG_FREE <==> b.pos !in lost))
    && (forall p :: p in lost ==> exists b :: b in bs && !b.used && b.pos == p)
  }

  /** All tags are there exactly when none is lost. */
  lemma LostNone(m: seq<Word>, bs: seq<Block>, lost: set<nat>)
    requires Lost(m, bs, lost)
    ensures lost == {} <==> FreeTagsIntact(m, bs)
  {
    if p :| p in lost {
      var b :| b in bs && !b.used && b.pos == p;
    }
  }

  /** What is lost after block i is freed: the melted block has the tag of its right neighbour, or
      else a new one unless the block freed is two words long. */
  function LostFree(bs: seq<Block>, i: nat, lost: set<nat>): set<nat>
    requires i < |bs|
  {
    var at, right := Melted(bs, i).pos, i + 1 < |bs| && !bs[i + 1].used;
    (if right then lost - {bs[i + 1].pos} else lost) - {at} +
    if (if right then bs[i + 1].pos in lost else bs[i].len <= 2) then {at} else {}
  }

  /** An allocation from the free block at word pos mends that block's tag, or takes it away with the
      block. */
  lemma {:induction false} LostAlloc(m: seq<Word>, m': seq<Word>, bs: seq<Block>, lo: nat, hi: nat, i: nat, n: nat, lost: set<nat>)
    requires WellFormed(bs, lo, hi) && i < |bs| && !bs[i].used && 2 <= n <= bs[i].len
    requires Lost(m, bs, lost) && TagsBut(m, m', bs, AllocAt(bs, i, n), bs[i].pos, TAG_FREE)
    ensures Lost(m', AllocAt(bs, i, n), lost - {bs[i].pos})
  {
    hide WellFormed, AllocAt;
    forall p | p in lost && p != bs[i].pos ensures exists b :: b in AllocAt(bs, i, n) && !b.used && b.pos == p {
      var b :| b in bs && !b.used && b.pos == p;
      AllocMembers(bs, lo, hi, i, n, b);
    }
  }

  /** A free block that is not melted with block i stays. */
  lemma {:induction false} OthersStay(bs: seq<Block>, lo: nat, hi: nat, i: nat, b: Block)
    requires WellFormed(bs, lo, hi) && i < |bs| && bs[i].used && b in bs && !b.used
    requires b.pos != Melted(bs, i).pos && !(i + 1 < |bs| && !bs[i + 1].used && b.pos == bs[i + 1].pos)
    ensures b in FreeAt(bs, i)
  {
    FreeMembers(bs, lo, hi, i, b);
    MergeOrdered(bs, lo, hi, i);
    ShapeTiles(bs, lo, hi);
    hide WellFormed, FreeAt;
    var p, q := MergeFrom(bs, i), MergeTo(bs, i);
    Disjoint(bs, lo, hi, b, bs[i]);
    if p < i { Disjoint(bs, lo, hi, b, bs[p]); }
    if i + 1 < q { Disjoint(bs, lo, hi, b, bs[i + 1]); }
  }

  lemma {:induction false} LostFreed(m: seq<Word>, m': seq<Word>, bs: seq<Block>, lo: nat, hi: nat, i: nat, lost: set<nat>)
    requires WellFormed(bs, lo, hi) && i < |bs| && bs[i].used && Lost(m, bs, lost)
    requires TagsBut(m, m', bs, FreeAt(bs, i), Melted(bs, i).pos, Heap.FreedTag(m, bs, i))
    ensures Lost(m', FreeAt(bs, i), LostFree(bs, i, lost))
  {
    var melted, after, right := Melted(bs, i), LostFree(bs, i, lost), i + 1 < |bs| && !bs[i + 1].used;
    assert melted == FreeAt(bs, i)[MergeFrom(bs, i)];
    assert melted in FreeAt(bs, i);
    if i + 1 < |bs| { assert bs[i + 1] in bs; }
    hide WellFormed, FreeAt, Melted;
    forall p | p in after ensures exists b :: b in FreeAt(bs, i) && !b.used && b.pos == p {
      if p == melted.pos {
        assert !melted.used by { FreeMembers(bs, lo, hi, i, melted); }
      } else {
        var b :| b in bs && !b.used && b.pos == p;
        OthersStay(bs, lo, hi, i, b);
      }
    }
    forall b | b in FreeAt(bs, i) && !b.used ensures Tag(m', b) == TAG_FREE <==> b.pos !in after {
      if b.pos != melted.pos && right { NotRight(bs, lo, hi, i, b); }
    }
  }

  /** The right neighbour that was melted is gone. */
  lemma {:induction false} NotRight(bs: seq<Block>, lo: nat, hi: nat, i: nat, b: Block)
    requires WellFormed(bs, lo, hi) && i + 1 < |bs| && bs[i].used && !bs[i + 1].used
    requires b in FreeAt(bs, i) && b.pos != Melted(bs, i).pos
    ensures b.pos != bs[i + 1].pos
  {
    FreeMembers(bs, lo, hi, i, b);
    MergeOrdered(bs, lo, hi, i);
    assert bs[i + 1] in bs;
  }
}
