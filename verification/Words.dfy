/** Memory as the allocator of `tuya_mem_heap.c` sees it on a little-endian LP64 Linux: a sequence
    of 8-byte words. A header field (`size`, `next`) is the number a word holds; the tag ("dog")
    byte of a block is the last, most significant byte of the block's last word, so a word is
    kept as the number in its first seven bytes and its top byte. */
module Words {
  import opened Basics

  type seven = x: int | 0 <= x < 0x100_0000_0000_0000

  datatype Word = Word(low: seven, top: byte)

  const TOP: nat := 0x100_0000_0000_0000
  const WORD_LIMIT: nat := 0x1_0000_0000_0000_0000

  /** The unsigned long stored in a word. */
  function Num(w: Word): (n: nat)
    ensures n < WORD_LIMIT
  {
    w.low + TOP * w.top
  }

  /** The word that stores a number; storing and loading is the identity. */
  function FromNum(n: nat): (w: Word)
    requires n < WORD_LIMIT
    ensures Num(w) == n
  {
    Word(n % TOP, n / TOP)
  }

  /** 256 to the k. */
  function Weight(k: nat): (p: nat)
    requires k <= 7
    ensures p > 0
  {
    [0x1, 0x100, 0x1_0000, 0x100_0000, 0x1_0000_0000, 0x100_0000_0000, 0x1_0000_0000_0000, TOP][k]
  }

  /** Byte k of a word, lowest address first. */
  function ByteOf(w: Word, k: nat): byte
    requires k < 8
  {
    if k == 7 then w.top else w.low / Weight(k) % 0x100
  }

  /** Byte at a byte address. */
  function ByteAt(m: seq<Word>, addr: nat): byte
    requires addr / 8 < |m|
  {
    ByteOf(m[addr / 8], addr % 8)
  }

  /** A word whose first r bytes are set to zero. */
  function ClearBytes(w: Word, r: nat): Word
    requires r <= 7
  {
    w.(low := w.low - w.low % Weight(r))
  }

  /** Clearing touches the first r bytes and no other. */
  lemma ClearBytesBytes(w: Word, r: nat, k: nat)
    requires r <= 7 && k < 8
    ensures ByteOf(ClearBytes(w, r), k) == if k < r then 0 else ByteOf(w, k)
  {
    if k < 7 {
      var n, p, q := w.low, Weight(r), Weight(k);
      var c := n / p;
      assert n - n % p == p * c;
      if k < r {
        var e := Weight(r - k - 1);
        assert p == 0x100 * e * q;
        hide Weight;
        ZeroBelow(e, q, c);
      } else {
        var e := Weight(k - r);
        assert q == e * p;
        hide Weight;
        SameAbove(n, p, e);
      }
    }
  }

  /** Byte k of a multiple of 256 to the k + 1. */
  lemma ZeroBelow(e: nat, q: nat, c: nat)
    requires q > 0
    ensures (0x100 * e * q) * c / q % 0x100 == 0
  {
    MulShuffle(e, q, c);
    Quotient(q * (0x100 * (e * c)), q, 0x100 * (e * c), 0);
    Quotient(0x100 * (e * c), 0x100, e * c, 0);
  }

  /** Dividing by a multiple of p ignores the remainder modulo p. */
  lemma SameAbove(n: nat, p: nat, e: nat)
    requires p > 0 && e > 0
    ensures e * p > 0 && p * (n / p) / (e * p) == n / (e * p)
  {
    var c := n / p;
    Parts(p, c, e);
    Quotient(p * c, e * p, c / e, p * (c % e));
    Quotient(n, e * p, c / e, p * (c % e) + n % p);
  }

  lemma MulShuffle(e: nat, q: nat, c: nat)
    ensures (0x100 * e * q) * c == q * (0x100 * (e * c))
  {
  }

  lemma Parts(p: nat, c: nat, e: nat)
    requires p > 0 && e > 0
    ensures p * c == (e * p) * (c / e) + p * (c % e)
    ensures 0 <= p * (c % e) <= e * p - p
  {
    assert c == e * (c / e) + c % e;
    assert p * (e * (c / e)) == (e * p) * (c / e);
    assert p * (c % e) <= p * (e - 1);
  }
}
