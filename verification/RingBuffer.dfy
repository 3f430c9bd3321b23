/** The byte ring of `tuya_ringbuf.c`, one byte of which always stays empty. */
module RingBuffer {
  import opened Basics

  /** OVERFLOW_STOP_TYPE, OVERFLOW_COVERAGE_TYPE */
  datatype RingType = Stop | Coverage

  function Min(x: nat, y: nat): nat { if x < y then x else y }

  /** The bytes of a ring from `o` up to `i`, wrapping at the end of the buffer. */
  function Span(b: seq<byte>, o: nat, i: nat): (s: seq<byte>)
    requires o < |b| && i < |b|
    ensures |s| == if o <= i then i - o else |b| - o + i
  {
    if o <= i then b[o..i] else b[o..] + b[..i]
  }

  /** Bytes stored after `i` without reaching the end, or just reaching it. */
  lemma StoreStraight(b: seq<byte>, b': seq<byte>, o: nat, i: nat, d: seq<byte>)
    requires o < |b| && i < |b| && i + |d| <= |b| && d != [] && |Span(b, o, i)| + |d| < |b|
    requires b' == b[..i] + d + b[i + |d|..]
    ensures Span(b', o, if i + |d| == |b| then 0 else i + |d|) == Span(b, o, i) + d
  {
    var i' := if i + |d| == |b| then 0 else i + |d|;
    assert b'[i..i + |d|] == d;
    if o <= i {
      assert b'[o..i] == b[o..i];
      assert b'[o..i + |d|] == b'[o..i] + b'[i..i + |d|];
      if i' == 0 { assert b'[..0] == [] && b'[o..] == b'[o..i + |d|]; }
    } else {
      assert b'[o..] == b[o..] && b'[..i] == b[..i];
      assert b'[..i + |d|] == b'[..i] + b'[i..i + |d|];
    }
  }

  /** Bytes stored up to the end of the buffer and on from its beginning. */
  lemma StoreWrapped(b: seq<byte>, b1: seq<byte>, b2: seq<byte>, o: nat, i: nat, d1: seq<byte>, d2: seq<byte>)
    requires o < |b| && i < |b| && i + |d1| == |b| && d2 != [] && |Span(b, o, i)| + |d1| + |d2| < |b|
    requires b1 == b[..i] + d1 + b[i + |d1|..] && |d2| <= |b1| && b2 == b1[..0] + d2 + b1[|d2|..]
    ensures |d2| < |b| && Span(b2, o, |d2|) == Span(b, o, i) + (d1 + d2)
  {
    assert o <= i && |d2| < o;
    StoreEnd(b, b1, o, i, d1);
    StoreBegin(b1, b2, o, d2);
    var x, y, z := b[o..i], d1, d2;
    assert x + y + z == x + (y + z);
  }

  lemma StoreEnd(b: seq<byte>, b1: seq<byte>, o: nat, i: nat, d: seq<byte>)
    requires o <= i && i + |d| == |b| && b1 == b[..i] + d + b[i + |d|..]
    ensures b1[o..] == b[o..i] + d
  {
    assert b1 == b[..i] + d;
  }

  lemma StoreBegin(b: seq<byte>, b1: seq<byte>, o: nat, d: seq<byte>)
    requires |d| <= o <= |b| && b1 == b[..0] + d + b[|d|..]
    ensures b1[..|d|] == d && b1[o..] == b[o..]
  {
    assert b1 == d + b[|d|..];
  }

  /** The oldest n bytes of a span: a straight part and, when it wraps, a part from the beginning;
      and the span that is left without them. */
  lemma TakeSpan(b: seq<byte>, o: nat, i: nat, first: nat, rest: nat)
    requires o < |b| && i < |b| && 0 < first + rest <= |Span(b, o, i)| && first == Min(|b| - o, first + rest)
    ensures b[o..o + first] + b[..rest] == Span(b, o, i)[..first + rest]
    ensures Span(b, if rest > 0 then rest else if o + first == |b| then 0 else o + first, i) == Span(b, o, i)[first + rest..]
  {
    if o <= i {
      assert b[..rest] == [];
      assert b[o..i][..first] == b[o..o + first] && b[o..i][first..] == b[o + first..i];
    } else {
      var s := b[o..] + b[..i];
      if rest > 0 {
        assert s[..first + rest] == b[o..] + b[..rest];
        assert s[first + rest..] == b[rest..i];
      } else {
        assert s[..first] == b[o..o + first];
        assert s[first..] == b[o + first..] + b[..i];
      }
    }
  }

  class Ring {
    const buff: array<byte>
    var in_pos: nat
    var out_pos: nat
    ghost var accepted: seq<byte>   // all bytes written since creation or reset
    ghost var removed: seq<byte>    // all bytes read or discarded since then

    ghost predicate Valid()
      reads this, buff
    {
      in_pos < buff.Length && out_pos < buff.Length && accepted == removed + Contents()
    }

    /** The unread bytes, oldest first. */
    ghost function Contents(): seq<byte>
      requires in_pos < buff.Length && out_pos < buff.Length
      reads this, buff
    {
      Span(buff[..], out_pos, in_pos)
    }

    constructor (len: nat)
      requires len > 0
      ensures Valid() && fresh(buff) && buff.Length == len && Contents() == []
    {
      buff := new byte[len];
      in_pos, out_pos := 0, 0;
      accepted, removed := [], [];
    }

    /** `tuya_ring_buff_create`: refuses the overwriting type and an empty buffer. */
    static method Create(len: nat, kind: RingType) returns (r: Option<Ring>)
      ensures r.Some? <==> kind == Stop && len > 0
      ensures r.Some? ==> r.value.Valid() && fresh(r.value) && fresh(r.value.buff) && r.value.buff.Length == len && r.value.Contents() == []
    {
      if kind == Coverage || len == 0 {
        return None;
      }
      var ring := new Ring(len);
      return Some(ring);
    }

    /** `tuya_ring_buff_reset` */
    method Reset()
      requires Valid()
      modifies this
      ensures Valid() && Contents() == []
    {
      in_pos, out_pos := 0, 0;
      accepted, removed := [], [];
    }

    /** `tuya_ring_buff_free_size_get` */
    function FreeSize(): (n: nat)
      requires Valid()
      reads this, buff
      ensures n + |Contents()| == buff.Length - 1
    {
      var size := if in_pos == out_pos then buff.Length
                  else if out_pos > in_pos then out_pos - in_pos
                  else buff.Length - (in_pos - out_pos);
      size - 1
    }

    /** `tuya_ring_buff_used_size_get` */
    function UsedSize(): (n: nat)
      requires Valid()
      reads this, buff
      ensures n == |Contents()|
    {
      if in_pos == out_pos then 0
      else if in_pos > out_pos then in_pos - out_pos
      else buff.Length - (out_pos - in_pos)
    }

    /** memcpy into the buffer. */
    method CopyIn(at: nat, src: seq<byte>)
      requires at + |src| <= buff.Length
      modifies buff
      ensures buff[..] == old(buff[..at]) + src + old(buff[at + |src|..])
    {
      var k := 0;
      while k < |src|
        invariant 0 <= k <= |src|
        invariant forall x :: 0 <= x < buff.Length ==> buff[x] == if at <= x < at + k then src[x - at] else old(buff[x])
      {
        buff[at + k] := src[k];
        k := k + 1;
      }
    }

    /** Stores bytes that fit behind the others, straight or wrapped. */
    method Append(data: seq<byte>)
      requires in_pos < buff.Length && out_pos < buff.Length && data != [] && |Contents()| + |data| < buff.Length
      modifies this`in_pos, buff
      ensures in_pos < buff.Length && Contents() == old(Contents()) + data
    {
      hide Span;
      ghost var i, b := in_pos, buff[..];
      var first := Min(buff.Length - in_pos, |data|);
      var head, tail := data[..first], data[first..];
      assert data == head + tail;
      CopyIn(in_pos, head);
      ghost var b1 := buff[..];
      in_pos := in_pos + first;
      if |tail| > 0 {
        CopyIn(0, tail);
        in_pos := |tail|;
        StoreWrapped(b, b1, buff[..], out_pos, i, head, tail);
      } else {
        assert head == data;
        StoreStraight(b, b1, out_pos, i, data);
      }
      if in_pos >= buff.Length {
        in_pos := 0;
      }
    }

    /** `tuya_ring_buff_write`: the longest prefix that fits is appended. */
    method Write(data: seq<byte>) returns (n: nat)
      requires Valid()
      modifies this, buff
      ensures Valid() && n == Min(|data|, old(FreeSize()))
      ensures Contents() == old(Contents()) + data[..n]
      ensures accepted == old(accepted) + data[..n] && removed == old(removed)
    {
      hide Span;
      ghost var c := Contents();
      n := Min(FreeSize(), |data|);
      if n == 0 {
        assert data[..0] == [];
        return;
      }
      Append(data[..n]);
      Behind(removed, c, data[..n]);
      accepted := accepted + data[..n];
    }

    static lemma Behind(r: seq<byte>, c: seq<byte>, d: seq<byte>)
      ensures r + c + d == r + (c + d)
    {
    }

    /** The oldest n bytes, copied straight or in two parts. */
    method Front(n: nat) returns (data: seq<byte>)
      requires in_pos < buff.Length && out_pos < buff.Length && 0 < n <= |Contents()|
      ensures data == Contents()[..n]
    {
      hide Span;
      var first := Min(buff.Length - out_pos, n);
      data := buff[out_pos..out_pos + first];
      var rest := n - first;
      TakeSpan(buff[..], out_pos, in_pos, first, rest);
      if rest > 0 {
        data := data + buff[..rest];
      } else {
        assert buff[..0] == [];
      }
    }

    /** Moves the out-position over the oldest n bytes. */
    method Advance(n: nat)
      requires in_pos < buff.Length && out_pos < buff.Length && 0 < n <= |Contents()|
      modifies this`out_pos
      ensures out_pos < buff.Length && Contents() == old(Contents())[n..]
    {
      hide Span;
      var first := Min(buff.Length - out_pos, n);
      var rest := n - first;
      TakeSpan(buff[..], out_pos, in_pos, first, rest);
      out_pos := out_pos + first;
      if rest > 0 {
        out_pos := rest;
      }
      if out_pos >= buff.Length {
        out_pos := 0;
      }
    }

    /** `tuya_ring_buff_peek`: the oldest bytes, at most `len` of them. */
    method Peek(len: nat) returns (data: seq<byte>)
      requires Valid()
      ensures data == Contents()[..Min(len, |Contents()|)]
    {
      hide Span;
      var n := Min(len, UsedSize());
      if n == 0 {
        return [];
      }
      data := Front(n);
    }

    /** `tuya_ring_buff_discard`: drop the oldest bytes without looking at them. */
    method Discard(len: nat) returns (n: nat)
      requires Valid()
      modifies this
      ensures Valid() && n == Min(len, |old(Contents())|)
      ensures Contents() == old(Contents())[n..]
      ensures removed == old(removed) + old(Contents())[..n] && accepted == old(accepted)
    {
      hide Span;
      ghost var c := Contents();
      n := Min(UsedSize(), len);
      Cut(removed, c, n);
      if n == 0 {
        return;
      }
      Advance(n);
      removed := removed + c[..n];
    }

    static lemma Cut(r: seq<byte>, c: seq<byte>, n: nat)
      requires n <= |c|
      ensures r + c == r + c[..n] + c[n..] && (n == 0 ==> c[..n] == [] && c[n..] == c && r + c[..n] == r)
    {
      assert c == c[..n] + c[n..];
    }

    /** `tuya_ring_buff_read`: what peek shows, removed. */
    method Read(len: nat) returns (data: seq<byte>)
      requires Valid()
      modifies this
      ensures Valid() && data == old(Contents())[..Min(len, |old(Contents())|)]
      ensures Contents() == old(Contents())[|data|..]
      ensures removed == old(removed) + data && accepted == old(accepted)
    {
      hide Span;
      ghost var c := Contents();
      var n := Min(UsedSize(), len);
      Cut(removed, c, n);
      if n == 0 {
        return [];
      }
      data := Front(n);
      Advance(n);
      removed := removed + data;
    }
  }
}
