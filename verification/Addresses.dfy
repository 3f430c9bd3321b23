/** Hexadecimal text for keys and hardware addresses: `iw_print_key`, `iw_in_key`, `iw_mac_ntop`
    and `iw_mac_aton` of `iwlib.c`. Strings are given without their closing NUL. */
module Addresses {
  import opened Basics
  import opened Hex

  const TOKEN_MAX: nat := 64   // IW_ENCODING_TOKEN_MAX
  const DASH: byte := 45
  const COLON: byte := 58

  // ------------------------------------------------------------------ library routines

  /** isspace */
  predicate IsSpace(c: byte) {
    9 <= c <= 13 || c == 32
  }

  function SkipSpace(t: seq<byte>): (r: seq<byte>)
    ensures |r| <= |t|
    ensures t != [] && !IsSpace(t[0]) ==> r == t
  {
    if t != [] && IsSpace(t[0]) then SkipSpace(t[1..]) else t
  }

  datatype Scanned = Scanned(count: nat, high: nibble, low: nibble)

  /** `sscanf` with "%1X%1X": how many of the two digits it found, white space skipped before each. */
  function Scan(t: seq<byte>): (r: Scanned)
    ensures r.count <= 2 && r.count <= |t|
  {
    var a := SkipSpace(t);
    if a == [] || !IsHex(a[0]) then Scanned(0, 0, 0)
    else
      var b := SkipSpace(a[1..]);
      if b == [] || !IsHex(b[0]) then Scanned(1, Value(a[0]), 0) else Scanned(2, Value(a[0]), Value(b[0]))
  }

  lemma {:induction false} SpaceSkipped(u: seq<byte>, t: seq<byte>)
    requires (forall c <- u :: IsSpace(c)) && (t == [] || !IsSpace(t[0]))
    ensures SkipSpace(u + t) == t
  {
    if u != [] {
      assert (u + t)[1..] == u[1..] + t;
      SpaceSkipped(u[1..], t);
    } else {
      assert u + t == t;
    }
  }

  /** White space before either digit is skipped, and what is behind them not looked at. */
  lemma ScanSkips(u: seq<byte>, h: byte, v: seq<byte>, l: byte, rest: seq<byte>)
    requires (forall c <- u + v :: IsSpace(c)) && IsHex(h) && IsHex(l)
    ensures Scan(u + ([h] + (v + ([l] + rest)))) == Scanned(2, Value(h), Value(l))
    ensures Scan(u + ([h] + v)) == Scanned(1, Value(h), 0) && Scan(u).count == 0
    ensures forall c: byte :: !IsHex(c) && !IsSpace(c) ==> Scan(u + ([c] + rest)).count == 0 && Scan(u + ([h] + ([c] + rest))) == Scanned(1, Value(h), 0)
  {
    assert (forall c <- u :: c in u + v) && forall c <- v :: c in u + v;
    assert u + [] == u && v + [] == v;
    SpaceSkipped(u, [h] + (v + ([l] + rest)));
    SpaceSkipped(u, [h] + v);
    SpaceSkipped(u, []);
    SpaceSkipped(v, [l] + rest);
    SpaceSkipped(v, []);
    assert ([h] + (v + ([l] + rest)))[1..] == v + ([l] + rest) && ([h] + v)[1..] == v;
    forall c: byte | !IsHex(c) && !IsSpace(c)
      ensures Scan(u + ([c] + rest)).count == 0 && Scan(u + ([h] + ([c] + rest))) == Scanned(1, Value(h), 0)
    {
      SpaceSkipped(u, [c] + rest);
      SpaceSkipped(u, [h] + ([c] + rest));
      assert ([h] + ([c] + rest))[1..] == [c] + rest;
    }
  }

  /** The separators are "-:;.,"; white space is that of isspace. */
  lemma Characters(c: byte)
    ensures IsSeparator(c) <==> c in {45, 58, 59, 46, 44}
    ensures IsSpace(c) <==> c in {9, 10, 11, 12, 13, 32}
  {
  }

  /** `strcspn` with "-:;.,": the length of the segment the text begins with. */
  function Segment(t: seq<byte>): (n: nat)
    ensures n <= |t| && (forall c <- t[..n] :: !IsSeparator(c)) && (n < |t| ==> IsSeparator(t[n]))
  {
    if t == [] || IsSeparator(t[0]) then 0 else 1 + Segment(t[1..])
  }

  predicate IsSeparator(c: byte) {
    c == DASH || c == COLON || c == 59 || c == 46 || c == 44
  }

  // ------------------------------------------------------------------ iw_in_key

  function Prepend(bs: seq<byte>, r: Option<seq<byte>>): Option<seq<byte>> {
    match r case None => None case Some(rest) => Some(bs + rest)
  }

  datatype Turn = Refused | Turn(b: byte, rest: seq<byte>, dlen: int)

  /** One round of the loop on what is left of the text, `dlen` characters of the current segment
      being unread (-1 before the first segment). */
  function KeyTurn(t: seq<byte>, dlen: int): Turn
    requires t != []
  {
    var t1 := if dlen == 0 then t[1..] else t;
    var d1 := if dlen <= 0 then Segment(t1) else dlen;
    var sc := Scan(t1);
    if sc.count < 1 then Refused else TurnOf(sc, t1, d1)
  }

  /** Two digits make a byte, unless the rest of the segment is of odd length or only one is there. */
  function TurnOf(sc: Scanned, t: seq<byte>, dlen: int): Turn
    requires 1 <= sc.count <= 2 && sc.count <= |t|
  {
    if dlen % 2 != 0 || sc.count == 1 then Turn(sc.high, t[1..], dlen - 1)
    else Turn(Join(sc.high, sc.low), t[2..], dlen - 2)
  }

  /** The rounds that are left when k bytes have been put out. */
  function KeyLoop(t: seq<byte>, dlen: int, k: nat): Option<seq<byte>>
    requires k < TOKEN_MAX
    decreases TOKEN_MAX - k
  {
    if t == [] then Some([])
    else
      match KeyTurn(t, dlen)
      case Refused => None
      case Turn(b, rest, d) =>
        if k + 1 >= TOKEN_MAX then Some([b]) else Prepend([b], KeyLoop(rest, d, k + 1))
  }

  /** The whole routine; None is the return value -1. */
  function InKeySpec(input: seq<byte>): Option<seq<byte>> {
    if |input| >= 2 && input[..2] == [115, COLON] then
      Some(if |input| - 2 > TOKEN_MAX then input[2..2 + TOKEN_MAX] else input[2..])
    else if |input| >= 2 && input[..2] == [112, COLON] then None
    else KeyLoop(input, -1, 0)
  }

  /** A failed parse leaves the caller's key alone. */
  method InKey(input: seq<byte>, key: array<byte>) returns (keylen: int)
    requires key.Length >= TOKEN_MAX
    modifies key
    ensures match InKeySpec(input)
            case None => keylen == -1 && key[..] == old(key[..])
            case Some(bs) => keylen == |bs| <= TOKEN_MAX && key[..] == bs + old(key[..])[keylen..]
  {
    if |input| >= 2 && input[..2] == [115, COLON] {
      keylen := |input| - 2;
      if keylen > TOKEN_MAX { keylen := TOKEN_MAX; }
      CopyKey(key, input[2..2 + keylen]);
    } else if |input| >= 2 && input[..2] == [112, COLON] {
      keylen := -1;
    } else {
      var out := ReadDigits(input);
      match out {
        case None => keylen := -1;
        case Some(bs) =>
          CopyKey(key, bs);
          keylen := |bs|;
      }
    }
  }

  /** Other text is a key only if it is empty or begins with a digit, after white space perhaps. */
  lemma FirstCharacter(t: seq<byte>)
    requires t != [] && !IsHex(t[0]) && t[0] !in {9, 10, 11, 12, 13, 32}
    requires !(|t| > 1 && t[0] in {112, 115} && t[1] == 58)
    ensures InKeySpec(t) == None && InKeySpec([]) == Some([])
  {
  }

  /** A blank inside a segment: "1 2" is read as three bytes, since the cursor moves on by less than
      `sscanf` has read. */
  lemma BlankInKey(t: seq<byte>)
    requires t == [49, 32, 50]
    ensures InKeySpec(t) == Some([1, 2, 2])
  {
    assert Segment(t) == 3;
    assert KeyTurn(t, -1) == Turn(1, t[1..], 2);
    assert KeyTurn(t[1..], 2) == Turn(2, t[2..], 1);
    assert KeyTurn(t[2..], 1) == Turn(2, [], 0);
    hide KeyTurn, Segment;
    var one: seq<byte>, two: seq<byte> := [1], [2];
    assert two + [] == two && two + two == [2, 2] && one + [2, 2] == [1, 2, 2];
    assert KeyLoop([], 0, 3) == Some([]);
    assert KeyLoop(t[2..], 1, 2) == Prepend(two, Some([]));
    assert KeyLoop(t[1..], 2, 1) == Prepend(two, Some(two));
  }

  /** "s:" and a text: the text is the key, cut to 64 bytes. "p:", a pass phrase, is not supported. */
  lemma TextKey(k: seq<byte>)
    ensures InKeySpec([115, 58] + k) == Some(if |k| <= 64 then k else k[..64])
    ensures InKeySpec([112, 58] + k) == None
  {
    assert ([115, 58] + k)[2..] == k;
    if |k| > 64 { assert ([115, 58] + k)[2..66] == k[..64]; }
  }

  method CopyKey(key: array<byte>, bs: seq<byte>)
    requires |bs| <= key.Length
    modifies key
    ensures key[..] == bs + old(key[..])[|bs|..]
  {
    forall i | 0 <= i < |bs| { key[i] := bs[i]; }
    assert key[..|bs|] == bs;
    assert key[|bs|..] == old(key[..])[|bs|..];
  }

  /** The loop over the digits. */
  method ReadDigits(input: seq<byte>) returns (r: Option<seq<byte>>)
    ensures r == KeyLoop(input, -1, 0)
    ensures r.Some? ==> |r.value| <= TOKEN_MAX
  {
    hide KeyTurn, Prepend, KeyLoop;
    var p, dlen := 0, -1;
    var out: seq<byte> := [];
    assert input[p..] == input;
    Nothing(KeyLoop(input, -1, 0));
    while p < |input|
      invariant 0 <= p <= |input| && |out| < TOKEN_MAX
      invariant KeyLoop(input, -1, 0) == Prepend(out, KeyLoop(input[p..], dlen, |out|))
      decreases TOKEN_MAX - |out|
    {
      KeyUnroll(out, input[p..], dlen);
      var ok, b, p', dlen' := DigitRound(input, p, dlen);
      if !ok { return None; }
      out := out + [b];
      if |out| >= TOKEN_MAX { return Some(out); }
      p, dlen := p', dlen';
    }
    assert input[p..] == [];
    KeyEnd(out, dlen);
    r := Some(out);
  }

  /** The body of the loop. */
  method DigitRound(input: seq<byte>, p: nat, dlen: int) returns (ok: bool, b: byte, p': nat, dlen': int)
    requires p < |input|
    ensures ok <==> KeyTurn(input[p..], dlen).Turn?
    ensures ok ==> p < p' <= |input| && KeyTurn(input[p..], dlen) == Turn(b, input[p'..], dlen')
  {
    hide Scan, Segment;
    assert input[p..][1..] == input[p + 1..];
    p', dlen' := p, dlen;
    if dlen' <= 0 {
      if dlen' == 0 { p' := p' + 1; }
      dlen' := Segment(input[p'..]);
    }
    ok, b, p', dlen' := DigitPair(input, p', dlen');
  }

  /** The part of the body behind `strcspn`. */
  method DigitPair(input: seq<byte>, p: nat, dlen: int) returns (ok: bool, b: byte, p': nat, dlen': int)
    requires p <= |input|
    ensures p <= p' <= |input|
    ensures ok <==> Scan(input[p..]).count >= 1
    ensures ok ==> p < p' && Turn(b, input[p'..], dlen') == TurnOf(Scan(input[p..]), input[p..], dlen)
  {
    hide Scan;
    p', dlen' := p, dlen;
    var sc := Scan(input[p..]);
    ok, b := sc.count >= 1, 0;
    if ok {
      var count := if dlen % 2 != 0 then 1 else sc.count;
      b := if count == 2 then Join(sc.high, sc.low) else sc.high;
      assert input[p..][count..] == input[p + count..];
      p', dlen' := p + count, dlen - count;
    }
  }

  lemma Nothing(r: Option<seq<byte>>)
    ensures Prepend([], r) == r
  {
    if r.Some? { assert [] + r.value == r.value; }
  }

  lemma KeyEnd(out: seq<byte>, dlen: int)
    requires |out| < TOKEN_MAX
    ensures Prepend(out, KeyLoop([], dlen, |out|)) == Some(out)
  {
    assert out + [] == out;
  }

  lemma KeyUnroll(out: seq<byte>, t: seq<byte>, dlen: int)
    requires |out| < TOKEN_MAX && t != []
    ensures Prepend(out, KeyLoop(t, dlen, |out|)) ==
            var turn := KeyTurn(t, dlen);
            if turn.Refused? then None
            else if |out| + 1 >= TOKEN_MAX then Some(out + [turn.b])
            else Prepend(out + [turn.b], KeyLoop(turn.rest, turn.dlen, |out| + 1))
  {
    var tail := KeyTurn(t, dlen);
    if tail.Turn? && |out| + 1 < TOKEN_MAX {
      var r := KeyLoop(tail.rest, tail.dlen, |out| + 1);
      if r.Some? { assert out + ([tail.b] + r.value) == out + [tail.b] + r.value; }
    }
  }

  // ------------------------------------------------------------------ what a key text stands for

  /** Only hexadecimal digits and separators. */
  predicate KeyText(t: seq<byte>) {
    forall c <- t :: IsHex(c) || IsSeparator(c)
  }

  /** The number a segment of digits stands for, as bytes: an odd segment has a leading zero. */
  function SegmentBytes(g: seq<byte>): (bs: seq<byte>)
    requires forall c <- g :: IsHex(c)
    ensures |bs| == (|g| + 1) / 2
  {
    if g == [] then []
    else if |g| % 2 != 0 then [Value(g[0])] + SegmentBytes(g[1..])
    else [Join(Value(g[0]), Value(g[1]))] + SegmentBytes(g[2..])
  }

  function Power(base: nat, k: nat): nat {
    if k == 0 then 1 else base * Power(base, k - 1)
  }

  /** The number that a text of digits is in base 16, and that bytes are in base 256, highest first. */
  function NumberOfText(g: seq<byte>): nat
    requires forall c <- g :: IsHex(c)
  {
    if g == [] then 0 else Value(g[0]) * Power(16, |g| - 1) + NumberOfText(g[1..])
  }

  function NumberOfBytes(bs: seq<byte>): nat {
    if bs == [] then 0 else bs[0] * Power(256, |bs| - 1) + NumberOfBytes(bs[1..])
  }

  lemma {:induction false} PowerOfSquare(k: nat)
    ensures Power(16, 2 * k) == Power(256, k)
  {
    if k > 0 {
      PowerOfSquare(k - 1);
      assert Power(16, 2 * k) == 16 * Power(16, 2 * k - 1) == 16 * (16 * Power(16, 2 * k - 2));
    }
  }

  /** The bytes of a segment are the number it writes, in as few bytes as hold its digits. */
  lemma {:induction false} SegmentIsNumber(g: seq<byte>)
    requires forall c <- g :: IsHex(c)
    ensures NumberOfBytes(SegmentBytes(g)) == NumberOfText(g) && |SegmentBytes(g)| == (|g| + 1) / 2
  {
    hide IsHex, Value, Join;
    if g != [] {
      var bs, n := SegmentBytes(g), if |g| % 2 != 0 then 1 else 2;
      var p := Power(256, |bs| - 1);
      SegmentIsNumber(g[n..]);
      assert bs[1..] == SegmentBytes(g[n..]);
      assert NumberOfBytes(bs) == bs[0] * p + NumberOfText(g[n..]);
      PowerOfSquare(|bs| - 1);
      if n == 2 {
        assert g[1..][0] == g[1] && g[1..][1..] == g[2..];
        assert NumberOfText(g[1..]) == Value(g[1]) * p + NumberOfText(g[2..]);
        assert NumberOfText(g) == Value(g[0]) * (16 * p) + NumberOfText(g[1..]);
        JoinTimes(Value(g[0]), Value(g[1]), p);
      }
    }
  }

  lemma JoinTimes(h: nibble, l: nibble, p: nat)
    ensures Join(h, l) * p == h * (16 * p) + l * p
  {
  }

  /** The bytes of a text up to its first empty segment, and whether it has none. */
  datatype Reading = Reading(bytes: seq<byte>, clean: bool)

  function ReadSegments(t: seq<byte>): Reading
    requires KeyText(t)
    decreases |t|
  {
    var n := Segment(t);
    if n == 0 then Reading([], false)
    else if n == |t| then Reading(SegmentBytes(t), true)
    else var rest := ReadSegments(t[n + 1..]); Reading(SegmentBytes(t[..n]) + rest.bytes, rest.clean)
  }

  /** At most `room` bytes are taken; what lies behind them is not looked at. */
  function Taken(r: Reading, room: nat): Option<seq<byte>> {
    if |r.bytes| >= room then Some(r.bytes[..room]) else if r.clean then Some(r.bytes) else None
  }

  lemma TakenBehind(bs: seq<byte>, r: Reading, room: nat)
    requires |bs| < room
    ensures Taken(Reading(bs + r.bytes, r.clean), room) == Prepend(bs, Taken(r, room - |bs|))
  {
    if |r.bytes| >= room - |bs| { assert (bs + r.bytes)[..room] == bs + r.bytes[..room - |bs|]; }
  }

  lemma TurnInSegment(g: seq<byte>, rest: seq<byte>)
    requires g != [] && (forall c <- g :: IsHex(c)) && (rest == [] || IsSeparator(rest[0]))
    ensures KeyTurn(g + rest, |g|) ==
            if |g| % 2 != 0 then Turn(Value(g[0]), g[1..] + rest, |g| - 1)
            else Turn(Join(Value(g[0]), Value(g[1])), g[2..] + rest, |g| - 2)
  {
    var t := g + rest;
    assert t[0] == g[0] && t[1..] == g[1..] + rest;
    if |g| > 1 { assert t[1] == g[1] && t[2..] == g[2..] + rest; }
  }

  lemma PrependTwice(a: seq<byte>, b: seq<byte>, r: Option<seq<byte>>)
    ensures Prepend(a, Prepend(b, r)) == Prepend(a + b, r)
  {
    if r.Some? { assert a + (b + r.value) == a + b + r.value; }
  }

  lemma LoopInSegment(g: seq<byte>, rest: seq<byte>, k: nat)
    requires k + 1 < TOKEN_MAX && g != [] && (forall c <- g :: IsHex(c)) && (rest == [] || IsSeparator(rest[0]))
    ensures var n := if |g| % 2 != 0 then 1 else 2;
            KeyLoop(g + rest, |g|, k) == Prepend(SegmentBytes(g)[..1], KeyLoop(g[n..] + rest, |g| - n, k + 1))
  {
    hide KeyTurn;
    TurnInSegment(g, rest);
  }

  lemma LastInSegment(g: seq<byte>, rest: seq<byte>, k: nat)
    requires k + 1 == TOKEN_MAX && g != [] && (forall c <- g :: IsHex(c)) && (rest == [] || IsSeparator(rest[0]))
    ensures KeyLoop(g + rest, |g|, k) == Some(SegmentBytes(g)[..1])
  {
    hide KeyTurn;
    TurnInSegment(g, rest);
  }

  lemma SegmentBytesStep(g: seq<byte>)
    requires g != [] && forall c <- g :: IsHex(c)
    ensures var n := if |g| % 2 != 0 then 1 else 2;
            SegmentBytes(g) == SegmentBytes(g)[..1] + SegmentBytes(g[n..])
  {
  }

  /** The rounds that read one segment. */
  lemma {:induction false} SegmentRead(g: seq<byte>, rest: seq<byte>, k: nat)
    requires k < TOKEN_MAX && (forall c <- g :: IsHex(c)) && (rest == [] || IsSeparator(rest[0]))
    ensures KeyLoop(g + rest, |g|, k) ==
            if k + |SegmentBytes(g)| >= TOKEN_MAX then Some(SegmentBytes(g)[..TOKEN_MAX - k])
            else Prepend(SegmentBytes(g), KeyLoop(rest, 0, k + |SegmentBytes(g)|))
    decreases |g|
  {
    hide KeyLoop, Prepend, SegmentBytes;
    var n, bs := if |g| % 2 != 0 then 1 else 2, SegmentBytes(g);
    if g == [] {
      assert g + rest == rest && bs == [];
      Nothing(KeyLoop(rest, 0, k));
    } else if k + 1 < TOKEN_MAX {
      SegmentBytesStep(g);
      LoopInSegment(g, rest, k);
      SegmentRead(g[n..], rest, k + 1);
      var more := SegmentBytes(g[n..]);
      if k + |bs| >= TOKEN_MAX {
        Single(bs[..1], more[..TOKEN_MAX - k - 1]);
        assert bs[..1] + more[..TOKEN_MAX - k - 1] == bs[..TOKEN_MAX - k];
      } else {
        PrependTwice(bs[..1], more, KeyLoop(rest, 0, k + |bs|));
      }
    } else {
      LastInSegment(g, rest, k);
    }
  }

  lemma Single(a: seq<byte>, b: seq<byte>)
    ensures Prepend(a, Some(b)) == Some(a + b)
  {
  }

  /** At the beginning of a segment, with or without its separator before it, the loop reads on. */
  lemma SegmentBegins(t: seq<byte>, k: nat)
    requires k < TOKEN_MAX && t != [] && KeyText(t)
    ensures KeyLoop(t, -1, k) == if Segment(t) == 0 then None else KeyLoop(t, Segment(t), k)
  {
    if Segment(t) > 0 { assert KeyTurn(t, -1) == KeyTurn(t, Segment(t)); }
  }

  lemma SeparatorSkipped(c: byte, t: seq<byte>, k: nat)
    requires k < TOKEN_MAX && KeyText(t)
    ensures KeyLoop([c] + t, 0, k) == if t == [] then None else KeyLoop(t, -1, k)
  {
    assert ([c] + t)[1..] == t;
    if t != [] { assert KeyTurn([c] + t, 0) == KeyTurn(t, -1); }
  }

  lemma SegmentFacts(t: seq<byte>)
    requires KeyText(t)
    ensures forall c <- t[..Segment(t)] :: IsHex(c)
    ensures Segment(t) < |t| ==> KeyText(t[Segment(t) + 1..])
  {
  }

  /** What the loop makes of the segment a text begins with. */
  lemma OneSegment(t: seq<byte>, g: seq<byte>, rest: seq<byte>, bs: seq<byte>, k: nat)
    requires k < TOKEN_MAX && KeyText(t) && t == g + rest && |g| == Segment(t) > 0
    requires (forall c <- g :: IsHex(c)) && bs == SegmentBytes(g) && (rest == [] || IsSeparator(rest[0]))
    ensures k + |bs| >= TOKEN_MAX ==> KeyLoop(t, -1, k) == Some(bs[..TOKEN_MAX - k])
    ensures k + |bs| < TOKEN_MAX ==> KeyLoop(t, -1, k) == Prepend(bs, KeyLoop(rest, 0, k + |bs|))
  {
    hide KeyLoop, SegmentBytes, Segment, KeyText, Prepend;
    SegmentBegins(t, k);
    SegmentRead(g, rest, k);
  }

  lemma Separated(t: seq<byte>, k: nat)
    requires k < TOKEN_MAX && t != [] && KeyText(t[1..])
    ensures KeyLoop(t, 0, k) == if |t| == 1 then None else KeyLoop(t[1..], -1, k)
  {
    hide KeyLoop, KeyText;
    assert t == [t[0]] + t[1..];
    SeparatorSkipped(t[0], t[1..], k);
  }

  lemma ReadStep(t: seq<byte>, n: nat)
    requires KeyText(t) && n == Segment(t) > 0 && (forall c <- t[..n] :: IsHex(c))
    requires n < |t| ==> KeyText(t[n + 1..])
    ensures ReadSegments(t) ==
            if n == |t| then Reading(SegmentBytes(t[..n]), true)
            else Reading(SegmentBytes(t[..n]) + ReadSegments(t[n + 1..]).bytes, ReadSegments(t[n + 1..]).clean)
  {
    if n == |t| { assert t[..n] == t; }
  }

  /** What is taken of a text beginning with a segment. */
  lemma TakenOne(t: seq<byte>, n: nat, bs: seq<byte>, room: nat)
    requires KeyText(t) && n == Segment(t) > 0 && room > 0 && (n < |t| ==> KeyText(t[n + 1..]))
    requires (forall c <- t[..n] :: IsHex(c)) && bs == SegmentBytes(t[..n])
    ensures |bs| >= room ==> Taken(ReadSegments(t), room) == Some(bs[..room])
    ensures |bs| < room && n == |t| ==> Taken(ReadSegments(t), room) == Some(bs)
    ensures |bs| < room && n < |t| ==>
              Taken(ReadSegments(t), room) == Prepend(bs, Taken(ReadSegments(t[n + 1..]), room - |bs|))
  {
    hide SegmentBytes, KeyText, Segment, ReadSegments, Prepend;
    ReadStep(t, n);
    if n < |t| {
      var more := ReadSegments(t[n + 1..]);
      if |bs| >= room { assert (bs + more.bytes)[..room] == bs[..room]; } else { TakenBehind(bs, more, room); }
    }
  }

  /** The loop against the meaning of the text: the bytes of its segments in order, the first
      TOKEN_MAX of them when there are more, an error when it meets an empty segment. */
  lemma {:induction false} SegmentsRead(t: seq<byte>, k: nat)
    requires k < TOKEN_MAX && t != [] && KeyText(t)
    ensures KeyLoop(t, -1, k) == Taken(ReadSegments(t), TOKEN_MAX - k)
    decreases |t|
  {
    hide KeyLoop, SegmentBytes, Segment, KeyText;
    var n := Segment(t);
    SegmentFacts(t);
    if n == 0 {
      SegmentBegins(t, k);
    } else {
      hide ReadSegments, Taken;
      var bs := SegmentBytes(t[..n]);
      if k + |bs| < TOKEN_MAX && n + 1 < |t| { SegmentsRead(t[n + 1..], k + |bs|); }
      SegmentThenRest(t, n, bs, k);
    }
  }

  /** A segment, given that the loop reads what lies behind it. */
  lemma SegmentThenRest(t: seq<byte>, n: nat, bs: seq<byte>, k: nat)
    requires k < TOKEN_MAX && KeyText(t) && n == Segment(t) > 0 && (forall c <- t[..n] :: IsHex(c)) && bs == SegmentBytes(t[..n])
    requires n < |t| ==> KeyText(t[n + 1..])
    requires k + |bs| < TOKEN_MAX && n + 1 < |t| ==>
               KeyLoop(t[n + 1..], -1, k + |bs|) == Taken(ReadSegments(t[n + 1..]), TOKEN_MAX - k - |bs|)
    ensures KeyLoop(t, -1, k) == Taken(ReadSegments(t), TOKEN_MAX - k)
  {
    hide KeyLoop, SegmentBytes, Prepend, Segment, KeyText, ReadSegments, Taken, IsHex;
    var g, rest := t[..n], t[n..];
    assert t == g + rest;
    OneSegment(t, g, rest, bs, k);
    TakenOne(t, n, bs, TOKEN_MAX - k);
    if k + |bs| < TOKEN_MAX {
      if n == |t| {
        NoMore(bs, k);
      } else {
        assert rest[1..] == t[n + 1..];
        Separated(rest, k + |bs|);
        if n + 1 == |t| { EmptyText(t[n + 1..], TOKEN_MAX - k - |bs|); }
      }
    }
  }

  lemma NoMore(bs: seq<byte>, k: nat)
    requires k + |bs| < TOKEN_MAX
    ensures Prepend(bs, KeyLoop([], 0, k + |bs|)) == Some(bs)
  {
    assert bs + [] == bs;
  }

  lemma EmptyText(t: seq<byte>, room: nat)
    requires room > 0 && t == []
    ensures KeyText(t) && Taken(ReadSegments(t), room) == None
  {
  }

  // ------------------------------------------------------------------ iw_print_key

  /** The two characters shown for byte i: its digits, or stars when the key is not readable. */
  function Shown(key: seq<byte>, i: nat, nokey: bool): (t: seq<byte>)
    requires i < |key|
    ensures |t| == 2 && (nokey ==> t == [42, 42])
  {
    if nokey then [42, 42] else Digits(key[i])
  }

  /** A key as text, a dash between every two bytes and the next two. */
  function Printed(key: seq<byte>, nokey: bool): (t: seq<byte>)
    requires key != []
    ensures 2 * |t| == 5 * |key| - (if |key| % 2 == 0 then 2 else 1)
  {
    var last := |key| - 1;
    if last == 0 then Shown(key, 0, nokey)
    else Printed(key[..last], nokey) + Dash(last) + Shown(key, last, nokey)
  }

  ghost predicate Holds(buffer: array<byte>, t: seq<byte>)
    reads buffer
  {
    |t| < buffer.Length && buffer[..|t|] == t && buffer[|t|] == 0
  }

  /** `sprintf` or `strcpy` at a place of the buffer: the characters and a NUL. */
  method Put(buffer: array<byte>, d: nat, t: seq<byte>) returns (d': nat)
    requires d + |t| < buffer.Length
    modifies buffer
    ensures d' == d + |t| && buffer[..d'] == old(buffer[..d]) + t && buffer[d'] == 0
  {
    forall i | 0 <= i < |t| { buffer[d + i] := t[i]; }
    d' := d + |t|;
    buffer[d'] := 0;
  }

  method PutFirst(buffer: array<byte>, t: seq<byte>) returns (d: nat)
    requires |t| < buffer.Length
    modifies buffer
    ensures d == |t| && Holds(buffer, t)
  {
    d := Put(buffer, 0, t);
  }

  const TOO_BIG: seq<byte> := [60, 116, 111, 111, 32, 98, 105, 103, 62]   // "<too big>"

  /** The text fits the buffer whenever three characters per byte do. A key that is present is printed
      with at least its first byte. */
  method PrintKey(buffer: array<byte>, buflen: nat, key: seq<byte>, keySize: int, nokey: bool)
    requires buflen <= buffer.Length && keySize <= |key|
    requires keySize <= 0 ==> buffer.Length > 2 && (nokey || key != [])
    modifies buffer
    ensures 3 * keySize > buflen > 0 ==> Holds(buffer, if buflen <= |TOO_BIG| then TOO_BIG[..buflen - 1] else TOO_BIG)
    ensures 3 * keySize > buflen > 9 ==> buffer[..10] == [60, 116, 111, 111, 32, 98, 105, 103, 62, 0]   // "<too big>"
    ensures 3 * keySize > buflen == 0 ==> buffer[..] == old(buffer[..])
    ensures keySize <= 0 ==> Holds(buffer, if nokey then [111, 110] else Digits(key[0]))
    ensures 0 < 3 * keySize <= buflen ==> Holds(buffer, Printed(key[..keySize], nokey)) && |Printed(key[..keySize], nokey)| < buflen
  {
    if 3 * keySize > buflen {
      if buflen == 0 { return; }
      var _ := Put(buffer, 0, if buflen <= |TOO_BIG| then TOO_BIG[..buflen - 1] else TOO_BIG);
    } else if keySize <= 0 {
      var _ := Put(buffer, 0, if nokey then [111, 110] else Digits(key[0]));
    } else {
      PrintBytes(buffer, key[..keySize], nokey);
    }
  }

  function Dash(i: nat): seq<byte> {
    if i % 2 == 0 then [DASH] else []
  }

  lemma PrintedStep(key: seq<byte>, i: nat, nokey: bool)
    requires 0 < i < |key|
    ensures Printed(key[..i + 1], nokey) == Printed(key[..i], nokey) + Dash(i) + Shown(key, i, nokey)
  {
    assert key[..i + 1][..i] == key[..i];
  }

  method PrintBytes(buffer: array<byte>, key: seq<byte>, nokey: bool)
    requires 0 < 3 * |key| <= buffer.Length
    modifies buffer
    ensures Holds(buffer, Printed(key, nokey))
  {
    FirstPrinted(key, nokey);
    hide Printed, Shown, Dash, Holds;
    var d := PutFirst(buffer, Shown(key, 0, nokey));
    var i := 1;
    ghost var t := Printed(key[..1], nokey);
    while i < |key|
      invariant 1 <= i <= |key| && t == Printed(key[..i], nokey) && Holds(buffer, t) && d == |t|
    {
      PrintedStep(key, i, nokey);
      PrintedFits(key[..i + 1], nokey);
      d := PrintNext(buffer, d, i, Shown(key, i, nokey), t);
      t := t + Dash(i) + Shown(key, i, nokey);
      i := i + 1;
    }
    assert key[..i] == key;
  }

  lemma FirstPrinted(key: seq<byte>, nokey: bool)
    requires key != []
    ensures Printed(key[..1], nokey) == Shown(key, 0, nokey)
  {
  }

  lemma PrintedFits(key: seq<byte>, nokey: bool)
    requires key != []
    ensures |Printed(key, nokey)| < 3 * |key|
  {
  }

  /** The body of the loop. */
  method PrintNext(buffer: array<byte>, d: nat, i: nat, cell: seq<byte>, ghost t: seq<byte>) returns (d': nat)
    requires d + |Dash(i)| + |cell| < buffer.Length && d == |t| && Holds(buffer, t)
    modifies buffer
    ensures d' == |t + Dash(i) + cell| && Holds(buffer, t + Dash(i) + cell)
  {
    d' := d;
    if i % 2 == 0 { d' := Put(buffer, d, [DASH]); }
    d' := Put(buffer, d', cell);
  }

  // ------------------------------------------------------------------ parsing undoes printing

  /** Seen from the front, a printed key is its first two bytes, a dash and the other bytes printed. */
  lemma {:induction false} PrintedFront(key: seq<byte>)
    requires |key| > 2
    ensures Printed(key, false) == Digits(key[0]) + Digits(key[1]) + ([DASH] + Printed(key[2..], false))
  {
    hide Printed, Digits;
    var last := |key| - 1;
    var init, rest := key[..last], key[2..];
    PrintedBack(key);
    if last == 2 {
      PrintedShort(init);
      PrintedShort(rest);
    } else {
      PrintedFront(init);
      PrintedBack(rest);
      assert rest[..last - 2] == init[2..] && Dash(last) == Dash(last - 2);
      hide Dash;
      var a, b, c := Digits(key[0]) + Digits(key[1]), Printed(init[2..], false), Dash(last) + Digits(key[last]);
      assert a + ([DASH] + b) + c == a + ([DASH] + (b + c));
    }
  }

  lemma PrintedBack(key: seq<byte>)
    requires |key| > 1
    ensures Printed(key, false) ==
            Printed(key[..|key| - 1], false) + (Dash(|key| - 1) + Digits(key[|key| - 1]))
  {
  }

  lemma PrintedOne(key: seq<byte>)
    requires |key| == 1
    ensures Printed(key, false) == Digits(key[0])
  {
    hide Digits;
  }

  lemma PrintedTwo(key: seq<byte>)
    requires |key| == 2
    ensures Printed(key, false) == Digits(key[0]) + Digits(key[1])
  {
    PrintedOne(key[..1]);
    PrintedBack(key);
    hide Digits, Printed;
    var d := Digits(key[1]);
    assert Dash(1) == [];
    assert [] + d == d;
  }

  lemma PrintedShort(key: seq<byte>)
    requires 1 <= |key| <= 2
    ensures Printed(key, false) == if |key| == 1 then Digits(key[0]) else Digits(key[0]) + Digits(key[1])
  {
    hide Digits, Printed;
    if |key| == 1 {
      PrintedOne(key);
    } else {
      PrintedTwo(key);
    }
  }

  lemma TwoBytes(b: byte, c: byte)
    ensures SegmentBytes(Digits(b)) == [b] && SegmentBytes(Digits(b) + Digits(c)) == [b, c]
  {
    var g := Digits(b) + Digits(c);
    assert g[2..] == Digits(c) && g[0] == Digits(b)[0] && g[1] == Digits(b)[1];
    assert Digits(b)[2..] == [];
    assert Digits(c)[2..] == [];
  }

  lemma {:induction false} SegmentOf(g: seq<byte>, rest: seq<byte>)
    requires (forall c <- g :: IsHex(c)) && (rest == [] || IsSeparator(rest[0]))
    ensures Segment(g + rest) == |g|
  {
    if g == [] {
      assert g + rest == rest;
    } else {
      SegmentOf(g[1..], rest);
      assert (g + rest)[0] == g[0] && g[0] in g;
      assert (g + rest)[1..] == g[1..] + rest;
    }
  }

  /** A clean text put behind a segment and a separator. */
  lemma ReadsBehind(g: seq<byte>, c: byte, more: seq<byte>)
    requires g != [] && (forall d <- g :: IsHex(d)) && IsSeparator(c) && KeyText(more)
    ensures KeyText(g + ([c] + more))
    ensures ReadSegments(g + ([c] + more)) == Reading(SegmentBytes(g) + ReadSegments(more).bytes, ReadSegments(more).clean)
  {
    var t := g + ([c] + more);
    SegmentOf(g, [c] + more);
    assert t[..|g|] == g && t[|g| + 1..] == more;
    hide Segment, SegmentBytes, ReadSegments;
    ReadStep(t, |g|);
  }

  lemma ReadsAlone(g: seq<byte>)
    requires g != [] && forall d <- g :: IsHex(d)
    ensures KeyText(g) && ReadSegments(g) == Reading(SegmentBytes(g), true)
  {
    SegmentOf(g, []);
    assert g + [] == g;
    hide Segment, SegmentBytes;
  }

  /** Every printed key is a clean text that stands for the key. */
  lemma {:induction false} PrintedReads(key: seq<byte>)
    requires key != []
    ensures KeyText(Printed(key, false)) && ReadSegments(Printed(key, false)) == Reading(key, true)
    decreases |key|
  {
    hide Printed, SegmentBytes, ReadSegments, KeyText, Segment;
    TwoBytes(key[0], key[|key| - 1]);
    if |key| <= 2 {
      PrintedShort(key);
      assert key == if |key| == 1 then [key[0]] else [key[0], key[1]];
      ReadsAlone(Printed(key, false));
    } else {
      PrintedFront(key);
      PrintedReads(key[2..]);
      TwoBytes(key[0], key[1]);
      ReadsBehind(Digits(key[0]) + Digits(key[1]), DASH, Printed(key[2..], false));
      assert [key[0], key[1]] + key[2..] == key;
    }
  }

  /** A text of digits and separators names no other form of key. */
  lemma NoPrefix(t: seq<byte>)
    requires KeyText(t)
    ensures InKeySpec(t) == KeyLoop(t, -1, 0)
  {
    if |t| >= 2 { assert t[0] in t && t[..2][0] == t[0]; }
  }

  /** Parsing the printed text gives the key back; a longer key is cut to TOKEN_MAX bytes. */
  lemma KeyRoundTrip(key: seq<byte>)
    requires key != []
    ensures InKeySpec(Printed(key, false)) == Some(if |key| <= TOKEN_MAX then key else key[..TOKEN_MAX])
  {
    hide Printed, InKeySpec, ReadSegments, KeyText, KeyLoop;
    var t := Printed(key, false);
    PrintedReads(key);
    NoPrefix(t);
    SegmentsRead(t, 0);
    if |key| == TOKEN_MAX { assert key[..TOKEN_MAX] == key; }
  }

  // ------------------------------------------------------------------ iw_mac_ntop

  function MacText(mac: seq<byte>): (t: seq<byte>)
    requires mac != []
    ensures |t| == 3 * |mac| - 1
  {
    var last := |mac| - 1;
    if last == 0 then Digits(mac[0]) else MacText(mac[..last]) + ([COLON] + Digits(mac[last]))
  }

  /** The text, each byte printed over the NUL of the one before and the first byte always printed;
      false (a NULL result) when the buffer is shorter than three characters per byte. */
  method MacNtop(mac: seq<byte>, maclen: int, buf: array<byte>, buflen: int) returns (ok: bool)
    requires mac != [] && maclen <= |mac| && buflen <= buf.Length && (maclen <= 0 ==> buf.Length > 2)
    modifies buf
    ensures ok <==> buflen >= 3 * maclen
    ensures if ok then Holds(buf, MacText(mac[..if maclen < 1 then 1 else maclen])) else buf[..] == old(buf[..])
  {
    if buflen < maclen * 3 - 1 + 1 { return false; }
    FirstText(mac);
    hide MacText, Digits;
    var d: nat := Put(buf, 0, Digits(mac[0]));
    var i := 1;
    while i < maclen
      invariant 1 <= i && (i <= maclen || i == 1) && Holds(buf, MacText(mac[..i]))
    {
      NextText(mac, i);
      d := PutAfter(buf, i * 3 - 1, [COLON] + Digits(mac[i]), MacText(mac[..i]));
      i := i + 1;
    }
    ok := true;
  }

  /** Prints at the NUL of the text a buffer holds. */
  method PutAfter(buffer: array<byte>, d: nat, t: seq<byte>, ghost before: seq<byte>) returns (d': nat)
    requires Holds(buffer, before) && d == |before| && d + |t| < buffer.Length
    modifies buffer
    ensures Holds(buffer, before + t) && d' == d + |t|
  {
    d' := Put(buffer, d, t);
  }

  lemma FirstText(mac: seq<byte>)
    requires mac != []
    ensures MacText(mac[..1]) == Digits(mac[0])
  {
    assert mac[..1] == [mac[0]];
  }

  lemma NextText(mac: seq<byte>, i: nat)
    requires 0 < i < |mac|
    ensures MacText(mac[..i + 1]) == MacText(mac[..i]) + ([COLON] + Digits(mac[i]))
  {
    assert mac[..i + 1][..i] == mac[..i];
  }

  // ------------------------------------------------------------------ iw_mac_aton

  /** A normal return, or a return value of 0 with EINVAL or E2BIG. */
  datatype MacStatus = Good | Invalid | TooBig

  /** How the parse ends, and the bytes it has put out by then. */
  datatype MacResult = MacResult(status: MacStatus, bytes: seq<byte>)

  function MacBehind(bs: seq<byte>, r: MacResult): MacResult {
    r.(bytes := bs + r.bytes)
  }

  /** The rounds of the loop on what is left of the text, when k bytes have been read. */
  function MacLoop(t: seq<byte>, macmax: int, k: nat): MacResult {
    if t == [] then MacResult(Invalid, [])
    else
      var sc := Scan(t);
      if sc.count != 2 then MacResult(Invalid, [])
      else
        var b := Join(sc.high, sc.low);
        if |t| == 2 then MacResult(Good, [b])
        else if k + 1 >= macmax then MacResult(TooBig, [b])
        else if t[2] != COLON then MacResult(Invalid, [b])
        else MacBehind([b], MacLoop(t[3..], macmax, k + 1))
  }

  lemma MacUnroll(out: seq<byte>, t: seq<byte>, macmax: int)
    requires t != []
    ensures MacBehind(out, MacLoop(t, macmax, |out|)) ==
            var sc := Scan(t);
            var more := out + [Join(sc.high, sc.low)];
            if sc.count != 2 then MacResult(Invalid, out)
            else if |t| == 2 then MacResult(Good, more)
            else if |out| + 1 >= macmax then MacResult(TooBig, more)
            else if t[2] != COLON then MacResult(Invalid, more)
            else MacBehind(more, MacLoop(t[3..], macmax, |out| + 1))
  {
    hide Scan;
    var sc := Scan(t);
    assert out + [] == out;
    if sc.count == 2 && |t| > 2 {
      var b, rest := [Join(sc.high, sc.low)], MacLoop(t[3..], macmax, |out| + 1).bytes;
      assert out + (b + rest) == out + b + rest;
    }
  }

  lemma MacEnds(out: seq<byte>, r: MacResult, macmax: int)
    ensures MacBehind([], r) == r && MacBehind(out, MacLoop([], macmax, |out|)) == MacResult(Invalid, out)
  {
    assert [] + r.bytes == r.bytes && out + [] == out;
  }

  method PutByte(mac: array<byte>, k: nat, b: byte, ghost out: seq<byte>, ghost was: seq<byte>)
    requires k < mac.Length == |was| && |out| == k && mac[..] == out + was[k..]
    modifies mac
    ensures mac[..] == out + [b] + was[k + 1..]
  {
    mac[k] := b;
    assert forall i :: k < i < mac.Length ==> (out + was[k..])[i] == was[i];
  }

  /** The bytes go to the caller's buffer as they are read, also when the parse fails later; the rest
      of the buffer is not touched. At least one byte may be written, whatever macmax. */
  method MacAton(orig: seq<byte>, mac: array<byte>, macmax: int) returns (maclen: nat, status: MacStatus)
    requires mac.Length >= 1 && mac.Length >= macmax
    modifies mac
    ensures var r := MacLoop(orig, macmax, 0);
            && status == r.status && maclen == (if r.status == Good then |r.bytes| else 0) && |r.bytes| <= mac.Length
            && mac[..] == r.bytes + old(mac[..])[|r.bytes|..]
  {
    hide MacLoop, Scan, MacBehind;
    var p := 0;
    maclen := 0;
    ghost var out: seq<byte> := [];
    assert orig[p..] == orig;
    MacEnds([], MacLoop(orig, macmax, 0), macmax);
    while p < |orig|
      invariant 0 <= p <= |orig| && maclen == |out| && (maclen < macmax || maclen == 0)
      invariant mac[..] == out + old(mac[..])[maclen..]
      invariant MacLoop(orig, macmax, 0) == MacBehind(out, MacLoop(orig[p..], macmax, |out|))
      decreases |orig| - p
    {
      ghost var t := orig[p..];
      MacUnroll(out, t, macmax);
      var sc := Scan(orig[p..]);
      if sc.count != 2 { return 0, Invalid; }
      PutByte(mac, maclen, Join(sc.high, sc.low), out, old(mac[..]));
      out := out + [Join(sc.high, sc.low)];
      maclen := maclen + 1;
      p := p + 2;
      if p == |orig| { return maclen, Good; }
      if maclen >= macmax { return 0, TooBig; }
      if orig[p] != COLON { return 0, Invalid; }
      p := p + 1;
      assert t[3..] == orig[p..];
    }
    assert orig[p..] == [];
    MacEnds(out, MacLoop(orig, macmax, 0), macmax);
    maclen, status := 0, Invalid;
  }

  // ------------------------------------------------------------------ address round trips

  /** An address text from the front. */
  lemma {:induction false} MacTextFront(mac: seq<byte>)
    requires |mac| > 1
    ensures MacText(mac) == Digits(mac[0]) + ([COLON] + MacText(mac[1..]))
  {
    hide MacText, Digits;
    var last := |mac| - 1;
    var init, rest := mac[..last], mac[1..];
    NextText(mac, last);
    assert mac[..last + 1] == mac;
    if last == 1 {
      FirstText(mac);
      FirstText(rest);
      assert rest[..1] == rest;
    } else {
      MacTextFront(init);
      NextText(rest, last - 1);
      assert rest[..last] == rest && rest[..last - 1] == init[1..];
      var a, b, c := Digits(mac[0]), MacText(init[1..]), [COLON] + Digits(mac[last]);
      assert a + ([COLON] + b) + c == a + ([COLON] + (b + c));
    }
  }

  lemma ScanDigits(t: seq<byte>)
    requires |t| >= 2 && IsHex(t[0]) && IsHex(t[1])
    ensures Scan(t) == Scanned(2, Value(t[0]), Value(t[1]))
  {
  }

  /** Reading a printed address gives it back, unless it is longer than the buffer (a single byte
      is always accepted); then the bytes that fit have been put out. */
  lemma {:induction false} MacRoundTrip(mac: seq<byte>, macmax: int, k: nat)
    requires mac != []
    ensures MacLoop(MacText(mac), macmax, k) ==
            if k + |mac| <= macmax || |mac| == 1 then MacResult(Good, mac)
            else MacResult(TooBig, mac[..if macmax - k < 1 then 1 else macmax - k])
    decreases |mac|
  {
    hide MacText, MacLoop, Digits, Scan;
    if |mac| == 1 {
      OneByte(mac, macmax, k);
    } else {
      MacTextFront(mac);
      MacRoundTrip(mac[1..], macmax, k + 1);
      FirstByte(mac[0], MacText(mac[1..]), macmax, k);
      FirstOf(mac, macmax - k);
    }
  }

  lemma OneByte(mac: seq<byte>, macmax: int, k: nat)
    requires |mac| == 1
    ensures MacLoop(MacText(mac), macmax, k) == MacResult(Good, mac)
  {
    assert mac == [mac[0]];
    ScanDigits(Digits(mac[0]));
  }

  /** The first byte and the beginning of the others. */
  lemma FirstOf(mac: seq<byte>, room: int)
    requires |mac| > 1
    ensures mac == [mac[0]] + mac[1..] && mac[..1] == [mac[0]]
    ensures 1 < room < |mac| ==> mac[..room] == [mac[0]] + mac[1..][..room - 1]
  {
  }

  lemma FirstByte(b: byte, rest: seq<byte>, macmax: int, k: nat)
    ensures MacLoop(Digits(b) + ([COLON] + rest), macmax, k) ==
            if k + 1 >= macmax then MacResult(TooBig, [b]) else MacBehind([b], MacLoop(rest, macmax, k + 1))
  {
    var t := Digits(b) + ([COLON] + rest);
    assert t[0] == Digits(b)[0] && t[1] == Digits(b)[1] && t[3..] == rest;
    ScanDigits(t);
    hide Scan, Digits;
  }

  function Capitals(t: seq<byte>): (r: seq<byte>)
    ensures |r| == |t| && forall i :: 0 <= i < |t| ==> r[i] == Capital(t[i])
  {
    seq(|t|, i requires 0 <= i < |t| => Capital(t[i]))
  }

  lemma ScanExact(t: seq<byte>)
    requires Scan(t).count == 2 && forall c <- t :: !IsSpace(c)
    ensures |t| >= 2 && IsHex(t[0]) && IsHex(t[1])
  {
    assert t[0] in t;
    assert SkipSpace(t) == t;
    if |t| > 1 { assert t[1] in t && SkipSpace(t[1..]) == t[1..]; }
  }

  /** The first round of a parse that succeeds. */
  lemma GoodStep(t: seq<byte>, macmax: int, k: nat)
    requires MacLoop(t, macmax, k).status == Good && forall c <- t :: !IsSpace(c)
    ensures |t| >= 2 && IsHex(t[0]) && IsHex(t[1])
    ensures |t| == 2 ==> MacLoop(t, macmax, k).bytes == [Join(Value(t[0]), Value(t[1]))]
    ensures |t| > 2 ==> && t[2] == COLON && MacLoop(t[3..], macmax, k + 1).status == Good
                        && MacLoop(t, macmax, k).bytes == [Join(Value(t[0]), Value(t[1]))] + MacLoop(t[3..], macmax, k + 1).bytes
  {
    ScanExact(t);
    ScanDigits(t);
    hide Scan, IsSpace;
  }

  /** Printing an address that was read from text without white space gives the text in capitals,
      so every such text has the printed form. */
  lemma {:induction false} MacPrintsBack(t: seq<byte>, macmax: int, k: nat)
    requires MacLoop(t, macmax, k).status == Good && forall c <- t :: !IsSpace(c)
    ensures MacLoop(t, macmax, k).bytes != [] && MacText(MacLoop(t, macmax, k).bytes) == Capitals(t)
    decreases |t|
  {
    GoodStep(t, macmax, k);
    DigitsOfJoin(t[0], t[1]);
    if |t| > 2 {
      MacPrintsBack(t[3..], macmax, k + 1);
      hide MacLoop, MacText, Digits, Value, IsHex, Join, Capital;
      var mac, more := MacLoop(t, macmax, k).bytes, MacLoop(t[3..], macmax, k + 1).bytes;
      assert mac[1..] == more && mac[0] == Join(Value(t[0]), Value(t[1]));
      MacTextFront(mac);
      CapitalsFront(t);
    } else {
      assert Capitals(t) == [Capital(t[0]), Capital(t[1])];
    }
  }

  lemma CapitalsFront(t: seq<byte>)
    requires |t| > 2 && t[2] == COLON
    ensures Capitals(t) == [Capital(t[0]), Capital(t[1])] + ([COLON] + Capitals(t[3..]))
  {
  }
}
