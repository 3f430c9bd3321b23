/** Showing a network name as text and reading it back: `iw_essid_escape` and `iw_essid_unescape`
    of `iwlib.c`. */
module Essid {
  import opened Basics
  import opened Hex

  const BACKSLASH: byte := 92
  const LETTER_X: byte := 120

  /** The text begins with something that reads as an escape sequence, `\xHH`. */
  predicate Literal(t: seq<byte>) {
    |t| >= 4 && t[0] == BACKSLASH && t[1] == LETTER_X && IsHex(t[2]) && IsHex(t[3])
  }

  /** The first byte has to be written as an escape sequence: it is not printable ASCII, or it
      begins a literal sequence that does not end the name. */
  predicate Escaped(s: seq<byte>)
    requires s != []
  {
    (|s| > 4 && Literal(s)) || s[0] >= 128 || s[0] < 32 || s[0] == 127
  }

  function Unit(s: seq<byte>): seq<byte>
    requires s != []
  {
    if Escaped(s) then [BACKSLASH, LETTER_X] + Digits(s[0]) else [s[0]]
  }

  function Escape(s: seq<byte>): seq<byte> {
    if s == [] then [] else Unit(s) + Escape(s[1..])
  }

  function Unescape(t: seq<byte>): (s: seq<byte>)
    ensures |s| <= |t|
  {
    if t == [] then []
    else if Literal(t) then [Join(Value(t[2]), Value(t[3]))] + Unescape(t[4..])
    else [t[0]] + Unescape(t[1..])
  }

  /** The name ends in a literal escape sequence. */
  predicate EndsInLiteral(s: seq<byte>) {
    |s| >= 4 && Literal(s[|s| - 4..])
  }

  /** What comes back of a name. */
  function ReadBack(s: seq<byte>): seq<byte> {
    if EndsInLiteral(s) then s[..|s| - 4] + [Join(Value(s[|s| - 2]), Value(s[|s| - 1]))] else s
  }

  // ------------------------------------------------------------------ escape

  /** A literal escape sequence that is not the end of the name begins at i. */
  ghost predicate LiteralInside(s: seq<byte>, i: nat) {
    i + 4 < |s| && s[i] == 92 && s[i + 1] == 120 && IsHex(s[i + 2]) && IsHex(s[i + 3])
  }

  /** Which bytes are escaped, and how: one by one from the left, control characters and those outside
      ASCII, and a backslash that begins a literal sequence inside the name. */
  lemma EscapeUnits(s: seq<byte>)
    requires s != []
    ensures var b := s[0];
            Escape(s) == (if b < 32 || b > 126 || LiteralInside(s, 0) then [92, 120, Digit(b / 16), Digit(b % 16)] else [b]) + Escape(s[1..])
  {
  }

  /** A name is shown as it is exactly when it is printable ASCII without a literal sequence inside. */
  lemma {:induction false} ShownAsIs(s: seq<byte>)
    ensures Escape(s) == s <==> AsItIs(s)
  {
    if s != [] {
      var b, rest := s[0], s[1..];
      ShownAsIs(rest);
      EscapeClean(rest);
      EscapeUnits(s);
      AsItIsStep(s);
      hide Escape, AsItIs;
      assert s == [b] + rest;
      if b < 32 || b > 126 || LiteralInside(s, 0) {
        assert |Escape(s)| == 4 + |Escape(rest)|;
      } else {
        assert ([b] + Escape(rest))[1..] == Escape(rest);
      }
    }
  }

  /** Printable ASCII without a literal sequence inside. */
  ghost predicate AsItIs(s: seq<byte>) {
    (forall c <- s :: 32 <= c <= 126) && forall i: nat :: !LiteralInside(s, i)
  }

  lemma AsItIsStep(s: seq<byte>)
    requires s != []
    ensures AsItIs(s) <==> 32 <= s[0] <= 126 && !LiteralInside(s, 0) && AsItIs(s[1..])
  {
    var rest := s[1..];
    assert s == [s[0]] + rest;
    assert s[0] in s && (forall c <- rest :: c in s) && forall c <- s :: c == s[0] || c in rest;
    if AsItIs(s) {
      forall i: nat ensures !LiteralInside(rest, i) { assert !LiteralInside(s, i + 1); }
    } else if AsItIs(rest) && 32 <= s[0] <= 126 {
      var i: nat :| LiteralInside(s, i);
      assert i > 0 ==> LiteralInside(rest, i - 1);
    }
  }

  /** The text is printable ASCII, so it has no NUL; at most four characters per byte of the name. */
  lemma {:induction false} EscapeClean(s: seq<byte>)
    ensures forall c <- Escape(s) :: 32 <= c < 127
    ensures |s| <= |Escape(s)| <= 4 * |s|
  {
    if s != [] { EscapeClean(s[1..]); }
  }

  /** Where the text goes on with a character that no escape begins with, so does the name. */
  lemma PlainNext(s: seq<byte>)
    requires Escape(s) != [] && Escape(s)[0] != BACKSLASH
    ensures s != [] && s[0] == Escape(s)[0] && Escape(s)[1..] == Escape(s[1..])
  {
  }

  /** A backslash that is not escaped stands before a literal sequence only at the end. */
  lemma PlainBackslash(s: seq<byte>)
    requires s != [] && !Escaped(s) && Literal(Escape(s))
    ensures |s| == 4 && Literal(s) && Escape(s) == s
  {
    PlainNext(s[1..]);
    PlainNext(s[1..][1..]);
    PlainNext(s[1..][1..][1..]);
    AsItStands(s);
  }

  lemma AsItStands(s: seq<byte>)
    requires |s| == 4 && Literal(s)
    ensures IsHex(s[2]) && IsHex(s[3]) && Escape(s) == s && Unescape(s) == [Join(Value(s[2]), Value(s[3]))]
  {
    assert Escape(s[3..]) == s[3..];
    assert Escape(s[2..]) == s[2..] by { assert s[2..][1..] == s[3..]; }
    assert Escape(s[1..]) == s[1..] by { assert s[1..][1..] == s[2..]; }
    assert Escape(s) == s;
  }

  // ------------------------------------------------------------------ round trip

  lemma TakeEscape(b: byte, rest: seq<byte>)
    ensures Unescape([BACKSLASH, LETTER_X] + Digits(b) + rest) == [b] + Unescape(rest)
  {
    var t := [BACKSLASH, LETTER_X] + Digits(b) + rest;
    assert t[4..] == rest && t[2..4] == Digits(b);
  }

  lemma TakePlain(b: byte, rest: seq<byte>)
    requires !Literal([b] + rest)
    ensures Unescape([b] + rest) == [b] + Unescape(rest)
  {
    assert ([b] + rest)[1..] == rest;
  }

  lemma EscapeStep(s: seq<byte>)
    requires s != []
    ensures Escape(s) == if Escaped(s) then [BACKSLASH, LETTER_X] + Digits(s[0]) + Escape(s[1..])
                         else [s[0]] + Escape(s[1..])
  {
  }

  /** What unescaping the escaped name gives back, for every name. */
  lemma {:induction false} RoundTrip(s: seq<byte>)
    ensures Unescape(Escape(s)) == ReadBack(s)
  {
    hide Escape, Unescape, Literal, Escaped, ReadBack;
    if s == [] {
      NothingToEscape();
    } else if !Escaped(s) && Literal(Escape(s)) {
      PlainBackslash(s);
      AsItStands(s);
      LiteralReadBack(s);
    } else {
      RoundTripStep(s);
      RoundTrip(s[1..]);
      ReadBackStep(s);
    }
  }

  lemma NothingToEscape()
    ensures Unescape(Escape([])) == ReadBack([])
  {
  }

  lemma LiteralReadBack(s: seq<byte>)
    requires |s| == 4 && Literal(s)
    ensures ReadBack(s) == [Join(Value(s[2]), Value(s[3]))]
  {
    assert s[0..] == s && s[..0] == [];
  }

  lemma RoundTripStep(s: seq<byte>)
    requires s != [] && (Escaped(s) || !Literal(Escape(s)))
    ensures Unescape(Escape(s)) == [s[0]] + Unescape(Escape(s[1..])) && !(|s| == 4 && Literal(s))
  {
    EscapeStep(s);
    if Escaped(s) { TakeEscape(s[0], Escape(s[1..])); }
    else {
      NotAllLiteral(s);
      TakePlain(s[0], Escape(s[1..]));
    }
  }

  /** A name of four bytes that is a literal sequence is its own escaped text. */
  lemma NotAllLiteral(s: seq<byte>)
    requires s != [] && !Literal(Escape(s))
    ensures !(|s| == 4 && Literal(s))
  {
    if |s| == 4 && Literal(s) { AsItStands(s); }
  }

  lemma ReadBackStep(s: seq<byte>)
    requires s != [] && !(|s| == 4 && Literal(s))
    ensures ReadBack(s) == [s[0]] + ReadBack(s[1..])
  {
    if |s| > 4 {
      assert s[1..][|s| - 5..] == s[|s| - 4..];
    } else if |s| == 4 {
      assert s[|s| - 4..] == s;
    }
  }

  /** Unescaping undoes escaping exactly for the names that do not end in a literal sequence. */
  lemma RoundTripIff(s: seq<byte>)
    ensures Unescape(Escape(s)) == s <==> !EndsInLiteral(s)
    ensures |Unescape(Escape(s))| == |s| <==> !EndsInLiteral(s)
  {
    RoundTrip(s);
  }

  /** Text without a backslash is copied as it is. */
  lemma {:induction false} PlainBlock(a: seq<byte>, b: seq<byte>)
    requires BACKSLASH !in a
    ensures Unescape(a + b) == a + Unescape(b)
  {
    if a == [] {
      assert a + b == b;
    } else {
      PlainBlock(a[1..], b);
      assert (a + b)[1..] == a[1..] + b && a[0] in a;
    }
  }

  lemma PlainRest(a: seq<byte>)
    requires BACKSLASH !in a
    ensures Unescape(a) == a
  {
    PlainBlock(a, []);
    assert a + [] == a;
  }

  // ------------------------------------------------------------------ iw_essid_escape

  /** `sprintf` of an escape sequence; it ends with a NUL. */
  method PrintEscape(dest: array<byte>, d: nat, b: byte)
    requires d + 4 < dest.Length
    modifies dest
    ensures dest[..d + 4] == old(dest[..d]) + ([BACKSLASH, LETTER_X] + Digits(b)) && dest[d + 4] == 0
  {
    var t := Digits(b);
    dest[d], dest[d + 1], dest[d + 2], dest[d + 3], dest[d + 4] := BACKSLASH, LETTER_X, t[0], t[1], 0;
  }

  /** The body of the loop: what the text gains for one byte of the name. */
  method EscapeRound(dest: array<byte>, d: nat, src: seq<byte>, s: nat) returns (d': nat)
    requires s < |src| && d + 4 < dest.Length
    modifies dest
    ensures d < d' <= d + 4 && dest[..d'] == old(dest[..d]) + Unit(src[s..])
  {
    var isescape := src[s] == BACKSLASH && |src| - s > 4 && src[s + 1] == LETTER_X &&
                    IsHex(src[s + 2]) && IsHex(src[s + 3]);
    if isescape || src[s] >= 128 || src[s] < 32 || src[s] == 127 {
      PrintEscape(dest, d, src[s]);
      d' := d + 4;
    } else {
      dest[d] := src[s];
      d' := d + 1;
    }
  }

  method EssidEscape(dest: array<byte>, src: seq<byte>)
    requires dest.Length > 4 * |src|
    modifies dest
    ensures |Escape(src)| < dest.Length && dest[..|Escape(src)|] == Escape(src)
    ensures dest[|Escape(src)|] == 0
  {
    hide Unit;
    var s, d := 0, 0;
    while s < |src|
      invariant 0 <= s <= |src| && 0 <= d <= 4 * s
      invariant dest[..d] + Escape(src[s..]) == Escape(src)
    {
      assert src[s..][1..] == src[s + 1..];
      d := EscapeRound(dest, d, src, s);
      s := s + 1;
    }
    dest[d] := 0;
  }

  // ------------------------------------------------------------------ iw_essid_unescape

  /** `strchr` for a backslash, from a place inside the string: the first one, or the end. */
  method NextBackslash(src: array<byte>, s: nat, n: nat) returns (p: nat)
    requires s <= n < src.Length
    ensures s <= p <= n && BACKSLASH !in src[s..p] && (p < n ==> src[p] == BACKSLASH)
  {
    p := s;
    while p < n && src[p] != BACKSLASH
      invariant s <= p <= n && BACKSLASH !in src[s..p]
    {
      p := p + 1;
    }
  }

  /** `memcpy`, byte by byte from the front, within one buffer only towards its beginning. */
  method Move(dest: array<byte>, d: nat, src: array<byte>, s: nat, len: nat)
    requires d + len <= dest.Length && s + len <= src.Length && (dest == src ==> d <= s)
    modifies dest
    ensures dest[..d + len] == old(dest[..d]) + old(src[s..s + len])
    ensures forall k :: s + len <= k < src.Length ==> src[k] == old(src[k])
  {
    var k := 0;
    while k < len
      invariant 0 <= k <= len
      invariant dest[..d + k] == old(dest[..d]) + old(src[s..s + k])
      invariant forall j :: s + k <= j < src.Length ==> src[j] == old(src[j])
    {
      dest[d + k] := src[s + k];
      k := k + 1;
    }
  }

  /** What the text at p stands for, and where reading goes on. */
  function ByteRead(text: seq<byte>, p: nat): byte
    requires p < |text|
  {
    if Literal(text[p..]) then Join(Value(text[p + 2]), Value(text[p + 3])) else text[p]
  }

  function Behind(text: seq<byte>, p: nat): (s: nat)
    requires p < |text|
    ensures p < s <= |text|
  {
    if Literal(text[p..]) then p + 4 else p + 1
  }

  /** One round of the loop on the text: the block before the backslash, then what it stands for. */
  lemma Round(text: seq<byte>, s: nat, p: nat)
    requires s <= p < |text| && text[p] == BACKSLASH && BACKSLASH !in text[s..p]
    ensures Unescape(text[s..]) == text[s..p] + [ByteRead(text, p)] + Unescape(text[Behind(text, p)..])
  {
    PlainBlock(text[s..p], text[p..]);
    assert text[s..] == text[s..p] + text[p..];
    if Literal(text[p..]) { assert text[p..][4..] == text[p + 4..]; } else { assert text[p..][1..] == text[p + 1..]; }
  }

  /** The source is a NUL-terminated string of n characters; source and destination may be the
      same buffer. */
  method EssidUnescape(dest: array<byte>, src: array<byte>, n: nat) returns (len: nat)
    requires n < src.Length && src[n] == 0 && 0 !in src[..n] && n < dest.Length
    modifies dest
    ensures len == |Unescape(old(src[..n]))| && len < dest.Length
    ensures dest[..len] == Unescape(old(src[..n])) && dest[len] == 0
  {
    hide Unescape;
    ghost var text := src[..n];
    var s, d := 0, 0;
    assert text[0..] == text;
    var p := NextBackslash(src, s, n);
    while p < n
      invariant 0 <= d <= s <= p <= n && BACKSLASH !in src[s..p] && (p < n ==> src[p] == BACKSLASH)
      invariant Ahead(src, s, text)
      invariant dest[..d] + Unescape(text[s..]) == Unescape(text)
      decreases n - s
    {
      s, d := UnescapeRound(dest, d, src, s, p, text);
      p := NextBackslash(src, s, n);
    }
    len := CopyRest(dest, d, src, s, n, text);
  }

  /** Copies the rest of the string, with its NUL. */
  method CopyRest(dest: array<byte>, d: nat, src: array<byte>, s: nat, n: nat, ghost text: seq<byte>)
    returns (len: nat)
    requires d <= s <= n == |text| < dest.Length && Ahead(src, s, text) && BACKSLASH !in src[s..n]
    modifies dest
    ensures len < dest.Length && dest[len] == 0
    ensures dest[..len] == old(dest[..d]) + Unescape(text[s..])
  {
    hide Unescape;
    assert src[s..n] == text[s..];
    PlainRest(text[s..]);
    ghost var was := src[s..n + 1];
    Move(dest, d, src, s, n - s + 1);
    len := d + n - s;
    assert was[..n - s] == text[s..];
    assert dest[len] == dest[..len + 1][len] == was[n - s];
  }

  /** What is still to be read of the source stands there unchanged, ended by a NUL. */
  ghost predicate Ahead(src: array<byte>, s: nat, text: seq<byte>)
    reads src
  {
    s <= |text| < src.Length && src[|text|] == 0 && forall k :: s <= k < |text| ==> src[k] == text[k] != 0
  }

  /** The body of the loop. */
  method UnescapeRound(dest: array<byte>, d: nat, src: array<byte>, s: nat, p: nat, ghost text: seq<byte>)
    returns (s': nat, d': nat)
    requires d <= s <= p < |text| < dest.Length && Ahead(src, s, text)
    requires src[p] == BACKSLASH && BACKSLASH !in src[s..p]
    modifies dest
    ensures s < s' <= |text| && d' <= s' && Ahead(src, s', text)
    ensures dest[..d'] + Unescape(text[s'..]) == old(dest[..d]) + Unescape(text[s..])
  {
    hide Unescape, ByteRead, Behind;
    assert src[s..p] == text[s..p];
    Round(text, s, p);
    ghost var done := dest[..d];
    Move(dest, d, src, s, p - s);
    assert Ahead(src, p, text) && dest[..d + (p - s)] == done + text[s..p];
    s', d' := UnescapeOne(dest, d + (p - s), src, p, text);
  }

  /** The backslash at p: a sequence is replaced by the byte it stands for, any other is copied. */
  method UnescapeOne(dest: array<byte>, d: nat, src: array<byte>, p: nat, ghost text: seq<byte>)
    returns (s': nat, d': nat)
    requires d <= p < |text| < dest.Length && Ahead(src, p, text) && src[p] == BACKSLASH
    modifies dest
    ensures d' == d + 1 && s' == Behind(text, p) && Ahead(src, s', text)
    ensures dest[..d'] == old(dest[..d]) + [ByteRead(text, p)]
  {
    if src[p + 1] == LETTER_X && IsHex(src[p + 2]) && IsHex(src[p + 3]) {
      dest[d] := Join(Value(src[p + 2]), Value(src[p + 3]));
      d', s' := d + 1, p + 4;
    } else {
      dest[d] := src[p];
      d', s' := d + 1, p + 1;
    }
  }
}
