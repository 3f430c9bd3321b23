/** The cursor over a stream of wireless events: `iw_init_event_stream`, `iw_extract_event_stream`
    and the loop over it in `iw_process_scan` of `iwlib.c` (little-endian LP64). Offsets count from
    the beginning of the stream. */
module EventStream {
  import opened Basics

  const LCP: nat := 4   // IW_EV_LCP_PK_LEN: the length and the command of an event

  // ------------------------------------------------------------------ event tables

  /** IW_HEADER_TYPE_* */
  datatype Header = NullType | CharType | UintType | FreqType | AddrType | PointType | ParamType | QualType

  /** standard_ioctl_descr, by index; entries the table does not name are of type NULL. */
  function IoctlHeader(i: nat): Header {
    if i == 0x01 then CharType
    else if i in {0x02, 0x03, 0x08, 0x09, 0x2C, 0x2D, 0x2E, 0x2F, 0x32, 0x33} || 0x20 <= i <= 0x29 then ParamType
    else if i in {0x04, 0x05} then FreqType
    else if i in {0x06, 0x07} then UintType
    else if i in {0x14, 0x15} then AddrType
    else if i in {0x0B, 0x2A, 0x2B, 0x30, 0x31, 0x34, 0x35, 0x36} || 0x10 <= i <= 0x13 || 0x16 <= i <= 0x1D then PointType
    else NullType
  }

  /** standard_event_descr, by index. */
  function EventHeader(i: nat): Header {
    if i in {0x00, 0x03, 0x04} then AddrType
    else if i == 0x01 then QualType
    else if i == 0x02 || 0x05 <= i <= 0x09 then PointType
    else NullType
  }

  /** The type of a command between SIOCIWFIRST and SIOCIWLAST, or from IWEVFIRST on. */
  function HeaderOf(cmd: nat): Header {
    if cmd <= 0x8BFF then (if 0x8B00 <= cmd then IoctlHeader(cmd - 0x8B00) else NullType)
    else if 0x8C00 <= cmd then EventHeader(cmd - 0x8C00) else NullType
  }

  /** token_size, min_tokens, max_tokens, and whether IW_DESCR_FLAG_NOMAX is not set. */
  datatype Tokens = Tokens(size: nat, least: nat, most: nat, bounded: bool)

  /** The entries of type POINT of standard_ioctl_descr. */
  function IoctlTokens(i: nat): (t: Tokens)
    ensures t.size <= 28
  {
    if i == 0x0B then Tokens(1, 0, 588, true)               // struct iw_range
    else if i == 0x10 then Tokens(16, 0, 8, true)
    else if i == 0x11 then Tokens(20, 0, 8, true)
    else if i in {0x12, 0x13} then Tokens(28, 1, 1, true)   // struct iw_thrspy
    else if i == 0x16 then Tokens(1, 20, 20, true)          // struct iw_mlme
    else if i == 0x17 then Tokens(20, 0, 64, false)
    else if i == 0x18 then Tokens(1, 0, 316, true)          // struct iw_scan_req
    else if i == 0x19 then Tokens(1, 0, 4096, false)
    else if 0x1A <= i <= 0x1D then Tokens(1, 0, 33, true)
    else if i in {0x2A, 0x2B} then Tokens(0, 0, 64, true)
    else if i in {0x30, 0x31} then Tokens(1, 0, 1024, true)
    else if i in {0x34, 0x35} then Tokens(1, 40, 104, true) // struct iw_encode_ext
    else if i == 0x36 then Tokens(1, 36, 36, true)          // struct iw_pmksa
    else Tokens(0, 0, 0, true)
  }

  /** The entries of type POINT of standard_event_descr. */
  function EventTokens(i: nat): (t: Tokens)
    ensures t.size <= 28
  {
    if i == 0x02 then Tokens(1, 0, 256, true)
    else if i in {0x05, 0x07, 0x08} then Tokens(1, 0, 1024, true)
    else if i == 0x06 then Tokens(1, 0, 28, true)           // struct iw_michaelmicfailure
    else if i == 0x09 then Tokens(1, 0, 24, true)           // struct iw_pmkid_cand
    else Tokens(0, 0, 0, true)
  }

  function TokensOf(cmd: nat): (t: Tokens)
    ensures t.size <= 28
  {
    if cmd > 0x8BFF then EventTokens(cmd - 0x8C00) else IoctlTokens(if cmd < 0x8B00 then 0 else cmd - 0x8B00)
  }

  /** The bytes of one value behind the event's length and command; 0 for an event to be skipped. */
  function ValueSize(h: Header, weVersion: int): (n: nat)
    ensures n in {0, 4, 8, 12, 16}
    ensures n == 0 <==> h.NullType?
  {
    match h
    case NullType => 0
    case CharType => 16
    case UintType => 4
    case FreqType => 8
    case AddrType => 16
    case PointType => if weVersion <= 18 then 12 else 4
    case ParamType => 8
    case QualType => 4
  }

  // ------------------------------------------------------------------ one extraction

  /** stream->current and stream->value. */
  datatype Cursor = Cursor(current: nat, value: Option<nat>)

  /** u.data of a point event whose pointer is not NULL: so many tokens at `at`. */
  datatype Chunk = Chunk(at: nat, tokens: nat)

  /** What a positive return hands out: an event skipped whole, an event with a variable payload (None
      when its pointer is NULL), or one value of an event (`at` is where it was copied from). */
  datatype Item =
    | Skipped(event: nat)
    | Payload(event: nat, data: Option<Chunk>)
    | Value(event: nat, at: nat, size: nat)

  type four = s: seq<byte> | |s| == 4 witness [0, 0, 0, 0]

  /** The version of the wireless extensions, and the four bytes that happen to lie behind the stream:
      the code looks at them when the fixed part of a point event ends with the stream. */
  datatype Setting = Setting(weVersion: int, behind: four)

  datatype Extracted = Extracted(ret: int, next: Cursor, item: Option<Item>)

  /** The 16-bit number at offset i. */
  function U16(m: seq<byte>, i: nat): (n: nat)
    requires i + 2 <= |m|
    ensures n < 0x1_0000
  {
    var low: int, high: int := m[i], m[i + 1];
    low + 256 * high
  }

  function Length(d: seq<byte>, o: nat): nat
    requires o + LCP <= |d|
  {
    U16(d, o)
  }

  function Command(d: seq<byte>, o: nat): nat
    requires o + LCP <= |d|
  {
    U16(d, o + 2)
  }

  function HeaderAt(d: seq<byte>, o: nat): Header
    requires o + LCP <= |d|
  {
    HeaderOf(Command(d, o))
  }

  // ------------------------------------------------------------------ the payload of a point event

  /** The bytes behind the fixed part of n bytes, an unsigned int: it wraps when there is no such part. */
  function Extra(len: nat, n: nat): (x: nat)
    ensures x < UINT
  {
    (len - (n + LCP)) % UINT
  }

  /** The tokens that the fixed part at p claims (in its last four bytes, with the flags) do not fill the
      event, and the two bytes behind the fixed part are looked at. */
  predicate Looks(d: seq<byte>, len: nat, p: nat, n: nat, size: nat)
    requires n in {4, 12} && p + n <= |d|
  {
    U16(d, p + n - 4) * size != Extra(len, n) && Extra(len, n) >= 4
  }

  /** These two bytes hold the number of tokens of an event with four bytes of alignment before and
      behind its fixed part. */
  predicate Padded(d: seq<byte>, len: nat, p: nat, env: Setting, n: nat, size: nat)
    requires n in {4, 12} && p + n <= |d|
  {
    Looks(d, len, p, n, size) && U16(d + env.behind, p + n) * size + 8 == Extra(len, n)
  }

  /** The payload handed out with the point event at o, whose fixed part is at p. */
  function PayloadOf(d: seq<byte>, o: nat, p: nat, env: Setting): Option<Chunk>
    requires o + LCP <= |d| && p + ValueSize(PointType, env.weVersion) <= |d|
  {
    var n, t, len := ValueSize(PointType, env.weVersion), TokensOf(Command(d, o)), Length(d, o);
    var padded, extra := Padded(d, len, p, env, n, t.size), Extra(len, n);
    var tokens := U16(d + env.behind, if padded then p + 4 else p + n - 4);
    var size := if padded then extra - 8 else tokens * t.size;
    if extra == 0 || (padded && size == 0) || size > extra || (tokens > t.most && t.bounded) || tokens < t.least then None
    else Some(Chunk(if padded then p + n + 8 else p + n, tokens))
  }

  /** Four bytes of alignment stand before the first value: the length tells. */
  predicate Shifted(h: Header, len: nat, n: nat)
    requires n > 0 && len > LCP
  {
    (len - LCP) % n == 4 || (len == 12 && (h.UintType? || h.QualType?))
  }

  /** Where the next value is looked for. */
  function Position(c: Cursor): nat {
    if c.value.Some? then c.value.value else c.current + LCP
  }

  class Stream {
    const data: seq<byte>
    var current: nat
    var value: Option<nat>

    function State(): Cursor
      reads this
    {
      Cursor(current, value)
    }

    /** iw_init_event_stream */
    constructor (data: seq<byte>)
      ensures this.data == data && State() == Cursor(0, None)
    {
      this.data, current, value := data, 0, None;
    }

    /** The choice of `u.data.pointer` in iw_extract_event_stream, with `pointer` behind the fixed part of
        n bytes. */
    method Point(len: nat, n: nat, pointer: nat, env: Setting) returns (chunk: Option<Chunk>)
      requires current + LCP <= |data| && len == Length(data, current)
      requires n == ValueSize(PointType, env.weVersion) && n <= pointer <= |data|
      ensures chunk == PayloadOf(data, current, pointer - n, env)
    {
      var memory := data + env.behind;
      assert U16(memory, pointer - 4) == U16(data, pointer - 4);
      hide TokensOf, U16;
      var length := U16(data, pointer - 4);
      var extra_len := (len - (n + LCP)) % UINT;
      var descr := TokensOf(Command(data, current));
      chunk := None;
      if extra_len > 0 {
        chunk := Some(Chunk(pointer, length));
        var token_len := length * descr.size;
        if token_len != extra_len && extra_len >= 4 {
          var alt_token_len := U16(memory, pointer) * descr.size;
          if alt_token_len + 8 == extra_len {
            var moved := pointer - n + 4;
            length := U16(memory, moved);
            moved := moved + n + 4;
            token_len := alt_token_len;
            chunk := if alt_token_len != 0 then Some(Chunk(moved, length)) else None;
          }
        }
        if token_len > extra_len { chunk := None; }
        if length > descr.most && descr.bounded { chunk := None; }
        if length < descr.least { chunk := None; }
      }
    }

    /** iw_extract_event_stream: 1 for a value, 2 for an event that was skipped, 0 at the end, -1
        for an event that cannot be, -2 for a value that does not fit the stream. */
    method Extract(env: Setting) returns (ret: int, item: Option<Item>)
      modifies this
      ensures Extracted(ret, State(), item) == Next(data, old(State()), env)
    {
      item := None;
      if current + LCP > |data| { return 0, None; }
      var len := Length(data, current);
      if len <= LCP { return -1, None; }
      var h := HeaderAt(data, current);
      var n := ValueSize(h, env.weVersion);
      if n == 0 {
        item := Some(Skipped(current));
        current := current + len;
        return 2, item;
      }
      var pointer := if value.Some? then value.value else current + LCP;
      if pointer + n > |data| {
        current := current + len;
        return -2, None;
      }
      var at := pointer;
      pointer := pointer + n;
      if h.PointType? {
        var chunk := Point(len, n, pointer, env);
        item := Some(Payload(current, chunk));
        current := current + len;
      } else {
        if value.None? && Shifted(h, len, n) {
          pointer := pointer - n + 4;
          at := pointer;
          pointer := pointer + n;
        }
        item := Some(Value(current, at, n));
        if pointer + n <= current + len {
          value := Some(pointer);
        } else {
          value := None;
          current := current + len;
        }
      }
      ret := 1;
    }
  }

  /** The same as a function of the stream and its cursor. */
  function Next(d: seq<byte>, c: Cursor, env: Setting): Extracted {
    var o := c.current;
    if o + LCP > |d| then Extracted(0, c, None)
    else
      var len, h := Length(d, o), HeaderAt(d, o);
      var n := ValueSize(h, env.weVersion);
      var behind := o + len;
      if len <= LCP then Extracted(-1, c, None)
      else if n == 0 then Extracted(2, c.(current := behind), Some(Skipped(o)))
      else if Position(c) + n > |d| then Extracted(-2, c.(current := behind), None)
      else if h.PointType? then Extracted(1, c.(current := behind), Some(Payload(o, PayloadOf(d, o, Position(c), env))))
      else
        var at := if c.value.None? && Shifted(h, len, n) then o + LCP + 4 else Position(c);
        Extracted(1, if at + n + n <= behind then Cursor(o, Some(at + n)) else Cursor(behind, None), Some(Value(o, at, n)))
  }

  // ------------------------------------------------------------------ what every call keeps

  /** A value is pending only inside an event of fixed-size values, and it lies within the event. */
  ghost predicate Inv(d: seq<byte>, c: Cursor, env: Setting) {
    c.value.Some? ==>
      c.current + LCP <= |d| && Length(d, c.current) > LCP &&
      !HeaderAt(d, c.current).PointType? && !HeaderAt(d, c.current).NullType? &&
      c.current + LCP + ValueSize(HeaderAt(d, c.current), env.weVersion) <= c.value.value &&
      c.value.value + ValueSize(HeaderAt(d, c.current), env.weVersion) <= c.current + Length(d, c.current)
  }

  /** Every positive return keeps the invariant, and moves the position on by at least 4 bytes from
      a place that is still inside the stream. */
  lemma Advances(d: seq<byte>, c: Cursor, env: Setting)
    requires Inv(d, c, env) && Next(d, c, env).ret > 0
    ensures Inv(d, Next(d, c, env).next, env) && Next(d, c, env).item.Some?
    ensures Position(c) <= |d| && Position(c) + 4 <= Position(Next(d, c, env).next)
    ensures var next := Next(d, c, env).next;
            next.current > c.current + LCP ||
            (next.current == c.current && next.value.Some? && Position(next) > Position(c))
  {
  }

  /** Items and, after them, the rest of a run. */
  function Then(items: seq<Item>, more: (seq<Item>, int)): (seq<Item>, int) {
    (items + more.0, more.1)
  }

  lemma ThenThen(a: seq<Item>, b: seq<Item>, more: (seq<Item>, int))
    ensures Then(a, Then(b, more)) == Then(a + b, more) && Then([], more) == more
  {
    assert a + (b + more.0) == a + b + more.0 && [] + more.0 == more.0;
  }

  /** The items of all positive returns up to the first other one, which is returned too. */
  function Run(d: seq<byte>, c: Cursor, env: Setting): (r: (seq<Item>, int))
    requires Inv(d, c, env)
    decreases |d| + 4 - Position(c)
  {
    var x := Next(d, c, env);
    if x.ret <= 0 then ([], x.ret)
    else
      Advances(d, c, env);
      Then([x.item.value], Run(d, x.next, env))
  }

  /** The number of positive returns is bounded by the length of the stream. */
  lemma {:induction false} RunBounded(d: seq<byte>, c: Cursor, env: Setting)
    requires Inv(d, c, env)
    ensures |Run(d, c, env).0| == 0 || Position(c) + 4 * (|Run(d, c, env).0| - 1) <= |d|
    ensures Run(d, c, env).1 in {0, -1, -2}
    decreases |d| + 4 - Position(c)
  {
    if Next(d, c, env).ret > 0 {
      Advances(d, c, env);
      RunBounded(d, Next(d, c, env).next, env);
    }
  }

  /** The loop of iw_process_scan: extract until something other than a positive value is returned. */
  method Drain(data: seq<byte>, env: Setting) returns (items: seq<Item>, ret: int)
    ensures (items, ret) == Events(data, 0, env)
    ensures 4 * |items| <= |data|
    ensures ret in {0, -1, -2}
  {
    var stream := new Stream(data);
    RunIsEvents(data, 0, env);
    BetweenEvents(data, 0, env);
    RunBounded(data, Cursor(0, None), env);
    ghost var all := Run(data, Cursor(0, None), env);
    ThenThen([], [], all);
    assert all.1 in {0, -1, -2} && (|all.0| == 0 || 4 + 4 * (|all.0| - 1) <= |data|);
    hide Next, Events, Run, Then, Inv, Position;
    items, ret := [], 1;
    while ret > 0
      invariant stream.data == data && fresh(stream)
      invariant ret > 0 ==> Inv(data, stream.State(), env) && Then(items, Run(data, stream.State(), env)) == all
      invariant ret <= 0 ==> (items, ret) == all
      decreases ret > 0, |data| + 8 - Position(stream.State())
    {
      ghost var before := stream.State();
      RunStep(data, before, env);
      if Next(data, before, env).ret > 0 { Advances(data, before, env); }
      var item;
      ret, item := stream.Extract(env);
      if ret > 0 {
        ThenThen(items, [item.value], Run(data, stream.State(), env));
        items := items + [item.value];
      } else {
        ThenEnd(items, ret);
      }
    }
  }

  lemma ThenEnd(items: seq<Item>, ret: int)
    ensures Then(items, ([], ret)) == (items, ret)
  {
    assert items + [] == items;
  }

  // ------------------------------------------------------------------ what a stream stands for

  /** Where value k of an event begins whose first value is at s. */
  function At(s: nat, n: nat, k: nat): nat {
    s + k * n
  }

  /** Values k to m - 1 of the event at o, one behind the other from s on. */
  function Slots(o: nat, s: nat, n: nat, k: nat, m: nat): (r: seq<Item>)
    requires k <= m
    ensures |r| == m - k
  {
    seq(m - k, j requires 0 <= j < m - k => Value(o, At(s, n, k + j), n))
  }

  /** Where the first value of an event begins. */
  function First(o: nat, h: Header, len: nat, n: nat): nat
    requires n > 0 && len > LCP
  {
    o + LCP + if Shifted(h, len, n) then 4 else 0
  }

  /** How many values of n bytes there are from s to the given end; the first is always taken. */
  function Count(s: nat, end: nat, n: nat): (m: nat)
    requires n > 0
    ensures m >= 1
  {
    if end < s + n then 1 else (end - s) / n
  }

  /** The items of the events from offset o on, event by event: as many values as the event's length
      has room for. It ends with 0 at the end of the stream, with -1 at an event that is too short
      to be one, with -2 where no further value fits the stream; for the first value of an event that
      test is made before the shift. */
  function Events(d: seq<byte>, o: nat, env: Setting): (r: (seq<Item>, int))
    decreases |d| - o
  {
    if o + LCP > |d| then ([], 0)
    else
      var len, h := Length(d, o), HeaderAt(d, o);
      var n := ValueSize(h, env.weVersion);
      if len <= LCP then ([], -1)
      else
        var more := Events(d, o + len, env);
        if n == 0 then Then([Skipped(o)], more)
        else if o + LCP + n > |d| then ([], -2)
        else if h.PointType? then Then([Payload(o, PayloadOf(d, o, o + LCP, env))], more)
        else
          var s := First(o, h, len, n);
          var m, fit := Count(s, o + len, n), Count(s, |d|, n);
          if m <= fit then Then(Slots(o, s, n, 0, m), more) else (Slots(o, s, n, 0, fit), -2)
  }

  /** Value k (not the first) lies before the end exactly when it is among those counted. */
  lemma CountTells(s: nat, end: nat, n: nat, k: nat)
    requires n in {4, 8, 12, 16} && k >= 1
    ensures k < Count(s, end, n) <==> s + k * n + n <= end
    ensures k * n >= n && (k + 1) * n == k * n + n
  {
    if n == 4 {} else if n == 8 {} else if n == 12 {} else {}
  }

  lemma SlotsStep(o: nat, s: nat, n: nat, k: nat, m: nat)
    requires k < m
    ensures Slots(o, s, n, k, m) == [Value(o, At(s, n, k), n)] + Slots(o, s, n, k + 1, m)
  {
  }

  /** The numbers of an event of fixed-size values. */
  ghost predicate Fixed(d: seq<byte>, o: nat, env: Setting, len: nat, n: nat, s: nat) {
    o + LCP <= |d| && len == Length(d, o) > LCP && n == ValueSize(HeaderAt(d, o), env.weVersion) > 0 &&
    !HeaderAt(d, o).PointType? && s == First(o, HeaderAt(d, o), len, n)
  }

  /** What a call does with value k of such an event. */
  lemma NextValue(d: seq<byte>, o: nat, env: Setting, len: nat, n: nat, s: nat, k: nat)
    requires n > 0 && Fixed(d, o, env, len, n, s) && 1 <= k < Count(s, o + len, n)
    ensures var c := Cursor(o, Some(At(s, n, k)));
            Inv(d, c, env) &&
            Next(d, c, env) ==
            if k >= Count(s, |d|, n) then Extracted(-2, Cursor(o + len, c.value), None)
            else if k + 1 < Count(s, o + len, n) then
              Extracted(1, Cursor(o, Some(At(s, n, k + 1))), Some(Value(o, At(s, n, k), n)))
            else Extracted(1, Cursor(o + len, None), Some(Value(o, At(s, n, k), n)))
  {
    CountTells(s, o + len, n, k);
    CountTells(s, o + len, n, k + 1);
    CountTells(s, |d|, n, k);
  }

  /** The run inside an event, from its value k on. */
  lemma {:induction false} RunInEvent(d: seq<byte>, o: nat, env: Setting, len: nat, n: nat, s: nat, k: nat)
    requires n > 0 && Fixed(d, o, env, len, n, s) && 1 <= k < Count(s, o + len, n) && k <= Count(s, |d|, n)
    ensures Inv(d, Cursor(o, Some(At(s, n, k))), env)
    ensures var m, fit := Count(s, o + len, n), Count(s, |d|, n);
            var more := Run(d, Cursor(o + len, None), env);
            Run(d, Cursor(o, Some(At(s, n, k))), env) ==
            if m <= fit then Then(Slots(o, s, n, k, m), more) else (Slots(o, s, n, k, fit), -2)
    decreases Count(s, o + len, n) - k
  {
    BetweenEvents(d, o + len, env);
    hide Next, Inv, Fixed, Count, Run, Slots, At, Then;
    var m, fit := Count(s, o + len, n), Count(s, |d|, n);
    NextValue(d, o, env, len, n, s, k);
    RunStep(d, Cursor(o, Some(At(s, n, k))), env);
    if k < fit {
      var v, more := [Value(o, At(s, n, k), n)], Run(d, Cursor(o + len, None), env);
      if k + 1 < m {
        RunInEvent(d, o, env, len, n, s, k + 1);
        if m > fit { AddSlot(o, s, n, k, fit, ([], -2)); }
      }
      if m <= fit { AddSlot(o, s, n, k, m, more); }
    } else {
      assert Slots(o, s, n, k, fit) == [];
    }
  }

  /** One value more in front of the others. */
  lemma AddSlot(o: nat, s: nat, n: nat, k: nat, m: nat, more: (seq<Item>, int))
    requires k < m
    ensures Then([Value(o, At(s, n, k), n)], Then(Slots(o, s, n, k + 1, m), more)) == Then(Slots(o, s, n, k, m), more)
    ensures Then([Value(o, At(s, n, k), n)], (Slots(o, s, n, k + 1, m), -2)) == (Slots(o, s, n, k, m), -2)
    ensures k + 1 == m ==> Slots(o, s, n, k, m) == [Value(o, At(s, n, k), n)]
  {
    SlotsStep(o, s, n, k, m);
    ThenThen([Value(o, At(s, n, k), n)], Slots(o, s, n, k + 1, m), more);
  }

  lemma BetweenEvents(d: seq<byte>, o: nat, env: Setting)
    ensures Inv(d, Cursor(o, None), env)
  {
  }

  lemma RunStep(d: seq<byte>, c: Cursor, env: Setting)
    requires Inv(d, c, env)
    ensures var x := Next(d, c, env);
            if x.ret <= 0 then Run(d, c, env) == ([], x.ret)
            else
              x.item.Some? && Inv(d, x.next, env) &&
              Run(d, c, env) == Then([x.item.value], Run(d, x.next, env))
  {
    hide Next, Inv;
    if Next(d, c, env).ret > 0 { Advances(d, c, env); }
  }

  /** The first call on an event. */
  lemma FirstValue(d: seq<byte>, o: nat, env: Setting, len: nat, n: nat, s: nat)
    requires n > 0 && Fixed(d, o, env, len, n, s) && o + LCP + n <= |d|
    ensures Next(d, Cursor(o, None), env) ==
            Extracted(1, if Count(s, o + len, n) > 1 then Cursor(o, Some(At(s, n, 1))) else Cursor(o + len, None), Some(Value(o, At(s, n, 0), n)))
  {
    CountTells(s, o + len, n, 1);
  }

  /** The run over a whole event of fixed-size values. */
  lemma RunOverEvent(d: seq<byte>, o: nat, env: Setting, len: nat, n: nat, s: nat)
    requires n > 0 && Fixed(d, o, env, len, n, s) && o + LCP + n <= |d|
    ensures var m, fit := Count(s, o + len, n), Count(s, |d|, n);
            var more := Run(d, Cursor(o + len, None), env);
            Run(d, Cursor(o, None), env) ==
            if m <= fit then Then(Slots(o, s, n, 0, m), more) else (Slots(o, s, n, 0, fit), -2)
  {
    BetweenEvents(d, o, env);
    BetweenEvents(d, o + len, env);
    hide Next, Inv, Fixed, Count, Run, Slots, At, Then;
    var m, fit := Count(s, o + len, n), Count(s, |d|, n);
    FirstValue(d, o, env, len, n, s);
    RunStep(d, Cursor(o, None), env);
    var v, more := [Value(o, At(s, n, 0), n)], Run(d, Cursor(o + len, None), env);
    if m > 1 {
      RunInEvent(d, o, env, len, n, s, 1);
      if m > fit { AddSlot(o, s, n, 0, fit, more); }
    }
    if m <= fit { AddSlot(o, s, n, 0, m, more); }
  }

  /** Call by call, the cursor goes through the events and their values in order. */
  lemma {:induction false} RunIsEvents(d: seq<byte>, o: nat, env: Setting)
    ensures Run(d, Cursor(o, None), env) == Events(d, o, env)
    decreases |d| - o
  {
    hide HeaderOf, ValueSize, Slots, Count, First, Shifted, Length;
    if o + LCP <= |d| && Length(d, o) > LCP {
      var len, h := Length(d, o), HeaderAt(d, o);
      RunIsEvents(d, o + len, env);
      var n := ValueSize(h, env.weVersion);
      if n > 0 && o + LCP + n <= |d| && !h.PointType? {
        RunOverEvent(d, o, env, len, n, First(o, h, len, n));
      }
    }
  }

  // ------------------------------------------------------------------ values inside the stream

  /** The first value of the event at e is shifted, and the shift takes it over the end. */
  ghost predicate Overshoots(d: seq<byte>, e: nat, env: Setting) {
    e + LCP <= |d| && Length(d, e) > LCP &&
    var n := ValueSize(HeaderAt(d, e), env.weVersion);
    n > 0 && Shifted(HeaderAt(d, e), Length(d, e), n) && e + LCP + 4 + n > |d|
  }

  /** Values of one event, as many as fit. */
  lemma SlotsInside(d: seq<byte>, o: nat, env: Setting, len: nat, n: nat, s: nat, m: nat, v: Item)
    requires Fixed(d, o, env, len, n, s) && o + LCP + n <= |d| && 1 <= m <= Count(s, |d|, n) && v in Slots(o, s, n, 0, m)
    ensures v.Value? && v.event == o && v.size == n
    ensures v.at + v.size > |d| <==> Overshoots(d, o, env) && v.at == o + LCP + 4
  {
    var k :| 0 <= k < m && Slots(o, s, n, 0, m)[k] == v;
    assert v == Value(o, At(s, n, k), n);
    if k >= 1 { CountTells(s, |d|, n, k); }
  }

  /** Every value handed out lies inside the stream, except exactly the first value of an event whose
      shift takes it over the end: the alignment fixup moves 4 bytes on without a new test. */
  lemma {:induction false} ValuesInside(d: seq<byte>, o: nat, env: Setting, v: Item)
    requires v in Events(d, o, env).0 && v.Value?
    ensures v.at + v.size > |d| <==> Overshoots(d, v.event, env) && v.at == v.event + LCP + 4
    decreases |d| - o
  {
    hide HeaderOf, ValueSize, Slots, Count, Shifted, Length, Overshoots;
    if o + LCP <= |d| && Length(d, o) > LCP {
      var len, h := Length(d, o), HeaderAt(d, o);
      var n := ValueSize(h, env.weVersion);
      if v in Events(d, o + len, env).0 {
        ValuesInside(d, o + len, env, v);
      } else if n > 0 && o + LCP + n <= |d| && !h.PointType? {
        var s := First(o, h, len, n);
        var m, fit := Count(s, o + len, n), Count(s, |d|, n);
        SlotsInside(d, o, env, len, n, s, if m <= fit then m else fit, v);
      }
    }
  }

  /** A stream of 8 bytes with such an event: a quality event that claims 12 bytes. */
  lemma ShiftedOverTheEnd()
    ensures var d: seq<byte> := [12, 0, 1, 0x8c, 0, 0, 0, 0];
            forall env: Setting :: Next(d, Cursor(0, None), env).item == Some(Value(0, 8, 4)) && Overshoots(d, 0, env)
  {
  }

  // ------------------------------------------------------------------ payloads inside the stream

  /** The fixed part of the point event at e is in the stream. */
  ghost predicate PointAt(d: seq<byte>, e: nat, env: Setting) {
    e + LCP + ValueSize(PointType, env.weVersion) <= |d| && Length(d, e) > LCP && HeaderAt(d, e).PointType?
  }

  /** The event at e has four bytes of alignment before and behind its fixed part. */
  ghost predicate PaddedAt(d: seq<byte>, e: nat, env: Setting)
    requires PointAt(d, e, env)
  {
    Padded(d, Length(d, e), e + LCP, env, ValueSize(PointType, env.weVersion), TokensOf(Command(d, e)).size)
  }

  /** The bytes a payload claims to have. */
  ghost function Bytes(d: seq<byte>, e: nat, c: Chunk): nat
    requires e + LCP <= |d|
  {
    c.tokens * TokensOf(Command(d, e)).size
  }

  /** The bytes that an event with alignment bytes carries by the number its padding test read. */
  ghost function Carried(d: seq<byte>, e: nat, env: Setting): nat
    requires PointAt(d, e, env)
  {
    U16(d + env.behind, e + LCP + ValueSize(PointType, env.weVersion)) * TokensOf(Command(d, e)).size
  }

  /** The payload of the point event at e ends behind the stream: with alignment bytes the token number
      is the one four bytes on, else the one in the fixed part. */
  ghost predicate RunsOver(d: seq<byte>, e: nat, env: Setting)
    requires PointAt(d, e, env)
  {
    var n, size := ValueSize(PointType, env.weVersion), TokensOf(Command(d, e)).size;
    if PaddedAt(d, e, env) then e + LCP + n + 8 + U16(d + env.behind, e + LCP + 4) * size > |d|
    else e + LCP + n + U16(d, e + n) * size > |d|
  }

  /** One payload. It lies inside its event exactly if the event has room for its fixed part (else the
      length of the rest has wrapped), and, with alignment bytes, the number of tokens is not larger
      than the one the test for them used. From version 19 on these two are the same bytes. */
  lemma PayloadInside(d: seq<byte>, e: nat, env: Setting, c: Chunk)
    requires PointAt(d, e, env) && PayloadOf(d, e, e + LCP, env) == Some(c)
    ensures c.at + Bytes(d, e, c) <= e + Length(d, e) <==>
            Length(d, e) >= LCP + ValueSize(PointType, env.weVersion) && (PaddedAt(d, e, env) ==> Bytes(d, e, c) <= Carried(d, e, env))
    ensures PaddedAt(d, e, env) && env.weVersion > 18 ==> c.at + Bytes(d, e, c) == e + Length(d, e)
    ensures c.at + Bytes(d, e, c) > |d| <==> RunsOver(d, e, env)
  {
    assert forall i: nat :: i + 2 <= |d| ==> U16(d + env.behind, i) == U16(d, i);
    hide TokensOf, HeaderOf, U16;
    var n, size, len := ValueSize(PointType, env.weVersion), TokensOf(Command(d, e)).size, Length(d, e);
    SmallProduct(U16(d + env.behind, e + LCP + n), size);
    ExtraTells(len, n);
  }

  lemma ExtraTells(len: nat, n: nat)
    requires len < 0x1_0000 && n in {4, 12}
    ensures if len >= LCP + n then Extra(len, n) == len - LCP - n else Extra(len, n) >= UINT - 16
  {
  }

  lemma SmallProduct(tokens: nat, size: nat)
    requires tokens < 0x1_0000 && size <= 28
    ensures tokens * size <= 28 * 0xFFFF
  {
  }

  /** In a run: what `PayloadInside` says of every payload handed out. From version 19 on, when the event
      has room for its fixed part and ends in the stream, so does the payload, and so do the two bytes
      the padding test looks at. */
  lemma {:induction false} PayloadsInside(d: seq<byte>, o: nat, env: Setting, v: Item)
    requires v in Events(d, o, env).0 && v.Payload? && v.data.Some?
    ensures PointAt(d, v.event, env) && v.data == PayloadOf(d, v.event, v.event + LCP, env)
    ensures v.data.value.at + Bytes(d, v.event, v.data.value) > |d| <==> RunsOver(d, v.event, env)
    ensures env.weVersion > 18 ==>
              (v.data.value.at + Bytes(d, v.event, v.data.value) <= v.event + Length(d, v.event) <==> Length(d, v.event) >= LCP + 4)
    ensures env.weVersion > 18 && Length(d, v.event) >= LCP + 4 && v.event + Length(d, v.event) <= |d| ==>
              && !RunsOver(d, v.event, env)
              && (Looks(d, Length(d, v.event), v.event + LCP, 4, TokensOf(Command(d, v.event)).size) ==> v.event + LCP + 4 + 2 <= |d|)
    decreases |d| - o
  {
    hide HeaderOf, Count, Shifted, RunsOver, PayloadOf, TokensOf, U16, Padded;
    if o + LCP <= |d| && Length(d, o) > LCP {
      var len, h := Length(d, o), HeaderAt(d, o);
      if v in Events(d, o + len, env).0 {
        PayloadsInside(d, o + len, env, v);
      } else {
        PayloadInside(d, o, env, v.data.value);
      }
    }
  }

  /** A stream of 8 bytes with a network name event that claims 40 bytes: its payload of 32 bytes begins
      where the stream ends. */
  lemma PayloadOverTheEnd()
    ensures var d: seq<byte> := [40, 0, 0x1B, 0x8B, 32, 0, 1, 0];
            var env := Setting(19, [0, 0, 0, 0]);
            Next(d, Cursor(0, None), env).item == Some(Payload(0, Some(Chunk(8, 32)))) && RunsOver(d, 0, env)
  {
  }

  /** One that claims 6 bytes: the length of the rest wraps, and 32 bytes behind the event are handed out. */
  lemma PayloadOfShortEvent()
    ensures var d: seq<byte> := [6, 0, 0x1B, 0x8B, 32, 0, 1, 0];
            var env := Setting(19, [0, 0, 0, 0]);
            Next(d, Cursor(0, None), env).item == Some(Payload(0, Some(Chunk(8, 32)))) && RunsOver(d, 0, env)
  {
  }

  // ------------------------------------------------------------------ the commands, by number

  /** Which commands have values of 16, 8 and 4 bytes, and which have a payload; all others are skipped. */
  lemma CommandSizes(cmd: nat, v: int)
    requires cmd < 0x1_0000
    ensures ValueSize(HeaderOf(cmd), v) == 16 <==> (cmd in {0x8B01, 0x8B14, 0x8B15, 0x8C00, 0x8C03, 0x8C04})
    ensures ValueSize(HeaderOf(cmd), v) == 8 <==>
            (cmd in {0x8B02, 0x8B03, 0x8B04, 0x8B05, 0x8B08, 0x8B09, 0x8B20, 0x8B21, 0x8B22, 0x8B23, 0x8B24, 0x8B25,
               0x8B26, 0x8B27, 0x8B28, 0x8B29, 0x8B2C, 0x8B2D, 0x8B2E, 0x8B2F, 0x8B32, 0x8B33})
    ensures ValueSize(HeaderOf(cmd), v) == 4 && !HeaderOf(cmd).PointType? <==> cmd in {0x8B06, 0x8B07, 0x8C01}
    ensures HeaderOf(cmd).PointType? <==>
            (cmd in {0x8B0B, 0x8B10, 0x8B11, 0x8B12, 0x8B13, 0x8B16, 0x8B17, 0x8B18, 0x8B19, 0x8B1A, 0x8B1B, 0x8B1C,
               0x8B1D, 0x8B2A, 0x8B2B, 0x8B30, 0x8B31, 0x8B34, 0x8B35, 0x8B36, 0x8C02, 0x8C05, 0x8C06, 0x8C07, 0x8C08, 0x8C09})
    ensures ValueSize(PointType, v) == if v > 18 then 4 else 12
  {
  }

  /** An event of k values of n bytes, as the kernel packs them: they follow one another, the first
      behind the four bytes of length and command, or (s = o + 8) behind four bytes of alignment. Two
      values of 4 bytes are not told from one with alignment, and are read as such. */
  lemma FixedEvent(d: seq<byte>, o: nat, env: Setting, n: nat, k: nat, s: nat)
    requires o + 4 <= |d| && ValueSize(HeaderAt(d, o), env.weVersion) == n && n in {4, 8, 16} && !HeaderAt(d, o).PointType? && k >= 1
    requires o + 4 <= s && s + k * n <= |d| && U16(d, o) == (s - o) + k * n
    requires (s == o + 4 && !(n == 4 && k == 2)) || (s == o + 8 && (n == 4 ==> k == 1))
    ensures Events(d, o, env) == Then(seq(k, j requires 0 <= j < k => Value(o, s + j * n, n)), Events(d, s + k * n, env))
  {
    hide HeaderOf, U16;
    var len, h := Length(d, o), HeaderAt(d, o);
    Multiples(k, n);
    assert First(o, h, len, n) == s;
    assert Count(s, o + len, n) == k && Count(s, |d|, n) >= k by { Counts(s, |d|, n, k); }
    assert Slots(o, s, n, 0, k) == seq(k, j requires 0 <= j < k => Value(o, s + j * n, n));
  }

  lemma Multiples(k: nat, n: nat)
    requires n in {4, 8, 16}
    ensures k * n % n == 0 && (n > 4 ==> (4 + k * n) % n == 4) && (k >= 1 ==> k * n >= n)
  {
    if n == 4 {} else if n == 8 {} else {}
  }

  lemma Counts(s: nat, end: nat, n: nat, k: nat)
    requires n in {4, 8, 16} && k >= 1 && s + k * n <= end
    ensures Count(s, s + k * n, n) == k && Count(s, end, n) >= k
  {
    if n == 4 {} else if n == 8 {} else {}
  }

  /** One event of each kind, by its command and its packed length: name, frequency, mode, address,
      bit rate and quality. The value is all of the event behind its first four bytes. */
  lemma OneValue(d: seq<byte>, o: nat, env: Setting, cmd: nat, len: nat)
    requires (cmd, len) in {(0x8B01, 20), (0x8B05, 12), (0x8B07, 8), (0x8B15, 20), (0x8B21, 12), (0x8C01, 8)}
    requires o + len <= |d| && d[o] == len && d[o + 1] == 0 && d[o + 2] == cmd % 256 && d[o + 3] == cmd / 256
    ensures Events(d, o, env) == Then([Value(o, o + 4, len - 4)], Events(d, o + len, env))
  {
    assert U16(d, o) == len && U16(d, o + 2) == cmd;
    CommandSizes(cmd, env.weVersion);
    hide HeaderOf, U16;
    FixedEvent(d, o, env, len - 4, 1, o + 4);
    assert seq(1, j requires 0 <= j < 1 => Value(o, o + 4 + j * (len - 4), len - 4)) == [Value(o, o + 4, len - 4)];
  }

  /** A network name event: its fixed part has 4 bytes from version 19 on, and 12 before; its payload is
      handed out when that part is in the stream. */
  lemma OnePoint(d: seq<byte>, o: nat, env: Setting)
    requires o + 4 <= |d| && U16(d, o) > 4 && d[o + 2] == 0x1B && d[o + 3] == 0x8B
    ensures var n := if env.weVersion > 18 then 4 else 12;
            Events(d, o, env) ==
            if o + 4 + n > |d| then ([], -2) else Then([Payload(o, PayloadOf(d, o, o + 4, env))], Events(d, o + U16(d, o), env))
  {
    assert U16(d, o + 2) == 0x8B1B;
    CommandSizes(0x8B1B, env.weVersion);
    hide HeaderOf, U16, PayloadOf;
  }

  /** The returns that hand out no value, and where they leave the cursor: 0 at the end of the stream and
      -1 at an event of at most four bytes, where it stays, and 2 and -2 behind the event. */
  lemma NoValue(d: seq<byte>, c: Cursor, env: Setting)
    ensures c.current + 4 > |d| ==> Next(d, c, env) == Extracted(0, c, None)
    ensures c.current + 4 <= |d| && U16(d, c.current) <= 4 ==> Next(d, c, env) == Extracted(-1, c, None)
    ensures c.current + 4 <= |d| && U16(d, c.current) > 4 ==>
              var n, next := ValueSize(HeaderAt(d, c.current), env.weVersion), Cursor(c.current + U16(d, c.current), c.value);
              var from := if c.value.Some? then c.value.value else c.current + 4;
              && (n == 0 ==> Next(d, c, env) == Extracted(2, next, Some(Skipped(c.current))))
              && (n > 0 && from + n > |d| ==> Next(d, c, env) == Extracted(-2, next, None))
              && (n > 0 && from + n <= |d| ==> Next(d, c, env).ret == 1)
  {
    hide HeaderOf, U16, PayloadOf;
  }

  /** An event of no kind that has values is skipped whole. */
  lemma OtherEvent(d: seq<byte>, o: nat, env: Setting)
    requires o + 4 <= |d| && U16(d, o) > 4 && HeaderOf(U16(d, o + 2)).NullType?
    ensures Events(d, o, env) == Then([Skipped(o)], Events(d, o + U16(d, o), env))
  {
    hide HeaderOf, U16;
  }

  /** The size of a token and the least and the largest number of tokens, by command. */
  lemma TokenRows(cmd: nat, size: nat, least: nat, most: nat, t: nat)
    requires t < 0x1_0000 && (cmd, size, least, most) in
      {(0x8B0b, 1, 0, 588), (0x8B10, 16, 0, 8), (0x8B11, 20, 0, 8), (0x8B12, 28, 1, 1), (0x8B13, 28, 1, 1),
       (0x8B16, 1, 20, 20), (0x8B17, 20, 0, 65535), (0x8B18, 1, 0, 316), (0x8B19, 1, 0, 65535), (0x8B1a, 1, 0, 33),
       (0x8B1b, 1, 0, 33), (0x8B1c, 1, 0, 33), (0x8B1d, 1, 0, 33), (0x8B2a, 0, 0, 64), (0x8B2b, 0, 0, 64),
       (0x8B30, 1, 0, 1024), (0x8B31, 1, 0, 1024), (0x8B34, 1, 40, 104), (0x8B35, 1, 40, 104), (0x8B36, 1, 36, 36),
       (0x8C02, 1, 0, 256), (0x8C05, 1, 0, 1024), (0x8C06, 1, 0, 28), (0x8C07, 1, 0, 1024), (0x8C08, 1, 0, 1024),
       (0x8C09, 1, 0, 24)}
    ensures TokensOf(cmd).size == size && (Admitted(cmd, t) <==> least <= t <= most)
  {
  }

  predicate Admitted(cmd: nat, tokens: nat) {
    var k := TokensOf(cmd);
    k.least <= tokens && (k.bounded ==> tokens <= k.most)
  }

  /** The payload of a point event by its numbers: t tokens claimed in the last four bytes of the fixed
      part (n bytes from o + 4 on), t' where they are in an event with alignment bytes, and alt the two
      bytes looked at. */
  lemma PayloadCases(d: seq<byte>, o: nat, env: Setting)
    requires o + 4 + (if env.weVersion > 18 then 4 else 12) <= |d| && U16(d, o) > 4
    ensures var n, len, cmd, m := if env.weVersion > 18 then 4 else 12, U16(d, o), U16(d, o + 2), d + env.behind;
            var t, t', size := U16(m, o + n), U16(m, o + 8), TokensOf(cmd).size;
            var alt, payload := U16(m, o + 4 + n) * size, PayloadOf(d, o, o + 4, env);
            && (len == 4 + n ==> payload == None)
            && (len < 4 + n || (len > 4 + n && (4 + n + t * size == len || (4 + n + t * size < len && 12 + n + alt != len))) ==>
                  payload == if Admitted(cmd, t) then Some(Chunk(o + 4 + n, t)) else None)
            && (len > 4 + n && 4 + n + t * size != len && 12 + n + alt == len ==>
                  payload == if alt > 0 && Admitted(cmd, t') then Some(Chunk(o + 12 + n, t')) else None)
            && (4 + n <= len < 4 + n + t * size && 12 + n + alt != len ==> payload == None)
  {
    var n, m := if env.weVersion > 18 then 4 else 12, d + env.behind;
    assert U16(m, o + n) == U16(d, o + n);
    hide TokensOf, U16;
    var size := TokensOf(U16(d, o + 2)).size;
    ExtraTells(U16(d, o), n);
    SmallProduct(U16(m, o + n), size);
    SmallProduct(U16(m, o + 4 + n), size);
  }
}
