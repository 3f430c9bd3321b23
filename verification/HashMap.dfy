/** The chained multimap of `tuya_hashmap.c` over the pointer-to-pointer lists of `tuya_hlist.h`. */
module HashMap {
  import opened Crc
  import opened Mixing

  /** A C string without its terminator. Equal length and strcmp 0 is equality. */
  type Key = seq<bv8>

  /** A `void *`; NULL is 0. */
  type Pointer = nat

  const MAP_MISSING: int := -2
  const MAP_OK: int := 0

  // ---------- Hashing ----------

  function HashOf(key: Key): bv32 { Mix(BitwiseCrc(key)) }

  function ToNat(h: bv32): nat { h as nat }

  function Reduce(h: bv32, tableSize: nat): (b: nat)
    requires tableSize > 0
    ensures b < tableSize
  {
    ToNat(h) % tableSize
  }

  /** The bucket of a key: the mixed bit-by-bit CRC, reduced to the table size. */
  function Bucket(key: Key, tableSize: nat): (b: nat)
    requires tableSize > 0
    ensures b < tableSize
  {
    Reduce(HashOf(key), tableSize)
  }

  /** One byte more. */
  lemma CrcOn(k: Key, i: nat, c: bv32, r: bv32)
    requires i < |k| && BitwiseCrc(k[..i]) == c && Shift8(Xor(c, k[i] as bv32)) == r
    ensures BitwiseCrc(k[..i + 1]) == r
  {
    assert k[..i + 1][..i] == k[..i];
  }

  lemma CrcOfName(k: Key)
    requires k == [110, 97, 109, 101]
    ensures BitwiseCrc(k) == 0x7f67a11a
  {
    assert BitwiseCrc(k[..0]) == 0;
    hide BitwiseCrc;
    CrcOn(k, 0, 0x0, 0xaa0a4c5f);
    CrcOn(k, 1, 0xaa0a4c5f, 0xc1cb17e7);
    CrcOn(k, 2, 0xc1cb17e7, 0x0daca129);
    CrcOn(k, 3, 0xdaca129, 0x7f67a11a);
    assert k[..4] == k;
  }

  lemma CrcOfId(k: Key)
    requires k == [105, 100]
    ensures BitwiseCrc(k) == 0xfee075af
  {
    assert BitwiseCrc(k[..0]) == 0;
    hide BitwiseCrc;
    CrcOn(k, 0, 0x0, 0x346ed9fc);
    CrcOn(k, 1, 0x346ed9fc, 0xfee075af);
    assert k[..2] == k;
  }

  lemma Mixes()
    ensures Mix(0) == 0 && Mix(0xfee075af) == 0xfbf13269 && Mix(0x7f67a11a) == 0x5a587c9c
  {
  }

  /** The hashes of the keys "", "id" and "name". */
  lemma KeyHashes()
    ensures HashOf([]) == 0
    ensures HashOf([105, 100]) == 0xfbf13269
    ensures HashOf([110, 97, 109, 101]) == 0x5a587c9c
  {
    assert BitwiseCrc([]) == 0;
    hide BitwiseCrc, Mix;
    CrcOfId([105, 100]);
    CrcOfName([110, 97, 109, 101]);
    Mixes();
  }

  lemma ReduceIs(h: bv32, tableSize: nat)
    requires tableSize > 0
    ensures Reduce(h, tableSize) == (h as nat) % tableSize
  {
  }

  /** `__hashmap_hash_int`. */
  method HashInt(key: Key, tableSize: nat) returns (b: nat)
    requires tableSize > 0
    ensures b == Bucket(key, tableSize) && b < tableSize
    ensures b == (Mix(BitwiseCrc(key)) as nat) % tableSize
  {
    hide Mix, Reduce;
    var crc := Crc32(key);
    b := Reduce(Mix(crc), tableSize);
    ReduceIs(Mix(crc), tableSize);
  }

  // ---------- Elements ----------

  /** The cell a `pprev` points to: a bucket head, or the `next` field of an element. */
  datatype Cell = Nowhere | Head(bucket: nat) | NextOf(element: Element)

  class Element {
    const key: Key
    const data: Pointer
    var next: Element?
    var pprev: Cell

    constructor (key: Key, data: Pointer)
      ensures this.key == key && this.data == data && next == null && pprev == Nowhere
    {
      this.key, this.data := key, data;
      next, pprev := null, Nowhere;
    }
  }

  /** The values of one key along a chain, in chain order. */
  function ValuesIn(c: seq<Element>, key: Key): (v: seq<Pointer>) {
    if c == [] then [] else (if c[0].key == key then [c[0].data] else []) + ValuesIn(c[1..], key)
  }

  lemma {:induction false} ValuesConcat(a: seq<Element>, b: seq<Element>, key: Key)
    ensures ValuesIn(a + b, key) == ValuesIn(a, key) + ValuesIn(b, key)
  {
    if a == [] {
      assert a + b == b && ValuesIn(a, key) == [];
    } else {
      hide ValuesIn;
      var c := a + b;
      assert c[1..] == a[1..] + b && c[0] == a[0];
      ValuesHead(a, key);
      ValuesHead(c, key);
      ValuesConcat(a[1..], b, key);
      Assoc(if a[0].key == key then [a[0].data] else [], ValuesIn(a[1..], key), ValuesIn(b, key));
    }
  }

  lemma Assoc(x: seq<Pointer>, y: seq<Pointer>, z: seq<Pointer>)
    ensures x + (y + z) == x + y + z
  {
  }

  lemma ValuesHead(c: seq<Element>, key: Key)
    requires c != []
    ensures ValuesIn(c, key) == (if c[0].key == key then [c[0].data] else []) + ValuesIn(c[1..], key)
  {
  }

  lemma {:induction false} NoValues(c: seq<Element>, key: Key)
    ensures ValuesIn(c, key) == [] <==> forall k :: 0 <= k < |c| ==> c[k].key != key
  {
    if c != [] {
      NoValues(c[1..], key);
      assert forall k :: 0 < k < |c| ==> c[k] == c[1..][k - 1];
    }
  }

  /** The first element from place k on with the key, or the end of the chain. */
  function FirstFrom(c: seq<Element>, key: Key, k: nat): (r: nat)
    requires k <= |c|
    ensures k <= r <= |c| && (r < |c| ==> c[r].key == key)
    ensures forall j :: k <= j < r ==> c[j].key != key
    decreases |c| - k
  {
    if k == |c| || c[k].key == key then k else FirstFrom(c, key, k + 1)
  }

  lemma ValuesStep(c: seq<Element>, key: Key, k: nat)
    requires k < |c|
    ensures ValuesIn(c[k..], key) == if c[k].key == key then [c[k].data] + ValuesIn(c[k + 1..], key) else ValuesIn(c[k + 1..], key)
  {
    assert c[k..][1..] == c[k + 1..];
    var rest := ValuesIn(c[k + 1..], key);
    assert [] + rest == rest;
  }

  lemma FirstStep(c: seq<Element>, key: Key, k: nat)
    requires k <= |c|
    ensures k == |c| || c[k].key == key ==> FirstFrom(c, key, k) == k
    ensures k < |c| && c[k].key != key ==> FirstFrom(c, key, k) == FirstFrom(c, key, k + 1)
  {
  }

  /** The values from place k of a chain on. */
  ghost function ValuesAfter(c: seq<Element>, key: Key, k: nat): seq<Pointer>
    requires k <= |c|
  {
    ValuesIn(c[k..], key)
  }

  lemma ValuesAfterStep(c: seq<Element>, key: Key, k: nat)
    requires k <= |c|
    ensures k == |c| ==> ValuesAfter(c, key, k) == []
    ensures k < |c| ==> ValuesAfter(c, key, k) == (if c[k].key == key then [c[k].data] + ValuesAfter(c, key, k + 1) else ValuesAfter(c, key, k + 1))
  {
    if k < |c| { ValuesStep(c, key, k); }
  }

  lemma {:induction false} ValuesAfterFirst(c: seq<Element>, key: Key, k: nat)
    requires k <= |c|
    ensures var r := FirstFrom(c, key, k);
            ValuesAfter(c, key, k) == if r == |c| then [] else [c[r].data] + ValuesAfter(c, key, r + 1)
    decreases |c| - k
  {
    hide ValuesAfter, FirstFrom;
    FirstStep(c, key, k);
    ValuesAfterStep(c, key, k);
    if k < |c| && c[k].key != key { ValuesAfterFirst(c, key, k + 1); }
  }

  lemma ValuesFrom(c: seq<Element>, key: Key, k: nat)
    requires k <= |c|
    ensures var r := FirstFrom(c, key, k);
            ValuesIn(c[k..], key) == if r == |c| then [] else [c[r].data] + ValuesIn(c[r + 1..], key)
  {
    hide ValuesIn, FirstFrom;
    ValuesAfterFirst(c, key, k);
  }

  /** Skipping elements of other keys skips no value. */
  lemma {:induction false} SkipTo(c: seq<Element>, key: Key, k: nat)
    requires k <= |c|
    ensures ValuesIn(c[k..], key) == ValuesIn(c[FirstFrom(c, key, k)..], key)
    ensures k < |c| && c[k].key == key ==> ValuesIn(c[k..], key) == [c[k].data] + ValuesIn(c[k + 1..], key)
  {
    hide ValuesIn, FirstFrom;
    var r := FirstFrom(c, key, k);
    ValuesFrom(c, key, k);
    FirstStep(c, key, r);
    ValuesFrom(c, key, r);
    if k < |c| { ValuesStep(c, key, k); }
  }

  /** What a removal looks for: the key, and the value too unless NULL is given. */
  predicate Matches(e: Element, key: Key, data: Pointer) {
    e.key == key && (data == 0 || e.data == data)
  }

  function FirstMatch(c: seq<Element>, key: Key, data: Pointer, k: nat): (r: nat)
    requires k <= |c|
    ensures k <= r <= |c| && (r < |c| ==> Matches(c[r], key, data))
    ensures forall j :: k <= j < r ==> !Matches(c[j], key, data)
    decreases |c| - k
  {
    if k == |c| || Matches(c[k], key, data) then k else FirstMatch(c, key, data, k + 1)
  }

  /** The element a removal deletes from a chain: the first match or, when there is none, the last
      element looked at. */
  function Victim(c: seq<Element>, key: Key, data: Pointer): (v: nat)
    requires c != []
    ensures v < |c|
  {
    var r := FirstMatch(c, key, data, 0);
    if r < |c| then r else |c| - 1
  }

  function Drop(c: seq<Element>, v: nat): seq<Element>
    requires v < |c|
  {
    c[..v] + c[v + 1..]
  }

  /** A removal deletes a matching element exactly when one exists; otherwise it deletes an element
      that was not asked for. */
  lemma RemovalIsRight(c: seq<Element>, key: Key, data: Pointer)
    requires c != []
    ensures Matches(c[Victim(c, key, data)], key, data) <==> exists k :: 0 <= k < |c| && Matches(c[k], key, data)
  {
    var v := Victim(c, key, data);
    if !Matches(c[v], key, data) {
      assert FirstMatch(c, key, data, 0) == |c|;
    }
  }

  /** With a match, a removal takes one value from the list of its key, the newest that fits, and
      leaves the values of every other key alone. */
  lemma {:induction false} RemovalOnValues(c: seq<Element>, key: Key, data: Pointer, other: Key)
    requires c != [] && Matches(c[Victim(c, key, data)], key, data)
    ensures var v := Victim(c, key, data);
            && ValuesIn(c, key) == ValuesIn(c[..v], key) + [c[v].data] + ValuesIn(c[v + 1..], key)
            && ValuesIn(Drop(c, v), key) == ValuesIn(c[..v], key) + ValuesIn(c[v + 1..], key)
            && (data == 0 ==> ValuesIn(c[..v], key) == [])
            && (data != 0 ==> c[v].data == data && data !in ValuesIn(c[..v], key))
            && (other != key ==> ValuesIn(Drop(c, v), other) == ValuesIn(c, other))
  {
    var v := Victim(c, key, data);
    assert FirstMatch(c, key, data, 0) == v by { if FirstMatch(c, key, data, 0) == |c| { assert false; } }
    var l := c[..v];
    NoValues(l, key);
    ValuesAreData(l, key, data);
    hide FirstMatch, Victim;
    ValuesAround(c, v, key);
    ValuesAround(c, v, other);
  }

  /** The values of a chain with and without element v. */
  lemma ValuesAround(c: seq<Element>, v: nat, key: Key)
    requires v < |c|
    ensures ValuesIn(c, key) == ValuesIn(c[..v], key) + (if c[v].key == key then [c[v].data] else []) + ValuesIn(c[v + 1..], key)
    ensures ValuesIn(Drop(c, v), key) == ValuesIn(c[..v], key) + ValuesIn(c[v + 1..], key)
  {
    var l, m, r := c[..v], [c[v]], c[v + 1..];
    assert c == l + m + r && m[1..] == [];
    assert ValuesIn(m, key) == if c[v].key == key then [c[v].data] else [];
    hide ValuesIn;
    ValuesConcat(l, m, key);
    ValuesConcat(l + m, r, key);
    ValuesConcat(l, r, key);
  }

  lemma {:induction false} ValuesAreData(c: seq<Element>, key: Key, data: Pointer)
    ensures data in ValuesIn(c, key) <==> exists k :: 0 <= k < |c| && c[k].key == key && c[k].data == data
  {
    if c != [] {
      ValuesAreData(c[1..], key, data);
      assert forall k :: 0 < k < |c| ==> c[k] == c[1..][k - 1];
      if k :| 0 <= k < |c[1..]| && c[1..][k].key == key && c[1..][k].data == data { assert c[k + 1].key == key; }
    }
  }

  /** A list of values without its first, or without the first that equals `data`. */
  function Without(vs: seq<Pointer>, data: Pointer): seq<Pointer> {
    if vs == [] then [] else if data == 0 || vs[0] == data then vs[1..] else [vs[0]] + Without(vs[1..], data)
  }

  /** There is such a value. */
  predicate Held(vs: seq<Pointer>, data: Pointer) {
    if data == 0 then vs != [] else data in vs
  }

  lemma {:induction false} WithoutFirst(pre: seq<Pointer>, x: Pointer, post: seq<Pointer>, data: Pointer)
    requires if data == 0 then pre == [] else x == data && data !in pre
    ensures Without(pre + ([x] + post), data) == pre + post
  {
    var rest := [x] + post;
    if pre == [] {
      assert pre + rest == rest && rest[1..] == post && pre + post == post;
    } else {
      WithoutFirst(pre[1..], x, post, data);
      assert (pre + rest)[1..] == pre[1..] + rest && (pre + rest)[0] == pre[0] && pre[0] in pre;
      assert [pre[0]] + (pre[1..] + post) == pre + post;
    }
  }

  /** What a removal does to the values of each key: with a value to remove, that value is gone and
      nothing else; without one, the key of the last element in the chain loses its oldest value. */
  lemma {:induction false} RemovalOutcome(c: seq<Element>, key: Key, data: Pointer, k: Key)
    requires c != []
    ensures var d := Drop(c, Victim(c, key, data));
            if Held(ValuesIn(c, key), data) then
              ValuesIn(d, k) == if k == key then Without(ValuesIn(c, key), data) else ValuesIn(c, k)
            else
              ValuesIn(c, k) == ValuesIn(d, k) + if k == c[|c| - 1].key then [c[|c| - 1].data] else []
  {
    HeldMeansMatch(c, key, data);
    RemovalIsRight(c, key, data);
    if Matches(c[Victim(c, key, data)], key, data) {
      hide ValuesIn, Victim, Drop, Without, Held;
      RemovalOnValues(c, key, data, k);
      RemovedIsWithout(c, key, data);
    } else {
      LastDropped(c, key, data, k);
    }
  }

  lemma RemovedIsWithout(c: seq<Element>, key: Key, data: Pointer)
    requires c != [] && Matches(c[Victim(c, key, data)], key, data)
    ensures ValuesIn(Drop(c, Victim(c, key, data)), key) == Without(ValuesIn(c, key), data)
  {
    hide ValuesIn, Victim, Drop, Without;
    RemovalOnValues(c, key, data, key);
    var v := Victim(c, key, data);
    var l, r := ValuesIn(c[..v], key), ValuesIn(c[v + 1..], key);
    WithoutFirst(l, c[v].data, r, data);
    Assoc(l, [c[v].data], r);
  }

  lemma LastDropped(c: seq<Element>, key: Key, data: Pointer, k: Key)
    requires c != [] && !Matches(c[Victim(c, key, data)], key, data)
    ensures ValuesIn(c, k) == ValuesIn(Drop(c, Victim(c, key, data)), k) + if k == c[|c| - 1].key then [c[|c| - 1].data] else []
  {
    var v := Victim(c, key, data);
    assert v == |c| - 1 && c[v + 1..] == [];
    ValuesAround(c, v, k);
  }

  lemma HeldMeansMatch(c: seq<Element>, key: Key, data: Pointer)
    ensures Held(ValuesIn(c, key), data) <==> exists k :: 0 <= k < |c| && Matches(c[k], key, data)
  {
    hide ValuesIn;
    NoValues(c, key);
    ValuesAreData(c, key, data);
    if k :| 0 <= k < |c| && c[k].key == key && data == 0 { assert Matches(c[k], key, data); }
    if k :| 0 <= k < |c| && c[k].key == key && c[k].data == data { assert Matches(c[k], key, data); }
  }

  function Total(chains: seq<seq<Element>>): nat {
    if chains == [] then 0 else |chains[0]| + Total(chains[1..])
  }

  lemma {:induction false} TotalUpdate(chains: seq<seq<Element>>, i: nat, c: seq<Element>)
    requires i < |chains|
    ensures Total(chains[i := c]) == Total(chains) - |chains[i]| + |c|
  {
    if i > 0 {
      TotalUpdate(chains[1..], i - 1, c);
      assert chains[i := c][1..] == chains[1..][i - 1 := c];
    } else {
      assert chains[i := c][1..] == chains[1..];
    }
  }

  /** The values of a key in a table of chains. */
  ghost function ValuesOf(chains: seq<seq<Element>>, key: Key): seq<Pointer>
    requires |chains| > 0
  {
    ValuesIn(chains[Bucket(key, |chains|)], key)
  }

  /** RemovalOutcome for key k, seen from the whole table; c is the chain of the key removed. */
  ghost predicate Seen(chains: seq<seq<Element>>, chains': seq<seq<Element>>, c: seq<Element>, key: Key, data: Pointer, k: Key)
    requires |chains| == |chains'| > 0 && c != []
  {
    if Held(ValuesOf(chains, key), data) then
      ValuesOf(chains', k) == if k == key then Without(ValuesOf(chains, key), data) else ValuesOf(chains, k)
    else
      ValuesOf(chains, k) == ValuesOf(chains', k) + if k == c[|c| - 1].key then [c[|c| - 1].data] else []
  }

  lemma {:induction false} RemovalSeen(chains: seq<seq<Element>>, b: nat, key: Key, data: Pointer, k: Key)
    requires |chains| > 0 && b == Bucket(key, |chains|) && chains[b] != []
    requires forall i :: 0 <= i < |chains| ==> InBucket(chains[i], i, |chains|)
    ensures Seen(chains, chains[b := Drop(chains[b], Victim(chains[b], key, data))], chains[b], key, data, k)
  {
    hide Bucket, ValuesIn, Victim, Drop, Held, Without;
    var c := chains[b];
    RemovalOutcome(c, key, data, k);
    assert InBucket(c, b, |chains|);
  }

  /** Element k of a chain, null past its end; the cell that holds element k of chain i. */
  ghost function At(c: seq<Element>, k: nat): Element? { if k < |c| then c[k] else null }

  ghost function Before(c: seq<Element>, i: nat, k: nat): Cell
    requires k < |c|
  {
    if k == 0 then Head(i) else NextOf(c[k - 1])
  }

  /** The elements of a chain are linked both ways: forward by `next`, and back because the cell that
      `pprev` names is the one that holds the element. */
  ghost predicate Links(c: seq<Element>, i: nat)
    reads c
  {
    && (forall k {:trigger c[k].next} :: 0 <= k < |c| ==> c[k].next == At(c, k + 1))
    && (forall k {:trigger c[k].pprev} :: 0 <= k < |c| ==> c[k].pprev == Before(c, i, k))
  }

  /** No element occurs twice, and the key of each hashes to bucket i. */
  ghost predicate InBucket(c: seq<Element>, i: nat, tableSize: nat)
    requires tableSize > 0
  {
    && (forall k :: 0 <= k < |c| ==> Bucket(c[k].key, tableSize) == i)
    && (forall k, l :: 0 <= k < l < |c| ==> c[k] != c[l])
  }

  // ---------- The map ----------

  class Map {
    const heads: array<Element?>
    var size: int
    ghost var chains: seq<seq<Element>>
    ghost var elements: set<Element>

    /** The list of bucket i runs through exactly chain i. */
    ghost predicate ChainOk(i: nat)
      requires i < heads.Length && i < |chains|
      reads this, heads, elements
    {
      && (forall k :: 0 <= k < |chains[i]| ==> chains[i][k] in elements)
      && InBucket(chains[i], i, heads.Length)
      && heads[i] == At(chains[i], 0)
      && Links(chains[i], i)
    }

    ghost predicate Valid()
      reads this, heads, elements
    {
      && heads.Length == |chains| > 0
      && (forall i :: 0 <= i < |chains| ==> ChainOk(i))
      && size == Total(chains)
    }

    /** What the map holds for a key, newest first. */
    ghost function Values(key: Key): seq<Pointer>
      requires |chains| > 0
      reads this
    {
      ValuesOf(chains, key)
    }

    constructor (tableSize: nat)
      requires tableSize > 0
      ensures Valid() && fresh(heads) && elements == {} && |chains| == tableSize && size == 0
      ensures forall key :: Values(key) == []
    {
      heads := new Element?[tableSize](_ => null);
      size := 0;
      chains := seq(tableSize, _ => []);
      elements := {};
      new;
      EmptyTotal(chains);
    }

    /** `tuya_hashmap_new`: NULL for a table of size zero. */
    static method New(tableSize: nat) returns (m: Map?)
      ensures m == null <==> tableSize == 0
      ensures m != null ==> fresh(m) && fresh(m.heads) && m.elements == {}
      ensures m != null ==> m.Valid() && |m.chains| == tableSize && m.size == 0 && forall key :: m.Values(key) == []
    {
      if tableSize == 0 {
        return null;
      }
      m := new Map(tableSize);
    }

    static lemma {:induction false} EmptyTotal(cs: seq<seq<Element>>)
      requires forall i :: 0 <= i < |cs| ==> cs[i] == []
      ensures Total(cs) == 0
    {
      if cs != [] { EmptyTotal(cs[1..]); }
    }

    /** `tuya_hlist_add_head` on bucket i, whose chain is c. */
    method AddHead(n: Element, i: nat, ghost c: seq<Element>)
      requires i < heads.Length && heads[i] == At(c, 0) && Links(c, i) && n !in c
      requires forall k, l :: 0 <= k < l < |c| ==> c[k] != c[l]
      modifies heads, n, c
      ensures heads[i] == n && Links([n] + c, i) && OnlyBucket(i, old(heads[..]))
    {
      var first := heads[i];
      n.next := first;
      if first != null {
        first.pprev := NextOf(n);
      }
      heads[i] := n;
      n.pprev := Head(i);
      ghost var d := [n] + c;
      forall k | 0 <= k < |d| ensures d[k].next == At(d, k + 1) && d[k].pprev == Before(d, i, k) {
        if k > 0 { assert d[k] == c[k - 1]; }
      }
    }

    ghost predicate OnlyBucket(i: nat, was: seq<Element?>)
      reads heads
    {
      |was| == heads.Length && forall j :: 0 <= j < heads.Length && j != i ==> heads[j] == was[j]
    }

    /** `tuya_hashmap_put`: the new value comes first for its key; nothing else changes. */
    method Put(key: Key, data: Pointer) returns (rc: int)
      requires Valid()
      modifies this, heads, elements
      ensures Valid() && rc == MAP_OK == 0 && |chains| == |old(chains)| && size == old(size) + 1 && fresh(elements - old(elements))
      ensures Values(key) == [data] + old(Values(key))
      ensures forall k :: k != key ==> Values(k) == old(Values(k))
    {
      hide Mix, BitwiseCrc, Bucket, Total, Links;
      var n := new Element(key, data);
      var i := HashInt(key, heads.Length);
      assert ChainOk(i);
      ghost var c := chains[i];
      AddHead(n, i, c);
      chains, elements := chains[i := [n] + c], elements + {n};
      size := size + 1;
      rc := MAP_OK;
      assert InBucket([n] + c, i, heads.Length);
      forall j | 0 <= j < |chains| && j != i ensures ChainOk(j) {
        assert old(ChainOk(j));
        Apart(c, i, chains[j], j, heads.Length);
      }
      TotalUpdate(old(chains), i, [n] + c);
    }

    /** Chains of different buckets share no element. */
    static lemma Apart(c: seq<Element>, i: nat, d: seq<Element>, j: nat, tableSize: nat)
      requires tableSize > 0 && InBucket(c, i, tableSize) && InBucket(d, j, tableSize) && i != j
      ensures forall x :: x in c ==> x !in d
    {
      hide Bucket;
    }

    /** The loop of HLIST_FOR_EACH_ENTRY that looks for a key, from element k of a chain on. */
    static method Seek(start: Element?, key: Key, ghost c: seq<Element>, ghost i: nat, ghost k: nat) returns (e: Element?)
      requires Links(c, i) && k <= |c| && start == At(c, k)
      ensures e == At(c, FirstFrom(c, key, k))
    {
      hide FirstFrom;
      ghost var l := k;
      e := start;
      while e != null && e.key != key
        invariant k <= l <= |c| && e == At(c, l)
        invariant FirstFrom(c, key, k) == FirstFrom(c, key, l)
        decreases |c| - l
      {
        FirstStep(c, key, l);
        e := e.next;
        l := l + 1;
      }
      FirstStep(c, key, l);
    }

    /** `__hash_find`: the first element with the key. */
    method Find(key: Key) returns (e: Element?, ghost b: nat)
      requires Valid()
      ensures b == Bucket(key, |chains|) && e == At(chains[b], FirstFrom(chains[b], key, 0))
    {
      hide Mix, BitwiseCrc, Bucket, Total, Links;
      var i := HashInt(key, heads.Length);
      b := i;
      assert ChainOk(i);
      e := Seek(heads[i], key, chains[i], i, 0);
    }

    /** `__hash_find_next_element`: the next element with the key of element k of chain b. */
    method FindNext(curr: Element, ghost b: nat, ghost k: nat) returns (e: Element?)
      requires Valid() && b < |chains| && k < |chains[b]| && curr == chains[b][k]
      ensures e == At(chains[b], FirstFrom(chains[b], curr.key, k + 1))
    {
      hide Bucket, Total;
      assert ChainOk(b);
      e := Seek(curr.next, curr.key, chains[b], b, k + 1);
    }

    /** `tuya_hashmap_get`: the newest value of the key. */
    method Get(key: Key) returns (rc: int, arg: Pointer)
      requires Valid()
      ensures if Values(key) == [] then rc == MAP_MISSING == -2 && arg == 0 else rc == MAP_OK == 0 && arg == Values(key)[0]
    {
      hide Bucket, Total;
      ghost var b;
      var e;
      e, b := Find(key);
      ValuesFrom(chains[b], key, 0);
      assert chains[b][0..] == chains[b];
      if e == null {
        return MAP_MISSING, 0;
      }
      return MAP_OK, e.data;
    }

    /** The loop TUYA_HASHMAP_FOR_EACH_DATA over `tuya_hashmap_data_traversal`: every value of the key
        once, newest first. */
    method ForEach(key: Key) returns (vals: seq<Pointer>)
      requires Valid()
      ensures vals == Values(key)
    {
      hide Bucket, Total, ChainOk, ValuesIn, FirstFrom;
      ghost var b;
      var e;
      e, b := Find(key);
      ghost var c, k := chains[b], FirstFrom(chains[b], key, 0);
      SkipTo(c, key, 0);
      assert c[0..] == c;
      vals := [];
      while e != null
        invariant 0 <= k <= |c| && e == At(c, k) && (k < |c| ==> c[k].key == key)
        invariant ValuesIn(c, key) == vals + ValuesIn(c[k..], key)
        decreases |c| - k
      {
        SkipTo(c, key, k);
        SkipTo(c, key, k + 1);
        ghost var rest := ValuesIn(c[k + 1..], key);
        assert vals + ([c[k].data] + rest) == (vals + [c[k].data]) + rest;
        vals := vals + [e.data];
        e := FindNext(e, b, k);
        k := FirstFrom(c, key, k + 1);
      }
      NoValues(c[k..], key);
    }

    /** `__tuya_hlist_del` of element v of bucket i, whose chain is c. */
    method Del(n: Element, ghost i: nat, ghost c: seq<Element>, ghost v: nat)
      requires i < heads.Length && heads[i] == At(c, 0) && Links(c, i) && v < |c| && n == c[v]
      requires forall k, l :: 0 <= k < l < |c| ==> c[k] != c[l]
      modifies heads, c
      ensures heads[i] == At(Drop(c, v), 0) && Links(Drop(c, v), i) && OnlyBucket(i, old(heads[..]))
    {
      var next, pprev := n.next, n.pprev;
      match pprev {
        case Head(j) => heads[j] := next;
        case NextOf(p) => p.next := next;
        case Nowhere => assert false;
      }
      if next != null {
        next.pprev := pprev;
      }
      ghost var d := Drop(c, v);
      forall k | 0 <= k < |d| ensures d[k].next == At(d, k + 1) && d[k].pprev == Before(d, i, k) {
        if k < v { assert d[k] == c[k]; } else { assert d[k] == c[k + 1]; }
      }
    }

    /** The scan of `tuya_hashmap_remove`: it stops at the first match, and otherwise ends with the
        last element in hand. */
    method Scan(i: nat, key: Key, data: Pointer) returns (tmp: Element)
      requires Valid() && i < |chains| && chains[i] != []
      ensures tmp == chains[i][Victim(chains[i], key, data)]
    {
      hide Bucket, Total;
      assert ChainOk(i);
      ghost var c, k := chains[i], 0;
      var pos := heads[i];
      tmp := pos;
      while pos != null
        invariant 0 <= k <= |c| && pos == At(c, k)
        invariant FirstMatch(c, key, data, 0) == FirstMatch(c, key, data, k)
        invariant tmp == if k == 0 then c[0] else c[k - 1]
        decreases |c| - k
      {
        tmp := pos;
        if tmp.key == key {
          if data == 0 || tmp.data == data {
            break;
          }
        }
        pos := pos.next;
        k := k + 1;
      }
    }

    /** `tuya_hashmap_remove`, exactly as it behaves. */
    method Remove(key: Key, data: Pointer) returns (rc: int)
      requires Valid()
      modifies this, heads, elements
      ensures Valid() && elements <= old(elements)
      ensures var b := Bucket(key, |old(chains)|);
              if old(chains)[b] == [] then rc == MAP_MISSING && chains == old(chains) && size == old(size)
              else rc == MAP_OK && size == old(size) - 1
                   && chains == old(chains)[b := Drop(old(chains)[b], Victim(old(chains)[b], key, data))]
    {
      hide Mix, BitwiseCrc, Bucket, Total, Links, Victim, Drop;
      var i := HashInt(key, heads.Length);
      assert ChainOk(i);
      if heads[i] == null {
        return MAP_MISSING;
      }
      ghost var c := chains[i];
      ghost var v := Victim(c, key, data);
      var tmp := Scan(i, key, data);
      Del(tmp, i, c, v);
      chains, elements := chains[i := Drop(c, v)], elements - {tmp};
      size := size - 1;
      DropInBucket(c, i, v, heads.Length);
      forall k | 0 <= k < |chains[i]| ensures chains[i][k] in elements { assert chains[i][k] in Drop(c, v); }
      forall j | 0 <= j < |chains| && j != i ensures ChainOk(j) {
        assert old(ChainOk(j));
        Apart(c, i, chains[j], j, heads.Length);
      }
      TotalUpdate(old(chains), i, Drop(c, v));
      rc := MAP_OK;
    }

    /** The same for a caller, in terms of values: a removal is right exactly when there is something
        to remove. */
    method RemoveValue(key: Key, data: Pointer) returns (rc: int, ghost hit: Key)
      requires Valid()
      modifies this, heads, elements
      ensures Valid() && |chains| == |old(chains)| && elements <= old(elements)
      ensures rc == MAP_MISSING ==> !old(Held(Values(key), data)) && chains == old(chains)
      ensures rc != MAP_MISSING ==> rc == MAP_OK && size == old(size) - 1 && (forall k :: k != hit ==> Values(k) == old(Values(k)))
      ensures old(Held(Values(key), data)) ==> rc == MAP_OK && hit == key && Values(key) == Without(old(Values(key)), data)
      ensures !old(Held(Values(key), data)) && rc == MAP_OK ==> exists oldest :: old(Values(hit)) == Values(hit) + [oldest]
    {
      hide Bucket, Victim, Drop, ValuesIn, Held, Without, Links, Total;
      ghost var cs, b := chains, Bucket(key, |chains|);
      forall i | 0 <= i < |cs| ensures InBucket(cs[i], i, |cs|) { assert ChainOk(i); }
      hit := key;
      rc := Remove(key, data);
      if cs[b] == [] {
        EmptyChain(key, data);
      } else {
        ghost var last := cs[b][|cs[b]| - 1];
        hit := if Held(ValuesOf(cs, key), data) then key else last.key;
        forall k | k != hit ensures ValuesOf(chains, k) == ValuesOf(cs, k) { RemovalSeen(cs, b, key, data, k); }
        RemovalSeen(cs, b, key, data, hit);
      }
    }

    static lemma EmptyChain(key: Key, data: Pointer)
      ensures !Held(ValuesIn([], key), data)
    {
    }

    static lemma DropInBucket(c: seq<Element>, i: nat, v: nat, tableSize: nat)
      requires tableSize > 0 && InBucket(c, i, tableSize) && v < |c|
      ensures |Drop(c, v)| == |c| - 1 && InBucket(Drop(c, v), i, tableSize) && c[v] !in Drop(c, v) && forall x :: x in Drop(c, v) ==> x in c
    {
      hide Bucket;
    }

    /** `tuya_hashmap_length`. */
    method Length() returns (n: int)
      requires Valid()
      ensures n == Total(chains)
    {
      n := size;
    }
  }

  /** In a table of one bucket, removing a key that was never put deletes another key's element and
      reports success. */
  method RemoveHitsOther() returns (rc: int, length: int)
    ensures rc == MAP_OK && length == 0
  {
    var m := Map.New(1);
    rc := m.Put([1], 5);
    assert Bucket([1], 1) == 0 && Bucket([2], 1) == 0;
    assert m.Values([1]) == [5] && m.chains[0] != [];
    rc := m.Remove([2], 0);
    length := m.Length();
  }
}
