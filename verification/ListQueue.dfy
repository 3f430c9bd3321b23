/** The circular doubly linked list of `tuya_list.c` and the bounded queue of `tuya_queue.c` on it. */
module ListQueue {
  import opened Basics

  type Item = seq<bv8>

  /** A list node together with the item it is embedded in (empty for a list head). */
  class Node {
    const item: Item
    var next: Node
    var prev: Node

    /** INIT_LIST_HEAD */
    constructor (item: Item)
      ensures this.item == item && next == this && prev == this
    {
      this.item := item;
      next, prev := this, this;
    }
  }

  // ------------------------------------------------------------------ rings

  /** Neighbours in the chain are linked both ways: `next` and `prev` are inverse to each other. */
  ghost predicate Chain(s: seq<Node>)
    reads s
  {
    forall k :: 0 < k < |s| ==> s[k - 1].next == s[k] && s[k].prev == s[k - 1]
  }

  ghost predicate Distinct(s: seq<Node>) {
    forall k, l :: 0 <= k < l < |s| ==> s[k] != s[l]
  }

  /** The head and its items, once round. */
  function Around(head: Node, items: seq<Node>): (s: seq<Node>)
    ensures |s| == |items| + 2
  {
    [head] + items + [head]
  }

  /** Starting at the head, `next` runs through the items in this order and back to the head, and
      `prev` runs the other way. */
  ghost predicate Ring(head: Node, items: seq<Node>)
    reads head, items
  {
    head !in items && Distinct(items) && Chain(Around(head, items))
  }

  /** A chain can be re-joined behind its last node and in front of its first. */
  ghost predicate Ends(a: seq<Node>, last: Node, b: seq<Node>, first: Node) {
    a != [] && b != [] && a[|a| - 1] == last && b[0] == first &&
    last !in a[..|a| - 1] && last !in b[..|b| - 1] && first !in b[1..] && first !in a[1..]
  }

  lemma ChainCut(s: seq<Node>, k: nat)
    requires Chain(s) && k <= |s|
    ensures Chain(s[..k]) && Chain(s[k..])
    ensures 0 < k < |s| ==> s[k - 1].next == s[k] && s[k].prev == s[k - 1]
  {
    var b := s[k..];
    forall j | 0 < j < |b| ensures b[j - 1].next == b[j] && b[j].prev == b[j - 1] {
      assert b[j] == s[k + j] && b[j - 1] == s[k + j - 1];
    }
  }

  lemma ChainJoin(a: seq<Node>, b: seq<Node>)
    requires Chain(a) && Chain(b) && a != [] && b != []
    requires a[|a| - 1].next == b[0] && b[0].prev == a[|a| - 1]
    ensures Chain(a + b)
  {
  }

  lemma ChainThrough(a: seq<Node>, n: Node, b: seq<Node>)
    requires Chain(a) && Chain(b) && a != [] && b != []
    requires a[|a| - 1].next == n && n.prev == a[|a| - 1] && n.next == b[0] && b[0].prev == n
    ensures Chain(a + ([n] + b))
  {
    ChainJoin([n], b);
    ChainJoin(a, [n] + b);
  }

  /** Only the free ends of the two chains are the nodes named. */
  lemma EndsApart(a: seq<Node>, last: Node, b: seq<Node>, first: Node)
    requires Ends(a, last, b, first)
    ensures forall k :: 0 < k < |a| ==> a[k] != first
    ensures forall k :: 0 <= k < |a| - 1 ==> a[k] != last
    ensures forall k :: 0 < k < |b| ==> b[k] != first
    ensures forall k :: 0 <= k < |b| - 1 ==> b[k] != last
  {
    assert forall k :: 0 < k < |a| ==> a[k] in a[1..];
    assert forall k :: 0 <= k < |a| - 1 ==> a[k] in a[..|a| - 1];
    assert forall k :: 0 < k < |b| ==> b[k] in b[1..];
    assert forall k :: 0 <= k < |b| - 1 ==> b[k] in b[..|b| - 1];
  }

  /** Where a ring is cut before item k, the two parts have free ends. */
  lemma CutEnds(head: Node, items: seq<Node>, k: nat, a: seq<Node>, b: seq<Node>)
    requires head !in items && Distinct(items) && k <= |items|
    requires a == [head] + items[..k] && b == items[k..] + [head]
    ensures a + b == Around(head, items) && Around(head, items)[..k + 1] == a && Around(head, items)[k + 1..] == b
    ensures Ends(a, a[k], b, b[0])
  {
    forall x | x in a[..k] ensures x != a[k] { var j :| 0 <= j < k && a[j] == x; }
    assert b[..|b| - 1] == items[k..];
    forall x | x in items[k..] ensures x != a[k] { var j :| k <= j < |items| && items[j] == x; }
    forall x | x in b[1..] ensures x != b[0] { var j :| 1 <= j < |b| && b[j] == x; }
    forall x | x in a[1..] ensures x != b[0] { var j :| 1 <= j < |a| && a[j] == x; assert x == items[j - 1]; }
  }

  // ------------------------------------------------------------------ tuya_list.c

  /** `__list_add` between the last node of one chain and the first of another. */
  method LinkBetween(n: Node, prev: Node, next: Node, ghost a: seq<Node>, ghost b: seq<Node>)
    requires Chain(a) && Chain(b) && Ends(a, prev, b, next) && n !in a && n !in b
    modifies n, prev, next
    ensures Chain(a + ([n] + b))
  {
    EndsApart(a, prev, b, next);
    next.prev := n;
    n.next := next;
    n.prev := prev;
    prev.next := n;
    ChainThrough(a, n, b);
  }

  /** `__list_del` of whatever stands between the two chains. */
  method Unlink(prev: Node, next: Node, ghost a: seq<Node>, ghost b: seq<Node>)
    requires Chain(a) && Chain(b) && Ends(a, prev, b, next)
    modifies prev, next
    ensures Chain(a + b)
  {
    EndsApart(a, prev, b, next);
    next.prev := prev;
    prev.next := next;
    ChainJoin(a, b);
  }

  /** What a walk along the ring finds next to place k: the head is place 0 and place |items| + 1. */
  lemma Steps(head: Node, items: seq<Node>, k: nat)
    requires Ring(head, items) && k <= |items|
    ensures Around(head, items)[k].next == Around(head, items)[k + 1]
    ensures Around(head, items)[k + 1].prev == Around(head, items)[k]
    ensures Around(head, items)[k + 1] == head <==> k == |items|
    ensures k < |items| ==> Around(head, items)[k + 1] == items[k]
  {
  }

  /** `tuya_list_empty` */
  method Empty(head: Node, ghost items: seq<Node>) returns (b: bool)
    requires Ring(head, items)
    ensures b <==> items == []
  {
    b := head.next == head;
    Steps(head, items, 0);
  }

  /** A ring cut before item k: two chains whose ends are neighbours. */
  lemma AroundGap(head: Node, items: seq<Node>, k: nat, a: seq<Node>, b: seq<Node>)
    requires Ring(head, items) && k <= |items|
    requires a == [head] + items[..k] && b == items[k..] + [head]
    ensures Chain(a) && Chain(b) && Ends(a, a[k], b, b[0]) && a[k].next == b[0] && b[0].prev == a[k]
  {
    CutEnds(head, items, k, a, b);
    ChainCut(Around(head, items), k + 1);
  }

  lemma AroundFront(head: Node, items: seq<Node>)
    requires Ring(head, items)
    ensures Chain([head]) && Chain(items + [head]) && Ends([head], head, items + [head], head.next)
  {
    assert [head] == [head] + items[..0] && items[0..] == items;
    AroundGap(head, items, 0, [head], items + [head]);
  }

  lemma AroundBack(head: Node, items: seq<Node>)
    requires Ring(head, items)
    ensures Chain([head] + items) && Chain([head]) && Ends([head] + items, head.prev, [head], head)
  {
    assert items == items[..|items|] && [head] == items[|items|..] + [head];
    AroundGap(head, items, |items|, [head] + items, [head]);
  }

  lemma AroundMore(head: Node, items: seq<Node>, n: Node)
    ensures Around(head, [n] + items) == [head] + ([n] + (items + [head]))
    ensures Around(head, items + [n]) == [head] + items + ([n] + [head])
  {
  }

  /** `tuya_list_add`: to the front. */
  method Add(n: Node, head: Node, ghost items: seq<Node>)
    requires Ring(head, items) && n != head && n !in items
    modifies n, head, items
    ensures Ring(head, [n] + items)
  {
    AroundFront(head, items);
    EndsIn([head], head, items + [head], head.next);
    DistinctJoin([n], items);
    AroundMore(head, items, n);
    hide Chain, Ends, Distinct, Around;
    LinkBetween(n, head, head.next, [head], items + [head]);
  }

  /** `tuya_list_add_tail`: to the back. */
  method AddTail(n: Node, head: Node, ghost items: seq<Node>)
    requires Ring(head, items) && n != head && n !in items
    modifies n, head, items
    ensures Ring(head, items + [n])
  {
    AroundBack(head, items);
    EndsIn([head] + items, head.prev, [head], head);
    DistinctJoin(items, [n]);
    AroundMore(head, items, n);
    hide Chain, Ends, Distinct, Around;
    LinkBetween(n, head.prev, head, [head] + items, [head]);
  }

  lemma WithoutItem(items: seq<Node>, k: nat)
    requires Distinct(items) && k < |items|
    ensures Distinct(items[..k] + items[k + 1..]) && items[k] !in items[..k] && items[k] !in items[k + 1..]
  {
  }

  /** A ring without item k: two chains whose ends are that item's neighbours. */
  lemma AroundItem(head: Node, items: seq<Node>, k: nat, a: seq<Node>, b: seq<Node>)
    requires Ring(head, items) && k < |items|
    requires a == [head] + items[..k] && b == items[k + 1..] + [head]
    ensures Chain(a) && Chain(b) && Ends(a, items[k].prev, b, items[k].next)
    ensures items[k] != head && items[k] !in a && items[k] !in b
    ensures head !in items[..k] + items[k + 1..] && Distinct(items[..k] + items[k + 1..])
    ensures Around(head, items[..k] + items[k + 1..]) == a + b
  {
    var rest := items[..k] + items[k + 1..];
    ItemChains(head, items, k, a, b);
    WithoutItem(items, k);
    ItemAway(head, items, k);
    hide Distinct, Chain, Around, Ends, Ring;
    assert rest[..k] == items[..k] && rest[k..] == items[k + 1..];
    CutEnds(head, rest, k, a, b);
  }

  lemma ItemAway(head: Node, items: seq<Node>, k: nat)
    requires head !in items && k < |items| && items[k] !in items[..k] && items[k] !in items[k + 1..]
    ensures items[k] != head && items[k] !in [head] + items[..k] && items[k] !in items[k + 1..] + [head]
    ensures head !in items[..k] + items[k + 1..]
  {
  }

  lemma ItemChains(head: Node, items: seq<Node>, k: nat, a: seq<Node>, b: seq<Node>)
    requires Ring(head, items) && k < |items|
    requires a == [head] + items[..k] && b == items[k + 1..] + [head]
    ensures Chain(a) && Chain(b) && items[k].prev == a[k] && items[k].next == b[0]
  {
    var all := Around(head, items);
    Steps(head, items, k);
    Steps(head, items, k + 1);
    assert all[k + 2] == b[0] && all[k] == a[k];
    ChainCut(all, k + 1);
    ChainCut(all, k + 2);
    assert all[..k + 1] == a;
    assert all[k + 2..] == b;
  }

  /** `tuya_list_del` */
  method Del(n: Node, head: Node, ghost items: seq<Node>, ghost k: nat)
    requires Ring(head, items) && k < |items| && n == items[k]
    modifies head, items
    ensures Ring(head, items[..k] + items[k + 1..])
    ensures n.next == old(n.next) && n.prev == old(n.prev)
  {
    ghost var a, b := [head] + items[..k], items[k + 1..] + [head];
    AroundItem(head, items, k, a, b);
    EndsIn(a, n.prev, b, n.next);
    hide Ends, Chain;
    Unlink(n.prev, n.next, a, b);
  }

  lemma EndsIn(a: seq<Node>, last: Node, b: seq<Node>, first: Node)
    requires Ends(a, last, b, first)
    ensures last in a && first in b
  {
  }

  lemma DistinctJoin(a: seq<Node>, b: seq<Node>)
    requires Distinct(a) && Distinct(b) && forall x <- a :: x !in b
    ensures Distinct(a + b)
  {
    var s := a + b;
    forall k, l | 0 <= k < l < |s| ensures s[k] != s[l] {
      if k < |a| <= l { assert s[k] in a && s[l] in b; }
    }
  }

  /** The items of a ring are a chain by themselves, and one with the head at their end. */
  lemma RingParts(head: Node, items: seq<Node>)
    requires Ring(head, items)
    ensures Chain(items) && Chain(items + [head])
    ensures head.next == (items + [head])[0]
    ensures items != [] ==> head.prev == items[|items| - 1]
  {
    var t := items + [head];
    Steps(head, items, 0);
    Steps(head, items, |items|);
    ChainCut(Around(head, items), 1);
    assert Around(head, items)[1..] == t && t[..|items|] == items;
    ChainCut(t, |items|);
  }

  lemma FirstItem(head: Node, items: seq<Node>)
    requires Ring(head, items)
    ensures head.next == Around(head, items)[1]
    ensures Around(head, items)[1] == head <==> items == []
    ensures items != [] ==> Around(head, items)[1] == items[0]
  {
    Steps(head, items, 0);
  }

  /** The second node of a ring is the first of the ring without its first item. */
  lemma SecondNode(head: Node, items: seq<Node>)
    requires items != []
    ensures Around(head, items)[1] == items[0] && Around(head, items)[2] == Around(head, items[1..])[1]
    ensures items[..0] + items[1..] == items[1..]
  {
  }

  /** `tuya_list_del` of the first item, with the node behind it read ahead. */
  method DelFirst(n: Node, head: Node, ghost items: seq<Node>) returns (next: Node)
    requires Ring(head, items) && items != [] && n == items[0]
    modifies head, items
    ensures Ring(head, items[1..]) && next == Around(head, items[1..])[1]
  {
    SecondNode(head, items);
    Steps(head, items, 1);
    hide Ring, Around, Distinct, Chain;
    next := n.next;
    Del(n, head, items, 0);
  }

  /** Where two rings are to be joined: behind the items of one, and before those of the other. */
  lemma SpliceEnds(a: seq<Node>, head: Node, b: seq<Node>)
    requires Distinct(a) && Distinct(b) && a != []
    requires head !in a && head !in b && forall x <- a :: x !in b
    ensures Ends(a, a[|a| - 1], b + [head], (b + [head])[0])
    ensures Ends([head], head, a + (b + [head]), a[0])
  {
    var t, u := a + (b + [head]), b + [head];
    CutEnds(head, b, 0, [head], u);
    CutEnds(head, a, 0, [head], a + [head]);
    assert t[..|t| - 1] == a + b && u[..|b|] == b;
    assert (a + [head])[1..] == a[1..] + [head];
    assert t[1..] == a[1..] + u;
    assert a[|a| - 1] in a && a[0] in a;
    assert forall x <- a[1..] :: x in a;
    LastApart(a);
  }

  lemma LastApart(a: seq<Node>)
    requires Distinct(a) && a != []
    ensures a[|a| - 1] !in a[..|a| - 1]
  {
  }

  /** `tuya_list_splice`: the items of `list` come before those of `head`; `list` itself is not
      touched, so it must be initialised before it is used again. */
  method Splice(list: Node, head: Node, ghost a: seq<Node>, ghost b: seq<Node>)
    requires Ring(list, a) && Ring(head, b)
    requires list != head && list !in b && head !in a && forall x <- a :: x !in b
    modifies head, a, b
    ensures Ring(head, a + b)
    ensures list.next == old(list.next) && list.prev == old(list.prev)
  {
    FirstItem(list, a);
    RingParts(list, a);
    RingParts(head, b);
    var first := list.next;
    if first == list {
      assert a == [] && a + b == b;
    } else {
      SpliceEnds(a, head, b);
      DistinctJoin(a, b);
      AroundBoth(head, a, b);
      hide Chain, Ends, Distinct, Around;
      JoinThree(list.prev, head.next, head, first, a, b + [head]);
    }
  }

  lemma AroundBoth(head: Node, a: seq<Node>, b: seq<Node>)
    ensures Around(head, a + b) == [head] + (a + (b + [head])) && (head !in a && head !in b ==> head !in a + b)
  {
  }

  /** The four writes of the splice. */
  method JoinThree(last: Node, at: Node, head: Node, first: Node, ghost a: seq<Node>, ghost t: seq<Node>)
    requires Chain(a) && Chain(t) && Ends(a, last, t, at) && Ends([head], head, a + t, first)
    requires a[0] == first
    modifies first, head, last, at
    ensures Chain([head] + (a + t))
  {
    EndsApart(a, last, t, at);
    EndsApart([head], head, a + t, first);
    assert forall k :: 0 < k < |a| ==> a[k] == (a + t)[k];
    assert forall k :: 0 < k < |t| ==> t[k] == (a + t)[|a| + k];
    assert forall k :: 0 <= k < |a| ==> a[k] == (a + t)[k];
    assert forall k :: 0 <= k < |t| ==> t[k] == (a + t)[|a| + k];
    first.prev := head;
    head.next := first;
    last.next := at;
    at.prev := last;
    assert Chain(a);
    assert Chain(t);
    ChainJoin(a, t);
    ChainJoin([head], a + t);
  }

  // ------------------------------------------------------------------ tuya_queue.c

  datatype Status = Ok | InvalidParm | ExceedUpperLimit | NotFound

  datatype Policy = SendToBack | SendToFront

  /** The items from place start on, at most num of them. */
  function Batch(all: seq<Item>, start: nat, num: nat): seq<Item> {
    if start >= |all| then [] else if start + num <= |all| then all[start..start + num] else all[start..]
  }

  ghost function ItemsOf(nodes: seq<Node>): (s: seq<Item>)
    ensures |s| == |nodes| && forall k :: 0 <= k < |s| ==> s[k] == nodes[k].item
  {
    seq(|nodes|, k requires 0 <= k < |nodes| => nodes[k].item)
  }

  lemma ItemsMore(nodes: seq<Node>, n: Node)
    ensures ItemsOf(nodes + [n]) == ItemsOf(nodes) + [n.item] && ItemsOf([n] + nodes) == [n.item] + ItemsOf(nodes)
  {
  }

  lemma ItemsFrom(nodes: seq<Node>, k: nat)
    requires k <= |nodes|
    ensures ItemsOf(nodes[k..]) == ItemsOf(nodes)[k..]
  {
  }

  lemma ItemsTail(nodes: seq<Node>)
    requires nodes != []
    ensures ItemsOf(nodes) == [nodes[0].item] + ItemsOf(nodes[1..])
  {
  }

  /** k items of `size` bytes. */
  function Bytes(k: nat, size: nat): nat {
    if k == 0 then 0 else Bytes(k - 1, size) + size
  }

  lemma {:induction false} BytesIsProduct(k: nat, size: nat)
    ensures Bytes(k, size) == k * size
  {
    if k > 0 {
      BytesIsProduct(k - 1, size);
      assert k * size == (k - 1) * size + size;
    }
  }

  lemma {:induction false} BytesGrow(j: nat, k: nat, size: nat)
    requires j <= k
    ensures Bytes(j, size) <= Bytes(k, size)
  {
    if j < k { BytesGrow(j, k - 1, size); }
  }

  /** A number in 32 bits. */
  function Low32(x: nat): (y: nat)
    ensures y <= x && (x < UINT ==> y == x) && y < 0x1_0000_0000 && (x - y) % 0x1_0000_0000 == 0
  {
    x % UINT
  }

  ghost predicate Uniform(its: seq<Item>, size: nat) {
    forall k :: 0 <= k < |its| ==> |its[k]| == size
  }

  /** A buffer with an item copied over it at offset o. */
  ghost function Over(w: seq<bv8>, o: nat, item: Item): (r: seq<bv8>)
    requires o + |item| <= |w|
    ensures |r| == |w|
  {
    w[..o] + item + w[o + |item|..]
  }

  /** A buffer after items were copied to it one after the other, the offset of each computed in 32
      bits. */
  ghost function Written(buf: seq<bv8>, its: seq<Item>, size: nat): (w: seq<bv8>)
    requires Uniform(its, size) && Bytes(|its|, size) <= |buf|
    ensures |w| == |buf|
    decreases |its|
  {
    if its == [] then buf
    else Over(Written(buf, its[..|its| - 1], size), Low32(Bytes(|its| - 1, size)), its[|its| - 1])
  }

  ghost predicate Copies(buf: seq<bv8>, buf': seq<bv8>, its: seq<Item>, size: nat) {
    Uniform(its, size) && Bytes(|its|, size) <= |buf| && buf' == Written(buf, its, size)
  }

  lemma NoBatch(all: seq<Item>, start: nat, buf: seq<bv8>, size: nat)
    ensures Batch(all, start, 0) == [] && Copies(buf, buf, [], size)
  {
  }

  lemma IsBatch(all: seq<Item>, start: nat, num: nat, k: nat, count: nat)
    requires count <= k <= |all| && count <= num && k - count <= start && (count > 0 ==> k - count == start)
    requires k == |all| || (k - count == start && count == num)
    ensures all[k - count..k] == Batch(all, start, num)
  {
  }

  ghost function Flat(its: seq<Item>): seq<bv8> {
    if its == [] then [] else Flat(its[..|its| - 1]) + its[|its| - 1]
  }

  lemma {:induction false} FlatLength(its: seq<Item>, size: nat)
    requires Uniform(its, size)
    ensures |Flat(its)| == Bytes(|its|, size)
  {
    if its != [] { FlatLength(its[..|its| - 1], size); }
  }

  lemma OverEnd(f: seq<bv8>, buf: seq<bv8>, item: Item)
    requires |f| + |item| <= |buf|
    ensures Over(f + buf[|f|..], |f|, item) == f + item + buf[|f| + |item|..]
  {
    var w, o := f + buf[|f|..], |f| + |item|;
    assert w[..|f|] == f;
    assert w[o..] == buf[o..];
  }

  /** As long as no offset wraps, the buffer holds the items one behind the other. */
  lemma {:induction false} WrittenIsFlat(buf: seq<bv8>, its: seq<Item>, size: nat)
    requires Uniform(its, size) && Bytes(|its|, size) <= |buf|
    requires its != [] ==> Bytes(|its| - 1, size) < UINT
    ensures Written(buf, its, size) == Flat(its) + buf[Bytes(|its|, size)..]
    decreases |its|
  {
    if its == [] {
      assert buf[0..] == buf;
    } else {
      var n := |its| - 1;
      var init := its[..n];
      if n > 0 { BytesGrow(n - 1, n, size); }
      WrittenIsFlat(buf, init, size);
      FlatLength(init, size);
      OverEnd(Flat(init), buf, its[n]);
      hide Low32, Over;
    }
  }

  /** A bounded double-ended queue of fixed-size items. */
  class Queue {
    const itemSize: nat
    const queueLen: nat
    var queueFree: nat
    const head: Node
    ghost var nodes: seq<Node>

    ghost predicate Valid()
      reads this, head, nodes
    {
      Ring(head, nodes) && queueFree + |nodes| == queueLen && 0 < queueLen && 0 < itemSize &&
      forall n <- nodes :: |n.item| == itemSize
    }

    /** The items in the order they come out. */
    ghost function Items(): seq<Item>
      reads this
    {
      ItemsOf(nodes)
    }

    constructor (queueLen: nat, itemSize: nat)
      requires 0 < queueLen && 0 < itemSize
      ensures Valid() && nodes == [] && this.queueLen == queueLen && this.itemSize == itemSize
      ensures fresh(head)
    {
      this.queueLen, this.itemSize, queueFree, nodes := queueLen, itemSize, queueLen, [];
      head := new Node([]);
    }

    /** `tuya_queue_create`: refuses a length or an item size of zero. */
    static method Create(queueLen: nat, itemSize: nat) returns (rc: Status, q: Queue?)
      ensures rc == if queueLen == 0 || itemSize == 0 then InvalidParm else Ok
      ensures rc == Ok <==> q != null
      ensures q != null ==> fresh(q) && fresh(q.head) && q.nodes == []
      ensures q != null ==> q.Valid() && q.Items() == [] && q.queueLen == queueLen && q.itemSize == itemSize
    {
      if queueLen == 0 || itemSize == 0 {
        return InvalidParm, null;
      }
      q := new Queue(queueLen, itemSize);
      rc := Ok;
    }

    /** `__enqueue`: the first itemSize bytes of the buffer are copied. */
    method Enqueue(buffer: seq<bv8>, policy: Policy) returns (rc: Status)
      requires Valid() && itemSize <= |buffer|
      modifies this`queueFree, this`nodes, head, nodes
      ensures Valid()
      ensures forall k :: 0 <= k < |nodes| ==> nodes[k] in old(nodes) || fresh(nodes[k])
      ensures rc == if |old(Items())| == queueLen then ExceedUpperLimit else Ok
      ensures Items() ==
              if rc != Ok then old(Items())
              else if policy.SendToBack? then old(Items()) + [buffer[..itemSize]]
              else [buffer[..itemSize]] + old(Items())
    {
      hide Ring, ItemsOf;
      var n := new Node(buffer[..itemSize]);
      ghost var was := nodes;
      ItemsMore(was, n);
      if queueFree > 0 {
        match policy {
          case SendToBack =>
            AddTail(n, head, nodes);
            nodes := nodes + [n];
          case SendToFront =>
            Add(n, head, nodes);
            nodes := [n] + nodes;
        }
        queueFree := queueFree - 1;
        rc := Ok;
      } else {
        rc := ExceedUpperLimit;
      }
    }

    /** Takes the first node off the list. */
    method TakeFirst() returns (item: Item)
      requires Valid() && nodes != []
      modifies this`queueFree, this`nodes, head, nodes
      ensures Valid() && nodes == old(nodes)[1..] && item == old(nodes)[0].item
    {
      Steps(head, nodes, 0);
      SecondNode(head, nodes);
      hide Ring, Around, Distinct, ItemsOf;
      var n := head.next;
      item := n.item;
      var _ := DelFirst(n, head, nodes);
      nodes := nodes[1..];
      queueFree := queueFree + 1;
    }

    /** `tuya_queue_output`: the item copied out, if there is one. */
    method Output() returns (rc: Status, item: Item)
      requires Valid()
      modifies this`queueFree, this`nodes, head, nodes
      ensures Valid()
      ensures rc == if old(Items()) == [] then NotFound else Ok
      ensures forall k :: 0 <= k < |nodes| ==> nodes[k] in old(nodes)
      ensures if rc == Ok then old(Items()) == [item] + Items() && nodes == old(nodes)[1..]
              else Items() == old(Items()) && nodes == old(nodes)
    {
      hide Ring, ItemsOf;
      if queueFree < queueLen {
        ItemsTail(nodes);
        item := TakeFirst();
        rc := Ok;
      } else {
        rc, item := NotFound, [];
      }
    }

    /** `tuya_queue_peek` */
    method Peek() returns (rc: Status, item: Item)
      requires Valid()
      ensures rc == if Items() == [] then NotFound else Ok
      ensures rc == Ok ==> item == Items()[0]
    {
      if queueFree < queueLen {
        Steps(head, nodes, 0);
        rc, item := Ok, head.next.item;
      } else {
        rc, item := NotFound, [];
      }
    }

    /** `tuya_queue_clear`: unlink node by node, the next one read ahead. */
    method Clear()
      requires Valid()
      modifies this`queueFree, this`nodes, head, nodes
      ensures Valid() && nodes == [] && Items() == [] && queueFree == queueLen
    {
      Steps(head, nodes, 0);
      var p := head.next;
      Unlinked(p);
      queueFree := queueLen;
    }

    /** The loop of clear, from the first node p on. */
    method Unlinked(p0: Node)
      requires Ring(head, nodes) && p0 == Around(head, nodes)[1]
      modifies this`nodes, head, nodes
      ensures Ring(head, nodes) && nodes == []
    {
      hide Ring, Distinct;
      var p := p0;
      ghost var was := nodes;
      while p != head
        invariant Ring(head, nodes) && forall k :: 0 <= k < |nodes| ==> nodes[k] in was
        invariant p == Around(head, nodes)[1]
        decreases |nodes|
      {
        FirstItem(head, nodes);
        hide Around;
        p := DelFirst(p, head, nodes);
        nodes := nodes[1..];
      }
      FirstItem(head, nodes);
    }

    /** `tuya_queue_get_batch`: the items found are copied to the buffer in order, also when they are
        fewer than asked for. */
    method GetBatch(start: nat, items: array<bv8>, num: nat) returns (rc: Status)
      requires Valid() && Bytes(num, itemSize) <= items.Length
      modifies items
      ensures num == 0 ==> rc == InvalidParm
      ensures num > 0 ==> rc == if start + num <= |Items()| then Ok else NotFound
      ensures Copies(old(items[..]), items[..], Batch(Items(), start, num), itemSize)
      ensures num > 0 && start + num <= |Items()| && Bytes(num - 1, itemSize) < UINT ==>
                items[..] == Flat(Items()[start..start + num]) + old(items[..])[Bytes(num, itemSize)..]
    {
      ghost var was, all := items[..], Items();
      NoBatch(all, start, was, itemSize);
      hide Ring, Around, Distinct, Chain, Written, Flat, Bytes, Batch, ItemsOf;
      if num == 0 {
        return InvalidParm;
      }
      var index, count;
      ghost var k;
      index, count, k := Collect(start, items, num);
      IsBatch(all, start, num, k, count);
      rc := if index != start || count != num then NotFound else Ok;
      if rc == Ok && Bytes(num - 1, itemSize) < UINT { WrittenIsFlat(was, all[k - count..k], itemSize); }
    }

    /** The loop: it has passed k items, the last count of which were copied. */
    method Collect(start: nat, items: array<bv8>, num: nat) returns (index: nat, count: nat, ghost k: nat)
      requires Valid() && Bytes(num, itemSize) <= items.Length && num > 0
      modifies items
      ensures index <= start && index + count == k <= |Items()| && count <= num && (count > 0 ==> index == start)
      ensures k == |Items()| || (index == start && count == num)
      ensures Copies(old(items[..]), items[..], Items()[index..k], itemSize)
    {
      hide Ring, Around, Distinct, Chain, Written, Bytes, Batch, Copies, Uniform, ItemsOf;
      Steps(head, nodes, 0);
      FirstItem(head, nodes);
      index, count, k := 0, 0, 0;
      ghost var was, all := items[..], Items();
      NoBatch([], 0, was, itemSize);
      assert all[0..0] == [];
      var p := head.next;
      while p != head
        invariant k <= |nodes| && p == Around(head, nodes)[k + 1] && (p == head <==> k == |nodes|) && (p != head ==> p == nodes[k])
        invariant index <= start && index + count == k && count <= num && (count > 0 ==> index == start)
        invariant Copies(was, items[..], all[index..k], itemSize)
        decreases |nodes| - k
      {
        Steps(head, nodes, k + 1);
        var next := p.next;
        if index < start {
          assert all[index..k] == [] == all[index + 1..k + 1];
          index := index + 1;
        } else {
          if count >= num { break; }
          BytesGrow(count + 1, num, itemSize);
          assert p.item == all[k];
          CopyItem(items, p.item, count, was, all[index..k]);
          assert all[index..k + 1] == all[index..k] + [p.item];
          count := count + 1;
        }
        k := k + 1;
        p := next;
      }
    }

    /** memcpy of one item to its place in the buffer. */
    method CopyItem(items: array<bv8>, item: Item, count: nat, ghost was: seq<bv8>, ghost before: seq<Item>)
      requires |item| == itemSize && |before| == count && Bytes(count + 1, itemSize) <= |was|
      requires Copies(was, items[..], before, itemSize)
      modifies items
      ensures Copies(was, items[..], before + [item], itemSize)
    {
      hide Low32, Over;
      BytesIsProduct(count, itemSize);
      PutItem(items, Low32(count * itemSize), item);
      assert (before + [item])[..count] == before;
    }

    static method PutItem(items: array<bv8>, o: nat, item: Item)
      requires o + |item| <= items.Length
      modifies items
      ensures items[..] == Over(old(items[..]), o, item)
    {
      forall i | 0 <= i < |item| { items[o + i] := item[i]; }
    }

    /** `tuya_queue_delete_batch` */
    method DeleteBatch(num: nat) returns (rc: Status)
      requires Valid()
      modifies this`queueFree, this`nodes, head, nodes
      ensures Valid()
      ensures num == 0 ==> rc == InvalidParm
      ensures num > 0 ==> rc == if num <= |old(Items())| then Ok else NotFound
      ensures Items() == old(Items())[if num <= |old(Items())| then num else |old(Items())|..]
      ensures forall k :: 0 <= k < |nodes| ==> nodes[k] in old(nodes)
    {
      hide Ring, ItemsOf, Valid;
      if num == 0 { return InvalidParm; }
      rc := Ok;
      var count := num;
      ghost var was := nodes;
      while count > 0 && rc == Ok
        invariant Valid() && 0 <= count <= num
        invariant if rc == Ok then num - count <= |was| && nodes == was[num - count..]
                  else rc == NotFound && nodes == [] && |was| < num
        decreases count
      {
        count := count - 1;
        var item;
        rc, item := Output();
      }
      ItemsFrom(was, |was| - |nodes|);
    }

    /** `tuya_queue_get_free_num`, `tuya_queue_get_used_num`, `tuya_queue_get_max_num` */
    method Counters() returns (free: nat, used: nat, max: nat)
      requires Valid()
      ensures used == |Items()| && free + used == max == queueLen
    {
      free, used, max := queueFree, queueLen - queueFree, queueLen;
    }
  }
}
