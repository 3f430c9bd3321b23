/** The blocking message queue of `tkl_queue.c` as a transition system: any number of threads, one
    step per critical section, and steps for what happens to a thread inside a condition wait. */
module QueueSpec {
  import opened Basics

  type Thread = nat
  type Message = seq<int>

  /** `wait_ms`: RPA_WAIT_NONE, a time, RPA_WAIT_FOREVER. */
  datatype Wait = NoWait | Timed | Forever

  /** TKL_QUEUE_WAIT_FROEVER */
  const WAIT_FOREVER: nat := 0xFFFF_FFFF

  /** How `tkl_queue_post` and `tkl_queue_fetch` read their timeout. */
  function WaitOf(timeout: nat): Wait {
    if timeout == WAIT_FOREVER then Forever else if timeout == 0 then NoWait else Timed
  }

  /** A thread inside a condition wait: still asleep, or awake and about to take the mutex again
      because it was signalled, woke for no reason, or timed out. */
  datatype Wake = Asleep | Signalled | Spurious | TimedOut

  datatype Waiter =
    | Poster(wake: Wake, forever: bool, msg: Message)
    | Fetcher(wake: Wake, forever: bool)

  /** `posted` and `fetched` record the successful calls in the order of their critical sections. */
  datatype Queue = Queue(
    data: seq<Message>, nelts: nat, next_in: nat, next_out: nat, bounds: nat,
    full_waiters: int, empty_waiters: int,
    waiters: map<Thread, Waiter>, posted: seq<Message>, fetched: seq<Message>)

  /** What a call returns, or that it is waiting. */
  datatype Outcome = Posted | Fetched(msg: Message) | Failed | Waiting

  /** `pick` is the thread that the signal of the critical section wakes, if it wakes one. */
  datatype Action =
    | Post(t: Thread, msg: Message, wait: Wait, pick: Option<Thread>)
    | Fetch(t: Thread, wait: Wait, pick: Option<Thread>)
    | WakeUp(t: Thread)
    | TimeOut(t: Thread)
    | Resume(t: Thread, pick: Option<Thread>)

  function Wrap(x: nat, bounds: nat): nat { if x >= bounds then x - bounds else x }

  function Full(q: Queue): bool { q.nelts == q.bounds }
  function Empty(q: Queue): bool { q.nelts == 0 }

  /** The messages in the queue, oldest first. */
  function Contents(q: Queue): (c: seq<Message>)
    requires |q.data| == q.bounds && q.nelts <= q.bounds && (q.nelts > 0 ==> q.next_out < q.bounds)
    ensures |c| == q.nelts
  {
    seq(q.nelts, i requires 0 <= i < q.nelts => q.data[Wrap(q.next_out + i, q.bounds)])
  }

  /** Threads asleep or signalled, posters or fetchers. */
  ghost function FetchersIn(w: map<Thread, Waiter>): set<Thread> { set t | t in w && w[t].Fetcher? }
  ghost function PostersIn(w: map<Thread, Waiter>): set<Thread> { set t | t in w && w[t].Poster? }
  ghost function FetchersBeing(w: map<Thread, Waiter>, k: Wake): set<Thread> { set t | t in w && w[t].Fetcher? && w[t].wake == k }
  ghost function PostersBeing(w: map<Thread, Waiter>, k: Wake): set<Thread> { set t | t in w && w[t].Poster? && w[t].wake == k }

  /** What `pthread_cond_signal(not_empty)` may wake: some sleeping fetcher, if there is one. It is
      only called when `empty_waiters` is not zero. */
  ghost predicate SignalsFetcher(q: Queue, pick: Option<Thread>) {
    match pick
    case None => q.empty_waiters == 0 || FetchersBeing(q.waiters, Asleep) == {}
    case Some(t) => q.empty_waiters != 0 && t in FetchersBeing(q.waiters, Asleep)
  }

  ghost predicate SignalsPoster(q: Queue, pick: Option<Thread>) {
    match pick
    case None => q.full_waiters == 0 || PostersBeing(q.waiters, Asleep) == {}
    case Some(t) => q.full_waiters != 0 && t in PostersBeing(q.waiters, Asleep)
  }

  function Signal(w: map<Thread, Waiter>, pick: Option<Thread>): map<Thread, Waiter> {
    if pick.Some? && pick.value in w then w[pick.value := w[pick.value].(wake := Signalled)] else w
  }

  /** The end of a successful push: store, advance, count, signal. */
  function Push(q: Queue, msg: Message, pick: Option<Thread>): Queue
    requires q.next_in < |q.data|
  {
    q.(data := q.data[q.next_in := msg], next_in := Wrap(q.next_in + 1, q.bounds), nelts := q.nelts + 1,
       waiters := Signal(q.waiters, pick), posted := q.posted + [msg])
  }

  /** The end of a successful pop: load, count, advance, signal. */
  function Pop(q: Queue, pick: Option<Thread>): (Message, Queue)
    requires q.nelts > 0 && q.next_out < |q.data|
  {
    var msg := q.data[q.next_out];
    (msg, q.(nelts := q.nelts - 1, next_out := Wrap(q.next_out + 1, q.bounds),
             waiters := Signal(q.waiters, pick), fetched := q.fetched + [msg]))
  }

  /** One step of the system, with what the call it belongs to returns. */
  ghost predicate Next(q: Queue, a: Action, q': Queue, r: Outcome) {
    match a
    case Post(t, msg, wait, pick) =>
      && t !in q.waiters
      && if !Full(q) then q.next_in < |q.data| && SignalsFetcher(q, pick) && q' == Push(q, msg, pick) && r == Posted
         else if wait.NoWait? then q' == q && r == Failed
         else r == Waiting && q' == q.(full_waiters := q.full_waiters + 1, waiters := q.waiters[t := Poster(Asleep, wait.Forever?, msg)])
    case Fetch(t, wait, pick) =>
      && t !in q.waiters
      && if !Empty(q) then q.next_out < |q.data| && SignalsPoster(q, pick) && q' == Pop(q, pick).1 && r == Fetched(Pop(q, pick).0)
         else if wait.NoWait? then q' == q && r == Failed
         else r == Waiting && q' == q.(empty_waiters := q.empty_waiters + 1, waiters := q.waiters[t := Fetcher(Asleep, wait.Forever?)])
    case WakeUp(t) =>
      && t in q.waiters && q.waiters[t].wake == Asleep && r == Waiting
      && q' == q.(waiters := q.waiters[t := q.waiters[t].(wake := Spurious)])
    case TimeOut(t) =>
      && t in q.waiters && q.waiters[t].wake == Asleep && !q.waiters[t].forever && r == Waiting
      && q' == q.(waiters := q.waiters[t := q.waiters[t].(wake := TimedOut)])
    case Resume(t, pick) =>
      && t in q.waiters && q.waiters[t].wake != Asleep
      && var w := q.waiters[t];
         var left := Leave(q, t);
         if w.wake == TimedOut then q' == left && r == Failed
         else if w.Poster? then
           if Full(left) then q' == left && r == Failed
           else left.next_in < |left.data| && SignalsFetcher(left, pick) && q' == Push(left, w.msg, pick) && r == Posted
         else
           if Empty(left) then q' == left && r == Failed
           else left.next_out < |left.data| && SignalsPoster(left, pick) && q' == Pop(left, pick).1 && r == Fetched(Pop(left, pick).0)
  }

  /** A thread that got the mutex back first gives up its place among the waiters. */
  function Leave(q: Queue, t: Thread): Queue
    requires t in q.waiters
  {
    if q.waiters[t].Poster? then q.(full_waiters := q.full_waiters - 1, waiters := q.waiters - {t})
    else q.(empty_waiters := q.empty_waiters - 1, waiters := q.waiters - {t})
  }

  function Created(bounds: nat, garbage: seq<Message>): Queue {
    Queue(garbage, 0, 0, 0, bounds, 0, 0, map[], [], [])
  }

  // ---------- What every step keeps ----------

  ghost predicate RingOk(q: Queue) {
    && 0 < q.bounds == |q.data|
    && q.nelts <= q.bounds && q.next_out < q.bounds
    && q.next_in == Wrap(q.next_out + q.nelts, q.bounds)
    && q.posted == q.fetched + Contents(q)
  }

  /** The counters are the numbers of threads inside the waits. */
  ghost predicate CountersOk(q: Queue) {
    q.empty_waiters == |FetchersIn(q.waiters)| && q.full_waiters == |PostersIn(q.waiters)|
  }

  /** No lost wakeup: while a fetcher sleeps, every message in the queue has a signalled fetcher on
      its way to it; while a poster sleeps, every free slot has a signalled poster. */
  ghost predicate NoLostWakeup(q: Queue) {
    FetchersCovered(q, 0) && PostersCovered(q, 0)
  }

  ghost predicate FetchersCovered(q: Queue, slack: nat) {
    FetchersBeing(q.waiters, Asleep) != {} ==> q.nelts <= |FetchersBeing(q.waiters, Signalled)| + slack
  }

  ghost predicate PostersCovered(q: Queue, slack: nat) {
    PostersBeing(q.waiters, Asleep) != {} ==> q.bounds - q.nelts <= |PostersBeing(q.waiters, Signalled)| + slack
  }

  ghost predicate Inv(q: Queue) {
    RingOk(q) && CountersOk(q) && NoLostWakeup(q)
  }

  lemma CreatedInv(bounds: nat, garbage: seq<Message>)
    requires 0 < bounds == |garbage|
    ensures Inv(Created(bounds, garbage)) && Contents(Created(bounds, garbage)) == []
  {
    var q := Created(bounds, garbage);
    assert FetchersIn(q.waiters) == {} && PostersIn(q.waiters) == {};
    assert FetchersBeing(q.waiters, Asleep) == {} && PostersBeing(q.waiters, Asleep) == {};
  }

  /** A push appends to the contents. */
  lemma PushAppends(q: Queue, msg: Message, pick: Option<Thread>)
    requires RingOk(q) && !Full(q)
    ensures q.next_in < |q.data| && RingOk(Push(q, msg, pick)) && Contents(Push(q, msg, pick)) == Contents(q) + [msg]
  {
    var q' := Push(q, msg, pick);
    var c, c' := Contents(q), Contents(q');
    forall i | 0 <= i < |c'| ensures c'[i] == (c + [msg])[i] {
      if i < q.nelts { assert Wrap(q.next_out + i, q.bounds) != q.next_in; }
    }
    assert q'.posted == q'.fetched + c';
  }

  /** A pop takes the oldest message. */
  lemma PopTakesOldest(q: Queue, pick: Option<Thread>)
    requires RingOk(q) && !Empty(q)
    ensures RingOk(Pop(q, pick).1) && Contents(q) == [Pop(q, pick).0] + Contents(Pop(q, pick).1)
  {
    var (msg, q') := Pop(q, pick);
    var c, c' := Contents(q), Contents(q');
    forall i | 0 <= i < |c| ensures c[i] == ([msg] + c')[i] {
      assert c[i] == q.data[Wrap(q.next_out + i, q.bounds)];
      if i > 0 {
        assert c'[i - 1] == q'.data[Wrap(q'.next_out + (i - 1), q'.bounds)];
        assert Wrap(q'.next_out + (i - 1), q.bounds) == Wrap(q.next_out + i, q.bounds);
      }
    }
    assert c == [msg] + c';
    assert q'.posted == q'.fetched + c';
  }

  // Effects on the sets of waiters.

  lemma SignalSets(w: map<Thread, Waiter>, t: Thread)
    requires t in w && w[t].wake == Asleep
    ensures var w' := Signal(w, Some(t));
            && FetchersIn(w') == FetchersIn(w) && PostersIn(w') == PostersIn(w)
            && FetchersBeing(w', Asleep) == FetchersBeing(w, Asleep) - {t}
            && PostersBeing(w', Asleep) == PostersBeing(w, Asleep) - {t}
            && FetchersBeing(w', Signalled) == FetchersBeing(w, Signalled) + (if w[t].Fetcher? then {t} else {})
            && PostersBeing(w', Signalled) == PostersBeing(w, Signalled) + (if w[t].Poster? then {t} else {})
  {
  }

  /** The same for a signal that may wake nobody. */
  lemma SignalledSets(w: map<Thread, Waiter>, pick: Option<Thread>)
    ensures pick.None? ==> Signal(w, pick) == w
    ensures pick.Some? && pick.value in w && w[pick.value].wake == Asleep ==>
              var t := pick.value;
              var w' := Signal(w, pick);
              && FetchersIn(w') == FetchersIn(w) && PostersIn(w') == PostersIn(w)
              && FetchersBeing(w', Asleep) == FetchersBeing(w, Asleep) - {t}
              && PostersBeing(w', Asleep) == PostersBeing(w, Asleep) - {t}
              && FetchersBeing(w', Signalled) == FetchersBeing(w, Signalled) + (if w[t].Fetcher? then {t} else {})
              && PostersBeing(w', Signalled) == PostersBeing(w, Signalled) + (if w[t].Poster? then {t} else {})
  {
    if pick.Some? && pick.value in w && w[pick.value].wake == Asleep { SignalSets(w, pick.value); }
  }

  /** The ring does not depend on the waiters. */
  lemma SameRingOk(q: Queue, q': Queue)
    requires RingOk(q) && q'.data == q.data && q'.nelts == q.nelts && q'.next_in == q.next_in && q'.next_out == q.next_out
    requires q'.bounds == q.bounds && q'.posted == q.posted && q'.fetched == q.fetched
    ensures RingOk(q')
  {
    SameRing(q, q');
    hide Contents;
  }

  lemma LeaveSets(w: map<Thread, Waiter>, t: Thread)
    requires t in w
    ensures var w' := w - {t};
            && FetchersIn(w') == FetchersIn(w) - {t} && PostersIn(w') == PostersIn(w) - {t}
            && FetchersBeing(w', Asleep) == FetchersBeing(w, Asleep) - {t} && PostersBeing(w', Asleep) == PostersBeing(w, Asleep) - {t}
            && FetchersBeing(w', Signalled) == FetchersBeing(w, Signalled) - {t} && PostersBeing(w', Signalled) == PostersBeing(w, Signalled) - {t}
  {
  }

  lemma SleepSets(w: map<Thread, Waiter>, t: Thread, x: Waiter)
    requires t !in w && x.wake == Asleep
    ensures var w' := w[t := x];
            && FetchersIn(w') == FetchersIn(w) + (if x.Fetcher? then {t} else {}) && PostersIn(w') == PostersIn(w) + (if x.Poster? then {t} else {})
            && FetchersBeing(w', Asleep) == FetchersBeing(w, Asleep) + (if x.Fetcher? then {t} else {})
            && PostersBeing(w', Asleep) == PostersBeing(w, Asleep) + (if x.Poster? then {t} else {})
            && FetchersBeing(w', Signalled) == FetchersBeing(w, Signalled) && PostersBeing(w', Signalled) == PostersBeing(w, Signalled)
  {
  }

  lemma WakeSets(w: map<Thread, Waiter>, t: Thread, k: Wake)
    requires t in w && w[t].wake == Asleep && (k == Spurious || k == TimedOut)
    ensures var w' := w[t := w[t].(wake := k)];
            && FetchersIn(w') == FetchersIn(w) && PostersIn(w') == PostersIn(w)
            && FetchersBeing(w', Asleep) == FetchersBeing(w, Asleep) - {t} && PostersBeing(w', Asleep) == PostersBeing(w, Asleep) - {t}
            && FetchersBeing(w', Signalled) == FetchersBeing(w, Signalled) && PostersBeing(w', Signalled) == PostersBeing(w, Signalled)
  {
  }

  /** A push, by a thread that takes up a slot of its own or one it was signalled for. */
  lemma PushKeeps(q: Queue, msg: Message, pick: Option<Thread>)
    requires RingOk(q) && CountersOk(q) && FetchersCovered(q, 0) && PostersCovered(q, 1)
    requires !Full(q) && SignalsFetcher(q, pick)
    ensures q.next_in < |q.data| && Inv(Push(q, msg, pick))
  {
    PushAppends(q, msg, pick);
    SignalledSets(q.waiters, pick);
    assert pick.Some? ==> pick.value in FetchersBeing(q.waiters, Asleep) && pick.value !in FetchersBeing(q.waiters, Signalled) && q.waiters[pick.value].Fetcher?;
    hide RingOk, Contents, FetchersIn, PostersIn, FetchersBeing, PostersBeing;
  }

  lemma PopKeeps(q: Queue, pick: Option<Thread>)
    requires RingOk(q) && CountersOk(q) && FetchersCovered(q, 1) && PostersCovered(q, 0)
    requires !Empty(q) && SignalsPoster(q, pick)
    ensures q.next_out < |q.data| && Inv(Pop(q, pick).1)
  {
    assert q.next_out < |q.data|;
    PopTakesOldest(q, pick);
    SignalledSets(q.waiters, pick);
    assert pick.Some? ==> pick.value in PostersBeing(q.waiters, Asleep) && pick.value !in PostersBeing(q.waiters, Signalled) && q.waiters[pick.value].Poster?;
    hide RingOk, Contents, FetchersIn, PostersIn, FetchersBeing, PostersBeing;
  }

  /** After a waiter leaves, at most the slot or message it was signalled for is uncovered. */
  lemma LeaveKeeps(q: Queue, t: Thread)
    requires Inv(q) && t in q.waiters && q.waiters[t].wake != Asleep
    ensures var l := Leave(q, t);
            && RingOk(l) && CountersOk(l)
            && FetchersCovered(l, if q.waiters[t].Fetcher? && q.waiters[t].wake == Signalled then 1 else 0)
            && PostersCovered(l, if q.waiters[t].Poster? && q.waiters[t].wake == Signalled then 1 else 0)
  {
    LeaveSets(q.waiters, t);
    LeaverIn(q.waiters, t);
    SameRingOk(q, Leave(q, t));
    var l := Leave(q, t);
    assert l.nelts == q.nelts && l.bounds == q.bounds && l.waiters == q.waiters - {t};
    hide FetchersIn, PostersIn, FetchersBeing, PostersBeing, RingOk;
  }

  /** Where a waiter that is not asleep is found. */
  lemma LeaverIn(w: map<Thread, Waiter>, t: Thread)
    requires t in w && w[t].wake != Asleep
    ensures t in FetchersIn(w) <==> w[t].Fetcher?
    ensures t in PostersIn(w) <==> w[t].Poster?
    ensures t !in FetchersBeing(w, Asleep) && t !in PostersBeing(w, Asleep)
    ensures t in FetchersBeing(w, Signalled) <==> w[t].Fetcher? && w[t].wake == Signalled
    ensures t in PostersBeing(w, Signalled) <==> w[t].Poster? && w[t].wake == Signalled
  {
  }

  /** Going to sleep on a full or empty queue, and waking. */
  lemma SleepKeeps(q: Queue, t: Thread, x: Waiter)
    requires Inv(q) && t !in q.waiters && x.wake == Asleep && (x.Poster? ==> Full(q)) && (x.Fetcher? ==> Empty(q))
    ensures var q' := q.(waiters := q.waiters[t := x]);
            Inv(if x.Poster? then q'.(full_waiters := q.full_waiters + 1) else q'.(empty_waiters := q.empty_waiters + 1))
  {
    var w := q.(waiters := q.waiters[t := x]);
    var q' := if x.Poster? then w.(full_waiters := q.full_waiters + 1) else w.(empty_waiters := q.empty_waiters + 1);
    SleepSets(q.waiters, t, x);
    assert t !in FetchersIn(q.waiters) && t !in PostersIn(q.waiters);
    SameRingOk(q, q');
    hide FetchersIn, PostersIn, FetchersBeing, PostersBeing, RingOk;
    assert NoLostWakeup(q') && CountersOk(q');
  }

  lemma WakeKeeps(q: Queue, t: Thread, k: Wake)
    requires Inv(q) && t in q.waiters && q.waiters[t].wake == Asleep && (k == Spurious || k == TimedOut)
    ensures Inv(q.(waiters := q.waiters[t := q.waiters[t].(wake := k)]))
  {
    WakeSets(q.waiters, t, k);
    SameRingOk(q, q.(waiters := q.waiters[t := q.waiters[t].(wake := k)]));
    hide FetchersIn, PostersIn, FetchersBeing, PostersBeing, RingOk;
  }

  /** Coming back from a wait. */
  lemma ResumeKeeps(q: Queue, t: Thread, pick: Option<Thread>, q': Queue, r: Outcome)
    requires Inv(q) && Next(q, Resume(t, pick), q', r)
    ensures Inv(q')
  {
    hide RingOk, CountersOk, FetchersBeing, PostersBeing, Push, Pop;
    LeaveKeeps(q, t);
    var w, l := q.waiters[t], Leave(q, t);
    if w.wake != TimedOut {
      if w.Poster? && !Full(l) { PushKeeps(l, w.msg, pick); }
      if w.Fetcher? && !Empty(l) { PopKeeps(l, pick); }
    }
  }

  /** Every step, whatever the interleaving, keeps the ring, the counters and the wakeups. */
  lemma StepKeepsInv(q: Queue, a: Action, q': Queue, r: Outcome)
    requires Inv(q) && Next(q, a, q', r)
    ensures Inv(q')
  {
    hide RingOk, CountersOk, FetchersBeing, PostersBeing, Push, Pop;
    match a
    case Post(t, msg, wait, pick) =>
      if !Full(q) { PushKeeps(q, msg, pick); }
      else { SleepKeeps(q, t, Poster(Asleep, wait.Forever?, msg)); }
    case Fetch(t, wait, pick) =>
      if !Empty(q) { PopKeeps(q, pick); }
      else { SleepKeeps(q, t, Fetcher(Asleep, wait.Forever?)); }
    case WakeUp(t) => WakeKeeps(q, t, Spurious);
    case TimeOut(t) => WakeKeeps(q, t, TimedOut);
    case Resume(t, pick) => ResumeKeeps(q, t, pick, q', r);
  }

  /** Each call acts on the queue as on a sequence, at one moment between call and return: a post
      that succeeds appends its message, a fetch that succeeds removes the oldest, and no other step
      changes the contents. */
  lemma StepOnContents(q: Queue, a: Action, q': Queue, r: Outcome)
    requires Inv(q) && Next(q, a, q', r)
    ensures Inv(q')
    ensures match r
            case Posted => exists msg :: Contents(q') == Contents(q) + [msg] && q'.posted == q.posted + [msg] && q'.fetched == q.fetched
                             && (a.Post? ==> msg == a.msg) && (a.Resume? ==> q.waiters[a.t].Poster? && msg == q.waiters[a.t].msg)
            case Fetched(msg) => Contents(q) == [msg] + Contents(q') && q'.fetched == q.fetched + [msg] && q'.posted == q.posted
            case _ => Contents(q') == Contents(q) && q'.posted == q.posted && q'.fetched == q.fetched
  {
    StepKeepsInv(q, a, q', r);
    hide Contents;
    match a
    case Post(t, msg, wait, pick) => if !Full(q) { PushAppends(q, msg, pick); }
    case Fetch(t, wait, pick) => if !Empty(q) { PopTakesOldest(q, pick); }
    case WakeUp(t) => SameRing(q, q');
    case TimeOut(t) => SameRing(q, q');
    case Resume(t, pick) =>
      var w, l := q.waiters[t], Leave(q, t);
      SameRing(q, l);
      LeaveKeeps(q, t);
      if w.wake != TimedOut {
        if w.Poster? && !Full(l) { PushAppends(l, w.msg, pick); }
        if w.Fetcher? && !Empty(l) { PopTakesOldest(l, pick); }
      }
  }

  lemma SameRing(q: Queue, q': Queue)
    requires RingOk(q) && q'.data == q.data && q'.nelts == q.nelts && q'.next_out == q.next_out && q'.bounds == q.bounds
    ensures Contents(q') == Contents(q)
  {
  }

  // ---------- Runs ----------

  /** A run: states s[0], s[1], ... with an action and outcome between neighbours. */
  ghost predicate IsRun(s: seq<Queue>, acts: seq<Action>, outs: seq<Outcome>) {
    && |s| == |acts| + 1 == |outs| + 1
    && forall i :: 0 <= i < |acts| ==> Next(s[i], acts[i], s[i + 1], outs[i])
  }

  lemma {:induction false} RunKeepsInv(s: seq<Queue>, acts: seq<Action>, outs: seq<Outcome>, n: nat)
    requires IsRun(s, acts, outs) && Inv(s[0]) && n < |s|
    ensures Inv(s[n])
  {
    hide Inv, Next;
    if n > 0 {
      RunKeepsInv(s, acts, outs, n - 1);
      StepKeepsInv(s[n - 1], acts[n - 1], s[n], outs[n - 1]);
    }
  }

  /** The messages returned by successful fetches in a run of outcomes, in order. */
  function Received(outs: seq<Outcome>): seq<Message> {
    if outs == [] then []
    else Received(outs[..|outs| - 1]) + (if outs[|outs| - 1].Fetched? then [outs[|outs| - 1].msg] else [])
  }

  /** In every run from creation, in every interleaving, what the fetches returned followed by what
      is still queued is what was posted, in order: nothing lost, duplicated or reordered. */
  lemma {:induction false} FifoOverRuns(s: seq<Queue>, acts: seq<Action>, outs: seq<Outcome>)
    requires IsRun(s, acts, outs) && Inv(s[0]) && s[0].fetched == []
    ensures var q := s[|acts|];
            && Inv(q) && q.fetched == Received(outs) && q.posted == Received(outs) + Contents(q)
            && q.nelts <= q.bounds && q.next_in == (q.next_out + q.nelts) % q.bounds
            && |q.posted| == |Received(outs)| + q.nelts
  {
    hide Next, Received, CountersOk, NoLostWakeup;
    RunKeepsInv(s, acts, outs, |acts|);
    ReceivedIsFetched(s, acts, outs, |acts|);
    assert outs[..|acts|] == outs;
    var q := s[|acts|];
    WrapIsMod(q.next_out + q.nelts, q.bounds);
  }

  /** What the calls themselves tell: the messages of posts that are waiting, and of posts that have
      succeeded, in order. */
  datatype Told = Told(pending: map<Thread, Message>, sent: seq<Message>)

  function Tell(h: Told, a: Action, r: Outcome): Told {
    match a
    case Post(t, msg, _, _) =>
      if r == Posted then h.(sent := h.sent + [msg]) else if r == Waiting then h.(pending := h.pending[t := msg]) else h
    case Resume(t, _) =>
      if r == Posted && t in h.pending then h.(pending := h.pending - {t}, sent := h.sent + [h.pending[t]]) else h
    case _ => h
  }

  function TellAll(acts: seq<Action>, outs: seq<Outcome>): Told
    requires |acts| == |outs|
  {
    if acts == [] then Told(map[], [])
    else var n := |acts| - 1; Tell(TellAll(acts[..n], outs[..n]), acts[n], outs[n])
  }

  /** The messages of successful posts, in the order of their success. */
  function Sent(acts: seq<Action>, outs: seq<Outcome>): seq<Message>
    requires |acts| == |outs|
  {
    TellAll(acts, outs).sent
  }

  lemma {:induction false} SentIsPosted(s: seq<Queue>, acts: seq<Action>, outs: seq<Outcome>, n: nat)
    requires IsRun(s, acts, outs) && Inv(s[0]) && s[0].posted == [] && s[0].waiters == map[] && n < |s|
    ensures var h := TellAll(acts[..n], outs[..n]);
            && s[n].posted == h.sent
            && (forall t :: t in s[n].waiters && s[n].waiters[t].Poster? ==> t in h.pending && h.pending[t] == s[n].waiters[t].msg)
  {
    if n > 0 {
      SentIsPosted(s, acts, outs, n - 1);
      assert acts[..n][..n - 1] == acts[..n - 1] && outs[..n][..n - 1] == outs[..n - 1];
      TellStep(TellAll(acts[..n - 1], outs[..n - 1]), s[n - 1], acts[n - 1], s[n], outs[n - 1]);
    }
  }

  lemma TellStep(h: Told, q: Queue, a: Action, q': Queue, r: Outcome)
    requires Next(q, a, q', r) && q.posted == h.sent
    requires forall t :: t in q.waiters && q.waiters[t].Poster? ==> t in h.pending && h.pending[t] == q.waiters[t].msg
    ensures q'.posted == Tell(h, a, r).sent
    ensures forall t :: t in q'.waiters && q'.waiters[t].Poster? ==> t in Tell(h, a, r).pending && Tell(h, a, r).pending[t] == q'.waiters[t].msg
  {
  }

  /** In every run of a new queue, told by the calls and their results alone: the messages of the
      successful posts in order are those of the successful fetches in order, followed by the contents. */
  lemma {:induction false} SentIsReceived(s: seq<Queue>, acts: seq<Action>, outs: seq<Outcome>, bounds: nat, garbage: seq<Message>)
    requires IsRun(s, acts, outs) && 0 < bounds == |garbage| && s[0] == Created(bounds, garbage)
    ensures Inv(s[|acts|]) && Sent(acts, outs) == Received(outs) + Contents(s[|acts|])
  {
    hide Next, Received, TellAll, CountersOk, NoLostWakeup;
    CreatedInv(bounds, garbage);
    FifoOverRuns(s, acts, outs);
    SentIsPosted(s, acts, outs, |acts|);
    assert acts[..|acts|] == acts && outs[..|acts|] == outs;
  }

  lemma WrapIsMod(x: nat, bounds: nat)
    requires 0 < bounds && x < 2 * bounds
    ensures Wrap(x, bounds) == x % bounds
  {
    Quotient(x, bounds, if x >= bounds then 1 else 0, Wrap(x, bounds));
  }

  lemma {:induction false} ReceivedIsFetched(s: seq<Queue>, acts: seq<Action>, outs: seq<Outcome>, n: nat)
    requires IsRun(s, acts, outs) && Inv(s[0]) && s[0].fetched == [] && n < |s|
    ensures s[n].fetched == Received(outs[..n])
  {
    hide Inv, Contents;
    if n > 0 {
      ReceivedIsFetched(s, acts, outs, n - 1);
      RunKeepsInv(s, acts, outs, n - 1);
      StepOnContents(s[n - 1], acts[n - 1], s[n], outs[n - 1]);
      assert outs[..n][..n - 1] == outs[..n - 1];
    }
  }

  /** When nobody is on the way out of a wait, sleepers have nothing to do: fetchers sleep only on an
      empty queue, posters only on a full one, and so never both. */
  lemma Quiescent(q: Queue)
    requires Inv(q) && forall t :: t in q.waiters ==> q.waiters[t].wake == Asleep
    ensures q.empty_waiters > 0 ==> Empty(q)
    ensures q.full_waiters > 0 ==> Full(q)
    ensures q.empty_waiters == 0 || q.full_waiters == 0
  {
    assert FetchersBeing(q.waiters, Signalled) == {} && PostersBeing(q.waiters, Signalled) == {};
    assert FetchersBeing(q.waiters, Asleep) == FetchersIn(q.waiters) && PostersBeing(q.waiters, Asleep) == PostersIn(q.waiters);
  }

  /** "Wait forever" does not mean until a message arrives: another fetch can take the message for
      which the waiter was signalled, and the waiter then fails. */
  lemma ForeverCanFail(msg: Message) returns (s: seq<Queue>, acts: seq<Action>, outs: seq<Outcome>)
    ensures IsRun(s, acts, outs) && |acts| == 4 && s[0] == Created(1, [[]])
    ensures acts[0] == Fetch(1, Forever, None) && outs[0] == Waiting
    ensures acts[3] == Resume(1, None) && outs[3] == Failed
  {
    var q0 := Created(1, [[]]);
    var q1 := q0.(empty_waiters := 1, waiters := map[1 := Fetcher(Asleep, true)]);
    FetcherSleeps(q0, q1);
    var q2, q3 := MessageStolen(q1, msg);
    var q4 := WaiterFails(q3);
    s := [q0, q1, q2, q3, q4];
    acts := [Fetch(1, Forever, None), Post(2, msg, NoWait, Some(1)), Fetch(3, NoWait, None), Resume(1, None)];
    outs := [Waiting, Posted, Fetched(msg), Failed];
    hide Next, Created;
    FourSteps(s, acts, outs);
  }

  lemma FourSteps(s: seq<Queue>, acts: seq<Action>, outs: seq<Outcome>)
    requires |s| == 5 && |acts| == |outs| == 4
    requires Next(s[0], acts[0], s[1], outs[0]) && Next(s[1], acts[1], s[2], outs[1])
    requires Next(s[2], acts[2], s[3], outs[2]) && Next(s[3], acts[3], s[4], outs[3])
    ensures IsRun(s, acts, outs)
  {
    hide Next;
  }

  lemma MessageStolen(q1: Queue, msg: Message) returns (q2: Queue, q3: Queue)
    requires q1.nelts == 0 && q1.bounds == |q1.data| == 1 && q1.next_in == q1.next_out == 0
    requires q1.empty_waiters == 1 && q1.full_waiters == 0 && q1.waiters == map[1 := Fetcher(Asleep, true)]
    ensures Next(q1, Post(2, msg, NoWait, Some(1)), q2, Posted) && Next(q2, Fetch(3, NoWait, None), q3, Fetched(msg))
    ensures q3.nelts == 0 && q3.waiters == map[1 := Fetcher(Signalled, true)]
  {
    q2 := Push(q1, msg, Some(1));
    assert 1 in FetchersBeing(q1.waiters, Asleep);
    q3 := Pop(q2, None).1;
  }

  lemma WaiterFails(q3: Queue) returns (q4: Queue)
    requires q3.nelts == 0 && q3.waiters == map[1 := Fetcher(Signalled, true)]
    ensures Next(q3, Resume(1, None), q4, Failed)
  {
    q4 := Leave(q3, 1);
  }

  lemma FetcherSleeps(q0: Queue, q1: Queue)
    requires q0 == Created(1, [[]])
    requires q1 == q0.(empty_waiters := 1, waiters := map[1 := Fetcher(Asleep, true)])
    ensures Next(q0, Fetch(1, Forever, None), q1, Waiting) && 1 in FetchersBeing(q1.waiters, Asleep)
  {
  }
}
