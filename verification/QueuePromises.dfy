/** When a call that waits on the message queue is sure to succeed: every thread on its way out of a
    wait must find a message, or a slot, that no other thread can take before it. */
module QueuePromises {
  import opened Basics
  import opened QueueSpec

  /** Fetchers and posters that are awake and did not time out. */
  ghost function AwakeFetchers(w: map<Thread, Waiter>): set<Thread> {
    FetchersBeing(w, Signalled) + FetchersBeing(w, Spurious)
  }

  ghost function AwakePosters(w: map<Thread, Waiter>): set<Thread> {
    PostersBeing(w, Signalled) + PostersBeing(w, Spurious)
  }

  /** There is a message for every awake fetcher, a slot for every awake poster. */
  ghost predicate FetchersServed(q: Queue) {
    |AwakeFetchers(q.waiters)| <= q.nelts
  }

  ghost predicate PostersServed(q: Queue) {
    |AwakePosters(q.waiters)| + q.nelts <= q.bounds
  }

  /** A step that takes no message an awake fetcher counts on: a new fetch, or a fetcher woken for
      nothing, needs one message more. */
  ghost predicate FairToFetchers(q: Queue, a: Action) {
    (a.Fetch? && !Empty(q)) || (a.WakeUp? && a.t in q.waiters && q.waiters[a.t].Fetcher?) ==> |AwakeFetchers(q.waiters)| < q.nelts
  }

  ghost predicate FairToPosters(q: Queue, a: Action) {
    (a.Post? && !Full(q)) || (a.WakeUp? && a.t in q.waiters && q.waiters[a.t].Poster?) ==> |AwakePosters(q.waiters)| + q.nelts < q.bounds
  }

  /** A waiter comes back and did not time out. */
  ghost predicate Returns(q: Queue, a: Action) {
    a.Resume? && a.t in q.waiters && q.waiters[a.t].wake != TimedOut
  }

  // ---------- The awake threads through each kind of step ----------

  lemma AwakeAfterSignal(w: map<Thread, Waiter>, pick: Option<Thread>)
    requires pick.Some? ==> pick.value in w && w[pick.value].wake == Asleep
    ensures var w', s := Signal(w, pick), if pick.Some? then {pick.value} else {};
            && AwakeFetchers(w') == AwakeFetchers(w) + (if pick.Some? && w[pick.value].Fetcher? then s else {})
            && AwakePosters(w') == AwakePosters(w) + (if pick.Some? && w[pick.value].Poster? then s else {})
  {
  }

  lemma AwakeAfterLeave(w: map<Thread, Waiter>, t: Thread)
    requires t in w
    ensures AwakeFetchers(w - {t}) == AwakeFetchers(w) - {t} && AwakePosters(w - {t}) == AwakePosters(w) - {t}
    ensures w[t].wake == Signalled || w[t].wake == Spurious ==> t in if w[t].Fetcher? then AwakeFetchers(w) else AwakePosters(w)
    ensures t in AwakeFetchers(w) ==> w[t].Fetcher? && w[t].wake != TimedOut
    ensures t in AwakePosters(w) ==> w[t].Poster? && w[t].wake != TimedOut
  {
  }

  lemma AwakeAfterSleep(w: map<Thread, Waiter>, t: Thread, x: Waiter)
    requires t !in w && x.wake == Asleep
    ensures AwakeFetchers(w[t := x]) == AwakeFetchers(w) && AwakePosters(w[t := x]) == AwakePosters(w)
  {
  }

  lemma AwakeAfterWake(w: map<Thread, Waiter>, t: Thread, k: Wake)
    requires t in w && w[t].wake == Asleep && (k == Spurious || k == TimedOut)
    ensures var w' := w[t := w[t].(wake := k)];
            && AwakeFetchers(w') == AwakeFetchers(w) + (if k == Spurious && w[t].Fetcher? then {t} else {})
            && AwakePosters(w') == AwakePosters(w) + (if k == Spurious && w[t].Poster? then {t} else {})
            && t !in AwakeFetchers(w) && t !in AwakePosters(w)
  {
  }

  lemma PickSleeps(q: Queue, pick: Option<Thread>)
    ensures SignalsFetcher(q, pick) && pick.Some? ==>
              pick.value in q.waiters && q.waiters[pick.value].wake == Asleep && q.waiters[pick.value].Fetcher? && pick.value !in AwakeFetchers(q.waiters)
    ensures SignalsPoster(q, pick) && pick.Some? ==>
              pick.value in q.waiters && q.waiters[pick.value].wake == Asleep && q.waiters[pick.value].Poster? && pick.value !in AwakePosters(q.waiters)
  {
  }

  /** What a push or a pop does to the numbers of awake threads. */
  lemma PushAwakes(q: Queue, msg: Message, pick: Option<Thread>)
    requires q.next_in < |q.data| && SignalsFetcher(q, pick)
    ensures var q' := Push(q, msg, pick);
            && |AwakeFetchers(q.waiters)| <= |AwakeFetchers(q'.waiters)| <= |AwakeFetchers(q.waiters)| + 1 && AwakePosters(q'.waiters) == AwakePosters(q.waiters)
  {
    PickSleeps(q, pick);
    AwakeAfterSignal(q.waiters, pick);
  }

  lemma PopAwakes(q: Queue, pick: Option<Thread>)
    requires q.nelts > 0 && q.next_out < |q.data| && SignalsPoster(q, pick)
    ensures var q' := Pop(q, pick).1;
            && |AwakePosters(q.waiters)| <= |AwakePosters(q'.waiters)| <= |AwakePosters(q.waiters)| + 1 && AwakeFetchers(q'.waiters) == AwakeFetchers(q.waiters)
  {
    PickSleeps(q, pick);
    AwakeAfterSignal(q.waiters, pick);
  }

  // ---------- One step ----------

  /** A change of the numbers of awake fetchers, awake posters and messages, and whether a signal may
      wake one fetcher or poster more. */
  datatype Effect = Effect(fetchers: int, posters: int, messages: int, wakesFetcher: bool, wakesPoster: bool)

  const NONE: Effect := Effect(0, 0, 0, false, false)

  /** What each step does to them. */
  function EffectOf(q: Queue, a: Action): Effect {
    match a
    case Post(_, _, _, _) => if Full(q) then NONE else NONE.(messages := 1, wakesFetcher := true)
    case Fetch(_, _, _) => if Empty(q) then NONE else NONE.(messages := -1, wakesPoster := true)
    case WakeUp(t) =>
      if t !in q.waiters then NONE else if q.waiters[t].Fetcher? then NONE.(fetchers := 1) else NONE.(posters := 1)
    case TimeOut(t) => NONE
    case Resume(t, _) =>
      if t !in q.waiters || q.waiters[t].wake == TimedOut then NONE
      else if q.waiters[t].Fetcher? then
        if Empty(q) then NONE.(fetchers := -1) else Effect(-1, 0, -1, false, true)
      else
        if Full(q) then NONE.(posters := -1) else Effect(0, -1, 1, true, false)
  }

  ghost predicate Moves(q: Queue, q': Queue, e: Effect) {
    && q'.bounds == q.bounds && q'.nelts == q.nelts + e.messages
    && 0 <= |AwakeFetchers(q'.waiters)| - |AwakeFetchers(q.waiters)| - e.fetchers <= (if e.wakesFetcher then 1 else 0)
    && 0 <= |AwakePosters(q'.waiters)| - |AwakePosters(q.waiters)| - e.posters <= (if e.wakesPoster then 1 else 0)
  }

  lemma EnterMoves(q: Queue, a: Action, q': Queue, r: Outcome)
    requires Next(q, a, q', r) && (a.Post? || a.Fetch?)
    ensures Moves(q, q', EffectOf(q, a))
  {
    hide AwakeFetchers, AwakePosters, SignalsFetcher, SignalsPoster;
    match a
    case Post(t, msg, wait, pick) =>
      if !Full(q) { PushAwakes(q, msg, pick); } else if !wait.NoWait? { AwakeAfterSleep(q.waiters, t, Poster(Asleep, wait.Forever?, msg)); }
    case Fetch(t, wait, pick) =>
      if !Empty(q) { PopAwakes(q, pick); } else if !wait.NoWait? { AwakeAfterSleep(q.waiters, t, Fetcher(Asleep, wait.Forever?)); }
  }

  lemma WakeMoves(q: Queue, a: Action, q': Queue, r: Outcome)
    requires Next(q, a, q', r) && (a.WakeUp? || a.TimeOut?)
    ensures Moves(q, q', EffectOf(q, a))
  {
    hide AwakeFetchers, AwakePosters;
    AwakeAfterWake(q.waiters, a.t, if a.WakeUp? then Spurious else TimedOut);
  }

  lemma LeaveMoves(q: Queue, t: Thread)
    requires t in q.waiters && q.waiters[t].wake != Asleep
    ensures var w, l := q.waiters[t], Leave(q, t);
            && l.nelts == q.nelts && l.bounds == q.bounds
            && |AwakeFetchers(l.waiters)| == |AwakeFetchers(q.waiters)| - (if w.Fetcher? && w.wake != TimedOut then 1 else 0)
            && |AwakePosters(l.waiters)| == |AwakePosters(q.waiters)| - (if w.Poster? && w.wake != TimedOut then 1 else 0)
  {
    AwakeAfterLeave(q.waiters, t);
    hide AwakeFetchers, AwakePosters;
  }

  lemma ResumeMoves(q: Queue, a: Action, q': Queue, r: Outcome)
    requires Next(q, a, q', r) && a.Resume?
    ensures Moves(q, q', EffectOf(q, a)) && a.t in q.waiters && q.waiters[a.t].wake != Asleep
    ensures q.waiters[a.t].wake != TimedOut && q.waiters[a.t].Fetcher? ==> if Empty(q) then r == Failed else r.Fetched?
    ensures q.waiters[a.t].wake != TimedOut && q.waiters[a.t].Poster? ==> r == if Full(q) then Failed else Posted
  {
    hide AwakeFetchers, AwakePosters, SignalsFetcher, SignalsPoster;
    LeaveMoves(q, a.t);
    var w, l := q.waiters[a.t], Leave(q, a.t);
    if w.wake != TimedOut {
      if w.Poster? && !Full(l) { PushAwakes(l, w.msg, a.pick); }
      if w.Fetcher? && !Empty(l) { PopAwakes(l, a.pick); }
    }
  }

  /** Every step has its effect, and a waiter that comes back in time gets what is there. */
  lemma StepMoves(q: Queue, a: Action, q': Queue, r: Outcome)
    requires Next(q, a, q', r)
    ensures Moves(q, q', EffectOf(q, a)) && (a.WakeUp? || a.TimeOut? || a.Resume? ==> a.t in q.waiters)
    ensures Returns(q, a) && q.waiters[a.t].Fetcher? ==> if Empty(q) then r == Failed else r.Fetched?
    ensures Returns(q, a) && q.waiters[a.t].Poster? ==> r == if Full(q) then Failed else Posted
    ensures Returns(q, a) ==> q.waiters[a.t].wake != Asleep
  {
    assert a.WakeUp? || a.TimeOut? ==> a.t in q.waiters;
    hide Next, Moves, EffectOf;
    match a
    case Post(_, _, _, _) => EnterMoves(q, a, q', r);
    case Fetch(_, _, _) => EnterMoves(q, a, q', r);
    case WakeUp(_) => WakeMoves(q, a, q', r);
    case TimeOut(_) => WakeMoves(q, a, q', r);
    case Resume(_, _) => ResumeMoves(q, a, q', r);
  }

  /** A waiter that comes back without having timed out is one of the awake ones. */
  lemma ReturnsAwake(q: Queue, a: Action)
    requires Returns(q, a) && q.waiters[a.t].wake != Asleep
    ensures q.waiters[a.t].Fetcher? ==> |AwakeFetchers(q.waiters)| > 0
    ensures q.waiters[a.t].Poster? ==> |AwakePosters(q.waiters)| > 0
  {
    AwakeAfterLeave(q.waiters, a.t);
    hide AwakeFetchers, AwakePosters;
  }

  /** Being served is kept by exactly the fair steps, and while it holds every fetch that comes back
      from its wait without timing out returns a message. */
  lemma StepServesFetchers(q: Queue, a: Action, q': Queue, r: Outcome)
    requires Next(q, a, q', r) && FetchersServed(q)
    ensures FetchersServed(q') <==> FairToFetchers(q, a)
    ensures Returns(q, a) && q.waiters[a.t].Fetcher? ==> r.Fetched?
  {
    StepMoves(q, a, q', r);
    if Returns(q, a) { ReturnsAwake(q, a); }
    hide Next, AwakeFetchers, AwakePosters;
  }

  /** The same for posters and free slots. */
  lemma StepServesPosters(q: Queue, a: Action, q': Queue, r: Outcome)
    requires Next(q, a, q', r) && PostersServed(q) && q.nelts <= q.bounds
    ensures PostersServed(q') <==> FairToPosters(q, a)
    ensures Returns(q, a) && q.waiters[a.t].Poster? ==> r == Posted
  {
    StepMoves(q, a, q', r);
    if Returns(q, a) { ReturnsAwake(q, a); }
    hide Next, AwakeFetchers, AwakePosters;
  }

  // ---------- Runs ----------

  /** In a run of fair steps every fetch that comes back without timing out returns a message. */
  lemma {:induction false} FairRunServesFetchers(s: seq<Queue>, acts: seq<Action>, outs: seq<Outcome>, n: nat)
    requires IsRun(s, acts, outs) && FetchersServed(s[0]) && n < |s|
    requires forall i :: 0 <= i < |acts| ==> FairToFetchers(s[i], acts[i])
    ensures FetchersServed(s[n])
    ensures n < |acts| && Returns(s[n], acts[n]) && s[n].waiters[acts[n].t].Fetcher? ==> outs[n].Fetched?
  {
    hide Next, FetchersServed, FairToFetchers, Returns;
    if n > 0 {
      FairRunServesFetchers(s, acts, outs, n - 1);
      StepServesFetchers(s[n - 1], acts[n - 1], s[n], outs[n - 1]);
    }
    if n < |acts| { StepServesFetchers(s[n], acts[n], s[n + 1], outs[n]); }
  }

  lemma {:induction false} FairRunServesPosters(s: seq<Queue>, acts: seq<Action>, outs: seq<Outcome>, n: nat)
    requires IsRun(s, acts, outs) && Inv(s[0]) && PostersServed(s[0]) && n < |s|
    requires forall i :: 0 <= i < |acts| ==> FairToPosters(s[i], acts[i])
    ensures PostersServed(s[n])
    ensures n < |acts| && Returns(s[n], acts[n]) && s[n].waiters[acts[n].t].Poster? ==> outs[n] == Posted
  {
    hide Next, FairToPosters, Returns;
    if n > 0 {
      FairRunServesPosters(s, acts, outs, n - 1);
      RunKeepsInv(s, acts, outs, n - 1);
      StepServesPosters(s[n - 1], acts[n - 1], s[n], outs[n - 1]);
    }
    RunKeepsInv(s, acts, outs, n);
    if n < |acts| { StepServesPosters(s[n], acts[n], s[n + 1], outs[n]); }
  }

  /** A waiter that waits forever does not time out; only thread t waits to fetch. */
  ghost predicate OnlyFetcher(q: Queue, t: Thread) {
    forall u :: u in q.waiters ==> (q.waiters[u].forever ==> q.waiters[u].wake != TimedOut) && (q.waiters[u].Fetcher? ==> u == t)
  }

  ghost predicate OnlyPoster(q: Queue, t: Thread) {
    forall u :: u in q.waiters ==> (q.waiters[u].forever ==> q.waiters[u].wake != TimedOut) && (q.waiters[u].Poster? ==> u == t)
  }

  /** The waiters after a step: those before, some of them awake now, and perhaps the caller. */
  lemma WaitersAfter(q: Queue, a: Action, q': Queue, r: Outcome, u: Thread)
    requires Next(q, a, q', r) && u in q'.waiters
    ensures u in q.waiters ==>
              && q'.waiters[u].Fetcher? == q.waiters[u].Fetcher? && q'.waiters[u].forever == q.waiters[u].forever
              && (q'.waiters[u].wake == q.waiters[u].wake || q'.waiters[u].wake == Signalled || a == WakeUp(u) || (a == TimeOut(u) && !q.waiters[u].forever))
    ensures u !in q.waiters ==> q'.waiters[u].wake == Asleep && (a.Post? || a.Fetch?) && a.t == u && q'.waiters[u].Fetcher? == a.Fetch?
    ensures a == WakeUp(u) ==> q'.waiters[u].wake == Spurious
  {
    hide SignalsFetcher, SignalsPoster;
  }

  lemma OnlyFetcherStays(q: Queue, a: Action, q': Queue, r: Outcome, t: Thread)
    requires Next(q, a, q', r) && OnlyFetcher(q, t) && (a.Fetch? ==> a.t == t) && (a.WakeUp? ==> a.t != t)
    ensures OnlyFetcher(q', t) && FairToFetchers(q, a)
  {
    if a.Fetch? { assert AwakeFetchers(q.waiters) == {}; }
    hide Next, AwakeFetchers;
    forall u | u in q'.waiters
      ensures (q'.waiters[u].forever ==> q'.waiters[u].wake != TimedOut) && (q'.waiters[u].Fetcher? ==> u == t)
    {
      WaitersAfter(q, a, q', r, u);
    }
  }

  lemma OnlyPosterStays(q: Queue, a: Action, q': Queue, r: Outcome, t: Thread)
    requires Next(q, a, q', r) && OnlyPoster(q, t) && q.nelts <= q.bounds && (a.Post? ==> a.t == t) && (a.WakeUp? ==> a.t != t)
    ensures OnlyPoster(q', t) && FairToPosters(q, a)
  {
    if a.Post? { assert AwakePosters(q.waiters) == {}; }
    hide Next, AwakePosters;
    forall u | u in q'.waiters
      ensures (q'.waiters[u].forever ==> q'.waiters[u].wake != TimedOut) && (q'.waiters[u].Poster? ==> u == t)
    {
      WaitersAfter(q, a, q', r, u);
    }
  }

  /** One consumer. If only thread t fetches and it is never woken for nothing, then none of its
      fetches that wait forever fails, in no run, whatever the posters do. */
  lemma {:induction false} SingleConsumer(s: seq<Queue>, acts: seq<Action>, outs: seq<Outcome>, t: Thread, n: nat)
    requires IsRun(s, acts, outs) && s[0].waiters == map[] && n < |s|
    requires forall a <- acts :: (a.Fetch? ==> a.t == t) && (a.WakeUp? ==> a.t != t)
    ensures OnlyFetcher(s[n], t) && FetchersServed(s[n])
    ensures n < |acts| && acts[n].Resume? && acts[n].t == t && t in s[n].waiters && s[n].waiters[t].Fetcher? && s[n].waiters[t].forever ==>
              outs[n].Fetched?
  {
    hide Next, FairToFetchers;
    if n == 0 {
      assert AwakeFetchers(s[0].waiters) == {};
    } else {
      SingleConsumer(s, acts, outs, t, n - 1);
      assert acts[n - 1] in acts;
      OnlyFetcherStays(s[n - 1], acts[n - 1], s[n], outs[n - 1], t);
      StepServesFetchers(s[n - 1], acts[n - 1], s[n], outs[n - 1]);
    }
    if n < |acts| { StepServesFetchers(s[n], acts[n], s[n + 1], outs[n]); }
  }

  /** One producer. If only thread t posts and it is never woken for nothing, then none of its posts
      that wait forever fails. */
  lemma {:induction false} SingleProducer(s: seq<Queue>, acts: seq<Action>, outs: seq<Outcome>, t: Thread, n: nat)
    requires IsRun(s, acts, outs) && Inv(s[0]) && s[0].waiters == map[] && n < |s|
    requires forall a <- acts :: (a.Post? ==> a.t == t) && (a.WakeUp? ==> a.t != t)
    ensures OnlyPoster(s[n], t) && PostersServed(s[n])
    ensures n < |acts| && acts[n].Resume? && acts[n].t == t && t in s[n].waiters && s[n].waiters[t].Poster? && s[n].waiters[t].forever ==>
              outs[n] == Posted
  {
    hide Next, FairToPosters, NoLostWakeup, CountersOk, Contents;
    RunKeepsInv(s, acts, outs, n);
    if n == 0 {
      assert AwakePosters(s[0].waiters) == {};
    } else {
      SingleProducer(s, acts, outs, t, n - 1);
      RunKeepsInv(s, acts, outs, n - 1);
      assert acts[n - 1] in acts;
      OnlyPosterStays(s[n - 1], acts[n - 1], s[n], outs[n - 1], t);
      StepServesPosters(s[n - 1], acts[n - 1], s[n], outs[n - 1]);
    }
    if n < |acts| { StepServesPosters(s[n], acts[n], s[n + 1], outs[n]); }
  }

  /** A thread that waits forever stays where it waits, whatever others do, until it takes the mutex again. */
  lemma WaitsOn(q: Queue, a: Action, q': Queue, r: Outcome, t: Thread)
    requires Next(q, a, q', r) && t in q.waiters && q.waiters[t].forever && !(a.Resume? && a.t == t)
    ensures t in q'.waiters && q'.waiters[t].forever && q'.waiters[t].Fetcher? == q.waiters[t].Fetcher?
    ensures q.waiters[t].Poster? ==> q'.waiters[t].msg == q.waiters[t].msg
  {
  }

  /** Thread t calls at step i and takes the mutex again at step n, and makes no other call in between. */
  ghost predicate OneCall(s: seq<Queue>, acts: seq<Action>, outs: seq<Outcome>, t: Thread, i: nat, n: nat) {
    && IsRun(s, acts, outs) && i < n < |acts| && acts[n].Resume? && acts[n].t == t
    && forall j :: i < j < n && acts[j].t == t ==> acts[j].WakeUp? || acts[j].TimeOut?
  }

  lemma {:induction false} StillWaits(s: seq<Queue>, acts: seq<Action>, outs: seq<Outcome>, t: Thread, i: nat, n: nat)
    requires IsRun(s, acts, outs) && i <= n < |s| && t in s[i].waiters && s[i].waiters[t].forever
    requires forall j :: i <= j < n && acts[j].t == t ==> !acts[j].Resume?
    ensures t in s[n].waiters && s[n].waiters[t].forever && s[n].waiters[t].Fetcher? == s[i].waiters[t].Fetcher?
    ensures s[i].waiters[t].Poster? ==> s[n].waiters[t].msg == s[i].waiters[t].msg
  {
    hide Next;
    if i < n {
      StillWaits(s, acts, outs, t, i, n - 1);
      WaitsOn(s[n - 1], acts[n - 1], s[n], outs[n - 1], t);
    }
  }

  /** A thread that is not waiting does not begin to unless it calls. */
  lemma {:induction false} StaysOut(s: seq<Queue>, acts: seq<Action>, outs: seq<Outcome>, t: Thread, i: nat, n: nat)
    requires IsRun(s, acts, outs) && i <= n < |s| && t !in s[i].waiters
    requires forall j :: i <= j < n && acts[j].t == t ==> acts[j].WakeUp? || acts[j].TimeOut?
    ensures t !in s[n].waiters
  {
    if i < n { StaysOut(s, acts, outs, t, i, n - 1); }
  }

  /** The call of the single consumer with timeout 0xFFFFFFFF: it gets a message at once, or waits and
      comes back with one. */
  lemma ConsumerCall(s: seq<Queue>, acts: seq<Action>, outs: seq<Outcome>, t: Thread, pick: Option<Thread>, i: nat, n: nat)
    requires OneCall(s, acts, outs, t, i, n) && s[0].waiters == map[] && acts[i] == Fetch(t, WaitOf(0xFFFF_FFFF), pick)
    requires forall a <- acts :: (a.Fetch? ==> a.t == t) && (a.WakeUp? ==> a.t != t)
    ensures outs[i] == Waiting && outs[n].Fetched?
  {
    assert Next(s[i], acts[i], s[i + 1], outs[i]) && Next(s[n], acts[n], s[n + 1], outs[n]);
    assert t in s[n].waiters;
    if t !in s[i + 1].waiters { StaysOut(s, acts, outs, t, i + 1, n); }
    hide Next;
    StillWaits(s, acts, outs, t, i + 1, n);
    SingleConsumer(s, acts, outs, t, n);
  }

  /** The dual: the call of the single producer with timeout 0xFFFFFFFF posts its message. */
  lemma ProducerCall(s: seq<Queue>, acts: seq<Action>, outs: seq<Outcome>, t: Thread, msg: Message, pick: Option<Thread>, i: nat, n: nat)
    requires OneCall(s, acts, outs, t, i, n) && Inv(s[0]) && s[0].waiters == map[] && acts[i] == Post(t, msg, WaitOf(0xFFFF_FFFF), pick)
    requires forall a <- acts :: (a.Post? ==> a.t == t) && (a.WakeUp? ==> a.t != t)
    ensures outs[i] == Waiting && outs[n] == Posted && s[n + 1].posted == s[n].posted + [msg]
  {
    assert Next(s[i], acts[i], s[i + 1], outs[i]) && Next(s[n], acts[n], s[n + 1], outs[n]);
    assert t in s[n].waiters;
    if t !in s[i + 1].waiters { StaysOut(s, acts, outs, t, i + 1, n); }
    assert s[n].waiters[t].Poster? && outs[n] == Posted ==> s[n + 1].posted == s[n].posted + [s[n].waiters[t].msg];
    hide Next, Inv;
    StillWaits(s, acts, outs, t, i + 1, n);
    SingleProducer(s, acts, outs, t, n);
  }

  // ---------- Necessity ----------

  /** A run from q without a new fetch and without a fetcher woken for nothing, at the end of which
      fetcher t, which did not time out, comes back with nothing. */
  ghost predicate FailingFetch(q: Queue, s: seq<Queue>, acts: seq<Action>, outs: seq<Outcome>, t: Thread) {
    && IsRun(s, acts, outs) && |acts| > 0 && s[0] == q
    && (forall i :: 0 <= i < |acts| ==> !acts[i].Fetch? && (acts[i].WakeUp? && acts[i].t in s[i].waiters ==> s[i].waiters[acts[i].t].Poster?))
    && acts[|acts| - 1] == Resume(t, None) && outs[|acts| - 1] == Failed
    && t in AwakeFetchers(s[|acts| - 1].waiters)
  }

  ghost predicate FetchCanFail(q: Queue) {
    exists s, acts, outs, t :: FailingFetch(q, s, acts, outs, t)
  }

  /** The same for a poster that finds no slot. */
  ghost predicate FailingPost(q: Queue, s: seq<Queue>, acts: seq<Action>, outs: seq<Outcome>, t: Thread) {
    && IsRun(s, acts, outs) && |acts| > 0 && s[0] == q
    && (forall i :: 0 <= i < |acts| ==> !acts[i].Post? && (acts[i].WakeUp? && acts[i].t in s[i].waiters ==> s[i].waiters[acts[i].t].Fetcher?))
    && acts[|acts| - 1] == Resume(t, None) && outs[|acts| - 1] == Failed
    && t in AwakePosters(s[|acts| - 1].waiters)
  }

  ghost predicate PostCanFail(q: Queue) {
    exists s, acts, outs, t :: FailingPost(q, s, acts, outs, t)
  }

  /** Whoever the signal of a pop, or of a push, wakes. */
  ghost function SomePoster(q: Queue): (pick: Option<Thread>)
    ensures SignalsPoster(q, pick)
  {
    if q.full_waiters == 0 || PostersBeing(q.waiters, Asleep) == {} then None
    else var t :| t in PostersBeing(q.waiters, Asleep); Some(t)
  }

  ghost function SomeFetcher(q: Queue): (pick: Option<Thread>)
    ensures SignalsFetcher(q, pick)
  {
    if q.empty_waiters == 0 || FetchersBeing(q.waiters, Asleep) == {} then None
    else var t :| t in FetchersBeing(q.waiters, Asleep); Some(t)
  }

  /** A run with one step more in front. */
  lemma RunFrom(q: Queue, a: Action, r: Outcome, s: seq<Queue>, acts: seq<Action>, outs: seq<Outcome>)
    requires IsRun(s, acts, outs) && Next(q, a, s[0], r)
    ensures IsRun([q] + s, [a] + acts, [r] + outs)
  {
    hide Next;
    var s', acts', outs' := [q] + s, [a] + acts, [r] + outs;
    forall i | 0 <= i < |acts'| ensures Next(s'[i], acts'[i], s'[i + 1], outs'[i]) {
      if i > 0 { assert Next(s[i - 1], acts[i - 1], s[i], outs[i - 1]); }
    }
  }

  lemma OneMoreFetch(q: Queue, a: Action, q': Queue, r: Outcome)
    requires Next(q, a, q', r) && a.Resume? && FetchCanFail(q')
    ensures FetchCanFail(q)
  {
    hide Next, AwakeFetchers, IsRun;
    var s: seq<Queue>, acts: seq<Action>, outs: seq<Outcome>, t: Thread :| FailingFetch(q', s, acts, outs, t);
    RunFrom(q, a, r, s, acts, outs);
    assert |s| == |acts| + 1 == |outs| + 1 by { RunSizes(s, acts, outs); }
    assert FailingFetch(q, [q] + s, [a] + acts, [r] + outs, t);
  }

  lemma OneMorePost(q: Queue, a: Action, q': Queue, r: Outcome)
    requires Next(q, a, q', r) && a.Resume? && PostCanFail(q')
    ensures PostCanFail(q)
  {
    hide Next, AwakePosters, IsRun;
    var s: seq<Queue>, acts: seq<Action>, outs: seq<Outcome>, t: Thread :| FailingPost(q', s, acts, outs, t);
    RunFrom(q, a, r, s, acts, outs);
    assert |s| == |acts| + 1 == |outs| + 1 by { RunSizes(s, acts, outs); }
    assert FailingPost(q, [q] + s, [a] + acts, [r] + outs, t);
  }

  lemma FetchFailsNow(q: Queue, a: Action, q': Queue, t: Thread)
    requires a == Resume(t, None) && Next(q, a, q', Failed) && t in AwakeFetchers(q.waiters)
    ensures FetchCanFail(q)
  {
    SingleStep(q, a, q', Failed);
    hide IsRun, Next, AwakeFetchers;
    assert FailingFetch(q, [q, q'], [a], [Failed], t);
  }

  lemma PostFailsNow(q: Queue, a: Action, q': Queue, t: Thread)
    requires a == Resume(t, None) && Next(q, a, q', Failed) && t in AwakePosters(q.waiters)
    ensures PostCanFail(q)
  {
    SingleStep(q, a, q', Failed);
    hide IsRun, Next, AwakePosters;
    assert FailingPost(q, [q, q'], [a], [Failed], t);
  }

  lemma SingleStep(q: Queue, a: Action, q': Queue, r: Outcome)
    requires Next(q, a, q', r)
    ensures IsRun([q, q'], [a], [r])
  {
    hide Next;
  }

  lemma RunSizes(s: seq<Queue>, acts: seq<Action>, outs: seq<Outcome>)
    requires IsRun(s, acts, outs)
    ensures |s| == |acts| + 1 == |outs| + 1
  {
  }

  /** An awake fetcher comes back: with a message, or with nothing from an empty queue. */
  lemma FetcherReturns(q: Queue, t: Thread) returns (a: Action, q': Queue, r: Outcome)
    requires Inv(q) && t in AwakeFetchers(q.waiters)
    ensures Next(q, a, q', r) && a.Resume? && a.t == t && (Empty(q) ==> a.pick == None && r == Failed)
    ensures Inv(q') && (!Empty(q) ==> q'.nelts == q.nelts - 1 && |AwakeFetchers(q'.waiters)| == |AwakeFetchers(q.waiters)| - 1)
  {
    AwakeAfterLeave(q.waiters, t);
    var l := Leave(q, t);
    if Empty(q) {
      a, q', r := Resume(t, None), l, Failed;
    } else {
      var pick := SomePoster(l);
      a, q', r := Resume(t, pick), Pop(l, pick).1, Fetched(Pop(l, pick).0);
    }
    assert Next(q, a, q', r);
    hide Next, AwakeFetchers, AwakePosters, Inv;
    StepKeepsInv(q, a, q', r);
    ResumeMoves(q, a, q', r);
  }

  lemma PosterReturns(q: Queue, t: Thread) returns (a: Action, q': Queue, r: Outcome)
    requires Inv(q) && t in AwakePosters(q.waiters)
    ensures Next(q, a, q', r) && a.Resume? && a.t == t && (Full(q) ==> a.pick == None && r == Failed)
    ensures Inv(q') && (!Full(q) ==> q'.nelts == q.nelts + 1 && q'.bounds == q.bounds && |AwakePosters(q'.waiters)| == |AwakePosters(q.waiters)| - 1)
  {
    AwakeAfterLeave(q.waiters, t);
    var l := Leave(q, t);
    if Full(q) {
      a, q', r := Resume(t, None), l, Failed;
    } else {
      var pick := SomeFetcher(l);
      LeaveKeeps(q, t);
      a, q', r := Resume(t, pick), Push(l, q.waiters[t].msg, pick), Posted;
    }
    assert Next(q, a, q', r);
    hide Next, AwakeFetchers, AwakePosters, Inv;
    StepKeepsInv(q, a, q', r);
    ResumeMoves(q, a, q', r);
  }

  /** With fewer messages than awake fetchers, letting these come back one after the other makes one
      fail. */
  lemma {:induction false} UnservedFetcherFails(q: Queue)
    requires Inv(q) && !FetchersServed(q)
    ensures FetchCanFail(q)
    decreases q.nelts
  {
    var t :| t in AwakeFetchers(q.waiters);
    hide Inv, AwakeFetchers, Next, FetchCanFail;
    var a, q', r := FetcherReturns(q, t);
    if Empty(q) {
      FetchFailsNow(q, a, q', t);
    } else {
      UnservedFetcherFails(q');
      OneMoreFetch(q, a, q', r);
    }
  }

  lemma {:induction false} UnservedPosterFails(q: Queue)
    requires Inv(q) && !PostersServed(q)
    ensures PostCanFail(q)
    decreases q.bounds - q.nelts
  {
    assert q.nelts <= q.bounds;
    var t :| t in AwakePosters(q.waiters);
    hide Inv, AwakePosters, Next, PostCanFail;
    var a, q', r := PosterReturns(q, t);
    if Full(q) {
      PostFailsNow(q, a, q', t);
    } else {
      assert q.nelts < q.bounds;
      UnservedPosterFails(q');
      OneMorePost(q, a, q', r);
    }
  }

  lemma FailingFetchUnserved(q: Queue, s: seq<Queue>, acts: seq<Action>, outs: seq<Outcome>, t: Thread)
    requires FailingFetch(q, s, acts, outs, t)
    ensures !FetchersServed(q)
  {
    hide Next, FetchersServed, AwakeFetchers;
    var n := |acts| - 1;
    AwakeIn(s[n].waiters, t);
    if FetchersServed(q) { FairRunServesFetchers(s, acts, outs, n); }
  }

  lemma FailingPostUnserved(q: Queue, s: seq<Queue>, acts: seq<Action>, outs: seq<Outcome>, t: Thread)
    requires FailingPost(q, s, acts, outs, t) && Inv(q)
    ensures !PostersServed(q)
  {
    hide Next, PostersServed, AwakePosters, Inv;
    var n := |acts| - 1;
    AwakeIn(s[n].waiters, t);
    if PostersServed(q) { FairRunServesPosters(s, acts, outs, n); }
  }

  lemma AwakeIn(w: map<Thread, Waiter>, t: Thread)
    ensures t in AwakeFetchers(w) ==> t in w && w[t].Fetcher? && w[t].wake != TimedOut
    ensures t in AwakePosters(w) ==> t in w && w[t].Poster? && w[t].wake != TimedOut
  {
  }

  /** Exactly when a waiting fetch can fail before any new fetch or spurious wake of a fetcher, whatever
      else happens in between. */
  lemma ServedExactly(q: Queue)
    requires Inv(q)
    ensures FetchCanFail(q) <==> !FetchersServed(q)
  {
    hide Inv, FetchersServed;
    if !FetchersServed(q) { UnservedFetcherFails(q); }
    if FetchCanFail(q) {
      var s: seq<Queue>, acts: seq<Action>, outs: seq<Outcome>, t: Thread :| FailingFetch(q, s, acts, outs, t);
      FailingFetchUnserved(q, s, acts, outs, t);
    }
  }

  /** Exactly when a waiting post can fail before any new post or spurious wake of a poster. */
  lemma PostersServedExactly(q: Queue)
    requires Inv(q)
    ensures PostCanFail(q) <==> !PostersServed(q)
  {
    hide Inv, PostersServed;
    if !PostersServed(q) { UnservedPosterFails(q); }
    if PostCanFail(q) {
      var s: seq<Queue>, acts: seq<Action>, outs: seq<Outcome>, t: Thread :| FailingPost(q, s, acts, outs, t);
      FailingPostUnserved(q, s, acts, outs, t);
    }
  }
}
