/** The critical sections of `rpa_queue_timedpush` and `rpa_queue_timedpop` as code, proved to be the
    steps of QueueSpec. The condition waits and the choice a signal makes are the environment's. */
module MessageQueue {
  import opened Basics
  import opened QueueSpec

  class RpaQueue {
    const data: array<Message>
    const bounds: nat
    var nelts: nat
    var next_in: nat
    var next_out: nat
    var full_waiters: int
    var empty_waiters: int
    ghost var waiters: map<Thread, Waiter>
    ghost var posted: seq<Message>
    ghost var fetched: seq<Message>

    ghost function View(): Queue
      reads this, data
    {
      Queue(data[..], nelts, next_in, next_out, bounds, full_waiters, empty_waiters, waiters, posted, fetched)
    }

    /** `rpa_queue_create`; `tkl_queue_create_init` refuses a capacity of zero before. */
    constructor (capacity: nat)
      requires capacity > 0
      ensures fresh(data) && bounds == capacity && Inv(View()) && Contents(View()) == []
    {
      data := new Message[capacity](_ => []);
      bounds := capacity;
      nelts, next_in, next_out, full_waiters, empty_waiters := 0, 0, 0, 0, 0;
      waiters, posted, fetched := map[], [], [];
      new;
      CreatedInv(capacity, data[..]);
    }

    /** Store a message, advance, count, and signal `not_empty` if somebody waits. */
    method Store(msg: Message, ghost pick: Option<Thread>)
      requires RingOk(View()) && !Full(View()) && SignalsFetcher(View(), pick)
      modifies this, data
      ensures View() == Push(old(View()), msg, pick)
    {
      data[next_in] := msg;
      next_in := next_in + 1;
      if next_in >= bounds {
        next_in := next_in - bounds;
      }
      nelts := nelts + 1;
      if empty_waiters != 0 {
        waiters := Signal(waiters, pick);
      }
      posted := posted + [msg];
    }

    /** Load the oldest message, count, advance, and signal `not_full` if somebody waits. */
    method Load(ghost pick: Option<Thread>) returns (msg: Message)
      requires RingOk(View()) && !Empty(View()) && SignalsPoster(View(), pick)
      modifies this
      ensures View() == Pop(old(View()), pick).1 && msg == Pop(old(View()), pick).0
    {
      msg := data[next_out];
      nelts := nelts - 1;
      next_out := next_out + 1;
      if next_out >= bounds {
        next_out := next_out - bounds;
      }
      if full_waiters != 0 {
        waiters := Signal(waiters, pick);
      }
      fetched := fetched + [msg];
    }

    /** `rpa_queue_timedpush` (and `trypush`) from the lock to the unlock or to the wait. */
    method EnterPush(t: Thread, msg: Message, wait: Wait, ghost pick: Option<Thread>) returns (r: Outcome)
      requires Inv(View()) && t !in waiters && (!Full(View()) ==> SignalsFetcher(View(), pick))
      modifies this, data
      ensures Next(old(View()), Post(t, msg, wait, pick), View(), r) && Inv(View())
    {
      hide Contents, CountersOk, NoLostWakeup;
      if nelts == bounds {
        if wait == NoWait {
          r := Failed;
        } else {
          full_waiters := full_waiters + 1;
          waiters := waiters[t := Poster(Asleep, wait == Forever, msg)];
          r := Waiting;
        }
      } else {
        Store(msg, pick);
        r := Posted;
      }
      StepKeepsInv(old(View()), Post(t, msg, wait, pick), View(), r);
    }

    /** `rpa_queue_timedpush` from the return of the wait, with result rv, to the unlock. */
    method ResumePush(t: Thread, msg: Message, rv: int, ghost pick: Option<Thread>) returns (r: Outcome)
      requires Inv(View()) && t in waiters && waiters[t].Poster? && waiters[t].wake != Asleep && waiters[t].msg == msg
      requires rv == 0 <==> waiters[t].wake != TimedOut
      requires rv == 0 && !Full(View()) ==> SignalsFetcher(Leave(View(), t), pick)
      modifies this, data
      ensures Next(old(View()), Resume(t, pick), View(), r) && Inv(View())
      ensures r == if rv == 0 && old(nelts) < bounds then Posted else Failed
      ensures Contents(View()) == if r == Posted then old(Contents(View())) + [msg] else old(Contents(View()))
    {
      hide Contents, CountersOk, NoLostWakeup;
      LeaveKeeps(View(), t);
      full_waiters := full_waiters - 1;
      waiters := waiters - {t};
      if rv != 0 || nelts == bounds {
        r := Failed;
      } else {
        Store(msg, pick);
        r := Posted;
      }
      StepOnContents(old(View()), Resume(t, pick), View(), r);
    }

    /** `rpa_queue_timedpop` (and `trypop`) from the lock to the unlock or to the wait. */
    method EnterPop(t: Thread, wait: Wait, ghost pick: Option<Thread>) returns (r: Outcome)
      requires Inv(View()) && t !in waiters && (!Empty(View()) ==> SignalsPoster(View(), pick))
      modifies this
      ensures Next(old(View()), Fetch(t, wait, pick), View(), r) && Inv(View())
    {
      hide Contents, CountersOk, NoLostWakeup;
      if nelts == 0 {
        if wait == NoWait {
          r := Failed;
        } else {
          empty_waiters := empty_waiters + 1;
          waiters := waiters[t := Fetcher(Asleep, wait == Forever)];
          r := Waiting;
        }
      } else {
        var msg := Load(pick);
        r := Fetched(msg);
      }
      StepKeepsInv(old(View()), Fetch(t, wait, pick), View(), r);
    }

    /** `rpa_queue_timedpop` from the return of the wait, with result rv, to the unlock. */
    method ResumePop(t: Thread, rv: int, ghost pick: Option<Thread>) returns (r: Outcome)
      requires Inv(View()) && t in waiters && waiters[t].Fetcher? && waiters[t].wake != Asleep
      requires rv == 0 <==> waiters[t].wake != TimedOut
      requires rv == 0 && !Empty(View()) ==> SignalsPoster(Leave(View(), t), pick)
      modifies this
      ensures Next(old(View()), Resume(t, pick), View(), r) && Inv(View())
      ensures r == if rv == 0 && old(nelts) > 0 then Fetched(old(Contents(View()))[0]) else Failed
      ensures Contents(View()) == if r == Failed then old(Contents(View())) else old(Contents(View()))[1..]
    {
      hide Contents, CountersOk, NoLostWakeup;
      LeaveKeeps(View(), t);
      empty_waiters := empty_waiters - 1;
      waiters := waiters - {t};
      if rv != 0 || nelts == 0 {
        r := Failed;
      } else {
        var msg := Load(pick);
        r := Fetched(msg);
      }
      StepOnContents(old(View()), Resume(t, pick), View(), r);
    }

    /** `tkl_queue_post` up to its return or wait: msgsize bytes of the data are copied and pushed. */
    method EnterPost(t: Thread, data: Message, msgsize: nat, timeout: nat, ghost pick: Option<Thread>) returns (r: Outcome)
      requires Inv(View()) && t !in waiters && (!Full(View()) ==> SignalsFetcher(View(), pick)) && msgsize <= |data|
      modifies this, this.data
      ensures Next(old(View()), Post(t, data[..msgsize], WaitOf(timeout), pick), View(), r) && Inv(View())
      ensures r == if old(nelts) < bounds then Posted else if timeout == 0 then Failed else Waiting
      ensures Contents(View()) == if r == Posted then old(Contents(View())) + [data[..msgsize]] else old(Contents(View()))
      ensures r == Failed ==> waiters == old(waiters)
      ensures r == Waiting ==> waiters == old(waiters)[t := Poster(Asleep, timeout == 0xFFFF_FFFF, data[..msgsize])]
    {
      hide Contents, CountersOk, NoLostWakeup;
      r := EnterPush(t, data[..msgsize], WaitOf(timeout), pick);
      StepOnContents(old(View()), Post(t, data[..msgsize], WaitOf(timeout), pick), View(), r);
    }

    /** `tkl_queue_fetch` up to its return or wait. */
    method EnterFetch(t: Thread, timeout: nat, ghost pick: Option<Thread>) returns (r: Outcome)
      requires Inv(View()) && t !in waiters && (!Empty(View()) ==> SignalsPoster(View(), pick))
      modifies this
      ensures Next(old(View()), Fetch(t, WaitOf(timeout), pick), View(), r) && Inv(View())
      ensures r == if old(nelts) > 0 then Fetched(old(Contents(View()))[0]) else if timeout == 0 then Failed else Waiting
      ensures Contents(View()) == if old(nelts) > 0 then old(Contents(View()))[1..] else []
      ensures r == Failed ==> waiters == old(waiters)
      ensures r == Waiting ==> waiters == old(waiters)[t := Fetcher(Asleep, timeout == 0xFFFF_FFFF)]
    {
      hide Contents, CountersOk, NoLostWakeup;
      r := EnterPop(t, WaitOf(timeout), pick);
      StepOnContents(old(View()), Fetch(t, WaitOf(timeout), pick), View(), r);
    }
  }
}
