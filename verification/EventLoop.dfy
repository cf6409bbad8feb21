/** Timers on the binary heap (src/platform/event_loop.c). */
module EventLoops {
  import opened Bytes
  import opened PriorityQueue

  class Timer {
    const deadline: nat
    var cancelled: bool

    constructor (deadline: nat)
      ensures this.deadline == deadline && !cancelled
    {
      this.deadline := deadline;
      cancelled := false;
    }
  }

  type Timers = multiset<Entry<Timer>>

  ghost predicate NonDecreasing(s: seq<Entry<Timer>>)
  {
    forall i, j :: 0 <= i < j < |s| ==> s[i].key <= s[j].key
  }

  /** Entries of `all` that are due and whose timers have the given flag. */
  ghost predicate Due(s: seq<Entry<Timer>>, all: Timers, cancelled: bool, now: nat)
    reads (set e | e in all :: e.value)`cancelled
  {
    forall i :: 0 <= i < |s| ==> s[i] in all && s[i].key <= now && s[i].value.cancelled == cancelled
  }

  /** No queued timer precedes the ones that were run. */
  ghost predicate NoEarlier(run: seq<Entry<Timer>>, rest: Timers)
  {
    forall i, x :: 0 <= i < |run| && x in rest ==> run[i].key <= x.key
  }

  /** Part of a pass over the queue: what is gone was due, was run unless cancelled, and in deadline order. */
  ghost predicate Firing(before: Timers, after: Timers, run: seq<Entry<Timer>>, dropped: seq<Entry<Timer>>, now: nat)
    reads (set e | e in before :: e.value)`cancelled
  {
    && before == multiset(run) + multiset(dropped) + after
    && Due(run, before, false, now) && Due(dropped, before, true, now)
    && NoEarlier(run, after) && NonDecreasing(run)
  }

  /** A whole pass. */
  ghost predicate Fired(before: Timers, after: Timers, run: seq<Entry<Timer>>, dropped: seq<Entry<Timer>>, now: nat)
    reads (set e | e in before :: e.value)`cancelled
  {
    Firing(before, after, run, dropped, now) && forall e :: e in after ==> e.key > now
  }

  lemma DueMore(s: seq<Entry<Timer>>, all: Timers, cancelled: bool, now: nat, e: Entry<Timer>)
    requires Due(s, all, cancelled, now) && e in all && e.key <= now
    ensures e.value.cancelled == cancelled ==> Due(s + [e], all, cancelled, now)
  {
  }

  lemma StartFiring(all: Timers, now: nat)
    ensures Firing(all, all, [], [], now)
  {
  }

  /** What was in the queue has been dropped, or is in it still. */
  ghost predicate Drained(before: Timers, dropped: seq<Entry<Timer>>, after: Timers)
  {
    before == multiset(dropped) + after
  }

  lemma StartDraining(all: Timers)
    ensures Drained(all, [], all)
  {
  }

  lemma DrainOne(all: Timers, dropped: seq<Entry<Timer>>, rest: Timers, e: Entry<Timer>)
    requires Drained(all, dropped, rest) && e in rest
    ensures Drained(all, dropped + [e], rest - multiset{e})
  {
  }

  lemma MovedToRun(before: Timers, after: Timers, run: seq<Entry<Timer>>, dropped: seq<Entry<Timer>>, e: Entry<Timer>)
    requires before == multiset(run) + multiset(dropped) + after && e in after
    ensures e in before && before == multiset(run + [e]) + multiset(dropped) + (after - multiset{e})
  {
  }

  lemma MovedToDropped(before: Timers, after: Timers, run: seq<Entry<Timer>>, dropped: seq<Entry<Timer>>,
                       e: Entry<Timer>)
    requires before == multiset(run) + multiset(dropped) + after && e in after
    ensures e in before && before == multiset(run) + multiset(dropped + [e]) + (after - multiset{e})
  {
  }

  lemma RunNext(run: seq<Entry<Timer>>, rest: Timers, e: Entry<Timer>)
    requires NonDecreasing(run) && NoEarlier(run, rest) && Least(e, rest)
    ensures NonDecreasing(run + [e]) && NoEarlier(run + [e], rest - multiset{e}) && NoEarlier(run, rest - multiset{e})
  {
    forall x | x in rest - multiset{e} ensures x in rest {
    }
  }

  lemma FireOne(before: Timers, after: Timers, run: seq<Entry<Timer>>, dropped: seq<Entry<Timer>>, now: nat,
                e: Entry<Timer>)
    requires Firing(before, after, run, dropped, now) && Least(e, after) && e.key <= now
    ensures e in before
    ensures !e.value.cancelled ==> Firing(before, after - multiset{e}, run + [e], dropped, now)
    ensures e.value.cancelled ==> Firing(before, after - multiset{e}, run, dropped + [e], now)
  {
    hide NonDecreasing, NoEarlier, Due;
    MovedToRun(before, after, run, dropped, e);
    MovedToDropped(before, after, run, dropped, e);
    RunNext(run, after, e);
    DueMore(run, before, false, now, e);
    DueMore(dropped, before, true, now, e);
  }

  /**
   * A timer in the queue is run exactly when it is due and not cancelled, as often as it is queued, and stays
   * exactly when it is not due.
   */
  lemma RunExactly(before: Timers, after: Timers, run: seq<Entry<Timer>>, dropped: seq<Entry<Timer>>, now: nat,
                   e: Entry<Timer>)
    requires Fired(before, after, run, dropped, now) && e in before
    ensures multiset(run)[e] == if e.key <= now && !e.value.cancelled then before[e] else 0
    ensures after[e] == if e.key > now then before[e] else 0
  {
    if e.key > now {
      assert e !in run && e !in dropped;
    } else {
      assert e !in after;
      if e.value.cancelled {
        assert e !in run;
      } else {
        assert e !in dropped;
      }
    }
  }

  class EventLoop {
    const timers: Heap<Timer>

    ghost predicate Valid()
      reads this, timers, timers.entries
    {
      timers.Valid()
    }

    constructor (filler: Timer)
      ensures Valid() && timers.Contents() == multiset{}
      ensures fresh(timers) && fresh(timers.entries)
    {
      timers := new Heap(32, filler);
    }

    /** `nxp_event_loop_add_timer`. */
    method AddTimer(deadline: nat) returns (t: Timer)
      requires Valid()
      modifies timers, timers.entries
      ensures Valid() && fresh(t) && !t.cancelled
      ensures timers.Contents() == old(timers.Contents()) + multiset{Entry(deadline, t)}
    {
      t := new Timer(deadline);
      timers.Push(deadline, t);
    }

    /** `nxp_event_loop_cancel_timer`: the timer keeps its place in the queue. */
    method CancelTimer(t: Timer)
      requires Valid()
      modifies t`cancelled
      ensures Valid() && t.cancelled
      ensures timers.Contents() == old(timers.Contents())
    {
      t.cancelled := true;
    }

    /** The queue test of `fire_timers`: takes the first timer if it is due at `now`. */
    method TakeDue(now: nat) returns (r: Option<Entry<Timer>>)
      requires Valid()
      modifies timers`count, timers.entries
      ensures Valid()
      ensures r.None? ==> timers.Contents() == old(timers.Contents())
      ensures r.None? ==> forall e :: e in timers.Contents() ==> e.key > now
      ensures r.Some? ==> timers.count < old(timers.count) && r.value.key <= now
      ensures r.Some? ==> Least(r.value, old(timers.Contents()))
      ensures r.Some? ==> timers.Contents() == old(timers.Contents()) - multiset{r.value}
    {
      hide IsHeap;
      r := timers.Peek();
      if r.None? || r.value.key > now {
        return None;
      }
      r := timers.Pop();
    }

    /** `fire_timers` at time `now`, for callbacks that leave the queue alone; `run` lists the callbacks in order. */
    method FireTimers(now: nat) returns (run: seq<Entry<Timer>>, ghost dropped: seq<Entry<Timer>>)
      requires Valid()
      modifies timers`count, timers.entries
      ensures Valid()
      ensures Fired(old(timers.Contents()), timers.Contents(), run, dropped, now)
    {
      hide Heap.Valid, Heap.Contents, Firing, Least;
      run, dropped := [], [];
      ghost var all := timers.Contents();
      StartFiring(all, now);
      while true
        invariant Valid() && old(allocated(all))
        invariant forall e :: e in all ==> e.value.cancelled == old(e.value.cancelled)
        invariant Firing(all, timers.Contents(), run, dropped, now)
        decreases timers.count
      {
        ghost var rest := timers.Contents();
        var r := TakeDue(now);
        if r.None? {
          return;
        }
        FireOne(all, rest, run, dropped, now, r.value);
        if !r.value.value.cancelled {
          run := run + [r.value];
        } else {
          dropped := dropped + [r.value];
        }
      }
    }

    /** Takes the first timer if it is cancelled. */
    method TakeCancelled() returns (r: Option<Entry<Timer>>)
      requires Valid()
      modifies timers`count, timers.entries
      ensures Valid()
      ensures r.None? ==> unchanged(timers) && unchanged(timers.entries)
      ensures r.None? ==> timers.count == 0 || !timers.entries[0].value.cancelled
      ensures r.Some? ==> timers.count < old(timers.count)
      ensures r.Some? ==> r.value.value.cancelled && r.value in old(timers.Contents())
      ensures r.Some? ==> timers.Contents() == old(timers.Contents()) - multiset{r.value}
    {
      hide IsHeap;
      r := timers.Peek();
      if r.None? || !r.value.value.cancelled {
        return None;
      }
      r := timers.Pop();
    }

    /** The draining loop of `next_timer_timeout_ms`: only cancelled timers leave the queue. */
    method DrainCancelled() returns (ghost dropped: seq<Entry<Timer>>)
      requires Valid()
      modifies timers`count, timers.entries
      ensures Valid() && Drained(old(timers.Contents()), dropped, timers.Contents())
      ensures forall i :: 0 <= i < |dropped| ==> dropped[i].value.cancelled
      ensures timers.count == 0 || !timers.entries[0].value.cancelled
    {
      hide Heap.Valid, Heap.Contents, Drained;
      dropped := [];
      ghost var all := timers.Contents();
      StartDraining(all);
      while true
        invariant Valid() && Drained(all, dropped, timers.Contents())
        invariant forall i :: 0 <= i < |dropped| ==> dropped[i].value.cancelled
        decreases timers.count
      {
        ghost var rest := timers.Contents();
        var r := TakeCancelled();
        if r.None? {
          break;
        }
        DrainOne(all, dropped, rest, r.value);
        dropped := dropped + [r.value];
      }
    }

    /** `next_timer_timeout_ms` at time `now`; None stands for -1. */
    method NextTimeout(now: nat) returns (timeout: Option<nat>, ghost dropped: seq<Entry<Timer>>)
      requires Valid()
      modifies timers`count, timers.entries
      ensures Valid() && Drained(old(timers.Contents()), dropped, timers.Contents())
      ensures forall i :: 0 <= i < |dropped| ==> dropped[i].value.cancelled
      ensures timeout.None? <==> timers.count == 0
      ensures timeout.Some? ==>
        var e := timers.entries[0];
        !e.value.cancelled && Least(e, timers.Contents()) && Covers(timeout.value, now, e.key)
    {
      hide IsHeap, Least;
      dropped := DrainCancelled();
      var next := timers.Peek();
      if next.None? {
        return None, dropped;
      }
      var deadline := next.value.key;
      timeout := Some(if deadline <= now then 0 else (deadline - now + 999) / 1000);
    }
  }

  /** The least whole number of milliseconds that reaches the deadline. */
  predicate Covers(ms: nat, now: nat, deadline: nat)
  {
    now + 1000 * ms >= deadline && (ms > 0 ==> now + 1000 * (ms - 1) < deadline)
  }
}
