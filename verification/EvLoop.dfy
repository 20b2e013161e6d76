/** The event loop of libev: pending events and timers. */
module EvLoop {
  import opened Common
  import opened EvWatcher
  import opened EvHeap
  import opened EvDebt
  import opened EvHistory
  import opened EvQueues
  import opened EvScript

  const EV_TIMER: Mask := 0x100

  /** An old history continued by cancellations only. */
  ghost predicate OnlyCleared(h0: History, h: History) {
    && |h0| <= |h| && h[..|h0|] == h0
    && forall i :: |h0| <= i < |h| ==> h[i].Cleared?
  }

  /** Cancellations do not make anything pending. */
  lemma {:induction false} StaysQuiet(h0: History, h: History, w: Watcher)
    requires OnlyCleared(h0, h)
    ensures Owed(h0, w) == None ==> Owed(h, w) == None
    decreases |h|
  {
    if |h| == |h0| {
      assert h == h0;
    } else {
      var front := h[..|h| - 1];
      assert front[..|h0|] == h0;
      StaysQuiet(h0, front, w);
    }
  }

  ghost predicate SortedByTime(due: seq<Watcher>, at0: map<Watcher, real>) {
    && (forall i :: 0 <= i < |due| ==> due[i] in at0)
    && (forall i, j :: 0 <= i < j < |due| ==> at0[due[i]] <= at0[due[j]])
  }

  /** due lists the active timers that expired before now, in the order of their expiry. */
  ghost predicate DueExactly(due: seq<Watcher>, active0: set<Watcher>, at0: map<Watcher, real>, now: real) {
    && (forall w :: w in at0 ==> (w in due <==> w in active0 && at0[w] < now))
    && Distinct(due) && SortedByTime(due, at0)
  }

  /** What timers_reify does to a timer with the given time when it collects it. */
  ghost predicate SettledAs(at: real, active: bool, repeat: real, now: real, collected: bool, active0: bool, at0: real) {
    if !collected then at == at0 && active == active0
    else
      && active0 && at0 < now
      && (if repeat > 0.0 then active && at == (if at0 + repeat < now then now else at0 + repeat)
          else !active && at == at0 - now)
  }

  /** What timers_reify makes of the timers t0: those that were due are settled, the others are left alone. */
  ghost predicate Reified(t: Snapshot, due: seq<Watcher>, t0: Snapshot, now: real) {
    && t.at.Keys == t0.at.Keys == t.repeat.Keys && t.repeat == t0.repeat && t.active <= t.at.Keys
    && forall w :: w in t.at ==>
         SettledAs(t.at[w], w in t.active, t.repeat[w], now, w in due, w in t0.active, t0.at[w])
  }

  class Loop {
    var pendings: Queues      // one stack of pending events per priority
    var pendingpri: nat       // no queue of this or a higher priority holds unseen events
    var rfeeds: seq<Watcher>  // events to be fed in reverse
    var timers: seq<Anhe>
    var mnNow: real
    ghost const ws: set<Watcher>   // the watchers of the application
    ghost const ts: set<Watcher>   // those that are timers
    ghost var history: History

    /** The pending queues as a value. */
    ghost function Pend(): State
      reads this`pendings, ws`pending
    {
      State(pendings, map w | w in ws :: w.pending)
    }

    ghost predicate ValidQueues()
      reads this`pendings, this`history, ws`pending
    {
      Faithful(Pend(), history)
    }

    /** verify_heap for all watchers but one: slots, order and cached times. */
    ghost predicate ValidTimersExcept(x: Watcher?)
      reads this`timers, ts`active, ts`at, ts`repeat
    {
      && ts <= ws && (forall e :: e in timers ==> e.w in ts && e.at == e.w.at)
      && (forall i :: 0 <= i < |timers| ==> timers[i].w.active == i + HEAP0)
      && Ordered(timers)
      && (forall w :: w in ts && w != x && w.active > 0 ==> w in Active())
      && (forall w :: w in ts ==> w.repeat >= 0.0)
    }

    /** verify_heap: slots, order and cached times; a watcher is active exactly when it is in the heap. */
    ghost predicate ValidTimers()
      reads this`timers, ts`active, ts`at, ts`repeat
    {
      ValidTimersExcept(null)
    }

    ghost predicate Valid()
      reads this`pendings, this`history, this`timers, ws, ts
    {
      ValidQueues() && ValidTimers()
    }

    /** The running timers. */
    ghost function Active(): set<Watcher>
      reads this`timers
    {
      Watchers(timers)
    }

    constructor (ghost ws: set<Watcher>, ghost ts: set<Watcher>, now: real)
      requires ts <= ws && (forall w :: w in ws ==> w.pending == 0)
      requires forall w :: w in ts ==> w.active == 0 && w.repeat >= 0.0
      ensures Valid() && this.ws == ws && this.ts == ts && history == [] && Active() == {} && mnNow == now
    {
      pendings := EMPTY;
      pendingpri := 0;
      rfeeds, timers := [], [];
      mnNow := now;
      this.ws, this.ts := ws, ts;
      history := [];
    }

    /** The queue update of ev_feed_event. */
    method QueueEvent(w: Watcher, revents: Mask)
      requires w in ws && w.pending <= |pendings[w.pri]|
      modifies this`pendings, this`pendingpri, w`pending
      ensures Pend() == FeedTo(old(Pend()), w, revents)
      ensures pendingpri == NUMPRI - 1
    {
      var q := pendings[w.pri];
      if w.pending > 0 {
        var i := w.pending - 1;
        pendings := pendings[w.pri := q[i := Pending(q[i].w, q[i].events | revents)]];
      } else {
        w.pending := |q| + 1;
        pendings := pendings[w.pri := q + [Pending(w, revents)]];
      }
      assert Pend().index == FeedTo(old(Pend()), w, revents).index;
      pendingpri := NUMPRI - 1;
    }

    /** ev_feed_event */
    method FeedEvent(w: Watcher, revents: Mask)
      requires ValidQueues() && w in ws
      modifies this`pendings, this`pendingpri, this`history, w`pending
      ensures ValidQueues() && Pend() == FeedTo(old(Pend()), w, revents)
      ensures history == old(history) + [Fed(w, revents)]
      ensures pendingpri == NUMPRI - 1
    {
      assert LinkedWatcher(pendings[w.pri], w, Pend().index);
      FeedIsFaithful(Pend(), history, w, revents);
      QueueEvent(w, revents);
      history := history + [Fed(w, revents)];
    }

    /** The queue update of clear_pending and ev_clear_pending; the latter also returns the cancelled events. */
    method UnqueueEvent(w: Watcher) returns (events: Mask)
      requires w in ws && w.pending <= |pendings[w.pri]|
      modifies this`pendings, w`pending
      ensures Pend() == ClearFrom(old(Pend()), w) && SameHeights(pendings, old(pendings))
      ensures events == if old(w.pending) > 0 then old(pendings[w.pri][w.pending - 1].events) else 0
    {
      if w.pending > 0 {
        var i := w.pending - 1;
        var q := pendings[w.pri];
        events := q[i].events;
        pendings := pendings[w.pri := q[i := Pending(null, events)]];
        w.pending := 0;
      } else {
        events := 0;
      }
      assert Pend().index == ClearFrom(old(Pend()), w).index;
    }

    /** clear_pending and ev_clear_pending */
    method ClearPending(w: Watcher) returns (events: Mask)
      requires ValidQueues() && w in ws
      modifies this`pendings, this`history, w`pending
      ensures ValidQueues() && Pend() == ClearFrom(old(Pend()), w) && SameHeights(pendings, old(pendings))
      ensures history == Cancelled(old(history), w)
      ensures events == match Owed(old(history), w) case Some(owed) => owed case None => 0
    {
      ClearFacts(w);
      hide Faithful, ClearFrom, SameHeights, Owed, Pend, Cancelled;
      events := UnqueueEvent(w);
      history := Cancelled(history, w);
    }

    lemma ClearFacts(w: Watcher)
      requires ValidQueues() && w in ws
      ensures w.pending <= |pendings[w.pri]|
      ensures Owed(history, w) == if w.pending > 0 then Some(pendings[w.pri][w.pending - 1].events) else None
      ensures w in Pend().index && (Pend().index[w] > 0 ==> Pend().index[w] <= |Pend().q[w.pri]|)
      ensures Faithful(ClearFrom(Pend(), w), Cancelled(history, w))
    {
      assert LinkedWatcher(pendings[w.pri], w, Pend().index);
      assert Owed(history, w) == Debt(Pend(), w);
      ClearIsFaithful(Pend(), history, w);
    }

    /** A watcher is active exactly when it is in the heap, at the slot it says. */
    lemma ActiveMeansInHeap(w: Watcher)
      requires ValidTimers() && w in ts
      ensures w.active > 0 <==> w in Active()
      ensures w.active > 0 ==> HEAP0 <= w.active < HEAP0 + |timers| && timers[w.active - HEAP0].w == w
    {
      if w in Active() {
        var e :| e in timers && e.w == w;
        var i :| 0 <= i < |timers| && timers[i] == e;
      }
    }

    /**
     * What a heap must satisfy to become the timers of the loop, except for the place of element k and for
     * the watcher x, which is about to leave the heap or to enter it.
     */
    ghost predicate Installable(h: seq<Anhe>, k: nat, x: Watcher?)
      reads ts`active, ts`at, ts`repeat
    {
      && ts <= ws && x !in Watchers(h)
      && (forall i :: 0 <= i < |h| ==> h[i].w in ts && h[i].at == h[i].w.at)
      && (forall i :: 0 <= i < |h| && i != k ==> h[i].w.active == i + HEAP0)
      && (forall i :: 0 <= i < |h| && i != k && k < |h| ==> h[i].w != h[k].w)
      && (forall w :: w in ts && w != x && w.active > 0 ==> w in Watchers(h))
      && (forall w :: w in ts ==> w.repeat >= 0.0)
    }

    /** Sorts the misplaced element k, if there is one, into place and installs the heap. */
    method SiftAndInstall(heap: seq<Anhe>, k: nat, direction: Direction)
      requires Installable(heap, k, null) && k <= |heap| && Misplaced(heap, k, direction)
      modifies this`timers, ts`active
      ensures ValidTimers() && Active() == Watchers(heap)
    {
      hide Ordered, Misplaced;
      assert Watchers(heap) <= ts;
      forall e | e in heap ensures e.w in ts && e.at == e.w.at {}
      timers := Sift(heap, k, direction);
      assert forall x :: x in ts && x !in Watchers(heap) ==> x.active == old(x.active);
    }

    /** The heap with the watcher at its end is in order except there. */
    lemma PushDefect(w: Watcher)
      requires ValidTimersExcept(w) && w in ts && w !in Active()
      ensures var h := timers + [Anhe(w, w.at)];
              && Watchers(h) == Active() + {w} && OrderedBelow(h, |timers|)
              && (forall i :: 0 <= i < |h| ==> h[i].w in ts && h[i].at == h[i].w.at)
              && (forall i :: 0 <= i < |timers| ==> h[i].w != w && h[i].w.active == i + HEAP0)
    {
      var h := timers + [Anhe(w, w.at)];
      AppendDefect(timers, Anhe(w, w.at));
      AppendWatchers(timers, Anhe(w, w.at));
      forall i | 0 <= i < |timers| ensures h[i].w != w && h[i].w in ts && h[i].at == h[i].w.at {
        assert h[i] in timers;
      }
    }

    lemma TimersAreWatchers()
      requires ValidTimers()
      ensures ts <= ws
    {
    }

    /** Installs a heap whose last element has just come in. */
    method EnterAndInstall(heap: seq<Anhe>, w: Watcher)
      requires |heap| > 0 && heap[|heap| - 1].w == w && OrderedBelow(heap, |heap| - 1) && ts <= ws
      requires forall i :: 0 <= i < |heap| ==> heap[i].w in ts && heap[i].at == heap[i].w.at
      requires forall i :: 0 <= i < |heap| - 1 ==> heap[i].w != w && heap[i].w.active == i + HEAP0
      requires forall x :: x in ts ==> x.repeat >= 0.0 && (x.active > 0 && x != w ==> x in Watchers(heap))
      modifies this`timers, ts`active
      ensures ValidTimers() && Active() == Watchers(heap)
    {
      assert w in Watchers(heap) by {
        assert heap[|heap| - 1] in heap;
      }
      hide OrderedBelow, Ordered, Watchers, ValidTimers;
      w.active := |heap| - 1 + HEAP0;
      assert Installable(heap, |heap| - 1, null);
      hide Installable;
      SiftAndInstall(heap, |heap| - 1, Up);
    }

    /** Puts the watcher, whose time is set, at the end of the heap and moves it up. */
    method PushTimer(w: Watcher)
      requires ValidTimersExcept(w) && w in ts && w !in Active()
      modifies this`timers, ts`active
      ensures ValidTimers() && Active() == old(Active()) + {w}
    {
      PushDefect(w);
      hide OrderedBelow, Ordered, Watchers;
      EnterAndInstall(timers + [Anhe(w, w.at)], w);
    }

    /** ev_timer_start */
    method TimerStart(w: Watcher)
      requires ValidTimers() && w in ts
      modifies this`timers, ts`active, w`at
      ensures ValidTimers() && Active() == old(Active()) + {w}
      ensures w.at == if old(w.active) > 0 then old(w.at) else old(w.at) + mnNow
    {
      ActiveMeansInHeap(w);
      if w.active > 0 {
        return;
      }
      w.at := w.at + mnNow;
      assert forall e :: e in timers ==> e.w in Active();
      PushTimer(w);
    }

    /** The heap without the timer at slot k + HEAP0 is in order except around k. */
    lemma PullDefect(k: nat)
      requires ValidTimers() && k < |timers|
      ensures var h := Without(timers, k);
              && Watchers(h) == Active() - {timers[k].w}
              && OrderedExcept(h, k) && (k == |h| ==> Ordered(h))
              && Installable(h, k, timers[k].w)
    {
      WithoutWatchers(timers, k);
      WithoutDefect(timers, k);
      var h := Without(timers, k);
      forall i | 0 <= i < |h| ensures h[i].w in ts && h[i].at == h[i].w.at {
        assert h[i] in timers;
      }
    }

    /** Installs a heap that a watcher has left. */
    method LeaveAndInstall(heap: seq<Anhe>, k: nat, w: Watcher)
      requires w in ts && Installable(heap, k, w) && k <= |heap| && Misplaced(heap, k, Either)
      modifies this`timers, ts`active
      ensures ValidTimers() && Active() == Watchers(heap) && w.active == 0
    {
      hide Misplaced, ValidTimersExcept;
      assert Watchers(heap) <= ts;
      w.active := 0;
      assert Installable(heap, k, null);
      SiftAndInstall(heap, k, Either);
      NotInHeap(w);
    }

    lemma NotInHeap(w: Watcher)
      requires ValidTimers() && w in ts && w !in Active()
      ensures w.active == 0
    {
      ActiveMeansInHeap(w);
    }

    /** Takes an active timer out of the heap: the last element takes its place and is adjusted. */
    method PullTimer(w: Watcher)
      requires ValidTimers() && w in ts && w.active > 0
      modifies this`timers, ts`active
      ensures ValidTimers() && Active() == old(Active()) - {w} && w.active == 0
    {
      ActiveMeansInHeap(w);
      var k := w.active - HEAP0;
      PullDefect(k);
      hide Without, OrderedExcept, Ordered, Installable, ValidTimersExcept, Watchers;
      LeaveAndInstall(Without(timers, k), k, w);
    }

    /** The part of ev_timer_stop that concerns an active timer. */
    method RetireTimer(w: Watcher)
      requires ValidTimers() && w in ts && w.active > 0
      modifies this`timers, ts`active, w`at
      ensures ValidTimers() && Active() == old(Active()) - {w}
      ensures w.active == 0 && w.at == old(w.at) - mnNow
    {
      PullTimer(w);
      assert forall e :: e in timers ==> e.w in Active();
      w.at := w.at - mnNow;
    }

    /** ev_timer_stop */
    method TimerStop(w: Watcher)
      requires ValidQueues() && ValidTimers() && w in ts
      modifies this`pendings, this`timers, this`history, w`pending, ts`active, w`at
      ensures ValidQueues() && Pend() == ClearFrom(old(Pend()), w) && SameHeights(pendings, old(pendings))
      ensures ValidTimers() && Active() == old(Active()) - {w} && w.active == 0
      ensures history == Cancelled(old(history), w)
      ensures w.at == if old(w.active) > 0 then old(w.at) - mnNow else old(w.at)
    {
      hide Faithful;
      var _ := ClearPending(w);
      if w.active > 0 {
        RetireTimer(w);
      } else {
        ActiveMeansInHeap(w);
      }
    }

    /** The heap with the time of the timer at slot k + HEAP0 changed is in order except around k. */
    lemma RetimeDefect(k: nat, t: real)
      requires ValidTimers() && k < |timers|
      ensures var h := timers[k := Anhe(timers[k].w, t)];
              && Watchers(h) == Active() && OrderedExcept(h, k)
              && (forall i :: 0 <= i < |h| ==> h[i].w in ts && h[i].w.active == i + HEAP0)
              && (forall i :: 0 <= i < |h| && i != k ==> h[i].at == h[i].w.at && h[i].w != h[k].w)
    {
      var e := Anhe(timers[k].w, t);
      ReplaceDefect(timers, k, e);
      ReplaceWatchers(timers, k, e);
      forall i | 0 <= i < |timers| ensures timers[i] in timers {}
    }

    /** Installs a heap in which only the time of element k is new. */
    method RetimeAndInstall(heap: seq<Anhe>, k: nat, direction: Direction)
      requires k < |heap| && Misplaced(heap, k, direction) && ts <= ws
      requires forall i :: 0 <= i < |heap| ==> heap[i].w in ts && heap[i].w.active == i + HEAP0
      requires forall i :: 0 <= i < |heap| && i != k ==> heap[i].at == heap[i].w.at && heap[i].w != heap[k].w
      requires forall w :: w in ts ==> w.repeat >= 0.0 && (w.active > 0 ==> w in Watchers(heap))
      modifies this`timers, ts`active, heap[k].w`at
      ensures ValidTimers() && Active() == Watchers(heap) && heap[k].w.at == heap[k].at
    {
      hide Misplaced, Watchers;
      heap[k].w.at := heap[k].at;
      SiftAndInstall(heap, k, direction);
    }

    /** Gives an active timer a new time and moves it to its new place. */
    method Retime(w: Watcher, t: real, direction: Direction)
      requires ValidTimers() && w in ts && w.active > 0
      requires direction == Either || (direction == Down && w.active == HEAP0)
      modifies this`timers, ts`active, w`at
      ensures ValidTimers() && Active() == old(Active()) && w.at == t
    {
      ActiveMeansInHeap(w);
      var k := w.active - HEAP0;
      RetimeDefect(k, t);
      hide OrderedExcept, Ordered, Watchers;
      RetimeAndInstall(timers[k := Anhe(w, t)], k, direction);
    }

    /** The part of ev_timer_again that concerns a repeating timer. */
    method Reschedule(w: Watcher)
      requires ValidTimers() && w in ts && w.repeat > 0.0
      modifies this`timers, ts`active, w`at
      ensures ValidTimers() && Active() == old(Active()) + {w}
      ensures w.at == mnNow + w.repeat
    {
      ActiveMeansInHeap(w);
      if w.active > 0 {
        Retime(w, mnNow + w.repeat, Either);
      } else {
        assert forall e :: e in timers ==> e.w in Active();
        w.at := w.repeat;
        TimerStart(w);
      }
    }

    /** ev_timer_again */
    method TimerAgain(w: Watcher)
      requires ValidQueues() && ValidTimers() && w in ts
      modifies this`pendings, this`timers, this`history, w`pending, ts`active, w`at
      ensures ValidQueues() && Pend() == ClearFrom(old(Pend()), w) && SameHeights(pendings, old(pendings))
      ensures ValidTimers()
      ensures Active() == if w.repeat > 0.0 then old(Active()) + {w} else old(Active()) - {w}
      ensures w.at == if w.repeat > 0.0 then mnNow + w.repeat
                      else if old(w.active) > 0 then old(w.at) - mnNow else old(w.at)
      ensures history == Cancelled(old(history), w)
    {
      hide Faithful, ValidTimersExcept, SameHeights, Cancelled, Owed;
      TimersAreWatchers();
      CancelledOnce(history, w);
      var _ := ClearPending(w);
      if w.repeat > 0.0 {
        Reschedule(w);
      } else if w.active > 0 {
        TimerStop(w);
      } else {
        ActiveMeansInHeap(w);
      }
    }

    /** feed_reverse_done */
    method FeedReverseDone(revents: Mask)
      requires ValidQueues() && rfeeds != [] && (forall w :: w in rfeeds ==> w in ws)
      modifies this`pendings, this`pendingpri, this`history, this`rfeeds, ws`pending
      ensures ValidQueues() && rfeeds == []
      ensures |history| == |old(history)| + |old(rfeeds)| && history[..|old(history)|] == old(history)
      ensures FedInReverse(history, |old(history)|, old(rfeeds), revents)
    {
      hide Faithful;
      ghost var h0, due := history, rfeeds;
      while rfeeds != []
        invariant ValidQueues() && |rfeeds| <= |due| && rfeeds == due[..|rfeeds|]
        invariant |history| == |h0| + |due| - |rfeeds| && history[..|h0|] == h0
        invariant forall p :: |h0| <= p < |history| ==> history[p] == Fed(due[|h0| + |due| - 1 - p], revents)
        decreases |rfeeds|
      {
        var w := rfeeds[|rfeeds| - 1];
        rfeeds := rfeeds[..|rfeeds| - 1];
        FeedEvent(w, revents);
      }
    }

    /** The first timer of the heap expires first. */
    lemma RootIsFirst()
      requires ValidTimers() && timers != []
      ensures timers[0].w in Active() && timers[0].at == timers[0].w.at
      ensures forall x :: x in Active() ==> timers[0].at <= x.at
    {
      assert timers[0] in timers;
      forall x | x in Active() ensures timers[0].at <= x.at {
        var e :| e in timers && e.w == x;
        var i :| 0 <= i < |timers| && timers[i] == e;
        RootIsMinimum(timers, i);
      }
    }

    lemma ClearedAtMost(h: History, w: Watcher)
      ensures OnlyCleared(h, h) && OnlyCleared(h, Cancelled(h, w))
    {
    }

    lemma FirstTimer()
      requires ValidTimers() && timers != []
      ensures timers[0].w in ts && timers[0].w.active == HEAP0 && timers[0].w.active > 0 && timers[0].w.repeat >= 0.0
    {
      assert timers[0] in timers;
    }

    /** One round of the loop in timers_reify: reschedules or stops the timer that expired first. */
    method ReifyFirst() returns (w: Watcher)
      requires ValidQueues() && ValidTimers() && timers != [] && timers[0].at < mnNow
      modifies this`pendings, this`timers, this`history, this`rfeeds
      modifies ts`active, timers[0].w`pending, timers[0].w`at
      ensures w == old(timers[0].w) && rfeeds == old(rfeeds) + [w]
      ensures ValidQueues() && ValidTimers() && OnlyCleared(old(history), history)
      ensures w.repeat == 0.0 ==> Active() == old(Active()) - {w} && w.at == old(w.at) - mnNow
      ensures w.repeat > 0.0 ==> Active() == old(Active())
      ensures w.repeat > 0.0 ==> w.at == if old(w.at) + w.repeat < mnNow then mnNow else old(w.at) + w.repeat
      ensures w.repeat == 0.0 ==> history == Cancelled(old(history), w)
      ensures w.repeat > 0.0 ==> history == old(history)
    {
      hide *;
      FirstTimer();
      w := timers[0].w;
      ClearedAtMost(history, w);
      if w.repeat > 0.0 {
        var at := w.at + w.repeat;
        if at < mnNow {
          at := mnNow;
        }
        Retime(w, at, Down);
      } else {
        TimerStop(w);
      }
      rfeeds := rfeeds + [w];
    }

    /** What timers_reify has done to w when it has (or has not yet) collected it. */
    ghost predicate Settled(w: Watcher, collected: bool, active0: set<Watcher>, at0: map<Watcher, real>)
      reads this`timers, this`mnNow, w`at, w`repeat
      requires w in at0
    {
      SettledAs(w.at, w in Active(), w.repeat, mnNow, collected, w in active0, at0[w])
    }

    ghost predicate AllSettled(done: seq<Watcher>, active0: set<Watcher>, at0: map<Watcher, real>)
      reads this`timers, this`mnNow, ws`at, ws`repeat
    {
      && at0.Keys == ws
      && forall w :: w in ws ==> Settled(w, w in done, active0, at0)
    }

    /** The timers collected so far are in order of expiry, and none that is left expired earlier. */
    ghost predicate CollectedInOrder(done: seq<Watcher>, at0: map<Watcher, real>)
      reads this`timers, ws`at
    {
      && Distinct(done) && SortedByTime(done, at0)
      && (forall i, x :: 0 <= i < |done| && x in Active() && x in ws ==> at0[done[i]] <= x.at)
    }

    /** Nothing but one-shot timers was cancelled; they, and timers that were not pending, are not pending when fed. */
    ghost predicate ReadyToFeed(done: seq<Watcher>, h0: History, h: History)
      reads ws`repeat
    {
      && OnlyCleared(h0, h)
      && (forall i :: |h0| <= i < |h| ==> h[i].w in done && h[i].w in ws && h[i].w.repeat == 0.0)
      && (forall w :: w in done && w in ws && (w.repeat == 0.0 || Owed(h0, w) == None) ==> Owed(h, w) == None)
    }

    lemma ReadyStep(done: seq<Watcher>, h0: History, h: History, w: Watcher)
      requires ReadyToFeed(done, h0, h) && w in ws
      ensures w.repeat > 0.0 ==> ReadyToFeed(done + [w], h0, h)
      ensures w.repeat == 0.0 ==> ReadyToFeed(done + [w], h0, Cancelled(h, w))
    {
      StaysQuiet(h0, h, w);
      CancelledOnce(h, w);
    }

    /** The first timer of the heap is due, has not been collected, and expired first among those that are left. */
    lemma FirstIsDue(done: seq<Watcher>, active0: set<Watcher>, at0: map<Watcher, real>)
      requires ValidTimers() && timers != [] && timers[0].at < mnNow
      requires AllSettled(done, active0, at0)
      ensures var w := timers[0].w;
              && w in ts && w in ws && w in at0 && w in Active() && w in active0 && w !in done && w.repeat >= 0.0
              && w.at == at0[w] < mnNow
              && (forall x :: x in Active() ==> w.at <= x.at) && Active() <= ws
    {
      RootIsFirst();
      var w := timers[0].w;
      assert timers[0] in timers;
      assert Settled(w, w in done, active0, at0);
    }

    /** Collecting one more timer, which is stopped or rescheduled, settles it and leaves the others alone. */
    lemma SettledStep(done: seq<Watcher>, active0: set<Watcher>, at0: map<Watcher, real>, w: Watcher, before: Snapshot)
      requires at0.Keys == before.at.Keys == before.repeat.Keys == ws && w in ws && w !in done
      requires forall x :: x in ws ==>
                 SettledAs(before.at[x], x in before.active, before.repeat[x], mnNow, x in done, x in active0, at0[x])
      requires w in active0 && before.at[w] == at0[w] < mnNow && w.repeat >= 0.0
      requires forall x :: x in ws ==> x.repeat == before.repeat[x] && (x != w ==> x.at == before.at[x])
      requires w.repeat == 0.0 ==> Active() == before.active - {w} && w.at == before.at[w] - mnNow
      requires w.repeat > 0.0 ==> Active() == before.active && w in Active()
      requires w.repeat > 0.0 ==> w.at == if before.at[w] + w.repeat < mnNow then mnNow else before.at[w] + w.repeat
      ensures AllSettled(done + [w], active0, at0)
    {
      forall x | x in ws ensures Settled(x, x in done + [w], active0, at0) {
        assert x in done + [w] <==> x in done || x == w;
      }
    }

    lemma InOrderStep(done: seq<Watcher>, at0: map<Watcher, real>, w: Watcher, before: Snapshot)
      requires before.at.Keys == ws && before.active <= ws && w in at0 && w !in done
      requires Distinct(done) && SortedByTime(done, at0)
      requires forall i, x :: 0 <= i < |done| && x in before.active ==> at0[done[i]] <= before.at[x]
      requires w in before.active && before.at[w] == at0[w] && (forall x :: x in before.active ==> at0[w] <= before.at[x])
      requires Active() <= before.active && forall x :: x in Active() ==> before.at[x] <= x.at
      ensures CollectedInOrder(done + [w], at0)
    {
    }

    /** The timers as they are now. */
    ghost function Now(): Snapshot
      reads this`timers, ws`at, ws`repeat
    {
      Snapshot(map w | w in ws :: w.at, map w | w in ws :: w.repeat, Active())
    }

    lemma NowSettled(done: seq<Watcher>, active0: set<Watcher>, at0: map<Watcher, real>)
      requires AllSettled(done, active0, at0) && CollectedInOrder(done, at0) && Active() <= ws
      ensures var n := Now();
              && at0.Keys == n.at.Keys == n.repeat.Keys == ws && n.active <= ws
              && (forall x :: x in ws ==>
                    SettledAs(n.at[x], x in n.active, n.repeat[x], mnNow, x in done, x in active0, at0[x]))
              && Distinct(done) && SortedByTime(done, at0)
              && (forall i, x :: 0 <= i < |done| && x in n.active ==> at0[done[i]] <= n.at[x])
    {
      forall x | x in ws
        ensures SettledAs(x.at, x in Active(), x.repeat, mnNow, x in done, x in active0, at0[x])
      {
        assert Settled(x, x in done, active0, at0);
      }
    }

    lemma NowIs(w: Watcher)
      requires w in ws
      ensures Now().at[w] == w.at && Now().repeat[w] == w.repeat && Now().active == Active()
    {
    }

    /** ReifyFirst keeps what timers_reify promises. */
    method CollectFirst(ghost done: seq<Watcher>, ghost active0: set<Watcher>, ghost at0: map<Watcher, real>,
                        ghost h0: History)
      requires ValidQueues() && ValidTimers() && timers != [] && timers[0].at < mnNow
      requires AllSettled(done, active0, at0) && CollectedInOrder(done, at0) && ReadyToFeed(done, h0, history)
      requires rfeeds == done && active0 <= ws
      modifies this`pendings, this`timers, this`history, this`rfeeds
      modifies ts`active, ws`pending, ts`at
      ensures ValidQueues() && ValidTimers()
      ensures rfeeds == done + [old(timers[0].w)] && old(timers[0].w) in active0 && old(timers[0].w) !in done
      ensures AllSettled(rfeeds, active0, at0)
      ensures CollectedInOrder(rfeeds, at0)
      ensures ReadyToFeed(rfeeds, h0, history)
    {
      hide *;
      FirstIsDue(done, active0, at0);
      ReadyStep(done, h0, history, timers[0].w);
      NowSettled(done, active0, at0);
      ghost var before := Now();
      forall x | x in ws ensures before.at[x] == x.at && before.repeat[x] == x.repeat && before.active == Active() {
        NowIs(x);
      }
      var w := ReifyFirst();
      InOrderStep(done, at0, w, before);
      SettledStep(done, active0, at0, w, before);
    }

    /** The loop of timers_reify: collects every timer that is due. */
    method CollectDue(ghost at0: map<Watcher, real>) returns (ghost due: seq<Watcher>)
      requires ValidQueues() && ValidTimers() && rfeeds == [] && at0 == map w | w in ws :: w.at
      modifies this`pendings, this`timers, this`history, this`rfeeds
      modifies ts`active, ws`pending, ts`at
      ensures ValidQueues() && ValidTimers() && rfeeds == due && (forall w :: w in due ==> w in ws)
      ensures AllSettled(due, old(Active()), at0) && CollectedInOrder(due, at0)
      ensures ReadyToFeed(due, old(history), history)
      ensures timers == [] || timers[0].at >= mnNow
    {
      ghost var active0, h0 := Active(), history;
      assert active0 <= ts <= ws;
      due := [];
      NothingCollected(active0, at0);
      assert history[..|history|] == history;
      hide Faithful, ValidTimersExcept, AllSettled, CollectedInOrder, Settled;
      while timers != [] && timers[0].at < mnNow
        invariant ValidQueues() && ValidTimers() && rfeeds == due && active0 <= ws
        invariant AllSettled(due, active0, at0) && CollectedInOrder(due, at0)
        invariant ReadyToFeed(due, h0, history)
        invariant forall w :: w in due ==> w in ws
        decreases active0 - (set w | w in due)
      {
        ghost var w := timers[0].w;
        CollectFirst(due, active0, at0, h0);
        assert w in active0 - (set x | x in due) && w in (set x | x in due + [w]);
        due := due + [w];
      }
    }

    /**
     * timers_reify. The ghost results name the timers that were due, in the order of their expiry, and the
     * position in the history where their events start.
     */
    method TimersReify() returns (ghost due: seq<Watcher>, ghost base: nat)
      requires ValidQueues() && ValidTimers() && rfeeds == []
      modifies this`pendings, this`pendingpri, this`timers, this`history, this`rfeeds
      modifies ts`active, ws`pending, ts`at
      ensures ValidQueues() && ValidTimers() && rfeeds == []
      ensures AllSettled(due, old(Active()), map w | w in ws :: old(w.at))
      ensures CollectedInOrder(due, map w | w in ws :: old(w.at))
      ensures forall x :: x in Active() ==> x.at >= mnNow
      ensures |old(history)| <= base && |history| == base + |due|
      ensures ReadyToFeed(due, old(history), history[..base])
      ensures FedInReverse(history, base, due, EV_TIMER)
    {
      hide Faithful, ValidTimersExcept, AllSettled, CollectedInOrder, Settled;
      ghost var at0 := map w | w in ws :: w.at;
      due := CollectDue(at0);
      base := |history|;
      assert history[..base] == history;
      if rfeeds != [] {
        FeedReverseDone(EV_TIMER);
      }
      if timers != [] {
        RootIsFirst();
      }
    }

    lemma NothingCollected(active0: set<Watcher>, at0: map<Watcher, real>)
      requires active0 == Active() && at0 == (map w | w in ws :: w.at)
      ensures AllSettled([], active0, at0) && CollectedInOrder([], at0)
    {
    }

    /** The history and the timers as they are now. */
    ghost function Here(): Moment
      reads this`history, this`timers, ws`at, ws`repeat
    {
      Moment(history, Now())
    }

    /** Carries out one request of a callback. */
    method Perform(action: Action)
      requires ValidQueues() && ValidTimers() && Allowed(action, ws, ts)
      modifies this`pendings, this`pendingpri, this`timers, this`history
      modifies ts`active, ws`pending, ts`at
      ensures ValidQueues() && ValidTimers()
      ensures Here() == Moment(Recorded(old(history), action), Timed(old(Now()), action, mnNow))
      ensures pendingpri == NUMPRI - 1 || pendingpri == old(pendingpri)
      ensures EmptyAbove(old(pendings), old(pendingpri)) ==> EmptyAbove(pendings, pendingpri)
    {
      hide *;
      AllowedIs(action, ws, ts);
      TimersAreWatchers();
      ghost var t := Now();
      NowAt(action.w);
      TimedIs(t, action, mnNow);
      RecordedIs(history, action);
      match action {
        case Feed(w, events) =>
          FeedEvent(w, events);
          AboveAll(pendings);
        case Clear(w) =>
          var _ := ClearPending(w);
          SameEmptiness(old(pendings), pendings, pendingpri);
        case Start(w) =>
          TimerStart(w);
          NowBecomes(w, t);
        case Stop(w) =>
          TimerStop(w);
          NowBecomes(w, t);
          SameEmptiness(old(pendings), pendings, pendingpri);
        case Again(w) =>
          TimerAgain(w);
          NowBecomes(w, t);
          SameEmptiness(old(pendings), pendings, pendingpri);
      }
      HereIs();
    }

    lemma RecordedIs(h: History, a: Action)
      ensures match a
              case Feed(w, events) => Recorded(h, a) == h + [Fed(w, events)]
              case Start(_) => Recorded(h, a) == h
              case Clear(w) => Recorded(h, a) == Cancelled(h, w)
              case Stop(w) => Recorded(h, a) == Cancelled(h, w)
              case Again(w) => Recorded(h, a) == Cancelled(h, w)
    {
    }

    lemma HereIs()
      ensures Here() == Moment(history, Now())
    {
    }

    lemma AboveAll(q: Queues)
      ensures EmptyAbove(q, NUMPRI - 1)
    {
    }

    lemma SameEmptiness(q: Queues, r: Queues, p: nat)
      requires SameHeights(r, q)
      ensures EmptyAbove(q, p) ==> EmptyAbove(r, p)
    {
    }

    lemma NowAt(w: Watcher)
      requires ValidTimers() && w in ws
      ensures var t := Now();
              && t.at.Keys == t.repeat.Keys == ws && t.active == Active()
              && (forall x :: x in ws ==> t.at[x] == x.at && t.repeat[x] == x.repeat)
              && (w in ts ==> (w.active > 0 <==> w in t.active))
    {
      if w in ts {
        ActiveMeansInHeap(w);
      }
    }

    lemma NowBecomes(w: Watcher, t: Snapshot)
      requires w in ws && t.at.Keys == t.repeat.Keys == ws
      requires forall x :: x in ws ==> x.repeat == t.repeat[x] && (x != w ==> x.at == t.at[x])
      ensures Now() == Snapshot(t.at[w := w.at], t.repeat, Active())
    {
    }

    /** Carries out request i of a callback. */
    method PerformNext(requests: seq<Action>, i: nat, ghost start: Moment)
      requires ValidQueues() && ValidTimers() && i < |requests| && Allowed(requests[i], ws, ts)
      requires Here() == Performed(start, requests[..i], mnNow)
      modifies this`pendings, this`pendingpri, this`timers, this`history
      modifies ts`active, ws`pending, ts`at
      ensures ValidQueues() && ValidTimers()
      ensures Here() == Performed(start, requests[..i + 1], mnNow)
      ensures pendingpri == NUMPRI - 1 || pendingpri == old(pendingpri)
      ensures EmptyAbove(old(pendings), old(pendingpri)) ==> EmptyAbove(pendings, pendingpri)
    {
      hide *;
      HereIs();
      PerformedAppend(start, requests[..i], requests[i], mnNow);
      assert requests[..i] + [requests[i]] == requests[..i + 1];
      Perform(requests[i]);
    }

    /** Runs a callback, given as the list of its requests. */
    method RunCallback(requests: seq<Action>)
      requires ValidQueues() && ValidTimers() && (forall a :: a in requests ==> Allowed(a, ws, ts))
      modifies this`pendings, this`pendingpri, this`timers, this`history
      modifies ts`active, ws`pending, ts`at
      ensures ValidQueues() && ValidTimers()
      ensures Here() == Performed(old(Here()), requests, mnNow)
      ensures pendingpri == NUMPRI - 1 || pendingpri == old(pendingpri)
      ensures EmptyAbove(old(pendings), old(pendingpri)) ==> EmptyAbove(pendings, pendingpri)
    {
      hide *;
      ghost var start := Here();
      NothingPerformed(start, mnNow);
      assert requests[..0] == [];
      for i := 0 to |requests|
        invariant ValidQueues() && ValidTimers()
        invariant Here() == Performed(start, requests[..i], mnNow)
        invariant pendingpri == NUMPRI - 1 || pendingpri == old(pendingpri)
        invariant EmptyAbove(old(pendings), old(pendingpri)) ==> EmptyAbove(pendings, pendingpri)
      {
        PerformNext(requests, i, start);
      }
      assert requests[..|requests|] == requests;
    }

    /** The queue update of one round of ev_invoke_pending. */
    method TakeTop() returns (e: Pending)
      requires pendingpri < NUMPRI && pendings[pendingpri] != []
      requires pendings[pendingpri][|pendings[pendingpri]| - 1].w != null ==>
                 pendings[pendingpri][|pendings[pendingpri]| - 1].w in ws
      modifies this`pendings, ws`pending
      ensures e == old(pendings[pendingpri][|pendings[pendingpri]| - 1])
      ensures pendings == old(pendings)[pendingpri := old(pendings[pendingpri][..|pendings[pendingpri]| - 1])]
      ensures Pend() == PopFrom(old(Pend()), old(pendingpri))
    {
      var q := pendings[pendingpri];
      e := q[|q| - 1];
      pendings := pendings[pendingpri := q[..|q| - 1]];
      if e.w != null {
        e.w.pending := 0;
      }
      assert Pend().index == PopFrom(old(Pend()), pendingpri).index;
    }

    lemma TopOfQueue()
      requires ValidQueues() && pendingpri < NUMPRI && pendings[pendingpri] != []
      requires EmptyAbove(pendings, pendingpri)
      ensures var e := pendings[pendingpri][|pendings[pendingpri]| - 1];
              && (e.w == null || e.w in ws)
              && Faithful(PopFrom(Pend(), pendingpri), if e.w == null then history else history + [Ran(e.w, e.events)])
    {
      hide PopFrom, EmptyAbove, Now, Active;
      assert LinkedQueue(pendings[pendingpri], pendingpri, Pend().index);
      PopIsFaithful(Pend(), history, pendingpri);
    }

    /** One round of ev_invoke_pending up to the callback. */
    method PopTop() returns (e: Pending)
      requires ValidQueues() && pendingpri < NUMPRI && pendings[pendingpri] != []
      requires EmptyAbove(pendings, pendingpri)
      modifies this`pendings, this`history, ws`pending
      ensures ValidQueues() && (e.w == null || e.w in ws)
      ensures EmptyAbove(pendings, pendingpri) && Size(pendings) < old(Size(pendings))
      ensures history == if e.w == null then old(history) else old(history) + [Ran(e.w, e.events)]
    {
      PopShrinks(pendings, pendingpri, pendings[pendingpri][..|pendings[pendingpri]| - 1]);
      hide Faithful, EmptyAbove, Size, Now, Active;
      TopOfQueue();
      hide PopFrom;
      e := TakeTop();
      if e.w != null {
        history := history + [Ran(e.w, e.events)];
      }
    }

    /** One round of ev_invoke_pending; rest is the part of the script that is left. */
    method InvokeTop(script: seq<seq<Action>>) returns (rest: seq<seq<Action>>, ghost ran: seq<Event>)
      requires ValidQueues() && ValidTimers() && ScriptIn(script, ws, ts)
      requires pendingpri < NUMPRI && pendings[pendingpri] != []
      requires EmptyAbove(pendings, pendingpri)
      modifies this`pendings, this`pendingpri, this`timers, this`history
      modifies ts`active, ws`pending, ts`at
      ensures ValidQueues() && ValidTimers() && ScriptIn(rest, ws, ts) && pendingpri < NUMPRI
      ensures Here() == Played(old(Here()), ran, script, mnNow)
      ensures rest == Rest(script, |ran|) && forall e :: e in ran ==> e.Ran?
      ensures EmptyAbove(pendings, pendingpri)
      ensures |rest| < |script| || (|rest| == |script| && Size(pendings) < old(Size(pendings)))
    {
      rest, ran := script, [];
      ghost var start := Here();
      hide Faithful, ValidTimersExcept, ScriptIn, Size, EmptyAbove, Pend, Active, Now, Performed;
      var e := PopTop();
      if e.w != null {
        ran := [Ran(e.w, e.events)];
        PlayedOne(start, Ran(e.w, e.events), script, mnNow);
        if rest != [] {
          ScriptStep(rest, ws, ts);
          RunCallback(rest[0]);
          rest := rest[1..];
        }
      }
    }

    /** The inner loop of ev_invoke_pending; rest is the part of the script that is left. */
    method DrainQueue(script: seq<seq<Action>>) returns (rest: seq<seq<Action>>, ghost ran: seq<Event>)
      requires ValidQueues() && ValidTimers() && ScriptIn(script, ws, ts) && pendingpri < NUMPRI
      requires EmptyAbove(pendings, pendingpri)
      modifies this`pendings, this`pendingpri, this`timers, this`history
      modifies ts`active, ws`pending, ts`at
      ensures ValidQueues() && ValidTimers() && ScriptIn(rest, ws, ts) && pendingpri < NUMPRI
      ensures Here() == Played(old(Here()), ran, script, mnNow)
      ensures rest == Rest(script, |ran|) && forall e :: e in ran ==> e.Ran?
      ensures forall p: Priority :: pendingpri <= p ==> pendings[p] == []
      ensures |rest| < |script| || (|rest| == |script| && Size(pendings) < old(Size(pendings)))
              || (|rest| == |script| && Size(pendings) == old(Size(pendings)) && pendingpri == old(pendingpri))
    {
      rest, ran := script, [];
      ghost var start := Here();
      hide Faithful, ValidTimersExcept, ScriptIn, Size, Here, Played, Rest, EmptyAbove, Pend, Active;
      NothingPlayed(start, script, mnNow);
      while pendings[pendingpri] != []
        invariant pendingpri < NUMPRI && ValidQueues() && ValidTimers() && ScriptIn(rest, ws, ts)
        invariant Here() == Played(start, ran, script, mnNow)
        invariant rest == Rest(script, |ran|) && forall e :: e in ran ==> e.Ran?
        invariant EmptyAbove(pendings, pendingpri)
        invariant |rest| < |script| || (|rest| == |script| && Size(pendings) < old(Size(pendings)))
                  || (|rest| == |script| && Size(pendings) == old(Size(pendings)) && pendingpri == old(pendingpri))
        decreases |rest|, Size(pendings)
      {
        ghost var more;
        rest, more := InvokeTop(rest);
        PlayedAppend(start, ran, more, script, mnNow);
        ran := ran + more;
      }
      EmptyFrom(pendings, pendingpri);
    }

    lemma EmptyFrom(q: Queues, p: nat)
      requires p < NUMPRI && EmptyAbove(q, p) && q[p] == []
      ensures forall x: Priority :: p <= x ==> q[x] == []
    {
    }

    /**
     * ev_invoke_pending. The callbacks that ran are those in ran; the i-th of them makes the requests script[i], and
     * callbacks beyond the script make none. Nothing else happens to the events and to the timers. Every callback that
     * ever ran did so in its turn, with the OR of all that was fed to its watcher, and in the end nothing is left to run.
     */
    method InvokePending(script: seq<seq<Action>>) returns (ghost ran: seq<Event>)
      requires ValidQueues() && ValidTimers() && ScriptIn(script, ws, ts)
      modifies this`pendings, this`pendingpri, this`timers, this`history
      modifies ts`active, ws`pending, ts`at
      ensures ValidQueues() && ValidTimers()
      ensures Here() == Played(old(Here()), ran, script, mnNow) && forall e :: e in ran ==> e.Ran?
      ensures forall p: Priority :: pendings[p] == []
      ensures forall w :: w in ws ==> w.pending == 0 && Owed(history, w) == None
      ensures AllInTurn(history, ws) && NothingStands(history, ws)
    {
      var rest := script;
      ran := [];
      ghost var start := Here();
      hide Faithful, ValidTimersExcept, ScriptIn, Here, Played, Rest;
      NothingPlayed(start, script, mnNow);
      pendingpri := NUMPRI;
      while pendingpri > 0
        invariant pendingpri <= NUMPRI && ValidQueues() && ValidTimers() && ScriptIn(rest, ws, ts)
        invariant Here() == Played(start, ran, script, mnNow)
        invariant rest == Rest(script, |ran|) && forall e :: e in ran ==> e.Ran?
        invariant forall p: Priority :: pendingpri <= p ==> pendings[p] == []
        decreases |rest|, Size(pendings), pendingpri
      {
        pendingpri := pendingpri - 1;
        ghost var more;
        rest, more := DrainQueue(rest);
        PlayedAppend(start, ran, more, script, mnNow);
        ran := ran + more;
      }
      EmptyMeansPaid(Pend(), history);
      assert forall w :: w in ws ==> Pend().index[w] == w.pending;
      LawfulSoFar();
      PaidExact(history, ws);
    }

    lemma NothingPerformed(m: Moment, now: real)
      ensures Performed(m, [], now) == m
    {
    }

    lemma NothingPlayed(m: Moment, script: seq<seq<Action>>, now: real)
      ensures Played(m, [], script, now) == m && Rest(script, 0) == script
    {
    }

    /**
     * The timer part of one iteration of ev_run: timers_reify, then ev_invoke_pending. Exactly the timers that were due
     * are fed, and the callbacks ran do what the script says. Timers of equal priority that were not pending before are
     * called in the order of their expiry, whatever the callbacks request, and every timer that was due is called or
     * cancelled. The ghost result settled is the state of the timers between the two.
     */
    method Iterate(script: seq<seq<Action>>)
      returns (ghost due: seq<Watcher>, ghost base: nat, ghost settled: Snapshot, ghost ran: seq<Event>)
      requires ValidQueues() && ValidTimers() && rfeeds == [] && ScriptIn(script, ws, ts)
      modifies this`pendings, this`pendingpri, this`timers, this`history, this`rfeeds
      modifies ts`active, ws`pending, ts`at
      ensures ValidQueues() && ValidTimers() && rfeeds == []
      ensures DueExactly(due, old(Active()), map w | w in ws :: old(w.at), mnNow)
      ensures Reified(settled, due, old(Now()), mnNow)
      ensures base <= |history| && ReadyToFeed(due, old(history), history[..base])
      ensures base + |due| <= |history| && FedInReverse(history, base, due, EV_TIMER)
      ensures Here() == Played(Moment(history[..base + |due|], settled), ran, script, mnNow)
      ensures forall e :: e in ran ==> e.Ran?
      ensures Concluded(history, base, due)
      ensures forall p: Priority :: pendings[p] == []
      ensures AllInTurn(history, ws) && NothingStands(history, ws)
    {
      hide *;
      ghost var at0, active0, repeat0 := map w | w in ws :: w.at, Active(), map w | w in ws :: w.repeat;
      NowHas();
      ghost var before := Now();
      due, base := TimersReify();
      assert (map w | w in ws :: w.repeat) == repeat0;
      DueIsExact(due, active0, at0);
      settled := Now();
      NowReified(due, before);
      ghost var h1 := history;
      assert history[..base + |due|] == h1;
      HereIs();
      ran := InvokePending(script);
      LawfulSoFar();
      StillFed(h1, settled, ran, script, base, due);
      FedAreDelivered(h1, history, ws, base, due, EV_TIMER);
    }

    lemma NowHas()
      ensures Now() == Snapshot(map w | w in ws :: w.at, map w | w in ws :: w.repeat, Active())
    {
    }

    lemma NowReified(due: seq<Watcher>, before: Snapshot)
      requires AllSettled(due, before.active, before.at) && before.repeat == map w | w in ws :: w.repeat
      requires ValidTimers()
      ensures Reified(Now(), due, before, mnNow)
    {
      forall w | w in ws
        ensures SettledAs(w.at, w in Active(), w.repeat, mnNow, w in due, w in before.active, before.at[w])
      {
        assert Settled(w, w in due, before.active, before.at);
      }
    }

    lemma StillFed(h1: History, settled: Snapshot, ran: seq<Event>, script: seq<seq<Action>>, base: nat, due: seq<Watcher>)
      requires |h1| == base + |due| && FedInReverse(h1, base, due, EV_TIMER)
      requires Here() == Played(Moment(h1, settled), ran, script, mnNow)
      ensures Continues(h1, history) && |h1| <= |history| && history[..base + |due|] == h1
      ensures FedInReverse(history, base, due, EV_TIMER) && history[..base] == h1[..base]
    {
      PlayedContinues(Moment(h1, settled), ran, script, mnNow);
      assert history[..|h1|] == h1;
      assert history[..|h1|][..base] == history[..base];
      forall p | base <= p < base + |due| ensures history[p] == h1[p] {
        assert history[..|h1|][p] == history[p];
      }
    }

    lemma LawfulSoFar()
      requires ValidQueues()
      ensures Lawful(history, ws) && AllInTurn(history, ws)
    {
      assert Pend().index.Keys == ws;
      LawfulExact(history, ws);
    }

    lemma DueIsExact(due: seq<Watcher>, active0: set<Watcher>, at0: map<Watcher, real>)
      requires AllSettled(due, active0, at0) && CollectedInOrder(due, at0)
      requires forall x :: x in Active() && x in ws ==> x.at >= mnNow
      ensures DueExactly(due, active0, at0, mnNow)
      ensures Distinct(due) && forall w :: w in due ==> w in ws
    {
      forall w | w in ws && (w in due || (w in active0 && at0[w] < mnNow))
        ensures w in due && w in active0 && at0[w] < mnNow
      {
        assert Settled(w, w in due, active0, at0);
      }
    }
  }
}
