/** One iteration of ev_run with timers and periodics: both heaps and the pending events they share. */
module EvIteration {
  import opened Common
  import opened EvWatcher
  import opened EvHeap
  import opened EvDebt
  import opened EvHistory
  import opened EvQueues
  import opened EvScript
  import opened EvLoop
  import opened EvPeriodic

  const EV_PERIODIC: Mask := 0x200

  /** The loop with its second heap; a watcher is a timer or a periodic. */
  class EventLoop {
    const loop: Loop
    const periodics: Periodics

    ghost predicate Valid()
      reads loop`pendings, loop`history, loop`timers, loop.ws, loop.ts, periodics`heap, periodics.ws
    {
      && loop.ValidQueues() && loop.ValidTimers() && periodics.Valid()
      && loop.ts !! periodics.ws && loop.ws == loop.ts + periodics.ws
    }

    constructor (loop: Loop, periodics: Periodics)
      requires loop.ValidQueues() && loop.ValidTimers() && periodics.Valid()
      requires loop.ts !! periodics.ws && loop.ws == loop.ts + periodics.ws
      ensures Valid() && this.loop == loop && this.periodics == periodics
    {
      this.loop, this.periodics := loop, periodics;
    }

    /** Nothing but one-shot periodics that were collected had their events cancelled. */
    ghost predicate OnlyOneShots(fed: seq<Watcher>, h0: History, h: History)
    {
      && OnlyCleared(h0, h)
      && (forall i :: |h0| <= i < |h| ==> h[i].w in fed && h[i].w in periodics.kinds && periodics.kinds[h[i].w].OneShot?)
      && (forall w :: w in fed && w in periodics.kinds && (periodics.kinds[w].OneShot? || Owed(h0, w) == None) ==>
            Owed(h, w) == None)
    }

    lemma OnlyOneShotsStep(fed: seq<Watcher>, h0: History, h: History, w: Watcher)
      requires OnlyOneShots(fed, h0, h) && w in periodics.kinds
      ensures OnlyOneShots(fed + [w], h0, if periodics.kinds[w].OneShot? then Cancelled(h, w) else h)
    {
      StaysQuiet(h0, h, w);
      CancelledOnce(h, w);
    }

    /** One round of the loop in periodics_reify. */
    method CollectPeriodic(fed: seq<Watcher>, ghost active0: set<Watcher>, ghost at0: map<Watcher, real>, ghost h0: History)
      returns (more: seq<Watcher>)
      requires Valid() && periodics.Sane(periodics.now) && periodics.Reified(fed, active0, at0)
      requires periodics.heap != [] && periodics.heap[0].at < periodics.now
      requires OnlyOneShots(fed, h0, loop.history) && loop.rfeeds == fed
      modifies loop`pendings, loop`history, loop`rfeeds, loop.ws`pending
      modifies periodics`heap, periodics.ws`active, periodics.ws`at
      ensures Valid() && periodics.Reified(more, active0, at0) && OnlyOneShots(more, h0, loop.history)
      ensures loop.rfeeds == more == fed + [old(periodics.heap[0].w)] && more[|fed|] !in fed && more[|fed|] in active0
    {
      hide *;
      Parts();
      more := periodics.CollectFirst(fed, active0, at0);
      var w := more[|fed|];
      KnownKind(more, active0, at0, w);
      OnlyOneShotsStep(fed, h0, loop.history, w);
      if periodics.kinds[w].OneShot? {
        var _ := loop.ClearPending(w);
      }
      loop.rfeeds := loop.rfeeds + [w];
      Whole();
    }

    lemma Parts()
      requires Valid()
      ensures loop.ValidQueues() && loop.ValidTimers() && periodics.Valid()
      ensures loop.ts !! periodics.ws && loop.ws == loop.ts + periodics.ws
    {
    }

    lemma Whole()
      requires loop.ValidQueues() && loop.ValidTimers() && periodics.Valid()
      requires loop.ts !! periodics.ws && loop.ws == loop.ts + periodics.ws
      ensures Valid()
    {
    }

    lemma KnownKind(fed: seq<Watcher>, active0: set<Watcher>, at0: map<Watcher, real>, w: Watcher)
      requires periodics.Reified(fed, active0, at0) && w in fed
      ensures w in periodics.ws && w in periodics.kinds
    {
    }

    /**
     * periodics_reify. The periodics that were due are fed in reverse order of their expiry, each once; the ghost results
     * name them and the position in the history where their events start.
     */
    method PeriodicsReify() returns (ghost due: seq<Watcher>, ghost base: nat)
      requires Valid() && periodics.Sane(periodics.now) && loop.rfeeds == []
      modifies loop`pendings, loop`pendingpri, loop`history, loop`rfeeds, loop.ws`pending
      modifies periodics`heap, periodics.ws`active, periodics.ws`at
      ensures Valid() && loop.rfeeds == []
      ensures periodics.Reified(due, old(Watchers(periodics.heap)), map w | w in periodics.ws :: old(w.at))
      ensures forall w :: w in periodics.ws ==> (w in due <==> w in old(Watchers(periodics.heap)) && old(w.at) < periodics.now)
      ensures forall e :: e in periodics.heap ==> e.at >= periodics.now
      ensures |old(loop.history)| <= base && |loop.history| == base + |due|
      ensures OnlyOneShots(due, old(loop.history), loop.history[..base])
      ensures FedInReverse(loop.history, base, due, EV_PERIODIC)
    {
      hide *;
      Parts();
      ghost var active0, at0, h0 := Watchers(periodics.heap), map w | w in periodics.ws :: w.at, loop.history;
      periodics.NothingReified(active0, at0);
      due := Collect(active0, at0, h0);
      Parts();
      base := |loop.history|;
      assert loop.history[..base] == loop.history;
      Longer(due, h0, loop.history);
      NothingFed(loop.history);
      if loop.rfeeds != [] {
        AllKnown(due, active0, at0);
        loop.FeedReverseDone(EV_PERIODIC);
      }
      Whole();
      periodics.AllLater(due, active0, at0);
    }

    lemma Longer(fed: seq<Watcher>, h0: History, h: History)
      requires OnlyOneShots(fed, h0, h)
      ensures |h0| <= |h| && Continues(h0, h)
    {
    }

    lemma NothingFed(h: History)
      ensures FedInReverse(h, |h|, [], EV_PERIODIC)
    {
    }

    lemma AllKnown(fed: seq<Watcher>, active0: set<Watcher>, at0: map<Watcher, real>)
      requires periodics.Reified(fed, active0, at0) && loop.ws == loop.ts + periodics.ws
      ensures forall w :: w in fed ==> w in loop.ws
    {
    }

    /** The loop of periodics_reify. */
    method Collect(ghost active0: set<Watcher>, ghost at0: map<Watcher, real>, ghost h0: History) returns (fed: seq<Watcher>)
      requires Valid() && periodics.Sane(periodics.now) && loop.rfeeds == [] && periodics.Reified([], active0, at0)
      requires active0 <= periodics.ws && loop.history == h0
      modifies loop`pendings, loop`history, loop`rfeeds, loop.ws`pending
      modifies periodics`heap, periodics.ws`active, periodics.ws`at
      ensures Valid() && periodics.Reified(fed, active0, at0) && OnlyOneShots(fed, h0, loop.history) && loop.rfeeds == fed
      ensures periodics.heap == [] || periodics.heap[0].at >= periodics.now
    {
      hide *;
      fed := [];
      NothingCleared(h0);
      while periodics.heap != [] && periodics.heap[0].at < periodics.now
        invariant Valid() && periodics.Reified(fed, active0, at0) && OnlyOneShots(fed, h0, loop.history)
        invariant loop.rfeeds == fed
        decreases active0 - (set w | w in fed)
      {
        ghost var before := set x | x in fed;
        ghost var w := periodics.heap[0].w;
        fed := CollectPeriodic(fed, active0, at0, h0);
        assert w in active0 - before && w in (set x | x in fed);
      }
    }

    lemma NothingCleared(h: History)
      ensures OnlyOneShots([], h, h)
    {
    }

    /** What timers_reify makes of the timers when those in due are collected. */
    ghost predicate TimersSettled(t: Snapshot, due: seq<Watcher>, t0: Snapshot)
      reads loop`mnNow
    {
      && loop.ts <= t.at.Keys && loop.ts <= t0.at.Keys && loop.ts <= t.repeat.Keys
      && forall w :: w in loop.ts ==>
           SettledAs(t.at[w], w in t.active, t.repeat[w], loop.mnNow, w in due, w in t0.active, t0.at[w])
    }

    /** timers_reify, then periodics_reify. */
    method ReifyBoth()
      returns (ghost due: seq<Watcher>, ghost base: nat, ghost due2: seq<Watcher>, ghost base2: nat, ghost h1: History)
      requires Valid() && periodics.Sane(periodics.now) && loop.rfeeds == []
      modifies loop`pendings, loop`pendingpri, loop`timers, loop`history, loop`rfeeds, loop.ws`pending
      modifies loop.ts`active, loop.ts`at, periodics`heap, periodics.ws`active, periodics.ws`at
      ensures Valid() && loop.rfeeds == []
      ensures DueExactly(due, old(loop.Active()), map w | w in loop.ws :: old(w.at), loop.mnNow)
      ensures TimersSettled(loop.Now(), due, old(loop.Now())) && Distinct(due) && forall w :: w in due ==> w in loop.ws
      ensures forall w :: w in periodics.ws ==> (w in due2 <==> w in old(Watchers(periodics.heap)) && old(w.at) < periodics.now)
      ensures periodics.Reified(due2, old(Watchers(periodics.heap)), map w | w in periodics.ws :: old(w.at))
      ensures Distinct(due2) && forall w :: w in due2 ==> w in loop.ws
      ensures |h1| == base + |due| && loop.ReadyToFeed(due, old(loop.history), h1[..base])
      ensures FedInReverse(h1, base, due, EV_TIMER)
      ensures |loop.history| == base2 + |due2| && OnlyOneShots(due2, h1, loop.history[..base2])
      ensures FedInReverse(loop.history, base2, due2, EV_PERIODIC)
    {
      hide *;
      ghost var pat0, pactive0 := map w | w in periodics.ws :: w.at, Watchers(periodics.heap);
      ghost var t0 := loop.Now();
      due, base := ReifyTimers();
      h1 := loop.history;
      ghost var t1 := loop.Now();
      loop.NowHas();
      assert (map w | w in periodics.ws :: w.at) == pat0;
      due2, base2 := PeriodicsReify();
      Parts();
      EachOnce(due2, pactive0, pat0);
      loop.NowHas();
      SettledStill(loop.Now(), t1, due, t0);
    }

    /** timers_reify, which leaves the periodics alone. */
    method ReifyTimers() returns (ghost due: seq<Watcher>, ghost base: nat)
      requires Valid() && loop.rfeeds == []
      modifies loop`pendings, loop`pendingpri, loop`timers, loop`history, loop`rfeeds, loop.ws`pending
      modifies loop.ts`active, loop.ts`at
      ensures Valid() && loop.rfeeds == []
      ensures forall w :: w in periodics.ws ==> w.at == old(w.at)
      ensures DueExactly(due, old(loop.Active()), map w | w in loop.ws :: old(w.at), loop.mnNow)
      ensures TimersSettled(loop.Now(), due, old(loop.Now())) && Distinct(due) && forall w :: w in due ==> w in loop.ws
      ensures |loop.history| == base + |due| && loop.ReadyToFeed(due, old(loop.history), loop.history[..base])
      ensures FedInReverse(loop.history, base, due, EV_TIMER)
    {
      hide *;
      Parts();
      ghost var at0, active0 := map w | w in loop.ws :: w.at, loop.Active();
      loop.NowHas();
      ghost var t0 := loop.Now();
      due, base := loop.TimersReify();
      loop.DueIsExact(due, active0, at0);
      TimersAre(due, active0, at0, t0);
      Whole();
    }

    lemma TimersAre(due: seq<Watcher>, active0: set<Watcher>, at0: map<Watcher, real>, t0: Snapshot)
      requires loop.AllSettled(due, active0, at0) && loop.ValidTimers() && t0.at == at0 && t0.active == active0
      ensures TimersSettled(loop.Now(), due, t0)
    {
      forall w | w in loop.ts
        ensures SettledAs(w.at, w in loop.Active(), w.repeat, loop.mnNow, w in due, w in active0, at0[w])
      {
        assert loop.Settled(w, w in due, active0, at0);
      }
    }

    lemma SettledStill(t: Snapshot, t1: Snapshot, due: seq<Watcher>, t0: Snapshot)
      requires TimersSettled(t1, due, t0) && t.at.Keys == t1.at.Keys && t.repeat.Keys == t1.repeat.Keys
      requires t.active == t1.active
      requires forall w :: w in loop.ts && w in t.at && w in t.repeat && w in t1.repeat ==>
                 t.at[w] == t1.at[w] && t.repeat[w] == t1.repeat[w]
      ensures TimersSettled(t, due, t0)
    {
    }

    /**
     * One iteration of ev_run: timers_reify, periodics_reify, then ev_invoke_pending with callbacks that do what the script
     * says. Exactly the timers and the periodics that were due are fed. Those of equal priority that were not pending
     * before are called in the order of their expiry, the periodics before the timers, whatever the callbacks request,
     * and every one is called or cancelled. The ghost results settled and h2 are timers and history before the callbacks.
     */
    method Iterate(script: seq<seq<Action>>)
      returns (ghost due: seq<Watcher>, ghost base: nat, ghost due2: seq<Watcher>, ghost base2: nat,
               ghost settled: Snapshot, ghost h2: History, ghost ran: seq<Event>)
      requires Valid() && periodics.Sane(periodics.now) && loop.rfeeds == [] && ScriptIn(script, loop.ws, loop.ts)
      modifies loop`pendings, loop`pendingpri, loop`timers, loop`history, loop`rfeeds, loop.ws`pending
      modifies loop.ts`active, loop.ts`at, periodics`heap, periodics.ws`active, periodics.ws`at
      ensures Valid() && loop.rfeeds == []
      ensures DueExactly(due, old(loop.Active()), map w | w in loop.ws :: old(w.at), loop.mnNow)
      ensures TimersSettled(settled, due, old(loop.Now()))
      ensures forall w :: w in periodics.ws ==> (w in due2 <==> w in old(Watchers(periodics.heap)) && old(w.at) < periodics.now)
      ensures periodics.Reified(due2, old(Watchers(periodics.heap)), map w | w in periodics.ws :: old(w.at))
      ensures base + |due| <= base2 && base2 + |due2| == |h2| && Continues(h2, loop.history)
      ensures loop.ReadyToFeed(due, old(loop.history), h2[..base])
      ensures OnlyOneShots(due2, h2[..base + |due|], h2[..base2])
      ensures FedInReverse(h2, base, due, EV_TIMER) && FedInReverse(h2, base2, due2, EV_PERIODIC)
      ensures loop.Here() == Played(Moment(h2, settled), ran, script, loop.mnNow) && forall e :: e in ran ==> e.Ran?
      ensures Concluded(loop.history, base, due) && Concluded(loop.history, base2, due2)
      ensures base2 + |due2| <= |loop.history| && LaterRunsFirst(loop.history, base + |due|, due, base2, due2)
      ensures forall p: Priority :: loop.pendings[p] == []
      ensures AllInTurn(loop.history, loop.ws) && NothingStands(loop.history, loop.ws)
    {
      hide *;
      ghost var h1;
      due, base, due2, base2, h1 := ReifyBoth();
      h2, settled := loop.history, loop.Now();
      Longer(due2, h1, h2[..base2]);
      Parts();
      loop.HereIs();
      ran := loop.InvokePending(script);
      PlayedContinues(Moment(h2, settled), ran, script, loop.mnNow);
      loop.HereIs();
      Whole();
      BothFed(h1, h2, loop.history, base, due, base2, due2);
      loop.LawfulSoFar();
      FedAreDelivered(h1, loop.history, loop.ws, base, due, EV_TIMER);
      FedAreDelivered(h2, loop.history, loop.ws, base2, due2, EV_PERIODIC);
      SecondBatchFirst(loop.history, loop.ws, |h1|, due, base2, due2, EV_PERIODIC);
    }

    lemma EachOnce(fed: seq<Watcher>, active0: set<Watcher>, at0: map<Watcher, real>)
      requires periodics.Reified(fed, active0, at0) && loop.ws == loop.ts + periodics.ws
      ensures Distinct(fed) && forall w :: w in fed ==> w in loop.ws
    {
    }
  }

  /** What the two batches have added to the history is still there in the end. */
  lemma BothFed(h1: History, h2: History, h: History, base: nat, due: seq<Watcher>, base2: nat, due2: seq<Watcher>)
    requires |h1| == base + |due| && FedInReverse(h1, base, due, EV_TIMER)
    requires |h2| == base2 + |due2| && FedInReverse(h2, base2, due2, EV_PERIODIC)
    requires Continues(h1, h2[..base2]) && Continues(h2, h)
    ensures Continues(h1, h) && |h1| <= base2 && |h2| <= |h|
    ensures h[..base] == h1[..base] && h[..base + |due|] == h1 && h[..base2] == h2[..base2]
    ensures h2[..base] == h1[..base] && h2[..base + |due|] == h1
    ensures FedInReverse(h, base, due, EV_TIMER) && FedInReverse(h, base2, due2, EV_PERIODIC)
    ensures FedInReverse(h2, base, due, EV_TIMER)
  {
    assert h[..|h2|] == h2 && h2[..base2][..|h1|] == h1;
    forall p | 0 <= p < |h2| ensures h[p] == h2[p] {
      assert h[..|h2|][p] == h[p];
    }
    forall p | 0 <= p < |h1| ensures h[p] == h1[p] {
      assert h2[..base2][..|h1|][p] == h2[p];
    }
    assert h[..|h1|] == h1;
  }
}
