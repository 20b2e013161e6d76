/** What callbacks ask of the loop, and what becomes of history and timers when they run. */
module EvScript {
  import opened Common
  import opened EvWatcher
  import opened EvHistory

  /** What a callback may ask of the loop. */
  datatype Action =
    | Feed(w: Watcher, events: Mask)   // ev_feed_event
    | Clear(w: Watcher)                // ev_clear_pending
    | Start(w: Watcher)                // ev_timer_start
    | Stop(w: Watcher)                 // ev_timer_stop
    | Again(w: Watcher)                // ev_timer_again

  /** The times and intervals of the watchers, and which of them run as timers. */
  datatype Snapshot = Snapshot(at: map<Watcher, real>, repeat: map<Watcher, real>, active: set<Watcher>)

  /** What has happened, and the timers. */
  datatype Moment = Moment(history: History, timers: Snapshot)

  /** The requests are about the watchers ws; those about timers, about the timers ts. */
  predicate Allowed(a: Action, ws: set<Watcher>, ts: set<Watcher>) {
    a.w in ws && (a.Feed? || a.Clear? || a.w in ts)
  }

  lemma AllowedIs(a: Action, ws: set<Watcher>, ts: set<Watcher>)
    requires Allowed(a, ws, ts)
    ensures a.w in ws && (a.Feed? || a.Clear? || a.w in ts)
  {
  }

  ghost predicate ScriptIn(script: seq<seq<Action>>, ws: set<Watcher>, ts: set<Watcher>) {
    forall requests, a :: requests in script && a in requests ==> Allowed(a, ws, ts)
  }

  lemma ScriptStep(script: seq<seq<Action>>, ws: set<Watcher>, ts: set<Watcher>)
    requires ScriptIn(script, ws, ts) && script != []
    ensures ScriptIn(script[1..], ws, ts) && (forall a :: a in script[0] ==> Allowed(a, ws, ts))
  {
    assert forall requests :: requests in script[1..] ==> requests in script;
  }

  /** What w is owed is cancelled. */
  function Cancelled(h: History, w: Watcher): History {
    if Owed(h, w).Some? then h + [Cleared(w)] else h
  }

  function Recorded(h: History, a: Action): History {
    match a
    case Feed(w, events) => h + [Fed(w, events)]
    case Clear(w) => Cancelled(h, w)
    case Start(_) => h
    case Stop(w) => Cancelled(h, w)
    case Again(w) => Cancelled(h, w)
  }

  /** A stopped timer keeps the time that was left. */
  function Stopped(t: Snapshot, w: Watcher, now: real): Snapshot
    requires w in t.at
  {
    if w in t.active then t.(at := t.at[w := t.at[w] - now], active := t.active - {w}) else t
  }

  function Timed(t: Snapshot, a: Action, now: real): Snapshot {
    if a.w !in t.at || a.w !in t.repeat then t
    else match a
      case Feed(_, _) => t
      case Clear(_) => t
      case Start(w) => if w in t.active then t else t.(at := t.at[w := t.at[w] + now], active := t.active + {w})
      case Stop(w) => Stopped(t, w, now)
      case Again(w) =>
        if t.repeat[w] > 0.0 then t.(at := t.at[w := now + t.repeat[w]], active := t.active + {w})
        else Stopped(t, w, now)
  }

  /** A request about timers changes the time of its watcher and whether it runs, at most. */
  lemma TimedIs(t: Snapshot, a: Action, now: real)
    requires a.w in t.at && a.w in t.repeat
    ensures var w, runs := a.w, a.w in t.active;
            match a
            case Feed(_, _) => Timed(t, a, now) == t
            case Clear(_) => Timed(t, a, now) == t
            case Start(_) =>
              Timed(t, a, now) == Snapshot(t.at[w := if runs then t.at[w] else t.at[w] + now], t.repeat, t.active + {w})
            case Stop(_) =>
              Timed(t, a, now) == Snapshot(t.at[w := if runs then t.at[w] - now else t.at[w]], t.repeat, t.active - {w})
            case Again(_) =>
              Timed(t, a, now) ==
                if t.repeat[w] > 0.0 then Snapshot(t.at[w := now + t.repeat[w]], t.repeat, t.active + {w})
                else Snapshot(t.at[w := if runs then t.at[w] - now else t.at[w]], t.repeat, t.active - {w})
  {
    var w := a.w;
    assert t.at[w := t.at[w]] == t.at;
    assert w in t.active ==> t.active + {w} == t.active;
    assert w !in t.active ==> t.active - {w} == t.active;
  }

  /** The requests of one callback, one after the other. */
  function Performed(m: Moment, requests: seq<Action>, now: real): Moment {
    if requests == [] then m
    else
      var k := |requests| - 1;
      var before := Performed(m, requests[..k], now);
      Moment(Recorded(before.history, requests[k]), Timed(before.timers, requests[k], now))
  }

  /** What is left of a script after n callbacks. */
  function Rest(script: seq<seq<Action>>, n: nat): seq<seq<Action>> {
    if n <= |script| then script[n..] else []
  }

  /** The callbacks ran, one after the other, and the i-th of them made the requests script[i]. */
  function Played(m: Moment, ran: seq<Event>, script: seq<seq<Action>>, now: real): Moment
    decreases |ran|
  {
    if ran == [] then m
    else
      var run := Moment(m.history + [ran[0]], m.timers);
      Played(if script == [] then run else Performed(run, script[0], now), ran[1..], Rest(script, 1), now)
  }

  lemma {:induction false} PlayedAppend(m: Moment, a: seq<Event>, b: seq<Event>, script: seq<seq<Action>>, now: real)
    ensures Played(m, a + b, script, now) == Played(Played(m, a, script, now), b, Rest(script, |a|), now)
    ensures Rest(Rest(script, |a|), |b|) == Rest(script, |a + b|)
    decreases |a|
  {
    if a == [] {
      assert a + b == b && Rest(script, 0) == script;
    } else {
      var run := Moment(m.history + [a[0]], m.timers);
      var next := if script == [] then run else Performed(run, script[0], now);
      PlayedAppend(next, a[1..], b, Rest(script, 1), now);
      assert (a + b)[1..] == a[1..] + b;
      assert Rest(Rest(script, 1), |a| - 1) == Rest(script, |a|);
    }
  }

  lemma PlayedOne(m: Moment, e: Event, script: seq<seq<Action>>, now: real)
    ensures var run := Moment(m.history + [e], m.timers);
            Played(m, [e], script, now) == if script == [] then run else Performed(run, script[0], now)
  {
    assert [e][1..] == [];
  }

  lemma PerformedAppend(m: Moment, requests: seq<Action>, a: Action, now: real)
    ensures var before := Performed(m, requests, now);
            Performed(m, requests + [a], now) ==
              Moment(Recorded(before.history, a), Timed(before.timers, a, now))
  {
    assert (requests + [a])[..|requests|] == requests;
  }

  /** A watcher is owed nothing after it was cancelled. */
  lemma CancelledOnce(h: History, w: Watcher)
    ensures Owed(Cancelled(h, w), w) == None && Cancelled(Cancelled(h, w), w) == Cancelled(h, w)
    ensures forall x :: x != w ==> Owed(Cancelled(h, w), x) == Owed(h, x)
  {
    forall x ensures Owed(h + [Cleared(w)], x) == OwedStep(Owed(h, x), Cleared(w), x) {
      OwedAppend(h, Cleared(w), x);
    }
  }

  /** Playing only adds to the history. */
  lemma {:induction false} PerformedContinues(m: Moment, requests: seq<Action>, now: real)
    ensures Continues(m.history, Performed(m, requests, now).history)
  {
    if requests != [] {
      PerformedContinues(m, requests[..|requests| - 1], now);
    }
  }

  lemma {:induction false} PlayedContinues(m: Moment, ran: seq<Event>, script: seq<seq<Action>>, now: real)
    ensures Continues(m.history, Played(m, ran, script, now).history)
    decreases |ran|
  {
    if ran != [] {
      var run := Moment(m.history + [ran[0]], m.timers);
      var next := if script == [] then run else Performed(run, script[0], now);
      if script != [] {
        PerformedContinues(run, script[0], now);
      }
      PlayedContinues(next, ran[1..], Rest(script, 1), now);
      assert run.history[..|m.history|] == m.history;
      assert next.history[..|run.history|][..|m.history|] == next.history[..|m.history|];
    }
  }
}
