/**
 * What the pending queues of libev promise, stated on the history of a loop: the sequence of all events
 * fed, cancelled and delivered so far.
 */
module EvHistory {
  import opened Common
  import opened EvWatcher

  type Mask = bv32

  datatype Event =
    | Fed(w: Watcher, events: Mask)      // ev_feed_event
    | Cleared(w: Watcher)                // clear_pending
    | Ran(w: Watcher, events: Mask)      // the callback was invoked

  type History = seq<Event>

  /** What one event does to the debt of w. */
  function OwedStep(owed: Option<Mask>, e: Event, w: Watcher): Option<Mask> {
    if e.w != w then owed
    else match e
      case Fed(_, events) => Some(if owed.Some? then owed.value | events else events)
      case Cleared(_) => None
      case Ran(_, _) => None
  }

  /** The OR of everything fed to w since it last ran or was cleared; None if nothing was fed. */
  function Owed(h: History, w: Watcher): Option<Mask> {
    if h == [] then None else OwedStep(Owed(h[..|h| - 1], w), h[|h| - 1], w)
  }

  /** The position of the feed that made w pending. */
  function Since(h: History, w: Watcher): (p: nat)
    requires Owed(h, w).Some?
    ensures p < |h|
  {
    var front := h[..|h| - 1];
    if h[|h| - 1].w != w then Since(front, w)
    else if Owed(front, w).Some? then Since(front, w)
    else |h| - 1
  }

  /**
   * A callback may run now: it was fed, receives exactly what it is owed, nothing of higher priority is
   * pending, and among those of the same priority it became pending last.
   */
  ghost predicate MayRun(h: History, w: Watcher, events: Mask, ws: set<Watcher>) {
    && Owed(h, w) == Some(events)
    && forall x :: x in ws && Owed(h, x).Some? ==>
         x.pri < w.pri || (x.pri == w.pri && Since(h, x) <= Since(h, w))
  }

  /** Every callback that ever ran was allowed to. */
  ghost predicate Lawful(h: History, ws: set<Watcher>) {
    forall i :: 0 <= i < |h| && h[i].Ran? ==> MayRun(h[..i], h[i].w, h[i].events, ws)
  }

  lemma OwedAppend(h: History, e: Event, w: Watcher)
    ensures Owed(h + [e], w) == OwedStep(Owed(h, w), e, w)
    ensures Owed(h + [e], w).Some? ==>
              Since(h + [e], w) == if Owed(h, w).Some? then Since(h, w) else |h|
  {
    assert (h + [e])[..|h|] == h;
  }

  lemma LawfulAppend(h: History, e: Event, ws: set<Watcher>)
    requires Lawful(h, ws)
    requires e.Ran? ==> MayRun(h, e.w, e.events, ws)
    ensures Lawful(h + [e], ws)
  {
    var g := h + [e];
    forall i | 0 <= i < |g| && g[i].Ran? ensures MayRun(g[..i], g[i].w, g[i].events, ws) {
      assert g[..i] == h[..i];
      if i == |h| { assert h[..i] == h; }
    }
  }

  /** While w stays pending its position in the history does not change, and before it there was no debt. */
  lemma {:induction false} SinceIsStable(h: History, w: Watcher, u: nat)
    requires Owed(h, w).Some? && u <= |h|
    ensures h[Since(h, w)].Fed? && h[Since(h, w)].w == w
    ensures u <= Since(h, w) && u == Since(h, w) ==> Owed(h[..u], w) == None
    ensures u > Since(h, w) ==> Owed(h[..u], w).Some? && Since(h[..u], w) == Since(h, w)
    decreases |h|
  {
    var front := h[..|h| - 1];
    if u == |h| {
      assert h[..u] == h;
    }
    if Owed(front, w).Some? {
      if u < |h| {
        assert h[..u] == front[..u];
        SinceIsStable(front, w, u);
      } else {
        SinceIsStable(front, w, 0);
      }
    } else if u == |h| - 1 {
      assert h[..u] == front;
    }
  }

  /** If w was owed something at t0 for a feed before t0 and is not owed it for that feed at t, it ran or was cleared between. */
  lemma {:induction false} SettledBetween(h: History, w: Watcher, t0: nat, t: nat) returns (u: nat)
    requires t0 <= t <= |h| && Owed(h[..t0], w).Some?
    requires Owed(h[..t], w) == None || Since(h[..t], w) >= t0
    ensures t0 <= u < t && h[u].w == w && !h[u].Fed?
    decreases t - t0
  {
    if t == t0 {
      u := t;
    } else {
      var g := h[..t];
      assert g[..t - 1] == h[..t - 1];
      if h[t - 1].w == w && !h[t - 1].Fed? {
        u := t - 1;
      } else {
        u := SettledBetween(h, w, t0, t - 1);
      }
    }
  }

  /** The feeds that feed_reverse_done performs: the collected watchers, last one first. */
  ghost predicate FedInReverse(h: History, base: nat, due: seq<Watcher>, events: Mask) {
    && base + |due| <= |h|
    && forall p :: base <= p < base + |due| ==> h[p] == Fed(due[base + |due| - 1 - p], events)
  }

  /**
   * Delivery order. Watchers collected in the order due and fed in reverse run in the order due: when the
   * callback of due[j] runs for that feed, every earlier due[i] of the same priority that was not pending
   * before has already run, or was cancelled, whatever the callbacks did in between.
   */
  lemma {:induction false} DeliveryOrder(
      h: History, ws: set<Watcher>, base: nat, due: seq<Watcher>, events: Mask, i: nat, j: nat, t: nat)
    returns (u: nat)
    requires Lawful(h, ws) && FedInReverse(h, base, due, events)
    requires Distinct(due)
    requires i < j < |due| && due[i] in ws && due[i].pri == due[j].pri
    requires Owed(h[..base], due[i]) == None && Owed(h[..base], due[j]) == None
    requires base + |due| <= t < |h| && h[t].Ran? && h[t].w == due[j]
    requires Owed(h[..t], due[j]).Some? && Since(h[..t], due[j]) < base + |due|
    ensures base + |due| <= u < t && h[u].w == due[i] && !h[u].Fed?
  {
    var a, b := due[i], due[j];
    var done := base + |due|;
    FeedPosition(h, base, due, events, i);
    FeedPosition(h, base, due, events, j);
    assert h[..t][..done] == h[..done];
    assert MayRun(h[..t], b, h[t].events, ws);
    SinceIsStable(h[..t], b, done);
    if Owed(h[..t], a).Some? && Since(h[..t], a) < done {
      SinceIsStable(h[..t], a, done);
    }
    u := SettledBetween(h, a, done, t);
  }

  /** Right after the feeds, due[i] is owed its event since its own feed. */
  lemma {:induction false} FeedPosition(h: History, base: nat, due: seq<Watcher>, events: Mask, i: nat)
    requires FedInReverse(h, base, due, events)
    requires Distinct(due)
    requires i < |due| && Owed(h[..base], due[i]) == None
    ensures var g := h[..base + |due|];
            Owed(g, due[i]) == Some(events) && Since(g, due[i]) == base + |due| - 1 - i
  {
    var w := due[i];
    var k := |due| - 1 - i;
    forall p | base <= p < base + |due| && p != base + k ensures h[p].w != w {
      assert h[p] == Fed(due[base + |due| - 1 - p], events);
    }
    assert h[base + k] == Fed(w, events);
    QuietStretch(h, w, base, base + k);
    assert h[..base + k + 1] == h[..base + k] + [h[base + k]];
    OwedAppend(h[..base + k], h[base + k], w);
    QuietStretch(h, w, base + k + 1, base + |due|);
  }

  /** Events about other watchers change nothing for w. */
  lemma {:induction false} QuietStretch(h: History, w: Watcher, s: nat, t: nat)
    requires s <= t <= |h|
    requires forall k :: s <= k < t ==> h[k].w != w
    ensures Owed(h[..t], w) == Owed(h[..s], w)
    ensures Owed(h[..t], w).Some? ==> Since(h[..t], w) == Since(h[..s], w)
    decreases t - s
  {
    if s < t {
      QuietStretch(h, w, s, t - 1);
      assert h[..t] == h[..t - 1] + [h[t - 1]];
      OwedAppend(h[..t - 1], h[t - 1], w);
    }
  }

  /** The callback that runs at t answers a feed made before position done. */
  ghost predicate AnswersFeedBefore(h: History, t: nat, done: nat)
    requires t < |h|
  {
    h[t].Ran? && Owed(h[..t], h[t].w).Some? && Since(h[..t], h[t].w) < done
  }

  /** w ran or was cancelled between positions s and t. */
  ghost predicate Handled(h: History, w: Watcher, s: nat, t: nat)
    requires t <= |h|
  {
    exists u :: s <= u < t && h[u].w == w && !h[u].Fed?
  }

  /** DeliveryOrder for all positions at once. */
  ghost predicate Delivered(h: History, base: nat, due: seq<Watcher>)
    requires base + |due| <= |h|
  {
    var done := base + |due|;
    forall i, j, t ::
      && 0 <= i < j < |due| && due[i].pri == due[j].pri
      && Owed(h[..base], due[i]) == None && Owed(h[..base], due[j]) == None
      && done <= t < |h| && h[t].w == due[j] && AnswersFeedBefore(h, t, done)
      ==> Handled(h, due[i], done, t)
  }

  lemma AllDelivered(h: History, ws: set<Watcher>, base: nat, due: seq<Watcher>, events: Mask)
    requires Lawful(h, ws) && FedInReverse(h, base, due, events)
    requires Distinct(due) && forall w :: w in due ==> w in ws
    ensures Delivered(h, base, due)
  {
    var done := base + |due|;
    forall i, j, t |
      && 0 <= i < j < |due| && due[i].pri == due[j].pri
      && Owed(h[..base], due[i]) == None && Owed(h[..base], due[j]) == None
      && done <= t < |h| && h[t].w == due[j] && AnswersFeedBefore(h, t, done)
      ensures Handled(h, due[i], done, t)
    {
      var u := DeliveryOrder(h, ws, base, due, events, i, j, t);
    }
  }

  /** Whoever was fed and is owed nothing in the end has been handled. */
  lemma FedMeansHandled(h: History, base: nat, due: seq<Watcher>, events: Mask, i: nat)
    requires FedInReverse(h, base, due, events) && i < |due|
    requires Owed(h, due[i]) == None
    ensures Handled(h, due[i], base, |h|)
  {
    var p := base + |due| - 1 - i;
    assert h[p] == Fed(due[i], events);
    assert h[..p + 1] == h[..p] + [h[p]];
    OwedAppend(h[..p], h[p], due[i]);
    assert h[..|h|] == h;
    var u := SettledBetween(h, due[i], p + 1, |h|);
  }

  /** Watchers fed in reverse were handled in order, all of them. */
  ghost predicate Concluded(h: History, base: nat, due: seq<Watcher>) {
    && base + |due| <= |h|
    && Delivered(h, base, due)
    && forall w :: w in due ==> Handled(h, w, base, |h|)
  }

  ghost predicate Continues(h0: History, h: History) {
    |h0| <= |h| && h[..|h0|] == h0
  }

  /** What becomes of watchers that were fed in reverse, once everything owed has been paid. */
  lemma FedAreDelivered(h1: History, h: History, ws: set<Watcher>, base: nat, due: seq<Watcher>, events: Mask)
    requires Continues(h1, h) && base <= |h1| && FedInReverse(h1, base, due, events)
    requires Lawful(h, ws) && Distinct(due) && forall w :: w in due ==> w in ws
    requires forall w :: w in ws ==> Owed(h, w) == None
    ensures base + |due| <= |h| && h[..base] == h1[..base]
    ensures Concluded(h, base, due)
  {
    assert h[..base] == h1[..base];
    assert FedInReverse(h, base, due, events);
    AllDelivered(h, ws, base, due, events);
    forall w | w in due ensures Handled(h, w, base, |h|) {
      var i :| 0 <= i < |due| && due[i] == w;
      FedMeansHandled(h, base, due, events, i);
    }
  }

  // ---------- Two batches in one iteration ----------

  /**
   * Of two batches that were fed one after the other the later one runs first: when the callback of a watcher of the
   * first batch runs for its feed, every one of the second of the same priority that was not pending before has run,
   * or was cancelled.
   */
  ghost predicate LaterRunsFirst(h: History, done1: nat, first: seq<Watcher>, base2: nat, second: seq<Watcher>)
    requires base2 + |second| <= |h|
  {
    forall i, b, t ::
      && 0 <= i < |second| && b in first && second[i].pri == b.pri && Owed(h[..base2], second[i]) == None
      && base2 + |second| <= t < |h| && h[t].w == b && AnswersFeedBefore(h, t, done1)
      ==> Handled(h, second[i], base2 + |second|, t)
  }

  lemma SecondBatchFirst(h: History, ws: set<Watcher>, done1: nat, first: seq<Watcher>, base2: nat, second: seq<Watcher>,
                         events: Mask)
    requires Lawful(h, ws) && done1 <= base2 && FedInReverse(h, base2, second, events)
    requires Distinct(second) && forall w :: w in second ==> w in ws
    ensures LaterRunsFirst(h, done1, first, base2, second)
  {
    hide Lawful, Distinct, Owed, AnswersFeedBefore, Handled;
    forall i, b, t |
      && 0 <= i < |second| && b in first && second[i].pri == b.pri && Owed(h[..base2], second[i]) == None
      && base2 + |second| <= t < |h| && h[t].w == b && AnswersFeedBefore(h, t, done1)
      ensures Handled(h, second[i], base2 + |second|, t)
    {
      RunsBefore(h, ws, done1, base2, second, events, i, b, t);
    }
  }

  lemma RunsBefore(h: History, ws: set<Watcher>, done1: nat, base2: nat, second: seq<Watcher>, events: Mask, i: nat,
                   b: Watcher, t: nat)
    requires Lawful(h, ws) && done1 <= base2 && FedInReverse(h, base2, second, events) && Distinct(second)
    requires i < |second| && second[i] in ws && second[i].pri == b.pri && Owed(h[..base2], second[i]) == None
    requires base2 + |second| <= t < |h| && h[t].w == b && AnswersFeedBefore(h, t, done1)
    ensures Handled(h, second[i], base2 + |second|, t)
  {
    var a, done2 := second[i], base2 + |second|;
    FeedPosition(h, base2, second, events, i);
    assert h[..t][..done2] == h[..done2];
    assert MayRun(h[..t], b, h[t].events, ws);
    if Owed(h[..t], a).Some? && Since(h[..t], a) < done2 {
      SinceIsStable(h[..t], a, done2);
    }
    var u := SettledBetween(h, a, done2, t);
  }
}
