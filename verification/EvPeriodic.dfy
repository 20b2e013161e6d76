/** Periodic timers: the next expiry time, and periodics_reify. Times are exact. */
module EvPeriodic {
  import opened EvWatcher
  import opened EvHeap

  const MIN_INTERVAL: real := 0.0001220703125

  // ---------- periodic_recalc ----------

  /** A time at which a periodic timer is to expire. */
  function Grid(offset: real, interval: real, j: int): real {
    offset + interval * (j as real)
  }

  ghost predicate OnGrid(x: real, offset: real, interval: real) {
    exists j: int :: x == Grid(offset, interval, j)
  }

  function Step(interval: real): real {
    if interval > MIN_INTERVAL then interval else MIN_INTERVAL
  }

  /** Where the search starts. */
  function Base(offset: real, interval: real, now: real): real {
    Grid(offset, Step(interval), ((now - offset) / Step(interval)).Floor)
  }

  lemma FloorDivision(x: real, d: real)
    requires d > 0.0
    ensures d * ((x / d).Floor as real) <= x < d * ((x / d).Floor as real) + d
  {
    QuotientTimes(x, d);
    Between(x, d, x / d, (x / d).Floor as real);
  }

  lemma QuotientTimes(x: real, d: real)
    requires d > 0.0
    ensures d * (x / d) == x
  {
  }

  lemma Between(x: real, d: real, q: real, f: real)
    requires d > 0.0 && d * q == x && f <= q < f + 1.0
    ensures d * f <= x < d * f + d
  {
    Scale(f, q, d);
    Below(x, d, f, f + 1.0 - q);
  }

  lemma Below(x: real, d: real, f: real, e: real)
    requires d > 0.0 && e > 0.0 && x == d * (f + 1.0 - e)
    ensures x < d * f + d
  {
    Distribute(d, f, e);
    assert d * e > 0.0;
  }

  lemma Distribute(d: real, f: real, e: real)
    ensures d * (f + 1.0 - e) == d * f + d - d * e
  {
  }

  lemma Scale(a: real, b: real, d: real)
    requires a <= b && d > 0.0
    ensures d * a <= d * b && (a < b ==> d * a < d * b)
  {
    assert d * (b - a) >= 0.0;
    assert a < b ==> d * (b - a) > 0.0;
  }

  lemma BaseIsPast(offset: real, interval: real, now: real)
    ensures Base(offset, interval, now) <= now < Base(offset, interval, now) + Step(interval)
  {
    var d := Step(interval);
    FloorDivision(now - offset, d);
    var f := ((now - offset) / d).Floor as real;
    assert Base(offset, interval, now) == offset + d * f;
    assert d * f <= now - offset < d * f + d;
  }

  /** periodic_recalc: from the base on in steps of the interval, until now has passed. */
  method PeriodicRecalc(offset: real, interval: real, now: real) returns (at: real, ghost k: int)
    requires interval > 0.0
    ensures at == Grid(Base(offset, interval, now), interval, k) && k > 0
    ensures at - interval <= now < at
  {
    at, k := Base(offset, interval, now), 0;
    BaseIsPast(offset, interval, now);
    while at <= now
      invariant k >= 0 && at == Grid(Base(offset, interval, now), interval, k)
      invariant at - interval <= now && (k == 0 ==> at <= now)
      decreases Remaining(at, interval, now)
    {
      RemainingShrinks(at, interval, now);
      var next := at + interval;
      if next == at {
        at := now;
        break;
      }
      at, k := next, k + 1;
    }
  }

  /** The steps that are left. */
  ghost function Remaining(at: real, interval: real, now: real): nat
    requires interval > 0.0
  {
    if at > now then 0 else Quotient(now - at, interval) + 1
  }

  ghost function Quotient(x: real, d: real): (q: nat)
    requires x >= 0.0 && d > 0.0
    ensures d * (q as real) <= x < d * (q as real) + d
  {
    FloorDivision(x, d);
    var f := (x / d).Floor;
    NegativeSteps(f, d);
    f
  }

  lemma NegativeSteps(f: int, d: real)
    requires d > 0.0
    ensures f < 0 ==> d * (f as real) + d <= 0.0
  {
    if f < 0 {
      Scale(f as real, -1.0, d);
    }
  }

  lemma RemainingShrinks(at: real, interval: real, now: real)
    requires interval > 0.0 && at <= now
    ensures Remaining(at + interval, interval, now) < Remaining(at, interval, now)
  {
    if at + interval <= now {
      hide Quotient;
      FewerSteps(now - at, Quotient(now - at, interval), Quotient(now - (at + interval), interval), interval);
    }
  }

  lemma FewerSteps(x: real, p: nat, q: nat, d: real)
    requires d > 0.0 && x < d * (p as real) + d && d * (q as real) <= x - d
    ensures q < p
  {
    MoreSteps(p, q, d);
  }

  lemma MoreSteps(p: nat, q: nat, d: real)
    requires d > 0.0
    ensures p <= q ==> d * (p as real) <= d * (q as real)
  {
    if p <= q {
      Scale(p as real, q as real, d);
    }
  }

  /** The first expiry time after now. */
  ghost predicate IsNext(at: real, offset: real, interval: real, now: real) {
    && OnGrid(at, offset, interval) && at > now
    && forall j: int :: Grid(offset, interval, j) > now ==> at <= Grid(offset, interval, j)
  }

  /** An expiry time less than an interval after now is the first one. */
  lemma NextOnGrid(at: real, offset: real, interval: real, now: real)
    requires interval > 0.0 && OnGrid(at, offset, interval) && at - interval <= now < at
    ensures IsNext(at, offset, interval, now)
  {
    var i: int :| at == Grid(offset, interval, i);
    forall j: int | Grid(offset, interval, j) > now ensures at <= Grid(offset, interval, j) {
      GridIsDiscrete(offset, interval, i, j, now);
    }
  }

  /** For an interval that is not too small the result is the first expiry time after now. */
  lemma FirstGridPoint(offset: real, interval: real, now: real, at: real, k: int)
    requires interval >= MIN_INTERVAL && at == Grid(Base(offset, interval, now), interval, k)
    requires at - interval <= now < at
    ensures IsNext(at, offset, interval, now)
  {
    var m := ((now - offset) / interval).Floor;
    AddIndices(offset, interval, m, k);
    assert at == Grid(offset, interval, m + k);
    NextOnGrid(at, offset, interval, now);
  }

  lemma AddIndices(offset: real, interval: real, m: int, k: int)
    ensures Grid(Grid(offset, interval, m), interval, k) == Grid(offset, interval, m + k)
  {
    assert (m + k) as real == m as real + k as real;
    assert interval * ((m + k) as real) == interval * (m as real) + interval * (k as real);
  }

  lemma GridIsDiscrete(offset: real, interval: real, i: int, j: int, now: real)
    requires interval > 0.0 && Grid(offset, interval, i) - interval <= now < Grid(offset, interval, j)
    ensures Grid(offset, interval, i) <= Grid(offset, interval, j)
  {
    if j < i {
      Scale(j as real, (i - 1) as real, interval);
      AddIndices(offset, interval, i - 1, 1);
    }
  }

  lemma SameGrid(offset: real, interval: real, b: real, at: real, k: int)
    requires at == Grid(b, interval, k)
    ensures OnGrid(at, offset, interval) <==> OnGrid(b, offset, interval)
  {
    if OnGrid(at, offset, interval) {
      var j: int :| at == Grid(offset, interval, j);
      AddIndices(offset, interval, j, -k);
      AddIndices(b, interval, k, -k);
      assert b == Grid(offset, interval, j - k);
    }
    if OnGrid(b, offset, interval) {
      var j: int :| b == Grid(offset, interval, j);
      AddIndices(offset, interval, j, k);
    }
  }

  /**
   * With a smaller interval the search starts on the grid of MIN_INTERVAL. The result is the first expiry time after
   * now if and only if this start is an expiry time.
   */
  lemma RecalcExact(offset: real, interval: real, now: real, at: real, k: int)
    requires interval > 0.0 && at == Grid(Base(offset, interval, now), interval, k)
    requires at - interval <= now < at
    ensures IsNext(at, offset, interval, now) <==> OnGrid(Base(offset, interval, now), offset, interval)
  {
    SameGrid(offset, interval, Base(offset, interval, now), at, k);
    if OnGrid(at, offset, interval) {
      NextOnGrid(at, offset, interval, now);
    }
  }

  /** So a small interval may be missed: a timer of 100 microseconds is given a time at which it is not to expire. */
  method SmallIntervalMisses() returns (at: real)
    ensures 0.0002 < at && !OnGrid(at, 0.0, 0.0001)
  {
    ghost var k;
    at, k := PeriodicRecalc(0.0, 0.0001, 0.0002);
    StartMisses();
    SameGrid(0.0, 0.0001, Base(0.0, 0.0001, 0.0002), at, k);
  }

  lemma StartMisses()
    ensures !OnGrid(Base(0.0, 0.0001, 0.0002), 0.0, 0.0001)
  {
    var x := 0.0002 / MIN_INTERVAL;
    assert x * MIN_INTERVAL == 0.0002;
    assert 1.0 <= x < 2.0;
    assert Base(0.0, 0.0001, 0.0002) == MIN_INTERVAL;
    forall j: int ensures MIN_INTERVAL != Grid(0.0, 0.0001, j) {
      if j <= 1 {
        assert Grid(0.0, 0.0001, j) <= 0.0001;
      } else {
        assert Grid(0.0, 0.0001, j) >= 0.0002;
      }
    }
  }

  // ---------- The heap of periodics ----------

  /** How a periodic timer gets its next time; a callback is given the current time. */
  datatype Kind = OneShot(offset: real) | Every(offset: real, interval: real) | Callback(reschedule: real -> real)

  /** Sorted by the times at0; no watcher twice. */
  ghost predicate InOrder(fed: seq<Watcher>, at0: map<Watcher, real>) {
    && (forall i :: 0 <= i < |fed| ==> fed[i] in at0)
    && (forall i, j :: 0 <= i < j < |fed| ==> at0[fed[i]] <= at0[fed[j]] && fed[i] != fed[j])
  }

  class Periodics {
    var heap: seq<Anhe>
    var now: real                            // ev_rt_now
    ghost const ws: set<Watcher>
    const kinds: map<Watcher, Kind>

    ghost predicate Valid()
      reads `heap, ws`active, ws`at
    {
      && (forall w :: w in ws ==> w in kinds)
      && (forall e :: e in heap ==> e.w in ws && e.at == e.w.at)
      && (forall i :: 0 <= i < |heap| ==> heap[i].w.active == i + HEAP0) && Ordered(heap)
      && (forall w :: w in ws && w.active > 0 ==> w in Watchers(heap))
    }

    predicate Positive()
    {
      forall w :: w in kinds && kinds[w].Every? ==> kinds[w].interval > 0.0
    }

    /** What periodics_reify asserts: a reschedule callback does not go back in time. */
    predicate Sane(t: real)
    {
      Positive() && forall w :: w in kinds && kinds[w].Callback? ==> kinds[w].reschedule(t) >= t
    }

    /** The next time of a watcher that is rescheduled at time t. */
    ghost predicate NextTime(w: Watcher, at: real, t: real)
    {
      w in kinds &&
      match kinds[w]
      case OneShot(_) => false
      case Every(offset, interval) =>
        at - interval <= t < at && OnGrid(at, Base(offset, interval, t), interval)
      case Callback(f) => at == f(t)
    }

    constructor (ghost ws: set<Watcher>, kinds: map<Watcher, Kind>, now: real)
      requires forall w :: w in ws ==> w.active == 0 && w in kinds
      ensures Valid() && this.ws == ws && this.kinds == kinds && this.now == now && heap == []
    {
      heap, this.now, this.ws, this.kinds := [], now, ws, kinds;
    }

    /** ev_at (w) of a watcher that is started or has expired, if it is to go on. */
    method Reschedule(w: Watcher) returns (at: real)
      requires w in kinds && !kinds[w].OneShot? && Positive()
      ensures NextTime(w, at, now) && (Sane(now) ==> at >= now)
    {
      match kinds[w]
      case Every(offset, interval) =>
        ghost var k;
        at, k := PeriodicRecalc(offset, interval, now);
      case Callback(f) => at := f(now);
    }

    /** A heap that is to be installed: everything is in place but element k. */
    ghost predicate Ready(h: seq<Anhe>, k: nat, gone: set<Watcher>)
      reads ws`active, ws`at
    {
      && (forall i :: 0 <= i < |h| ==> h[i].w in ws && h[i].at == h[i].w.at)
      && (forall i :: 0 <= i < |h| && i != k ==> h[i].w.active == i + HEAP0)
      && (forall i :: 0 <= i < |h| && i != k && k < |h| ==> h[i].w != h[k].w)
      && (forall w :: w in ws && w.active > 0 ==> w in Watchers(h) || w in gone)
    }

    method Install(h: seq<Anhe>, k: nat, direction: Direction)
      requires Ready(h, k, {}) && k <= |h| && Misplaced(h, k, direction) && (forall w :: w in ws ==> w in kinds)
      modifies `heap, ws`active
      ensures Valid() && Watchers(heap) == Watchers(h)
    {
      hide Ordered, Misplaced;
      assert Watchers(h) <= ws;
      forall e | e in h ensures e.w in ws && e.at == e.w.at {}
      heap := Sift(h, k, direction);
      assert forall x :: x in ws && x !in Watchers(h) ==> x.active == old(x.active);
    }

    lemma RootRetimed(t: real)
      requires Valid() && heap != []
      ensures var h := heap[0 := Anhe(heap[0].w, t)];
              && Watchers(h) == Watchers(heap) && OrderedAbove(h, 0)
              && (forall i :: 0 <= i < |h| ==> h[i].w in ws && h[i].w.active == i + HEAP0)
              && (forall i :: 0 < i < |h| ==> h[i].at == h[i].w.at && h[i].w != h[0].w)
    {
      var e := Anhe(heap[0].w, t);
      ReplaceDefect(heap, 0, e);
      ReplaceWatchers(heap, 0, e);
      forall i | 0 <= i < |heap| ensures heap[i] in heap {}
    }

    /** The first timer gets a later time: ANHE_at_cache and downheap. */
    method MoveFirst(t: real)
      requires Valid() && heap != []
      modifies `heap, ws`active, ws`at
      ensures Valid() && Watchers(heap) == old(Watchers(heap))
      ensures old(heap[0].w).at == t && forall x :: x in ws && x != old(heap[0].w) ==> x.at == old(x.at)
    {
      RootRetimed(t);
      hide OrderedAbove, Ordered, Watchers;
      var w := heap[0].w;
      w.at := t;
      Install(heap[0 := Anhe(w, t)], 0, Down);
    }

    lemma RootDropped()
      requires Valid() && heap != []
      ensures var h := Without(heap, 0);
              && Watchers(h) == Watchers(heap) - {heap[0].w} && OrderedExcept(h, 0) && heap[0].w !in Watchers(h)
              && Ready(h, 0, {heap[0].w})
    {
      WithoutWatchers(heap, 0);
      WithoutDefect(heap, 0);
      var h := Without(heap, 0);
      forall i | 0 <= i < |h| ensures h[i].w in ws && h[i].at == h[i].w.at {
        assert h[i] in heap;
      }
    }

    /** ev_periodic_stop of the first timer; clear_pending is part of the event loop. */
    method StopFirst()
      requires Valid() && heap != []
      modifies `heap, ws`active
      ensures Valid() && Watchers(heap) == old(Watchers(heap)) - {old(heap[0].w)}
    {
      RootDropped();
      hide Without, OrderedExcept, Ordered, Watchers;
      var w := heap[0].w;
      var h := Without(heap, 0);
      assert w in ws;
      w.active := 0;
      assert Ready(h, 0, {});
      Install(h, 0, Either);
    }

    /** ev_periodic_start */
    method PeriodicStart(w: Watcher)
      requires Valid() && Positive() && w in ws
      modifies `heap, ws`active, w`at
      ensures Valid() && Watchers(heap) == old(Watchers(heap)) + {w}
      ensures old(w.active) > 0 ==> w.at == old(w.at)
      ensures old(w.active) == 0 && w in kinds && kinds[w].OneShot? ==> w.at == kinds[w].offset
      ensures old(w.active) == 0 && w in kinds && !kinds[w].OneShot? ==> NextTime(w, w.at, now)
    {
      hide Ordered, OrderedBelow, NextTime, Sane, Positive, Watchers;
      if w.active > 0 {
        assert Watchers(heap) + {w} == Watchers(heap);
        return;
      }
      Inactive(w);
      var at;
      if kinds[w].OneShot? {
        at := kinds[w].offset;
      } else {
        at := Reschedule(w);
      }
      w.at := at;
      var e := Anhe(w, at);
      AppendDefect(heap, e);
      AppendWatchers(heap, e);
      w.active := |heap| + HEAP0;
      assert forall i :: 0 <= i < |heap| ==> heap[i] in heap;
      Install(heap + [e], |heap|, Up);
    }

    lemma Inactive(w: Watcher)
      requires Valid() && w in ws && w.active == 0
      ensures w !in Watchers(heap) && forall i :: 0 <= i < |heap| ==> heap[i].w != w
    {
      forall e | e in heap ensures e.w != w {
        var i :| 0 <= i < |heap| && heap[i] == e;
      }
    }

    /** The first i timers have been given their new times. */
    ghost predicate Rescheduled(h: seq<Anhe>, at0: map<Watcher, real>, i: nat)
      reads `heap, `now, ws`at
    {
      && i <= |h| == |heap| && (forall j :: 0 <= j < |h| ==> h[j].w == heap[j].w && h[j].w in ws)
      && (forall j :: 0 <= j < i ==> h[j].at == h[j].w.at)
      && (forall w :: w in ws ==> w in kinds && w in at0)
      && (forall j :: 0 <= j < |h| ==>
            if j < i && !kinds[h[j].w].OneShot? then NextTime(h[j].w, h[j].w.at, now)
            else h[j].w.at == at0[h[j].w])
      && (forall w :: w in ws && w !in Watchers(heap) ==> w.at == at0[w])
    }

    /** The body of the first loop of periodics_reschedule. */
    method RescheduleAt(h: seq<Anhe>, ghost at0: map<Watcher, real>, i: nat) returns (g: seq<Anhe>)
      requires Positive() && Rescheduled(h, at0, i) && i < |h| && DistinctWatchers(heap)
      modifies ws`at
      ensures Rescheduled(g, at0, i + 1)
    {
      hide NextTime, Sane, Positive;
      var w := h[i].w;
      assert heap[i] in heap && w in Watchers(heap);
      if !kinds[w].OneShot? {
        var at := Reschedule(w);
        w.at := at;
      }
      g := h[i := Anhe(w, w.at)];
    }

    /** The first loop of periodics_reschedule. */
    method RescheduleAll(ghost at0: map<Watcher, real>) returns (h: seq<Anhe>)
      requires Valid() && Positive() && at0 == map w | w in ws :: w.at
      modifies ws`at
      ensures Rescheduled(h, at0, |heap|) && forall j :: 0 <= j < |heap| ==> heap[j].w.active == j + HEAP0
    {
      hide Positive, Ordered, Rescheduled;
      h := heap;
      assert DistinctWatchers(heap);
      StartReschedule(at0);
      for i := 0 to |heap|
        invariant Rescheduled(h, at0, i) && DistinctWatchers(heap) && |h| == |heap|
        invariant forall j :: 0 <= j < |heap| ==> heap[j].w.active == j + HEAP0
      {
        h := RescheduleAt(h, at0, i);
        SameLength(h, at0, i + 1);
      }
    }

    lemma SameLength(h: seq<Anhe>, at0: map<Watcher, real>, i: nat)
      requires Rescheduled(h, at0, i)
      ensures |h| == |heap|
    {
    }

    /** reheap of all periodics. */
    method Rebuild(h: seq<Anhe>)
      requires Ready(h, |h|, {}) && forall w :: w in ws ==> w in kinds
      modifies `heap, ws`active
      ensures Valid() && Watchers(heap) == Watchers(h)
    {
      hide Ordered;
      assert Watchers(h) <= ws;
      assert Placed(h);
      forall e | e in h ensures e.w in ws && e.at == e.w.at {}
      heap := Reheap(h);
      SameElements(heap, h);
    }

    lemma RescheduledIsReady(h: seq<Anhe>, at0: map<Watcher, real>)
      requires Rescheduled(h, at0, |heap|) && forall j :: 0 <= j < |heap| ==> heap[j].w.active == j + HEAP0
      requires forall w :: w in ws && w.active > 0 ==> w in Watchers(heap)
      ensures Ready(h, |h|, {}) && Watchers(h) == Watchers(heap) && Moved(at0) && forall w :: w in ws ==> w in kinds
    {
      hide NextTime;
      SameWatchers(h, heap);
      AllMoved(h, at0);
    }

    /** periodics_reschedule: after a time jump every periodic gets a new time, and the heap is built anew. */
    method PeriodicsReschedule()
      requires Valid() && Positive()
      modifies `heap, ws`active, ws`at
      ensures Valid() && Watchers(heap) == old(Watchers(heap))
      ensures Moved(map w | w in ws :: old(w.at))
    {
      ghost var at0 := map w | w in ws :: w.at;
      assert forall w :: w in ws && w.active > 0 ==> w in Watchers(heap);
      hide NextTime, Positive, Ordered, Rescheduled, Ready, Watchers;
      var h := RescheduleAll(at0);
      RescheduledIsReady(h, at0);
      Rebuild(h);
      assert forall w :: w in ws && w in kinds ==> (w in Watchers(heap) <==> w in old(Watchers(heap)));
    }

    /** Every periodic that runs and is not one-shot has its next time; the others are as they were. */
    ghost predicate Moved(at0: map<Watcher, real>)
      reads `heap, `now, ws`at
    {
      forall w :: w in ws && w in at0 && w in kinds ==>
        if w in Watchers(heap) && !kinds[w].OneShot? then NextTime(w, w.at, now) else w.at == at0[w]
    }

    lemma AllMoved(h: seq<Anhe>, at0: map<Watcher, real>)
      requires Watchers(h) == Watchers(heap) && |h| == |heap|
      requires (forall j :: 0 <= j < |h| ==> h[j].w in ws) && forall w :: w in ws ==> w in kinds && w in at0
      requires forall j :: 0 <= j < |h| ==>
                 if !kinds[h[j].w].OneShot? then NextTime(h[j].w, h[j].w.at, now) else h[j].w.at == at0[h[j].w]
      requires forall w :: w in ws && w !in Watchers(h) ==> w.at == at0[w]
      ensures Moved(at0)
    {
      hide NextTime;
      forall w | w in Watchers(h)
        ensures w in ws && if !kinds[w].OneShot? then NextTime(w, w.at, now) else w.at == at0[w]
      {
        var i :| 0 <= i < |h| && h[i].w == w;
      }
    }

    lemma StartReschedule(at0: map<Watcher, real>)
      requires Valid() && at0 == map w | w in ws :: w.at
      ensures Rescheduled(heap, at0, 0)
    {
      assert forall i :: 0 <= i < |heap| ==> heap[i] in heap;
    }

    lemma SameWatchers(g: seq<Anhe>, h: seq<Anhe>)
      requires |g| == |h| && forall j :: 0 <= j < |h| ==> g[j].w == h[j].w
      ensures Watchers(g) == Watchers(h)
    {
      forall x | x in Watchers(g) ensures x in Watchers(h) {
        var i :| 0 <= i < |g| && g[i].w == x;
        assert h[i] in h;
      }
      forall x | x in Watchers(h) ensures x in Watchers(g) {
        var i :| 0 <= i < |h| && h[i].w == x;
        assert g[i] in g;
      }
    }

    /** One round of the loop of periodics_reify. */
    method ReifyFirst() returns (w: Watcher)
      requires Valid() && Sane(now) && heap != [] && heap[0].at < now
      modifies `heap, ws`active, ws`at
      ensures Valid() && w == old(heap[0].w) && w in kinds
      ensures kinds[w].OneShot? ==> Watchers(heap) == old(Watchers(heap)) - {w} && w.at == old(w.at)
      ensures !kinds[w].OneShot? ==> Watchers(heap) == old(Watchers(heap)) && NextTime(w, w.at, now) && w.at >= now
      ensures forall x :: x in ws && x != w ==> x.at == old(x.at)
    {
      hide Ordered, NextTime, Positive;
      w := heap[0].w;
      assert heap[0] in heap;
      if kinds[w].OneShot? {
        StopFirst();
      } else {
        var at := Reschedule(w);
        MoveFirst(at);
      }
    }

    /** The timers in fed have expired and were dealt with; the others are as they were. */
    ghost predicate Reified(fed: seq<Watcher>, active0: set<Watcher>, at0: map<Watcher, real>)
      reads `heap, `now, ws`at
    {
      && (forall w :: w in ws ==> w in at0)
      && (forall w :: w in fed ==> w in ws && w in active0 && at0[w] < now && w in kinds)
      && (forall w :: w in fed ==>
            if kinds[w].OneShot? then w !in Watchers(heap)
            else w in Watchers(heap) && w.at >= now && NextTime(w, w.at, now))
      && (forall w :: w in ws && w !in fed ==> w.at == at0[w] && (w in Watchers(heap) <==> w in active0))
      && InOrder(fed, at0)
      && (forall w, x :: w in fed && x in Watchers(heap) && x in ws && x !in fed ==> at0[w] <= at0[x])
    }

    /** The first timer has not been fed yet, and none that is left is earlier. */
    lemma FirstIsNext(fed: seq<Watcher>, active0: set<Watcher>, at0: map<Watcher, real>)
      requires Valid() && Reified(fed, active0, at0) && heap != [] && heap[0].at < now
      ensures var w := heap[0].w;
              && w in ws && w !in fed && w in active0 && at0[w] < now && w in Watchers(heap)
              && forall x :: x in Watchers(heap) && x in ws && x !in fed ==> at0[w] <= at0[x]
    {
      var w := heap[0].w;
      assert heap[0] in heap;
      forall x | x in Watchers(heap) && x in ws && x !in fed ensures at0[w] <= at0[x] {
        var i :| 0 <= i < |heap| && heap[i].w == x;
        RootIsMinimum(heap, i);
        assert heap[i] in heap;
      }
    }

    /** ReifyFirst keeps what periodics_reify promises. */
    method CollectFirst(fed: seq<Watcher>, ghost active0: set<Watcher>, ghost at0: map<Watcher, real>)
      returns (more: seq<Watcher>)
      requires Valid() && Sane(now) && Reified(fed, active0, at0) && heap != [] && heap[0].at < now
      modifies `heap, ws`active, ws`at
      ensures Valid() && Reified(more, active0, at0)
      ensures more == fed + [old(heap[0].w)] && old(heap[0].w) !in fed && old(heap[0].w) in active0
    {
      hide Ordered, NextTime, Sane, Watchers;
      FirstIsNext(fed, active0, at0);
      var w := ReifyFirst();
      more := fed + [w];
    }

    /**
     * periodics_reify. The timers that were due are fed, each once, in the order of their expiry; those that are not
     * over get their next time, and no other timer is touched.
     */
    method PeriodicsReify() returns (fed: seq<Watcher>)
      requires Valid() && Sane(now)
      modifies `heap, ws`active, ws`at
      ensures Valid() && Reified(fed, old(Watchers(heap)), map w | w in ws :: old(w.at))
      ensures forall w :: w in ws ==> (w in fed <==> w in old(Watchers(heap)) && old(w.at) < now)
      ensures forall e :: e in heap ==> e.at >= now
    {
      ghost var active0, at0 := Watchers(heap), map w | w in ws :: w.at;
      fed := [];
      NothingReified(active0, at0);
      hide Ordered, NextTime, Sane, Reified, Valid;
      while heap != [] && heap[0].at < now
        invariant Valid() && Reified(fed, active0, at0) && active0 <= ws
        decreases active0 - (set w | w in fed)
      {
        ghost var w := heap[0].w;
        ghost var before := set x | x in fed;
        fed := CollectFirst(fed, active0, at0);
        assert w in active0 - before && w in (set x | x in fed);
      }
      AllLater(fed, active0, at0);
    }

    lemma NothingReified(active0: set<Watcher>, at0: map<Watcher, real>)
      requires Valid() && active0 == Watchers(heap) && at0 == map w | w in ws :: w.at
      ensures Reified([], active0, at0) && active0 <= ws
    {
    }

    lemma AllLater(fed: seq<Watcher>, active0: set<Watcher>, at0: map<Watcher, real>)
      requires Valid() && Reified(fed, active0, at0) && (heap == [] || heap[0].at >= now)
      ensures forall e :: e in heap ==> e.at >= now
      ensures forall w :: w in ws ==> (w in fed <==> w in active0 && at0[w] < now)
    {
      forall e | e in heap ensures e.at >= now {
        var i :| 0 <= i < |heap| && heap[i] == e;
        RootIsMinimum(heap, i);
      }
      forall w | w in ws && w !in fed && w in active0 ensures at0[w] >= now {
        var e :| e in heap && e.w == w;
      }
    }
  }
}
