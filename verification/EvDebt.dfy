/** What a watcher is owed and when its callback may run, said of the single events of a history. */
module EvDebt {
  import opened Common
  import opened EvWatcher
  import opened EvHistory

  /** The feed of w at position p stands: w has neither run nor been cancelled since. */
  ghost predicate Stands(h: History, w: Watcher, p: nat) {
    p < |h| && h[p].Fed? && h[p].w == w && forall q :: p < q < |h| && h[q].w == w ==> h[q].Fed?
  }

  predicate Has(events: Mask, bits: Mask) {
    events & bits != 0
  }

  /** Some feed of w stands, and events are those of all that do. */
  ghost predicate AllFed(h: History, w: Watcher, events: Mask) {
    && (exists p: nat :: Stands(h, w, p))
    && forall bits: Mask :: Has(events, bits) <==> exists p: nat :: Stands(h, w, p) && Has(h[p].events, bits)
  }

  lemma StandsStep(h: History, w: Watcher, p: nat)
    requires h != []
    ensures var k := |h| - 1;
            Stands(h, w, p) <==>
              (p == k && h[k].Fed? && h[k].w == w) || (Stands(h[..k], w, p) && (h[k].w == w ==> h[k].Fed?))
  {
    var k := |h| - 1;
    if Stands(h[..k], w, p) && (h[k].w == w ==> h[k].Fed?) {
      forall q | p < q < |h| && h[q].w == w ensures h[q].Fed? {
        assert q < k ==> h[..k][q] == h[q];
      }
    }
    if Stands(h, w, p) && p < k {
      assert h[..k][p] == h[p];
    }
  }

  lemma OrHas(a: Mask, b: Mask, bits: Mask)
    ensures Has(a | b, bits) <==> Has(a, bits) || Has(b, bits)
  {
    Distribute(a, b, bits);
    OrIsZero(a & bits, b & bits);
  }

  lemma Distribute(a: Mask, b: Mask, c: Mask)
    ensures (a | b) & c == (a & c) | (b & c)
  {
  }

  lemma OrIsZero(a: Mask, b: Mask)
    ensures a | b == 0 <==> a == 0 && b == 0
  {
  }

  /** One more feed of w: it stands, and so does what stood before. */
  lemma FeedStands(front: History, w: Watcher, events: Mask)
    ensures Stands(front + [Fed(w, events)], w, |front|)
    ensures (forall p: nat :: !Stands(front, w, p)) ==> AllFed(front + [Fed(w, events)], w, events)
    ensures forall m: Mask :: AllFed(front, w, m) ==> AllFed(front + [Fed(w, events)], w, m | events)
  {
    var h := front + [Fed(w, events)];
    assert h[..|front|] == front;
    forall p: nat ensures Stands(h, w, p) <==> p == |front| || Stands(front, w, p) {
      StandsStep(h, w, p);
    }
    hide Stands, Has;
    assert Stands(h, w, |front|);
    forall m: Mask | AllFed(front, w, m) ensures AllFed(h, w, m | events) {
      forall bits: Mask {:trigger Has(m | events, bits)}
        ensures Has(m | events, bits) <==> exists p: nat :: Stands(h, w, p) && Has(h[p].events, bits)
      {
        OrHas(m, events, bits);
        OneMore(front, w, events, bits);
      }
    }
  }

  lemma OneMore(front: History, w: Watcher, events: Mask, bits: Mask)
    ensures var h := front + [Fed(w, events)];
            (exists p: nat :: Stands(h, w, p) && Has(h[p].events, bits)) <==>
            Has(events, bits) || exists p: nat :: Stands(front, w, p) && Has(front[p].events, bits)
  {
    var h := front + [Fed(w, events)];
    assert h[..|front|] == front;
    forall p: nat ensures Stands(h, w, p) <==> p == |front| || Stands(front, w, p) {
      StandsStep(h, w, p);
    }
    assert forall p: nat :: Stands(front, w, p) ==> h[p] == front[p];
    hide Has;
    if p: nat :| Stands(h, w, p) && Has(h[p].events, bits) && p != |front| {
      assert Stands(front, w, p) && Has(front[p].events, bits);
    }
    if p: nat :| Stands(front, w, p) && Has(front[p].events, bits) {
      assert Stands(h, w, p) && Has(h[p].events, bits);
    }
    assert Has(events, bits) ==> Stands(h, w, |front|) && Has(h[|front|].events, bits);
  }

  /** Events of other watchers leave the feeds of w as they are. */
  lemma OthersStand(front: History, e: Event, w: Watcher)
    requires e.w != w
    ensures forall p: nat :: Stands(front + [e], w, p) <==> Stands(front, w, p)
    ensures forall m: Mask :: AllFed(front, w, m) ==> AllFed(front + [e], w, m)
  {
    var h := front + [e];
    assert h[..|front|] == front;
    forall p: nat ensures Stands(h, w, p) <==> Stands(front, w, p) {
      StandsStep(h, w, p);
    }
    assert forall p: nat :: Stands(front, w, p) ==> h[p] == front[p];
    hide Stands, Has;
  }

  lemma NoneStands(front: History, e: Event)
    requires !e.Fed?
    ensures forall p: nat :: !Stands(front + [e], e.w, p)
  {
    assert (front + [e])[|front|] == e;
  }

  /** Something is owed exactly if a feed stands, and then it is the OR of the feeds that stand. */
  lemma {:induction false} OwedExact(h: History, w: Watcher)
    ensures Owed(h, w).Some? <==> exists p: nat :: Stands(h, w, p)
    ensures Owed(h, w).Some? ==> AllFed(h, w, Owed(h, w).value)
    decreases |h|
  {
    if h != [] {
      var front, e := h[..|h| - 1], h[|h| - 1];
      assert h == front + [e];
      OwedExact(front, w);
      hide Stands, AllFed;
      if e.w != w {
        OthersStand(front, e, w);
      } else if e.Fed? {
        FeedStands(front, w, e.events);
      } else {
        NoneStands(front, e);
      }
    }
  }

  /** Only one mask has the bits of all feeds that stand. */
  lemma SameBits(h: History, w: Watcher, a: Mask, b: Mask)
    requires AllFed(h, w, a) && AllFed(h, w, b)
    ensures a == b
  {
    hide Stands;
    assert Has(a, a & !b) <==> Has(b, a & !b);
    assert Has(a, b & !a) <==> Has(b, b & !a);
    BitsDiffer(a, b);
  }

  lemma BitsDiffer(a: Mask, b: Mask)
    requires Has(a, a & !b) <==> Has(b, a & !b)
    requires Has(a, b & !a) <==> Has(b, b & !a)
    ensures a == b
  {
  }

  /** The feed a watcher has been pending since is the first of those that stand. */
  lemma {:induction false} SinceIsFirst(h: History, w: Watcher)
    requires Owed(h, w).Some?
    ensures Stands(h, w, Since(h, w)) && forall p: nat :: Stands(h, w, p) ==> Since(h, w) <= p
    decreases |h|
  {
    var front, e := h[..|h| - 1], h[|h| - 1];
    assert h == front + [e];
    OwedExact(front, w);
    if Owed(front, w).Some? {
      SinceIsFirst(front, w);
    }
    forall p: nat ensures Stands(h, w, p) <==>
      (p == |front| && e.Fed? && e.w == w) || (Stands(front, w, p) && (e.w == w ==> e.Fed?))
    {
      StandsStep(h, w, p);
    }
  }

  /** The feed of x that has stood longest was made before all feeds of w that stand. */
  ghost predicate StoodBefore(h: History, x: Watcher, w: Watcher) {
    exists p: nat :: Stands(h, x, p) && forall q: nat :: Stands(h, w, q) ==> p <= q
  }

  /**
   * The turn of w: it receives the OR of the feeds of w that stand, and of the watchers for which a feed stands none has
   * a higher priority, and those of the same priority were fed before.
   */
  ghost predicate InTurn(h: History, w: Watcher, events: Mask, ws: set<Watcher>) {
    && AllFed(h, w, events)
    && forall x, p: nat :: x in ws && Stands(h, x, p) ==> x.pri < w.pri || (x.pri == w.pri && StoodBefore(h, x, w))
  }

  lemma BeforeExact(h: History, x: Watcher, w: Watcher)
    requires Owed(h, x).Some? && Owed(h, w).Some?
    ensures Since(h, x) <= Since(h, w) <==> StoodBefore(h, x, w)
  {
    SinceIsFirst(h, x);
    SinceIsFirst(h, w);
    hide Stands;
    if Since(h, x) <= Since(h, w) {
      assert Stands(h, x, Since(h, x));
    }
  }

  /** A callback may run exactly when it is its turn. */
  lemma MayRunExact(h: History, w: Watcher, events: Mask, ws: set<Watcher>)
    ensures MayRun(h, w, events, ws) <==> InTurn(h, w, events, ws)
  {
    hide Stands, StoodBefore, Since;
    OwedExact(h, w);
    if AllFed(h, w, events) {
      SameBits(h, w, events, Owed(h, w).value);
    }
    hide AllFed;
    if Owed(h, w) == Some(events) {
      forall x | x in ws
        ensures Owed(h, x).Some? <==> exists p: nat :: Stands(h, x, p)
        ensures Owed(h, x).Some? ==> (Since(h, x) <= Since(h, w) <==> StoodBefore(h, x, w))
      {
        OwedExact(h, x);
        if Owed(h, x).Some? {
          BeforeExact(h, x, w);
        }
      }
    }
  }

  /** Every callback that ran did so in its turn. */
  ghost predicate AllInTurn(h: History, ws: set<Watcher>) {
    forall i :: 0 <= i < |h| && h[i].Ran? ==> InTurn(h[..i], h[i].w, h[i].events, ws)
  }

  lemma LawfulExact(h: History, ws: set<Watcher>)
    ensures Lawful(h, ws) <==> AllInTurn(h, ws)
  {
    hide MayRun, InTurn;
    forall i | 0 <= i < |h| && h[i].Ran?
      ensures MayRun(h[..i], h[i].w, h[i].events, ws) <==> InTurn(h[..i], h[i].w, h[i].events, ws)
    {
      MayRunExact(h[..i], h[i].w, h[i].events, ws);
    }
  }

  /** No feed of any of the watchers stands. */
  ghost predicate NothingStands(h: History, ws: set<Watcher>) {
    forall w, p: nat :: w in ws ==> !Stands(h, w, p)
  }

  lemma PaidExact(h: History, ws: set<Watcher>)
    ensures (forall w :: w in ws ==> Owed(h, w) == None) <==> NothingStands(h, ws)
  {
    forall w | w in ws ensures Owed(h, w).Some? <==> exists p: nat :: Stands(h, w, p) {
      OwedExact(h, w);
    }
    hide Stands;
  }
}
