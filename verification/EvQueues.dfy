/** The pending queues of libev as values, and why they deliver what the history of a loop says is owed. */
module EvQueues {
  import opened Common
  import opened EvWatcher
  import opened EvHistory

  /** An entry of a pending queue; null stands for &pending_w, the dummy that replaces a cleared watcher. */
  datatype Pending = Pending(w: Watcher?, events: Mask)

  type Queues = q: seq<seq<Pending>> | |q| == NUMPRI witness [[], [], [], [], []]

  /** The queues, one per priority, together with the field pending of every watcher. */
  datatype State = State(q: Queues, index: map<Watcher, nat>)

  const EMPTY: Queues := [[], [], [], [], []]

  /** verify_watcher, seen from one queue: its entries know their place. */
  ghost predicate LinkedQueue(q: seq<Pending>, p: nat, index: map<Watcher, nat>) {
    forall s :: 0 <= s < |q| && q[s].w != null ==> q[s].w in index && q[s].w.pri == p && index[q[s].w] == s + 1
  }

  /** verify_watcher, seen from one watcher: the entry it points to is its own. */
  ghost predicate LinkedWatcher(q: seq<Pending>, w: Watcher, index: map<Watcher, nat>)
    requires w in index
  {
    index[w] > 0 ==> index[w] <= |q| && q[index[w] - 1].w == w
  }

  ghost predicate Linked(st: State) {
    && (forall p: Priority :: LinkedQueue(st.q[p], p, st.index))
    && (forall w :: w in st.index ==> LinkedWatcher(st.q[w.pri], w, st.index))
  }

  /** What w will be called with. */
  function Debt(st: State, w: Watcher): Option<Mask>
    requires w in st.index && (st.index[w] > 0 ==> st.index[w] <= |st.q[w.pri]|)
  {
    if st.index[w] == 0 then None else Some(st.q[w.pri][st.index[w] - 1].events)
  }

  /** Of two watchers in one queue, the one nearer to the bottom became pending earlier. */
  ghost predicate InOrder(st: State, h: History, w: Watcher, x: Watcher)
    requires w in st.index && x in st.index
  {
    w.pri == x.pri && 0 < st.index[w] < st.index[x] ==>
      Owed(h, w).Some? && Owed(h, x).Some? && Since(h, w) < Since(h, x)
  }

  /** The queues hold exactly what the history says is owed, in the order in which it became pending. */
  ghost predicate Faithful(st: State, h: History) {
    && Linked(st)
    && (forall w :: w in st.index ==> Owed(h, w) == Debt(st, w))
    && (forall w, x :: w in st.index && x in st.index ==> InOrder(st, h, w, x))
    && Lawful(h, st.index.Keys)
  }

  function FeedTo(st: State, w: Watcher, events: Mask): State
    requires w in st.index && (st.index[w] > 0 ==> st.index[w] <= |st.q[w.pri]|)
  {
    var q := st.q[w.pri];
    var s := st.index[w];
    if s > 0 then
      State(st.q[w.pri := q[s - 1 := Pending(q[s - 1].w, q[s - 1].events | events)]], st.index)
    else
      State(st.q[w.pri := q + [Pending(w, events)]], st.index[w := |q| + 1])
  }

  function ClearFrom(st: State, w: Watcher): State
    requires w in st.index && (st.index[w] > 0 ==> st.index[w] <= |st.q[w.pri]|)
  {
    var q := st.q[w.pri];
    var s := st.index[w];
    if s == 0 then st
    else State(st.q[w.pri := q[s - 1 := Pending(null, q[s - 1].events)]], st.index[w := 0])
  }

  function PopFrom(st: State, p: Priority): State
    requires |st.q[p]| > 0 && (st.q[p][|st.q[p]| - 1].w != null ==> st.q[p][|st.q[p]| - 1].w in st.index)
  {
    var n := |st.q[p]| - 1;
    var w := st.q[p][n].w;
    State(st.q[p := st.q[p][..n]], if w == null then st.index else st.index[w := 0])
  }

  /** Queues and history move on together when one watcher w is fed, cleared or run. */
  lemma StepIsFaithful(st: State, h: History, st': State, e: Event)
    requires Faithful(st, h) && Linked(st') && st'.index.Keys == st.index.Keys && e.w in st.index
    requires forall x :: x in st.index && x != e.w ==> st'.index[x] == st.index[x] && Debt(st', x) == Debt(st, x)
    requires Debt(st', e.w) == OwedStep(Debt(st, e.w), e, e.w)
    requires st'.index[e.w] > 0 && st.index[e.w] > 0 ==> st'.index[e.w] == st.index[e.w]
    requires st'.index[e.w] > 0 && st.index[e.w] == 0 ==>
               forall x :: x in st.index && x != e.w && x.pri == e.w.pri ==> st.index[x] < st'.index[e.w]
    requires e.Ran? ==> MayRun(h, e.w, e.events, st.index.Keys)
    ensures Faithful(st', h + [e])
  {
    var h' := h + [e];
    forall x | x in st'.index ensures Owed(h', x) == Debt(st', x) {
      OwedAppend(h, e, x);
    }
    forall w, x | w in st'.index && x in st'.index ensures InOrder(st', h', w, x) {
      assert InOrder(st, h, w, x);
      OwedAppend(h, e, w);
      OwedAppend(h, e, x);
    }
    LawfulAppend(h, e, st.index.Keys);
  }

  lemma FeedKeepsLinks(st: State, w: Watcher, events: Mask)
    requires Linked(st) && w in st.index && LinkedWatcher(st.q[w.pri], w, st.index)
    ensures Linked(FeedTo(st, w, events))
  {
    var st' := FeedTo(st, w, events);
    forall p: Priority ensures LinkedQueue(st'.q[p], p, st'.index) {
      assert LinkedQueue(st.q[p], p, st.index);
    }
    forall x | x in st'.index ensures LinkedWatcher(st'.q[x.pri], x, st'.index) {
      assert LinkedWatcher(st.q[x.pri], x, st.index);
    }
  }

  lemma ClearKeepsLinks(st: State, w: Watcher)
    requires Linked(st) && w in st.index && LinkedWatcher(st.q[w.pri], w, st.index)
    ensures Linked(ClearFrom(st, w))
  {
    var st' := ClearFrom(st, w);
    forall p: Priority ensures LinkedQueue(st'.q[p], p, st'.index) {
      assert LinkedQueue(st.q[p], p, st.index);
    }
    forall x | x in st'.index ensures LinkedWatcher(st'.q[x.pri], x, st'.index) {
      assert LinkedWatcher(st.q[x.pri], x, st.index);
    }
  }

  lemma PopKeepsLinks(st: State, p: Priority)
    requires Linked(st) && |st.q[p]| > 0
    requires LinkedQueue(st.q[p], p, st.index)
    ensures Linked(PopFrom(st, p))
  {
    var st' := PopFrom(st, p);
    forall r: Priority ensures LinkedQueue(st'.q[r], r, st'.index) {
      assert LinkedQueue(st.q[r], r, st.index);
    }
    forall x | x in st'.index ensures LinkedWatcher(st'.q[x.pri], x, st'.index) {
      assert LinkedWatcher(st.q[x.pri], x, st.index);
    }
  }

  /** Feeding w changes the debt of nobody else. */
  lemma FeedFrame(st: State, w: Watcher, events: Mask, x: Watcher)
    requires Linked(st) && w in st.index && x in st.index && x != w
    requires LinkedWatcher(st.q[w.pri], w, st.index) && LinkedWatcher(st.q[x.pri], x, st.index)
    ensures var st' := FeedTo(st, w, events);
            st'.index[x] == st.index[x] && LinkedWatcher(st'.q[x.pri], x, st'.index) && Debt(st', x) == Debt(st, x)
  {
  }

  /** Feeding w adds to its own debt. */
  lemma FeedDebt(st: State, w: Watcher, events: Mask)
    requires w in st.index && LinkedWatcher(st.q[w.pri], w, st.index)
    ensures var st' := FeedTo(st, w, events);
            && st'.index.Keys == st.index.Keys
            && st'.index[w] == (if st.index[w] > 0 then st.index[w] else |st.q[w.pri]| + 1)
            && LinkedWatcher(st'.q[w.pri], w, st'.index)
            && Debt(st', w) == OwedStep(Debt(st, w), Fed(w, events), w)
  {
  }

  lemma FeedIsFaithful(st: State, h: History, w: Watcher, events: Mask)
    requires Faithful(st, h) && w in st.index && LinkedWatcher(st.q[w.pri], w, st.index)
    ensures Faithful(FeedTo(st, w, events), h + [Fed(w, events)])
  {
    var st' := FeedTo(st, w, events);
    FeedKeepsLinks(st, w, events);
    FeedDebt(st, w, events);
    forall x | x in st.index && x != w
      ensures st'.index[x] == st.index[x] && LinkedWatcher(st'.q[x.pri], x, st'.index)
      ensures Debt(st', x) == Debt(st, x)
      ensures x.pri == w.pri ==> st.index[x] <= |st.q[w.pri]|
    {
      assert LinkedWatcher(st.q[x.pri], x, st.index);
      FeedFrame(st, w, events, x);
    }
    StepIsFaithful(st, h, st', Fed(w, events));
  }

  /** Clearing w changes the debt of nobody else. */
  lemma ClearFrame(st: State, w: Watcher, x: Watcher)
    requires Linked(st) && w in st.index && x in st.index && x != w
    requires LinkedWatcher(st.q[w.pri], w, st.index) && LinkedWatcher(st.q[x.pri], x, st.index)
    ensures var st' := ClearFrom(st, w);
            st'.index[x] == st.index[x] && LinkedWatcher(st'.q[x.pri], x, st'.index) && Debt(st', x) == Debt(st, x)
  {
  }

  /** Clearing w leaves it owed nothing. */
  lemma ClearDebt(st: State, w: Watcher)
    requires w in st.index && LinkedWatcher(st.q[w.pri], w, st.index)
    ensures var st' := ClearFrom(st, w);
            && st'.index.Keys == st.index.Keys
            && st'.index[w] == 0
            && LinkedWatcher(st'.q[w.pri], w, st'.index)
            && Debt(st', w) == OwedStep(Debt(st, w), Cleared(w), w)
  {
  }

  lemma ClearIsFaithful(st: State, h: History, w: Watcher)
    requires Faithful(st, h) && w in st.index && LinkedWatcher(st.q[w.pri], w, st.index)
    ensures Faithful(ClearFrom(st, w), h + [Cleared(w)])
  {
    var st' := ClearFrom(st, w);
    ClearKeepsLinks(st, w);
    ClearDebt(st, w);
    forall x | x in st.index && x != w
      ensures st'.index[x] == st.index[x] && LinkedWatcher(st'.q[x.pri], x, st'.index)
      ensures Debt(st', x) == Debt(st, x)
      ensures x.pri == w.pri ==> st.index[x] <= |st.q[w.pri]|
    {
      assert LinkedWatcher(st.q[x.pri], x, st.index);
      ClearFrame(st, w, x);
    }
    StepIsFaithful(st, h, st', Cleared(w));
  }

  /** The top of the first non-empty queue may run. */
  lemma TopMayRun(st: State, h: History, p: Priority)
    requires Faithful(st, h) && |st.q[p]| > 0 && LinkedQueue(st.q[p], p, st.index)
    requires EmptyAbove(st.q, p)
    requires st.q[p][|st.q[p]| - 1].w != null
    ensures var e := st.q[p][|st.q[p]| - 1]; MayRun(h, e.w, e.events, st.index.Keys)
  {
    var e := st.q[p][|st.q[p]| - 1];
    assert LinkedWatcher(st.q[p], e.w, st.index);
    forall x | x in st.index.Keys && Owed(h, x).Some?
      ensures x.pri < e.w.pri || (x.pri == e.w.pri && Since(h, x) <= Since(h, e.w))
    {
      assert LinkedWatcher(st.q[x.pri], x, st.index);
      assert st.index[x] > 0;
      assert InOrder(st, h, x, e.w);
    }
  }

  /** Running the top of the first non-empty queue keeps queues and history together. */
  lemma PopIsFaithful(st: State, h: History, p: Priority)
    requires Faithful(st, h) && |st.q[p]| > 0 && LinkedQueue(st.q[p], p, st.index)
    requires EmptyAbove(st.q, p)
    ensures var e := st.q[p][|st.q[p]| - 1];
            Faithful(PopFrom(st, p), if e.w == null then h else h + [Ran(e.w, e.events)])
  {
    PopKeepsLinks(st, p);
    var e := st.q[p][|st.q[p]| - 1];
    PopKeepsOthers(st, p);
    if e.w != null {
      TopMayRun(st, h, p);
      StepIsFaithful(st, h, PopFrom(st, p), Ran(e.w, e.events));
    } else {
      SameDebts(st, PopFrom(st, p), h);
    }
  }

  lemma PopKeepsOthers(st: State, p: Priority)
    requires Linked(st) && |st.q[p]| > 0 && Linked(PopFrom(st, p))
    ensures var e, st' := st.q[p][|st.q[p]| - 1], PopFrom(st, p);
            && st'.index.Keys == st.index.Keys
            && forall x :: x in st.index && x != e.w ==> st'.index[x] == st.index[x] && Debt(st', x) == Debt(st, x)
  {
    var e, st' := st.q[p][|st.q[p]| - 1], PopFrom(st, p);
    forall x | x in st.index && x != e.w ensures st'.index[x] == st.index[x] && Debt(st', x) == Debt(st, x) {
      assert LinkedWatcher(st.q[x.pri], x, st.index);
      assert LinkedWatcher(st'.q[x.pri], x, st'.index);
    }
  }

  lemma SameDebts(st: State, st': State, h: History)
    requires Faithful(st, h) && Linked(st') && st'.index == st.index
    requires forall x :: x in st.index ==> Debt(st', x) == Debt(st, x)
    ensures Faithful(st', h)
  {
    forall w, x | w in st'.index && x in st'.index ensures InOrder(st', h, w, x) {
      assert InOrder(st, h, w, x);
    }
  }

  /** The number of queue entries. */
  function Size(q: Queues): nat {
    |q[0]| + |q[1]| + |q[2]| + |q[3]| + |q[4]|
  }

  ghost predicate SameHeights(q: Queues, r: Queues) {
    forall p: Priority :: |q[p]| == |r[p]|
  }

  /** No queue of a priority above p holds anything. */
  ghost predicate EmptyAbove(q: Queues, p: nat) {
    forall x: Priority :: p < x ==> q[x] == []
  }

  lemma PopShrinks(q: Queues, p: Priority, r: seq<Pending>)
    requires |r| < |q[p]|
    ensures Size(q[p := r]) < Size(q)
    ensures EmptyAbove(q, p) ==> EmptyAbove(q[p := r], p)
  {
  }

  /** With nothing in the queues, nothing is owed. */
  lemma EmptyMeansPaid(st: State, h: History)
    requires Faithful(st, h) && forall p: Priority :: st.q[p] == []
    ensures forall w :: w in st.index ==> st.index[w] == 0 && Owed(h, w) == None
  {
    forall w | w in st.index ensures st.index[w] == 0 {
      assert LinkedWatcher(st.q[w.pri], w, st.index);
    }
  }
}
