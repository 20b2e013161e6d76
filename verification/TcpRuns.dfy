/** What holds of every run of TcpProtocol: the lives of connections, and what becomes of them. */
module TcpRuns {
  import opened Common
  import opened TcpProtocol
  import opened TcpInvariant

  // ---------- What the log may hold ----------

  /** The life of a connection, as the events of its log tell it. */
  datatype Life = Unknown | Here(received: nat) | Away | Gone | Over

  /**
   * The event may happen at this point of its connection's life: packets are numbered from 0 without a gap, a client
   * that is looked up is there, and it is the client of this connection; OnClose comes once, after the disconnect,
   * and nothing but close comes after it.
   */
  predicate MayHappen(l: Life, e: Event) {
    match e
    case Accept(_) => l.Unknown?
    case Receive(_, n) => l == Here(n)
    case Serve(g, _, c) => (l.Here? || l.Away?) && c == Some(g)
    case Sent(g, c) => (l.Here? || l.Away?) && c == Some(g)
    case Disconnected(g, c) => l.Here? && c == Some(g)
    case OnClose(g, c) => l.Away? && c == Some(g)
    case Close(_) => l.Gone?
  }

  function Lived(l: Life, e: Event): Life {
    match e
    case Accept(_) => Here(0)
    case Receive(_, n) => Here(n + 1)
    case Serve(_, _, _) => l
    case Sent(_, _) => l
    case Disconnected(_, _) => Away
    case OnClose(_, _) => Gone
    case Close(_) => Over
  }

  function LifeOf(log: seq<Event>, g: Gen): Life {
    if log == [] then Unknown else
      var l := LifeOf(log[..|log| - 1], g);
      if log[|log| - 1].gen == g then Lived(l, log[|log| - 1]) else l
  }

  predicate Lawful(log: seq<Event>) {
    log == [] ||
    (Lawful(log[..|log| - 1]) && MayHappen(LifeOf(log[..|log| - 1], log[|log| - 1].gen), log[|log| - 1]))
  }

  /** The life a connection has in the state. */
  function LifeIn(s: State, g: Gen): Life {
    if g >= |s.fds| then Unknown
    else if !Current(s, g) then Over
    else
      var x := s.slots[s.fds[g]];
      match x.phase
      case Closable(_) => Gone
      case Draining => Away
      case OnClosing(_) => Away
      case Stopping => if s.loop.Offline? then Away else Here(x.recvSeq)
      case _ => Here(x.recvSeq)
  }

  ghost predicate Traced(s: State) {
    Lawful(s.log) && forall g: Gen :: LifeOf(s.log, g) == LifeIn(s, g)
  }

  /** The events a step adds. */
  function Added(s: State, a: Action): seq<Event>
    requires Enabled(s, a)
  {
    match a
    case AcceptReset(f) => [Accept(|s.fds|)]
    case Enqueue(_) => [Receive(s.msgs[s.loop.msg].gen, s.slots[s.loop.fd].recvSeq)]
    case MarkOffline => [Disconnected(s.slots[s.loop.fd].gen, Find(s, s.loop.fd))]
    case LoopOnClose => [OnClose(s.slots[s.loop.fd].gen, Find(s, s.loop.fd))]
    case LoopClose => [Close(s.slots[s.loop.fd].gen)]
    case Lookup(m) => [Serve(s.msgs[m].gen, s.msgs[m].num, Find(s, s.msgs[m].fd))]
    case HandlerOnClose(m) => [OnClose(s.slots[s.msgs[m].fd].gen, Find(s, s.msgs[m].fd))]
    case HandlerClose(m) => [Close(s.slots[s.msgs[m].fd].gen)]
    case Send(m, sent) => if sent then [Sent(s.msgs[m].gen, Find(s, s.msgs[m].fd))] else []
    case SendOnClose => [OnClose(s.slots[s.sender.fd].gen, Find(s, s.sender.fd))]
    case SendClose => [Close(s.slots[s.sender.fd].gen)]
    case _ => []
  }

  lemma LogGrows(s: State, a: Action)
    requires Enabled(s, a)
    ensures Apply(s, a).log == s.log + Added(s, a)
  {
  }

  function LivedAll(l: Life, es: seq<Event>, g: Gen): Life
    decreases |es|
  {
    if es == [] then l else LivedAll(if es[0].gen == g then Lived(l, es[0]) else l, es[1..], g)
  }

  /** Events of one connection, one after the other. */
  predicate MayHappenAll(l: Life, es: seq<Event>, g: Gen)
    decreases |es|
  {
    es == [] || (es[0].gen == g && MayHappen(l, es[0]) && MayHappenAll(Lived(l, es[0]), es[1..], g))
  }

  lemma {:induction false} Append(log: seq<Event>, es: seq<Event>, g: Gen, h: Gen)
    requires Lawful(log) && MayHappenAll(LifeOf(log, g), es, g)
    ensures Lawful(log + es) && LifeOf(log + es, h) == LivedAll(LifeOf(log, h), es, h)
    decreases |es|
  {
    if es == [] {
      assert log + es == log;
    } else {
      var next := log + [es[0]];
      assert next[..|next| - 1] == log;
      Append(next, es[1..], g, h);
      assert log + es == next + es[1..];
    }
  }

  /** The connection a step is about, if it adds events. */
  function About(s: State, a: Action): Gen
    requires Enabled(s, a)
  {
    if Added(s, a) == [] then 0 else Added(s, a)[0].gen
  }

  /** What the invariant says about the connection a step is about. */
  lemma StepFacts(s: State, a: Action)
    requires Inv(s) && Enabled(s, a)
    ensures s.loop.HasMessage? || s.loop.Counted? || s.loop.Dropping? || s.loop.LoopClosing? || s.loop.LoopErased? ==>
              s.loop.fd < |s.slots| && SlotOk(s, s.loop.fd)
    ensures s.loop.Dropping? ==> s.slots[s.loop.fd].phase == Stopping
    ensures s.loop.LoopClosing? ==> s.slots[s.loop.fd].phase == OnClosing(LoopThread)
    ensures s.loop.LoopErased? ==> s.slots[s.loop.fd].phase == Closable(LoopThread)
    ensures s.loop.Counted? ==> MsgOk(s, s.loop.msg)
    ensures a.AcceptReset? ==> SlotOk(s, a.fd)
    ensures a.SendOnClose? || a.SendClose? ==> s.sender.fd < |s.slots| && SlotOk(s, s.sender.fd)
    ensures a.SendOnClose? ==> s.slots[s.sender.fd].phase == OnClosing(SendThread)
    ensures a.SendClose? ==> s.slots[s.sender.fd].phase == Closable(SendThread)
    ensures a.Lookup? || a.Send? ==> s.msgs[a.msg].fd < |s.slots| && SlotOk(s, s.msgs[a.msg].fd)
    ensures a.HandlerOnClose? || a.HandlerClose? ==>
              s.msgs[a.msg].fd < |s.slots| && SlotOk(s, s.msgs[a.msg].fd) && MsgOk(s, a.msg)
    ensures a.Lookup? || a.Send? ==>
              var f := s.msgs[a.msg].fd;
              && Live(s.slots[f].phase) && (s.slots[f].closeRecv <==> s.slots[f].phase.Draining?)
              && Find(s, f) == Some(s.msgs[a.msg].gen) && s.msgs[a.msg].gen == s.slots[f].gen
  {
    hide CountOk;
    if a.SendOnClose? || a.SendClose? {
      assert SlotOk(s, s.sender.fd);
    }
    if a.Lookup? || a.Send? {
      FlyingFacts(s, a.msg);
      assert MsgOk(s, a.msg);
    }
  }

  lemma OneEvent(l: Life, e: Event, g: Gen)
    ensures LivedAll(l, [e], g) == if e.gen == g then Lived(l, e) else l
    ensures MayHappenAll(l, [e], g) <==> e.gen == g && MayHappen(l, e)
  {
    assert [e][1..] == [];
  }

  /** The phases of the slots do not matter to a life as long as these do not change. */
  lemma SameLife(s: State, t: State, g: Gen)
    requires s.fds == t.fds && |s.slots| == |t.slots|
    requires g < |s.fds| && s.fds[g] < |s.slots| ==>
               var x, y := s.slots[s.fds[g]], t.slots[s.fds[g]];
               && x.gen == y.gen && x.recvSeq == y.recvSeq && SamePhase(s, t, x.phase, y.phase)
    ensures LifeIn(t, g) == LifeIn(s, g)
  {
  }

  predicate SamePhase(s: State, t: State, p: Phase, q: Phase) {
    || (p == q && (p.Stopping? ==> (s.loop.Offline? <==> t.loop.Offline?)))
    || ((p.Resetting? || p.Inserted? || p.Open?) && (q.Inserted? || q.Open? || (q.Stopping? && !t.loop.Offline?)))
    || (((p.Stopping? && s.loop.Offline?) || p.Draining?) && (q.Draining? || q.OnClosing?))
  }

  /** Whether the loop thread takes the step on behalf of its own descriptor. */
  predicate OfLoop(a: Action) {
    a.AcceptReset? || a.AcceptInsert? || a.Watch? || a.Refuse? || a.Eof? || a.MarkOffline? || a.Settle?
  }

  lemma QuietLoopStepLives(s: State, a: Action, g: Gen)
    requires Inv(s) && Enabled(s, a) && Added(s, a) == [] && OfLoop(a)
    ensures LifeIn(Apply(s, a), g) == LifeIn(s, g)
  {
    hide CountOk, MsgsOk, LoopMsgOk, LifeIn;
    if g < |s.fds| {
      assert SlotOk(s, s.fds[g]);
    }
    assert s.loop.Accepting? || s.loop.Accepted? || s.loop.Offline? || s.loop.HasMessage? ==> SlotOk(s, s.loop.fd);
    SameLife(s, Apply(s, a), g);
  }

  lemma QuietReleaseLives(s: State, a: Action, g: Gen)
    requires Inv(s) && Enabled(s, a) && (a.Finish? || a.SendRelease?) && FindsSame(s, a)
    ensures LifeIn(Apply(s, a), g) == LifeIn(s, g)
  {
    hide CountOk, MsgsOk, LoopMsgOk, LoopPhaseOk, LifeIn;
    if g < |s.fds| {
      assert SlotOk(s, s.fds[g]);
    }
    if a.Finish? {
      FlyingFacts(s, a.msg);
    } else {
      assert SlotOk(s, s.sender.fd);
    }
    SameLife(s, Apply(s, a), g);
  }

  lemma QuietOtherStepLives(s: State, a: Action, g: Gen)
    requires Inv(s) && Enabled(s, a) && Added(s, a) == [] && !OfLoop(a) && !a.Finish? && !a.SendRelease?
    ensures LifeIn(Apply(s, a), g) == LifeIn(s, g)
  {
    hide CountOk, MsgsOk, LoopMsgOk, SenderOk, LifeIn;
    if g < |s.fds| {
      assert SlotOk(s, s.fds[g]);
    }
    assert s.loop.HasMessage? ==> SlotOk(s, s.loop.fd);
    SameLife(s, Apply(s, a), g);
  }

  lemma QuietStepLives(s: State, a: Action, g: Gen)
    requires Inv(s) && Enabled(s, a) && Added(s, a) == [] && FindsSame(s, a)
    ensures LifeIn(Apply(s, a), g) == LifeIn(s, g)
  {
    if OfLoop(a) {
      QuietLoopStepLives(s, a, g);
    } else if a.Finish? || a.SendRelease? {
      QuietReleaseLives(s, a, g);
    } else {
      QuietOtherStepLives(s, a, g);
    }
  }

  lemma AcceptLives(s: State, a: Action, g: Gen)
    requires Inv(s) && Enabled(s, a) && (a.AcceptReset? || a.Enqueue?)
    ensures LifeIn(Apply(s, a), g) == LivedAll(LifeIn(s, g), Added(s, a), g)
  {
    hide CountOk, LivedAll, MsgsOk, SenderOk;
    StepFacts(s, a);
    if g < |s.fds| {
      assert SlotOk(s, s.fds[g]);
    }
    OneEvent(LifeIn(s, g), Added(s, a)[0], g);
  }

  lemma OfflineLives(s: State, a: Action, g: Gen)
    requires Inv(s) && Enabled(s, a) && a.MarkOffline?
    ensures LifeIn(Apply(s, a), g) == LivedAll(LifeIn(s, g), Added(s, a), g)
  {
    hide CountOk, LivedAll, MsgsOk, LoopMsgOk, LoopPhaseOk, SenderOk;
    StepFacts(s, a);
    if g < |s.fds| {
      assert SlotOk(s, s.fds[g]);
    }
    OneEvent(LifeIn(s, g), Added(s, a)[0], g);
  }

  lemma LoopStepLives(s: State, a: Action, g: Gen)
    requires Inv(s) && Enabled(s, a) && (a.LoopOnClose? || a.LoopClose?)
    ensures LifeIn(Apply(s, a), g) == LivedAll(LifeIn(s, g), Added(s, a), g)
  {
    hide CountOk, LivedAll, MsgsOk, LoopMsgOk, LoopPhaseOk, SenderOk;
    StepFacts(s, a);
    if g < |s.fds| {
      assert SlotOk(s, s.fds[g]);
    }
    OneEvent(LifeIn(s, g), Added(s, a)[0], g);
  }

  lemma LookupLives(s: State, a: Action, g: Gen)
    requires Inv(s) && Enabled(s, a) && a.Lookup?
    ensures LifeIn(Apply(s, a), g) == LivedAll(LifeIn(s, g), Added(s, a), g)
  {
    hide CountOk, LivedAll, MsgsOk, LoopMsgOk, LoopPhaseOk, SenderOk;
    StepFacts(s, a);
    OneEvent(LifeIn(s, g), Added(s, a)[0], g);
  }

  lemma HandlerStepLives(s: State, a: Action, g: Gen)
    requires Inv(s) && Enabled(s, a) && (a.HandlerOnClose? || a.HandlerClose?)
    ensures LifeIn(Apply(s, a), g) == LivedAll(LifeIn(s, g), Added(s, a), g)
  {
    hide CountOk, LivedAll, MsgsOk, LoopMsgOk, LoopPhaseOk, SenderOk;
    StepFacts(s, a);
    if g < |s.fds| {
      assert SlotOk(s, s.fds[g]);
    }
    OneEvent(LifeIn(s, g), Added(s, a)[0], g);
  }

  lemma SentLives(s: State, a: Action, g: Gen)
    requires Inv(s) && Enabled(s, a) && Added(s, a) != [] && a.Send?
    ensures LifeIn(Apply(s, a), g) == LivedAll(LifeIn(s, g), Added(s, a), g)
  {
    hide CountOk, LivedAll, MsgsOk, LoopMsgOk, LoopPhaseOk, SenderOk;
    StepFacts(s, a);
    OneEvent(LifeIn(s, g), Added(s, a)[0], g);
  }

  lemma SendOnCloseLives(s: State, a: Action, g: Gen)
    requires Inv(s) && Enabled(s, a) && a.SendOnClose?
    ensures LifeIn(Apply(s, a), g) == LivedAll(LifeIn(s, g), Added(s, a), g)
  {
    hide CountOk, LivedAll, MsgsOk, LoopMsgOk, LoopPhaseOk, SenderOk;
    StepFacts(s, a);
    if g < |s.fds| {
      assert SlotOk(s, s.fds[g]);
    }
    OneEvent(LifeIn(s, g), Added(s, a)[0], g);
  }

  lemma SendCloseLives(s: State, a: Action, g: Gen)
    requires Inv(s) && Enabled(s, a) && a.SendClose?
    ensures LifeIn(Apply(s, a), g) == LivedAll(LifeIn(s, g), Added(s, a), g)
  {
    hide CountOk, LivedAll, MsgsOk, LoopMsgOk, LoopPhaseOk, SenderOk;
    StepFacts(s, a);
    if g < |s.fds| {
      assert SlotOk(s, s.fds[g]);
    }
    OneEvent(LifeIn(s, g), Added(s, a)[0], g);
  }

  lemma LoudStepMayHappen(s: State, a: Action)
    requires Inv(s) && Enabled(s, a) && Added(s, a) != []
    ensures MayHappenAll(LifeIn(s, About(s, a)), Added(s, a), About(s, a))
  {
    hide CountOk, MayHappenAll, Apply;
    StepFacts(s, a);
    OneEvent(LifeIn(s, About(s, a)), Added(s, a)[0], About(s, a));
    assert MayHappen(LifeIn(s, About(s, a)), Added(s, a)[0]);
  }

  /** A step adds what may happen next in the life of its connection, and moves that life on. */
  lemma StepLives(s: State, a: Action, g: Gen)
    requires Inv(s) && Enabled(s, a) && FindsSame(s, a)
    ensures LifeIn(Apply(s, a), g) == LivedAll(LifeIn(s, g), Added(s, a), g)
    ensures MayHappenAll(LifeIn(s, About(s, a)), Added(s, a), About(s, a))
  {
    hide Inv, Enabled, LifeIn;
    if Added(s, a) == [] {
      QuietStepLives(s, a, g);
    } else {
      if a.AcceptReset? || a.Enqueue? {
        AcceptLives(s, a, g);
      } else if a.MarkOffline? {
        OfflineLives(s, a, g);
      } else if a.LoopOnClose? || a.LoopClose? {
        LoopStepLives(s, a, g);
      } else if a.Send? {
        SentLives(s, a, g);
      } else if a.SendOnClose? {
        SendOnCloseLives(s, a, g);
      } else if a.SendClose? {
        SendCloseLives(s, a, g);
      } else if a.Lookup? {
        LookupLives(s, a, g);
      } else {
        HandlerStepLives(s, a, g);
      }
      LoudStepMayHappen(s, a);
    }
  }

  lemma StepIsTraced(s: State, a: Action)
    requires Inv(s) && Enabled(s, a) && FindsSame(s, a) && Traced(s)
    ensures Traced(Apply(s, a))
  {
    hide Inv, Enabled, Apply, LifeIn, Added, FindsSame;
    LogGrows(s, a);
    StepLives(s, a, 0);
    forall g: Gen ensures LifeOf(Apply(s, a).log, g) == LifeIn(Apply(s, a), g) && Lawful(Apply(s, a).log) {
      Append(s.log, Added(s, a), About(s, a), g);
      StepLives(s, a, g);
    }
  }

  // ---------- Whole runs ----------

  lemma {:induction false} NoFlight(messages: set<Msg>, sockets: nat)
    ensures Inv(Initial(messages, sockets)) && Traced(Initial(messages, sockets))
  {
    var s := Initial(messages, sockets);
    forall f | 0 <= f < sockets ensures CountOk(s, f) {
      assert Flying(s, f) == {};
    }
  }

  /** Whenever the send thread decrements a counter, it finds the descriptor it saved. */
  predicate Undisturbed(s: State, run: seq<Action>)
    requires Possible(s, run)
    decreases |run|
  {
    run == [] || (FindsSame(s, run[0]) && Undisturbed(Apply(s, run[0]), run[1..]))
  }

  lemma {:induction false} RunKeepsInv(s: State, run: seq<Action>)
    requires Inv(s) && Traced(s) && Possible(s, run) && Undisturbed(s, run)
    ensures Inv(After(s, run)) && Traced(After(s, run))
    decreases |run|
  {
    hide Inv, Traced, Enabled, Apply, FindsSame;
    if run != [] {
      StepKeepsInv(s, run[0]);
      StepIsTraced(s, run[0]);
      RunKeepsInv(Apply(s, run[0]), run[1..]);
    }
  }

  /**
   * Every counter is the number of the messages that are queued or in hand for its descriptor, and one more where the
   * send thread still has to decrement it.
   */
  ghost predicate Exact(s: State) {
    forall f :: 0 <= f < |s.slots| ==> CountOk(s, f)
  }

  ghost predicate AlwaysExact(s: State, run: seq<Action>)
    requires Possible(s, run)
    decreases |run|
  {
    Exact(s) && (run == [] || AlwaysExact(Apply(s, run[0]), run[1..]))
  }

  /** The counters are exact all along a run of the threads if and only if the send thread is not disturbed in it. */
  lemma ExactWhenUndisturbed(messages: set<Msg>, sockets: nat, run: seq<Action>)
    requires Possible(Initial(messages, sockets), run)
    ensures AlwaysExact(Initial(messages, sockets), run) <==> Undisturbed(Initial(messages, sockets), run)
  {
    hide Initial, Inv, Traced;
    NoFlight(messages, sockets);
    ExactFrom(Initial(messages, sockets), run);
  }

  lemma {:induction false} ExactFrom(s: State, run: seq<Action>)
    requires Inv(s) && Possible(s, run)
    ensures AlwaysExact(s, run) <==> Undisturbed(s, run)
    decreases |run|
  {
    hide Inv, Enabled, Apply, FindsSame, Exact;
    InvIsExact(s);
    if run != [] {
      var t := Apply(s, run[0]);
      if FindsSame(s, run[0]) {
        StepKeepsInv(s, run[0]);
        ExactFrom(t, run[1..]);
      } else {
        DisturbedIsNotExact(s, run[0]);
      }
    }
  }

  lemma InvIsExact(s: State)
    requires Inv(s)
    ensures Exact(s)
  {
    hide CountOk;
  }

  lemma DisturbedIsNotExact(s: State, a: Action)
    requires Inv(s) && Enabled(s, a) && !FindsSame(s, a)
    ensures !Exact(Apply(s, a))
  {
    hide Inv, CountOk, Apply;
    ReleaseExact(s);
  }

  /** A state that some interleaving of the threads reaches without disturbing the send thread. */
  ghost predicate Reachable(s: State) {
    exists messages, sockets, run | Possible(Initial(messages, sockets), run) ::
      Undisturbed(Initial(messages, sockets), run) && s == After(Initial(messages, sockets), run)
  }

  lemma ReachableInv(s: State)
    requires Reachable(s)
    ensures Inv(s) && Traced(s)
  {
    hide Inv, Traced, Initial;
    var messages, sockets, run :|
      && Possible(Initial(messages, sockets), run)
      && Undisturbed(Initial(messages, sockets), run) && s == After(Initial(messages, sockets), run);
    NoFlight(messages, sockets);
    RunKeepsInv(Initial(messages, sockets), run);
  }

  /**
   * The counter of a descriptor is the number of its messages queued or in hand, and one more as long as the send
   * thread still has to decrement it.
   */
  lemma CounterIsExact(s: State, f: Fd)
    requires Reachable(s) && f < |s.slots|
    ensures s.slots[f].count == |Flying(s, f)| + Owing(s, f)
  {
    ReachableInv(s);
    assert CountOk(s, f);
  }

  /** Every connection lives as MayHappen says. */
  lemma EveryRunIsLawful(s: State)
    requires Reachable(s)
    ensures Lawful(s.log)
  {
    ReachableInv(s);
  }

  function Rank(l: Life): nat {
    match l
    case Unknown => 0
    case Here(_) => 1
    case Away => 2
    case Gone => 3
    case Over => 4
  }

  lemma {:induction false} LawfulPrefix(log: seq<Event>, n: nat)
    requires Lawful(log) && n <= |log|
    ensures Lawful(log[..n])
    decreases |log|
  {
    if n < |log| {
      LawfulPrefix(log[..|log| - 1], n);
      assert log[..|log| - 1][..n] == log[..n];
    } else {
      assert log[..n] == log;
    }
  }

  /** A life never goes back. */
  lemma {:induction false} RankGrows(log: seq<Event>, n: nat, g: Gen)
    requires Lawful(log) && n <= |log|
    ensures Rank(LifeOf(log[..n], g)) <= Rank(LifeOf(log, g))
    decreases |log|
  {
    if n == |log| {
      assert log[..n] == log;
    } else {
      RankGrows(log[..|log| - 1], n, g);
      assert log[..|log| - 1][..n] == log[..n];
    }
  }

  /** The event at i could happen after the events before it, and left its mark. */
  lemma EventAt(log: seq<Event>, i: nat)
    requires Lawful(log) && i < |log|
    ensures MayHappen(LifeOf(log[..i], log[i].gen), log[i])
    ensures LifeOf(log[..i + 1], log[i].gen) == Lived(LifeOf(log[..i], log[i].gen), log[i])
  {
    LawfulPrefix(log, i + 1);
    assert log[..i + 1][..i] == log[..i];
  }

  /**
   * OnClose comes at most once for a connection, finds its client, and nothing but close comes after it; close comes
   * at most once, and nothing comes after it.
   */
  lemma ClosedOnce(s: State, i: nat, j: nat)
    requires Reachable(s) && i < j < |s.log| && s.log[i].gen == s.log[j].gen
    ensures s.log[i].OnClose? ==> s.log[j].Close? && s.log[i].client == Some(s.log[i].gen)
    ensures !s.log[i].Close?
  {
    EveryRunIsLawful(s);
    EventAt(s.log, i);
    EventAt(s.log, j);
    LawfulPrefix(s.log, j);
    RankGrows(s.log[..j], i + 1, s.log[i].gen);
    assert s.log[..j][..i + 1] == s.log[..i + 1];
  }

  /** Every lookup finds the client of the very connection the message belongs to. */
  lemma LookupsSucceed(s: State, i: nat)
    requires Reachable(s) && i < |s.log| && !s.log[i].Accept? && !s.log[i].Receive? && !s.log[i].Close?
    ensures s.log[i].client == Some(s.log[i].gen)
  {
    EveryRunIsLawful(s);
    EventAt(s.log, i);
  }

  /** A client is in the map, and not deleted, as long as a message of its connection is queued or in hand. */
  lemma ClientOutlivesMessages(s: State, m: Msg)
    requires Reachable(s) && m in s.msgs && Counts(s.msgs[m].place)
    ensures Find(s, s.msgs[m].fd) == Some(s.msgs[m].gen) && s.msgs[m].fd in s.open
    ensures OnClose(s.msgs[m].gen, Some(s.msgs[m].gen)) !in s.log
  {
    ReachableInv(s);
    FlyingFacts(s, m);
    var g := s.msgs[m].gen;
    assert MsgOk(s, m) && SlotOk(s, s.msgs[m].fd);
    assert LifeIn(s, g).Here? || LifeIn(s, g).Away?;
    forall i | 0 <= i < |s.log| ensures s.log[i] != OnClose(g, Some(g)) {
      EventAt(s.log, i);
      RankGrows(s.log, i + 1, g);
    }
  }

  /** An answer goes to the connection of the packet it answers. */
  lemma AnswersGoBack(s: State, m: Msg, q: Msg)
    requires Reachable(s) && m in s.msgs && s.msgs[m].place in {Answer(q), AnswerCounted(q)}
    ensures q in s.msgs && s.msgs[q].place == Serving && s.msgs[m].fd == s.msgs[q].fd && s.msgs[m].gen == s.msgs[q].gen
  {
    hide CountOk;
    ReachableInv(s);
    assert MsgOk(s, m) && MsgOk(s, q);
  }

  /** No thread holds anything and nothing is queued. */
  predicate Quiet(s: State) {
    s.loop == Ready && s.sender == Waiting && forall m :: m in s.msgs ==> s.msgs[m].place == Idle
  }

  /**
   * No connection is forgotten: when the threads have nothing in hand, every accepted connection is either still being
   * read, with its client in the map, or closed.
   */
  lemma NothingIsForgotten(s: State, g: Gen)
    requires Reachable(s) && Quiet(s) && g < |s.fds|
    ensures s.fds[g] < |s.slots|
    ensures var f := s.fds[g];
            if Close(g) in s.log then s.clients.Values !! {g}
            else f in s.watched && f in s.open && Find(s, f) == Some(g)
  {
    hide SlotOk, CountOk, LoopMsgOk, LoopPhaseOk, SenderOk, MsgsOk, LifeIn, Quiet, Live;
    ReachableInv(s);
    var f := s.fds[g];
    QuietSlot(s, g);
    if !Current(s, g) {
      LastEvent(s.log, g);
    } else {
      forall i | 0 <= i < |s.log| ensures s.log[i] != Close(g) {
        EventAt(s.log, i);
        RankGrows(s.log, i + 1, g);
      }
    }
  }

  /** The slot of a connection then is open for it, or the connection is over and no client is its own. */
  lemma QuietSlot(s: State, g: Gen)
    requires Inv(s) && Quiet(s) && g < |s.fds|
    ensures s.fds[g] < |s.slots|
    ensures if Current(s, g) then
              var f := s.fds[g];
              f in s.watched && f in s.open && Find(s, f) == Some(g) && LifeIn(s, g).Here?
            else LifeIn(s, g) == Over && s.clients.Values !! {g}
  {
    hide CountOk;
    var f := s.fds[g];
    assert SlotOk(s, f);
    if !Current(s, g) {
      forall h | h in s.clients ensures s.clients[h] != g {
        assert SlotOk(s, h);
      }
    } else {
      QuietCount(s, f);
    }
  }

  lemma QuietCount(s: State, f: Fd)
    requires Inv(s) && Quiet(s) && f < |s.slots|
    ensures s.slots[f].count == 0
  {
    assert CountOk(s, f);
    assert Flying(s, f) == {};
  }

  lemma {:induction false} LastEvent(log: seq<Event>, g: Gen)
    requires Lawful(log) && LifeOf(log, g) == Over
    ensures Close(g) in log
    decreases |log|
  {
    if log != [] && log[|log| - 1] != Close(g) {
      LastEvent(log[..|log| - 1], g);
    }
  }
}
