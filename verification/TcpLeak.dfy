/**
 * What becomes of the two connections when the send thread decrements the wrong counter: the one that is counted too
 * low may be closed while it is in use, and the one that is counted too high is never closed.
 */
module TcpLeak {
  import opened Common
  import opened TcpProtocol
  import opened TcpInvariant
  import opened TcpRuns

  // ---------- Counted too low ----------

  /**
   * The send thread closes the connection the message belongs to now if and only if that waits for the last of its
   * messages, and there is one: this one is queued or in hand when OnClose is called.
   */
  lemma ClosesInUse(s: State)
    requires Inv(s) && Enabled(s, SendRelease) && s.msgs[s.sender.msg].fd != s.sender.fd
    ensures var t, h := Apply(s, SendRelease), s.msgs[s.sender.msg].fd;
            && (t.sender.SendClosing? <==> s.slots[h].phase.Draining? && |Flying(s, h)| == 1)
            && (t.sender.SendClosing? ==> t.sender.fd == h && Enabled(t, SendOnClose) && |Flying(t, h)| == 1)
  {
    var t, h := Apply(s, SendRelease), s.msgs[s.sender.msg].fd;
    assert SlotOk(s, h) && CountOk(s, h);
    OneMessage(s, t, None, h);
    if !Live(s.slots[h].phase) {
      NoneFlying(s, h);
    }
  }

  // ---------- Counted too high ----------

  predicate AtLoop(l: Loop, f: Fd) {
    (l.Accepting? || l.Accepted? || l.LoopClosing? || l.LoopErased?) && l.fd == f
  }

  /** The counter of a live connection is above the number of its messages, and nobody is about to close it. */
  ghost predicate Leaks(s: State, f: Fd) {
    && LoopMsgOk(s) && f < |s.slots| && f in s.open && Live(s.slots[f].phase)
    && s.slots[f].count > |Flying(s, f)| + Owing(s, f)
    && !AtLoop(s.loop, f) && s.sender != SendClosing(f) && s.sender != SendErased(f)
    && forall m :: m in s.msgs && s.msgs[m].fd == f ==> s.msgs[m].place != Closing && s.msgs[m].place != Erased
  }

  /** So it is for the connection the message was sent to, after the decrement of the other counter. */
  lemma LeaksAfter(s: State)
    requires Inv(s) && Enabled(s, SendRelease) && s.msgs[s.sender.msg].fd != s.sender.fd
    ensures Leaks(Apply(s, SendRelease), s.sender.fd)
    ensures s.sender.fd < |s.slots| && Apply(s, SendRelease).slots[s.sender.fd].gen == s.slots[s.sender.fd].gen
  {
    hide CountOk, Flying;
    ReleaseMiscounts(s);
    NobodyCloses(s, s.sender.fd);
    hide SlotOk, MsgOk, LoopPhaseOk;
    assert CountOk(s, s.sender.fd);
  }

  lemma NobodyCloses(s: State, f: Fd)
    requires Inv(s) && f < |s.slots| && Live(s.slots[f].phase)
    ensures f in s.open && !AtLoop(s.loop, f)
    ensures forall m :: m in s.msgs && s.msgs[m].fd == f ==> s.msgs[m].place != Closing && s.msgs[m].place != Erased
  {
    hide CountOk;
    assert SlotOk(s, f);
    forall m | m in s.msgs && s.msgs[m].fd == f ensures s.msgs[m].place != Closing && s.msgs[m].place != Erased {
      assert MsgOk(s, m);
    }
  }

  /** A message the decrement of which is not owed to f still has another descriptor. */
  predicate Spares(s: State, a: Action, f: Fd) {
    a.SendRelease? && s.sender.Releasing? && s.sender.msg in s.msgs && s.msgs[s.sender.msg].fd == f ==> s.sender.fd == f
  }

  predicate OfReading(a: Action) {
    a.Take? || a.Overload? || a.Again? || a.Count? || a.Enqueue? || a.Eof?
  }

  predicate OfLeaving(a: Action) {
    a.MarkOffline? || a.Settle? || a.LoopOnClose? || a.LoopClose? || a.Leave?
  }

  predicate OfAccepting(a: Action) {
    a.AcceptReset? || a.AcceptInsert? || a.Watch? || a.Refuse? || a.Readable?
  }

  predicate OfServing(a: Action) {
    a.Begin? || a.Lookup? || a.TakeAnswer? || a.CountAnswer? || a.EnqueueAnswer?
  }

  predicate OfReturning(a: Action) {
    a.Finish? || a.HandlerOnClose? || a.HandlerClose? || a.Return?
  }

  predicate OfSending(a: Action) {
    a.Send? || a.SendRelease? || a.SendOnClose? || a.SendClose?
  }

  /** The message a step moves. */
  function Moved(s: State, a: Action): Option<Msg> {
    match a
    case Take(m) => Some(m)
    case Overload(_) => if s.loop.HasMessage? then Some(s.loop.msg) else None
    case Again => if s.loop.HasMessage? then Some(s.loop.msg) else None
    case Count => if s.loop.HasMessage? then Some(s.loop.msg) else None
    case Enqueue(_) => if s.loop.Counted? then Some(s.loop.msg) else None
    case Eof => if s.loop.HasMessage? then Some(s.loop.msg) else None
    case Leave => if s.loop.Leaving? then s.loop.held else None
    case Begin(m) => Some(m)
    case Lookup(m) => Some(m)
    case TakeAnswer(_, m) => Some(m)
    case CountAnswer(m) => Some(m)
    case EnqueueAnswer(m) => Some(m)
    case Finish(m) => Some(m)
    case HandlerOnClose(m) => Some(m)
    case HandlerClose(m) => Some(m)
    case Return(m) => Some(m)
    case Send(m, _) => Some(m)
    case _ => None
  }

  predicate Moves(s: State, t: State, c: Option<Msg>) {
    s.msgs.Keys == t.msgs.Keys && forall m :: m in s.msgs && c != Some(m) ==> t.msgs[m] == s.msgs[m]
  }

  /** The loop thread is where it was, and has its messages. */
  predicate LeavesLoop(s: State, t: State, c: Option<Msg>) {
    && t.loop == s.loop && |t.slots| == |s.slots|
    && (c.Some? && c.value in s.msgs ==> s.msgs[c.value].place !in {Read, ReadCounted, Parting})
    && (c.Some? && Known(s, c.value) ==> Known(t, c.value))
  }

  lemma ReadingMoves(s: State, a: Action)
    requires Enabled(s, a) && OfReading(a)
    ensures Moves(s, Apply(s, a), Moved(s, a))
  {
  }

  lemma LoopMoves(s: State, a: Action)
    requires Enabled(s, a) && (OfAccepting(a) || OfLeaving(a))
    ensures Moves(s, Apply(s, a), Moved(s, a))
  {
  }

  lemma ServingMoves(s: State, a: Action)
    requires Enabled(s, a) && OfServing(a)
    ensures Moves(s, Apply(s, a), Moved(s, a)) && LeavesLoop(s, Apply(s, a), Moved(s, a))
  {
  }

  lemma ReturningMoves(s: State, a: Action)
    requires Enabled(s, a) && OfReturning(a)
    ensures Moves(s, Apply(s, a), Moved(s, a)) && LeavesLoop(s, Apply(s, a), Moved(s, a))
  {
  }

  lemma SendingMoves(s: State, a: Action)
    requires Enabled(s, a) && OfSending(a)
    ensures Moves(s, Apply(s, a), Moved(s, a)) && LeavesLoop(s, Apply(s, a), Moved(s, a))
  {
  }

  lemma OnlyMoved(s: State, a: Action)
    requires Enabled(s, a)
    ensures Moves(s, Apply(s, a), Moved(s, a))
    ensures OfServing(a) || OfReturning(a) || OfSending(a) ==> LeavesLoop(s, Apply(s, a), Moved(s, a))
  {
    hide Enabled, Apply, Moved, Moves, LeavesLoop;
    if OfReading(a) {
      ReadingMoves(s, a);
    } else if OfAccepting(a) || OfLeaving(a) {
      LoopMoves(s, a);
    } else if OfServing(a) {
      ServingMoves(s, a);
    } else if OfReturning(a) {
      ReturningMoves(s, a);
    } else {
      SendingMoves(s, a);
    }
  }

  lemma LoopMsgRead(s: State, a: Action)
    requires LoopMsgOk(s) && Enabled(s, a) && OfReading(a)
    ensures LoopMsgOk(Apply(s, a))
  {
  }

  lemma LoopMsgMoves(s: State, a: Action)
    requires LoopMsgOk(s) && Enabled(s, a) && (OfAccepting(a) || OfLeaving(a))
    ensures LoopMsgOk(Apply(s, a))
  {
  }

  lemma LoopMsgKept(s: State, t: State, c: Option<Msg>)
    requires LoopMsgOk(s) && Moves(s, t, c) && LeavesLoop(s, t, c)
    ensures LoopMsgOk(t)
  {
  }

  lemma LoopMsgStays(s: State, a: Action)
    requires LoopMsgOk(s) && Enabled(s, a)
    ensures LoopMsgOk(Apply(s, a))
  {
    hide LoopMsgOk, Enabled, Apply, Moves, LeavesLoop;
    if OfReading(a) {
      LoopMsgRead(s, a);
    } else if OfAccepting(a) || OfLeaving(a) {
      LoopMsgMoves(s, a);
    } else {
      OnlyMoved(s, a);
      LoopMsgKept(s, Apply(s, a), Moved(s, a));
    }
  }

  function Weight(s: State, c: Option<Msg>, f: Fd): nat {
    (if c.Some? && Flies(s, c.value, f) then 1 else 0) + Owing(s, f)
  }

  /** The slot stays live, and the counter goes down only where a message or a debt does. */
  ghost predicate Bears(s: State, t: State, c: Option<Msg>, f: Fd) {
    && f < |t.slots| == |s.slots| && t.slots[f].count - Weight(t, c, f) >= s.slots[f].count - Weight(s, c, f)
    && t.slots[f].gen == s.slots[f].gen && Live(t.slots[f].phase) && f in t.open
    && !AtLoop(t.loop, f) && t.sender != SendClosing(f) && t.sender != SendErased(f)
  }

  lemma ReadingBears(s: State, a: Action, f: Fd)
    requires Leaks(s, f) && Enabled(s, a) && OfReading(a)
    ensures Bears(s, Apply(s, a), Moved(s, a), f)
  {
    hide Flying;
  }

  lemma LoopBears(s: State, a: Action, f: Fd)
    requires Leaks(s, f) && Enabled(s, a) && (OfAccepting(a) || OfLeaving(a))
    ensures Bears(s, Apply(s, a), Moved(s, a), f)
  {
    hide Flying;
  }

  lemma ServingBears(s: State, a: Action, f: Fd)
    requires Leaks(s, f) && Enabled(s, a) && OfServing(a)
    ensures Bears(s, Apply(s, a), Moved(s, a), f)
  {
    hide Flying, LoopMsgOk;
  }

  lemma ReturningBears(s: State, a: Action, f: Fd)
    requires Leaks(s, f) && Enabled(s, a) && OfReturning(a)
    requires Moved(s, a).Some? && Flies(s, Moved(s, a).value, f) ==> s.slots[f].count > 1 + Owing(s, f)
    ensures Bears(s, Apply(s, a), Moved(s, a), f)
  {
    hide Flying, LoopMsgOk;
  }

  lemma SendingBears(s: State, a: Action, f: Fd)
    requires Leaks(s, f) && Enabled(s, a) && OfSending(a) && Spares(s, a, f)
    requires Moved(s, a).Some? && Flies(s, Moved(s, a).value, f) ==> s.slots[f].count > 1 + Owing(s, f)
    ensures Bears(s, Apply(s, a), Moved(s, a), f)
  {
    hide Flying, LoopMsgOk;
  }

  lemma MovedIsNotClosing(s: State, a: Action, f: Fd, m: Msg)
    requires Leaks(s, f) && Enabled(s, a) && Moved(s, a) == Some(m) && m in s.msgs && m in Apply(s, a).msgs
    requires Flies(s, m, f) ==> s.slots[f].count > 1 + Owing(s, f)
    ensures var x := Apply(s, a).msgs[m]; x.fd == f ==> x.place != Closing && x.place != Erased
  {
    hide Flying, LoopMsgOk;
  }

  lemma NoneClosing(s: State, a: Action, f: Fd)
    requires Leaks(s, f) && Enabled(s, a)
    requires Moved(s, a).Some? && Flies(s, Moved(s, a).value, f) ==> s.slots[f].count > 1 + Owing(s, f)
    ensures var t := Apply(s, a);
            forall m :: m in t.msgs && t.msgs[m].fd == f ==> t.msgs[m].place != Closing && t.msgs[m].place != Erased
  {
    hide Apply, Enabled, Moved, LoopMsgOk, LeavesLoop, Flying, Flies;
    OnlyMoved(s, a);
    if Moved(s, a).Some? && Moved(s, a).value in s.msgs {
      MovedIsNotClosing(s, a, f, Moved(s, a).value);
    }
  }

  /** No step of any thread closes the connection, as long as no other debt is paid with its counter. */
  lemma LeaksOn(s: State, a: Action, f: Fd)
    requires Leaks(s, f) && Enabled(s, a) && Spares(s, a, f)
    ensures Leaks(Apply(s, a), f) && Apply(s, a).slots[f].gen == s.slots[f].gen
  {
    hide Apply, Enabled, LoopMsgOk, Moved, Spares, AtLoop, LeavesLoop;
    var t, c := Apply(s, a), Moved(s, a);
    LoopMsgStays(s, a);
    OnlyMoved(s, a);
    OneMessage(s, t, c, f);
    if c.Some? && Flies(s, c.value, f) {
      assert c.value in Flying(s, f);
    }
    if OfReading(a) {
      ReadingBears(s, a, f);
    } else if OfAccepting(a) || OfLeaving(a) {
      LoopBears(s, a, f);
    } else if OfServing(a) {
      ServingBears(s, a, f);
    } else if OfReturning(a) {
      ReturningBears(s, a, f);
    } else {
      SendingBears(s, a, f);
    }
    NoneClosing(s, a, f);
  }

  predicate AlwaysSpares(s: State, run: seq<Action>, f: Fd)
    requires Possible(s, run)
    decreases |run|
  {
    run == [] || (Spares(s, run[0], f) && AlwaysSpares(Apply(s, run[0]), run[1..], f))
  }

  lemma {:induction false} LeaksAlong(s: State, run: seq<Action>, f: Fd)
    requires Leaks(s, f) && Possible(s, run) && AlwaysSpares(s, run, f)
    ensures Leaks(After(s, run), f) && After(s, run).slots[f].gen == s.slots[f].gen
    decreases |run|
  {
    hide Leaks, Enabled, Apply, Spares;
    LeaksHas(s, f);
    if run != [] {
      LeaksOn(s, run[0], f);
      LeaksHas(Apply(s, run[0]), f);
      LeaksAlong(Apply(s, run[0]), run[1..], f);
    }
    LeaksHas(After(s, run), f);
  }

  lemma LeaksHas(s: State, f: Fd)
    requires Leaks(s, f)
    ensures f < |s.slots| && f in s.open && Live(s.slots[f].phase) && s.slots[f].count > 0
  {
  }

  /**
   * After the decrement of a wrong counter the connection the message was sent to is never closed: however the run goes
   * on, its descriptor stays open and its counter positive, unless a later decrement goes wrong in its favour.
   */
  lemma NeverClosed(s: State, run: seq<Action>)
    requires Inv(s) && Enabled(s, SendRelease) && s.msgs[s.sender.msg].fd != s.sender.fd
    requires Possible(Apply(s, SendRelease), run) && AlwaysSpares(Apply(s, SendRelease), run, s.sender.fd)
    ensures var t, f := After(Apply(s, SendRelease), run), s.sender.fd;
            && f < |t.slots| && f in t.open && Live(t.slots[f].phase) && t.slots[f].count > 0
            && f < |s.slots| && t.slots[f].gen == s.slots[f].gen
  {
    hide Inv, Leaks, AlwaysSpares, Apply;
    LeaksAfter(s);
    LeaksHas(Apply(s, SendRelease), s.sender.fd);
    LeaksAlong(Apply(s, SendRelease), run, s.sender.fd);
    LeaksHas(After(Apply(s, SendRelease), run), s.sender.fd);
  }
}
