/** What every step of every thread of TcpProtocol keeps. */
module TcpInvariant {
  import opened Common
  import opened TcpProtocol

  // ---------- The invariant ----------

  /** The message is counted for its descriptor. */
  predicate Counts(p: Place) {
    p.ReadCounted? || p.Queued? || p.Handling? || p.Serving? || p.Missing? || p.AnswerCounted? || p.SendQueued?
  }

  /** The messages of a descriptor that are queued or in hand. */
  ghost function Flying(s: State, f: Fd): set<Msg> {
    set m | m in s.msgs && Counts(s.msgs[m].place) && s.msgs[m].fd == f
  }

  predicate Live(p: Phase) {
    p == Open || p == Stopping || p == Draining
  }

  /** A message in use belongs to the connection its descriptor stands for now. */
  predicate MsgOk(s: State, m: Msg)
    requires m in s.msgs
  {
    var x := s.msgs[m];
    (x.place != Idle && x.place != Returning && x.place != Parting ==>
       x.fd < |s.slots| && x.gen == s.slots[x.fd].gen &&
       match x.place
       case Read => s.loop == HasMessage(x.fd, m)
       case ReadCounted => s.loop == Counted(x.fd, m)
       case Closing => s.slots[x.fd].phase == OnClosing(Handler(m))
       case Erased => s.slots[x.fd].phase == Closable(Handler(m))
       case Missing => false
       case Answer(q) => AnswersOf(s, m, q)
       case AnswerCounted(q) => AnswersOf(s, m, q)
       case _ => true)
    && (x.place == Parting ==> x.fd < |s.slots| && Holds(s.loop, m))
    && (Bound(x.place) ==> Live(s.slots[x.fd].phase))
  }

  /** The message keeps its connection from being closed. */
  predicate Bound(p: Place) {
    Counts(p) || p.Read? || p.Answer?
  }

  predicate AnswersOf(s: State, m: Msg, q: Msg)
    requires m in s.msgs
  {
    q in s.msgs && s.msgs[q].place == Serving && s.msgs[q].fd == s.msgs[m].fd
  }

  /** Inside OnDisconnect. */
  predicate IsLeaving(l: Loop) {
    l.Dropping? || l.Offline? || l.LoopClosing? || l.LoopErased? || l.Leaving?
  }

  predicate Holds(l: Loop, m: Msg) {
    IsLeaving(l) && l.held == Some(m)
  }

  predicate LoopMsgOk(s: State) {
    && LoopKnown(s)
    && (s.loop.HasMessage? ==> s.msgs[s.loop.msg].place == Read && s.msgs[s.loop.msg].fd == s.loop.fd)
    && (s.loop.Counted? ==> s.msgs[s.loop.msg].place == ReadCounted && s.msgs[s.loop.msg].fd == s.loop.fd)
    && (IsLeaving(s.loop) && s.loop.held.Some? ==> s.msgs[s.loop.held.value].place == Parting)
  }

  /** The phase the loop thread's position implies for its descriptor. */
  predicate LoopPhaseOk(s: State) {
    LoopKnown(s) &&
    match s.loop
    case Ready => true
    case Accepting(f) => s.slots[f].phase == Resetting
    case Accepted(f) => s.slots[f].phase == Inserted
    case Reading(f) => s.slots[f].phase == Open
    case HasMessage(f, _) => s.slots[f].phase == Open
    case Counted(f, _) => s.slots[f].phase == Open
    case Dropping(f, _) => s.slots[f].phase == Stopping
    case Offline(f, _) => s.slots[f].phase == Stopping
    case LoopClosing(f, _) => s.slots[f].phase == OnClosing(LoopThread)
    case LoopErased(f, _) => s.slots[f].phase == Closable(LoopThread)
    case Leaving(_) => true
  }

  predicate SlotOk(s: State, f: Fd)
    requires f < |s.slots|
  {
    var x := s.slots[f];
    && (x.phase != Free <==> f in s.open)
    && (x.phase != Free ==> x.gen < |s.fds| && s.fds[x.gen] == f)
    && (f in s.clients <==> x.phase != Free && x.phase != Resetting && !x.phase.Closable?)
    && (f in s.clients ==> s.clients[f] == x.gen)
    && (f in s.watched <==> x.phase == Open)
    && (x.phase.Resetting? ==> s.loop == Accepting(f))
    && (x.phase.Inserted? ==> s.loop == Accepted(f))
    && (x.phase.Stopping? ==> (s.loop.Dropping? || s.loop.Offline?) && s.loop.fd == f)
    && (x.phase.Resetting? || x.phase.Inserted? || x.phase.Open? || x.phase.Stopping? ==> !x.closeRecv)
    && (x.phase.Draining? ==> x.closeRecv && x.count > 0)
    && (x.phase.OnClosing? ==>
          match x.phase.closer
          case LoopThread => s.loop.LoopClosing? && s.loop.fd == f
          case Handler(m) => At(s, m) == Some(Closing) && s.msgs[m].fd == f
          case SendThread => s.sender == SendClosing(f))
    && (x.phase.Closable? ==>
          match x.phase.closer
          case LoopThread => s.loop.LoopErased? && s.loop.fd == f
          case Handler(m) => At(s, m) == Some(Erased) && s.msgs[m].fd == f
          case SendThread => s.sender == SendErased(f))
  }

  /** The send thread has given its message back but has not yet decremented the counter. */
  function Owing(s: State, f: Fd): nat {
    if s.sender.Releasing? && s.sender.fd == f then 1 else 0
  }

  /** What the send thread has to do belongs to the connection its descriptor stands for. */
  predicate SenderOk(s: State) {
    match s.sender
    case Waiting => true
    case Releasing(m, f) => Known(s, m) && f < |s.slots| && Live(s.slots[f].phase)
    case SendClosing(f) => f < |s.slots| && s.slots[f].phase == OnClosing(SendThread)
    case SendErased(f) => f < |s.slots| && s.slots[f].phase == Closable(SendThread)
  }

  ghost predicate CountOk(s: State, f: Fd)
    requires f < |s.slots|
  {
    s.slots[f].count == |Flying(s, f)| + Owing(s, f)
  }

  /** The connection with this number is the one its descriptor stands for now. */
  predicate Current(s: State, g: Gen) {
    g < |s.fds| && s.fds[g] < |s.slots| && s.slots[s.fds[g]].phase != Free && s.slots[s.fds[g]].gen == g
  }

  ghost predicate SlotsOk(s: State) {
    && (forall f :: 0 <= f < |s.slots| ==> SlotOk(s, f) && CountOk(s, f))
    && (forall f :: f in s.open || f in s.clients || f in s.watched ==> f < |s.slots|)
    && (forall g :: 0 <= g < |s.fds| ==> s.fds[g] < |s.slots|)
  }

  ghost predicate MsgsOk(s: State) {
    forall m :: m in s.msgs ==> MsgOk(s, m)
  }

  ghost predicate Inv(s: State) {
    LoopMsgOk(s) && LoopPhaseOk(s) && SenderOk(s) && SlotsOk(s) && MsgsOk(s)
  }

  // ---------- Counts ----------

  predicate Flies(s: State, m: Msg, f: Fd) {
    m in s.msgs && Counts(s.msgs[m].place) && s.msgs[m].fd == f
  }

  lemma SetMove(a: set<Msg>, b: set<Msg>, c: Msg)
    requires a - {c} == b - {c}
    ensures |b| == |a| + (if c in b then 1 else 0) - (if c in a then 1 else 0)
  {
    assert c in a ==> a == (a - {c}) + {c};
    assert c in b ==> b == (b - {c}) + {c};
    assert c !in a ==> a == a - {c};
    assert c !in b ==> b == b - {c};
  }

  lemma OneMessage(s: State, t: State, c: Option<Msg>, f: Fd)
    requires s.msgs.Keys == t.msgs.Keys
    requires forall m :: m in s.msgs && c != Some(m) ==> t.msgs[m] == s.msgs[m]
    ensures |Flying(t, f)| == |Flying(s, f)| +
              if c == None then 0 else (if Flies(t, c.value, f) then 1 else 0) - (if Flies(s, c.value, f) then 1 else 0)
  {
    hide Counts;
    var a, b := Flying(s, f), Flying(t, f);
    forall m ensures m in a <==> Flies(s, m, f) ensures m in b <==> Flies(t, m, f) {}
    forall m | c != Some(m) ensures m in a <==> m in b {
      assert m in s.msgs <==> m in t.msgs;
    }
    hide Flying, Flies;
    if c == None {
      assert a == b;
    } else {
      assert a - {c.value} == b - {c.value};
      SetMove(a, b, c.value);
    }
  }

  lemma NoneFlying(s: State, f: Fd)
    requires Inv(s) && f < |s.slots| && !Live(s.slots[f].phase)
    ensures Flying(s, f) == {} && Owing(s, f) == 0
  {
    forall m | m in s.msgs ensures !Flies(s, m, f) {
      assert MsgOk(s, m);
    }
  }

  /** A counted message makes the counter positive. */
  lemma CountedOnce(s: State, m: Msg)
    requires m in s.msgs && s.msgs[m].fd < |s.slots| && CountOk(s, s.msgs[m].fd)
    ensures Counts(s.msgs[m].place) ==> s.slots[s.msgs[m].fd].count > 0
  {
    assert Counts(s.msgs[m].place) ==> m in Flying(s, s.msgs[m].fd);
  }

  /** What the send thread owes is counted, on top of the messages of its descriptor. */
  lemma OwedOnce(s: State, m: Msg)
    requires Inv(s) && s.sender.Releasing?
    ensures s.sender.fd < |s.slots| && Live(s.slots[s.sender.fd].phase) && s.slots[s.sender.fd].count > 0
    ensures Flies(s, m, s.sender.fd) ==> s.slots[s.sender.fd].count > 1
  {
    assert CountOk(s, s.sender.fd);
    assert Flies(s, m, s.sender.fd) ==> m in Flying(s, s.sender.fd);
  }

  lemma CountNotNegative(s: State, f: Fd)
    requires f < |s.slots| && CountOk(s, f)
    ensures s.slots[f].count >= 0
  {
  }

  /** Only message c changes, so the counters follow it. */
  lemma CountsFollow(s: State, t: State, c: Option<Msg>, f: Fd)
    requires Inv(s) && f < |s.slots| == |t.slots| && s.msgs.Keys == t.msgs.Keys
    requires forall m :: m in s.msgs && c != Some(m) ==> t.msgs[m] == s.msgs[m]
    requires var moved := if c == None then 0
               else (if Flies(t, c.value, f) then 1 else 0) - (if Flies(s, c.value, f) then 1 else 0);
             var moved := moved + Owing(t, f) - Owing(s, f);
             t.slots[f].count == s.slots[f].count + moved || (!Live(s.slots[f].phase) && t.slots[f].count == moved)
    ensures CountOk(t, f)
  {
    hide Flying, Flies;
    assert CountOk(s, f);
    OneMessage(s, t, c, f);
    if !Live(s.slots[f].phase) {
      NoneFlying(s, f);
    }
  }

  // ---------- Every step ----------

  lemma AcceptResetKeepsInv(s: State, f: Fd)
    requires Inv(s) && Enabled(s, AcceptReset(f))
    ensures Inv(Apply(s, AcceptReset(f)))
  {
    hide CountOk;
    var t := Apply(s, AcceptReset(f));
    assert SlotOk(s, f);
    forall f | 0 <= f < |t.slots| ensures SlotOk(t, f) && CountOk(t, f) {
      assert SlotOk(s, f);
      CountsFollow(s, t, None, f);
    }
    forall n | n in t.msgs ensures MsgOk(t, n) {
      assert MsgOk(s, n);
    }
  }

  lemma AcceptInsertKeepsInv(s: State)
    requires Inv(s) && Enabled(s, AcceptInsert)
    ensures Inv(Apply(s, AcceptInsert))
  {
    hide CountOk;
    var t := Apply(s, AcceptInsert);
    forall f | 0 <= f < |t.slots| ensures SlotOk(t, f) && CountOk(t, f) {
      assert SlotOk(s, f);
      CountsFollow(s, t, None, f);
    }
    forall n | n in t.msgs ensures MsgOk(t, n) {
      assert MsgOk(s, n);
    }
  }

  lemma WatchKeepsInv(s: State)
    requires Inv(s) && Enabled(s, Watch)
    ensures Inv(Apply(s, Watch))
  {
    hide CountOk;
    var t := Apply(s, Watch);
    forall f | 0 <= f < |t.slots| ensures SlotOk(t, f) && CountOk(t, f) {
      assert SlotOk(s, f);
      CountsFollow(s, t, None, f);
    }
    forall n | n in t.msgs ensures MsgOk(t, n) {
      assert MsgOk(s, n);
    }
  }

  lemma RefuseKeepsInv(s: State)
    requires Inv(s) && Enabled(s, Refuse)
    ensures Inv(Apply(s, Refuse))
  {
    hide CountOk;
    var t := Apply(s, Refuse);
    forall f | 0 <= f < |t.slots| ensures SlotOk(t, f) && CountOk(t, f) {
      assert SlotOk(s, f);
      CountsFollow(s, t, None, f);
    }
    forall n | n in t.msgs ensures MsgOk(t, n) {
      assert MsgOk(s, n);
    }
  }

  lemma ReadableKeepsInv(s: State, f: Fd)
    requires Inv(s) && Enabled(s, Readable(f))
    ensures Inv(Apply(s, Readable(f)))
  {
    hide CountOk;
    var t := Apply(s, Readable(f));
    assert SlotOk(s, f);
    forall f | 0 <= f < |t.slots| ensures SlotOk(t, f) && CountOk(t, f) {
      assert SlotOk(s, f);
      CountsFollow(s, t, None, f);
    }
    forall n | n in t.msgs ensures MsgOk(t, n) {
      assert MsgOk(s, n);
    }
  }

  lemma TakeKeepsSlots(s: State, m: Msg)
    requires Inv(s) && Enabled(s, Take(m))
    ensures SlotsOk(Apply(s, Take(m)))
  {
    hide CountOk, LoopMsgOk;
    var t := Apply(s, Take(m));
    assert MsgOk(s, m);
    forall f | 0 <= f < |t.slots| ensures SlotOk(t, f) && CountOk(t, f) {
      assert SlotOk(s, f);
      CountsFollow(s, t, Some(m), f);
    }
  }

  lemma TakeKeepsInv(s: State, m: Msg)
    requires Inv(s) && Enabled(s, Take(m))
    ensures Inv(Apply(s, Take(m)))
  {
    hide SlotsOk;
    var t := Apply(s, Take(m));
    assert MsgOk(s, m);
    TakeKeepsSlots(s, m);
    forall n | n in t.msgs ensures MsgOk(t, n) {
      assert MsgOk(s, n);
    }
  }

  lemma OverloadKeepsSlots(s: State, more: bool)
    requires Inv(s) && Enabled(s, Overload(more))
    ensures SlotsOk(Apply(s, Overload(more)))
  {
    hide CountOk;
    var t := Apply(s, Overload(more));
    assert MsgOk(s, s.loop.msg);
    forall f | 0 <= f < |t.slots| ensures SlotOk(t, f) && CountOk(t, f) {
      assert SlotOk(s, f);
      CountsFollow(s, t, Some(s.loop.msg), f);
    }
  }

  lemma OverloadKeepsInv(s: State, more: bool)
    requires Inv(s) && Enabled(s, Overload(more))
    ensures Inv(Apply(s, Overload(more)))
  {
    hide SlotsOk;
    var t := Apply(s, Overload(more));
    assert MsgOk(s, s.loop.msg);
    OverloadKeepsSlots(s, more);
    forall n | n in t.msgs ensures MsgOk(t, n) {
      assert MsgOk(s, n);
    }
  }

  lemma AgainKeepsInv(s: State)
    requires Inv(s) && Enabled(s, Again)
    ensures Inv(Apply(s, Again))
  {
    hide CountOk;
    var t := Apply(s, Again);
    assert MsgOk(s, s.loop.msg);
    forall f | 0 <= f < |t.slots| ensures SlotOk(t, f) && CountOk(t, f) {
      assert SlotOk(s, f);
      CountsFollow(s, t, Some(s.loop.msg), f);
    }
    forall n | n in t.msgs ensures MsgOk(t, n) {
      assert MsgOk(s, n);
    }
  }

  lemma CountKeepsSlots(s: State)
    requires Inv(s) && Enabled(s, Count)
    ensures SlotsOk(Apply(s, Count))
  {
    hide CountOk;
    var t := Apply(s, Count);
    assert MsgOk(s, s.loop.msg);
    forall f | 0 <= f < |t.slots| ensures SlotOk(t, f) && CountOk(t, f) {
      assert SlotOk(s, f);
      CountsFollow(s, t, Some(s.loop.msg), f);
    }
  }

  lemma CountKeepsInv(s: State)
    requires Inv(s) && Enabled(s, Count)
    ensures Inv(Apply(s, Count))
  {
    hide SlotsOk;
    var t := Apply(s, Count);
    assert MsgOk(s, s.loop.msg);
    CountKeepsSlots(s);
    forall n | n in t.msgs ensures MsgOk(t, n) {
      assert MsgOk(s, n);
    }
  }

  lemma EnqueueKeepsSlots(s: State, more: bool)
    requires Inv(s) && Enabled(s, Enqueue(more))
    ensures SlotsOk(Apply(s, Enqueue(more)))
  {
    hide CountOk;
    var t := Apply(s, Enqueue(more));
    assert MsgOk(s, s.loop.msg);
    forall f | 0 <= f < |t.slots| ensures SlotOk(t, f) && CountOk(t, f) {
      assert SlotOk(s, f);
      CountsFollow(s, t, Some(s.loop.msg), f);
    }
  }

  lemma EnqueueKeepsInv(s: State, more: bool)
    requires Inv(s) && Enabled(s, Enqueue(more))
    ensures Inv(Apply(s, Enqueue(more)))
  {
    hide SlotsOk;
    var t := Apply(s, Enqueue(more));
    assert MsgOk(s, s.loop.msg);
    EnqueueKeepsSlots(s, more);
    forall n | n in t.msgs ensures MsgOk(t, n) {
      assert MsgOk(s, n);
    }
  }

  lemma EofKeepsSlots(s: State)
    requires Inv(s) && Enabled(s, Eof)
    ensures SlotsOk(Apply(s, Eof))
  {
    hide CountOk;
    var t := Apply(s, Eof);
    assert MsgOk(s, s.loop.msg);
    forall f | 0 <= f < |t.slots| ensures SlotOk(t, f) && CountOk(t, f) {
      assert SlotOk(s, f);
      CountsFollow(s, t, Some(s.loop.msg), f);
    }
  }

  lemma EofKeepsInv(s: State)
    requires Inv(s) && Enabled(s, Eof)
    ensures Inv(Apply(s, Eof))
  {
    hide SlotsOk;
    var t := Apply(s, Eof);
    assert MsgOk(s, s.loop.msg);
    EofKeepsSlots(s);
    forall n | n in t.msgs ensures MsgOk(t, n) {
      assert MsgOk(s, n);
    }
  }

  lemma MarkOfflineKeepsInv(s: State)
    requires Inv(s) && Enabled(s, MarkOffline)
    ensures Inv(Apply(s, MarkOffline))
  {
    hide CountOk;
    var t := Apply(s, MarkOffline);
    forall f | 0 <= f < |t.slots| ensures SlotOk(t, f) && CountOk(t, f) {
      assert SlotOk(s, f);
      CountsFollow(s, t, None, f);
    }
    forall n | n in t.msgs ensures MsgOk(t, n) {
      assert MsgOk(s, n);
    }
  }

  lemma SettleKeepsSlot(s: State, f: Fd)
    requires Inv(s) && Enabled(s, Settle) && f < |s.slots|
    ensures SlotOk(Apply(s, Settle), f)
  {
    hide CountOk, MsgsOk, LoopMsgOk, SenderOk;
    assert SlotOk(s, f);
    CountNotNegative(s, f);
  }

  lemma SettleKeepsCount(s: State, f: Fd)
    requires Inv(s) && Enabled(s, Settle) && f < |s.slots|
    ensures CountOk(Apply(s, Settle), f)
  {
    hide CountOk, SlotOk, MsgsOk, LoopMsgOk, LoopPhaseOk;
    CountsFollow(s, Apply(s, Settle), None, f);
  }

  lemma SettleKeepsSlots(s: State)
    requires Inv(s) && Enabled(s, Settle)
    ensures SlotsOk(Apply(s, Settle))
  {
    hide CountOk, SlotOk, MsgsOk, LoopMsgOk, LoopPhaseOk;
    var t := Apply(s, Settle);
    forall f | 0 <= f < |t.slots| ensures SlotOk(t, f) && CountOk(t, f) {
      SettleKeepsSlot(s, f);
      SettleKeepsCount(s, f);
    }
  }

  lemma SettleKeepsMsg(s: State, n: Msg)
    requires Inv(s) && Enabled(s, Settle) && n in s.msgs
    ensures MsgOk(Apply(s, Settle), n)
  {
    hide CountOk, SenderOk;
    assert SlotOk(s, s.loop.fd);
    assert MsgOk(s, n);
    if s.msgs[n].place.Answer? {
      assert MsgOk(s, s.msgs[n].place.to);
      CountedOnce(s, s.msgs[n].place.to);
    }
    if s.msgs[n].fd < |s.slots| {
      CountedOnce(s, n);
    }
  }

  lemma SettleKeepsThreads(s: State)
    requires Inv(s) && Enabled(s, Settle)
    ensures LoopMsgOk(Apply(s, Settle)) && LoopPhaseOk(Apply(s, Settle)) && SenderOk(Apply(s, Settle))
  {
    hide CountOk;
    assert SlotOk(s, s.loop.fd);
    if s.sender.Releasing? {
      OwedOnce(s, 0);
    }
  }

  lemma SettleKeepsInv(s: State)
    requires Inv(s) && Enabled(s, Settle)
    ensures Inv(Apply(s, Settle))
  {
    hide CountOk, SlotOk, MsgOk, LoopMsgOk, LoopPhaseOk, SenderOk;
    SettleKeepsSlots(s);
    SettleKeepsThreads(s);
    var t := Apply(s, Settle);
    forall n | n in t.msgs ensures MsgOk(t, n) {
      SettleKeepsMsg(s, n);
    }
  }

  lemma LoopOnCloseKeepsSlots(s: State)
    requires Inv(s) && Enabled(s, LoopOnClose)
    ensures SlotsOk(Apply(s, LoopOnClose))
  {
    hide CountOk;
    var t := Apply(s, LoopOnClose);
    forall f | 0 <= f < |t.slots| ensures SlotOk(t, f) && CountOk(t, f) {
      assert SlotOk(s, f);
      CountsFollow(s, t, None, f);
    }
  }

  lemma LoopOnCloseKeepsInv(s: State)
    requires Inv(s) && Enabled(s, LoopOnClose)
    ensures Inv(Apply(s, LoopOnClose))
  {
    hide SlotsOk;
    var t := Apply(s, LoopOnClose);
    LoopOnCloseKeepsSlots(s);
    forall n | n in t.msgs ensures MsgOk(t, n) {
      assert MsgOk(s, n);
    }
  }

  lemma LoopCloseKeepsSlots(s: State)
    requires Inv(s) && Enabled(s, LoopClose)
    ensures SlotsOk(Apply(s, LoopClose))
  {
    hide CountOk, MsgsOk;
    var t := Apply(s, LoopClose);
    forall f | 0 <= f < |t.slots| ensures SlotOk(t, f) && CountOk(t, f) {
      assert SlotOk(s, f);
      CountsFollow(s, t, None, f);
    }
  }

  lemma LoopCloseKeepsInv(s: State)
    requires Inv(s) && Enabled(s, LoopClose)
    ensures Inv(Apply(s, LoopClose))
  {
    hide SlotsOk;
    var t := Apply(s, LoopClose);
    LoopCloseKeepsSlots(s);
    forall n | n in t.msgs ensures MsgOk(t, n) {
      assert MsgOk(s, n);
    }
  }

  lemma LeaveKeepsSlots(s: State)
    requires Inv(s) && Enabled(s, Leave)
    ensures SlotsOk(Apply(s, Leave))
  {
    hide CountOk;
    var t := Apply(s, Leave);
    if s.loop.held.Some? {
      assert MsgOk(s, s.loop.held.value);
    }
    forall f | 0 <= f < |t.slots| ensures SlotOk(t, f) && CountOk(t, f) {
      assert SlotOk(s, f);
      CountsFollow(s, t, s.loop.held, f);
    }
  }

  lemma LeaveKeepsInv(s: State)
    requires Inv(s) && Enabled(s, Leave)
    ensures Inv(Apply(s, Leave))
  {
    hide SlotsOk;
    var t := Apply(s, Leave);
    if s.loop.held.Some? {
      assert MsgOk(s, s.loop.held.value);
    }
    LeaveKeepsSlots(s);
    forall n | n in t.msgs ensures MsgOk(t, n) {
      assert MsgOk(s, n);
    }
  }

  lemma BeginKeepsSlots(s: State, m: Msg)
    requires Inv(s) && Enabled(s, Begin(m))
    ensures SlotsOk(Apply(s, Begin(m)))
  {
    hide CountOk;
    var t := Apply(s, Begin(m));
    assert MsgOk(s, m);
    forall f | 0 <= f < |t.slots| ensures SlotOk(t, f) && CountOk(t, f) {
      assert SlotOk(s, f);
      CountsFollow(s, t, Some(m), f);
    }
  }

  lemma BeginKeepsInv(s: State, m: Msg)
    requires Inv(s) && Enabled(s, Begin(m))
    ensures Inv(Apply(s, Begin(m)))
  {
    hide SlotsOk;
    var t := Apply(s, Begin(m));
    assert MsgOk(s, m);
    BeginKeepsSlots(s, m);
    forall n | n in t.msgs ensures MsgOk(t, n) {
      assert MsgOk(s, n);
    }
  }

  lemma LookupKeepsSlots(s: State, m: Msg)
    requires Inv(s) && Enabled(s, Lookup(m))
    ensures SlotsOk(Apply(s, Lookup(m)))
  {
    hide CountOk, LoopMsgOk, LoopPhaseOk;
    var t := Apply(s, Lookup(m));
    assert MsgOk(s, m);
    forall f | 0 <= f < |t.slots| ensures SlotOk(t, f) && CountOk(t, f) {
      assert SlotOk(s, f);
      CountsFollow(s, t, Some(m), f);
    }
  }

  lemma LookupKeepsInv(s: State, m: Msg)
    requires Inv(s) && Enabled(s, Lookup(m))
    ensures Inv(Apply(s, Lookup(m)))
  {
    hide CountOk;
    var t := Apply(s, Lookup(m));
    assert MsgOk(s, m);
    assert SlotOk(s, s.msgs[m].fd);
    LookupKeepsSlots(s, m);
    hide SlotsOk;
    forall n | n in t.msgs ensures MsgOk(t, n) {
      assert MsgOk(s, n);
    }
  }

  lemma TakeAnswerKeepsSlots(s: State, q: Msg, m: Msg)
    requires Inv(s) && Enabled(s, TakeAnswer(q, m))
    ensures SlotsOk(Apply(s, TakeAnswer(q, m)))
  {
    hide CountOk;
    var t := Apply(s, TakeAnswer(q, m));
    assert MsgOk(s, m);
    forall f | 0 <= f < |t.slots| ensures SlotOk(t, f) && CountOk(t, f) {
      assert SlotOk(s, f);
      CountsFollow(s, t, Some(m), f);
    }
  }

  lemma TakeAnswerKeepsInv(s: State, q: Msg, m: Msg)
    requires Inv(s) && Enabled(s, TakeAnswer(q, m))
    ensures Inv(Apply(s, TakeAnswer(q, m)))
  {
    hide SlotsOk;
    var t := Apply(s, TakeAnswer(q, m));
    assert MsgOk(s, m);
    TakeAnswerKeepsSlots(s, q, m);
    forall n | n in t.msgs ensures MsgOk(t, n) {
      assert MsgOk(s, n);
    }
  }

  lemma CountAnswerKeepsSlots(s: State, m: Msg)
    requires Inv(s) && Enabled(s, CountAnswer(m))
    ensures SlotsOk(Apply(s, CountAnswer(m)))
  {
    hide CountOk, LoopMsgOk, LoopPhaseOk;
    var t := Apply(s, CountAnswer(m));
    assert MsgOk(s, m);
    forall f | 0 <= f < |t.slots| ensures SlotOk(t, f) && CountOk(t, f) {
      assert SlotOk(s, f);
      CountsFollow(s, t, Some(m), f);
    }
  }

  lemma CountAnswerKeepsThreads(s: State, m: Msg)
    requires Inv(s) && Enabled(s, CountAnswer(m))
    ensures var t := Apply(s, CountAnswer(m)); LoopMsgOk(t) && LoopPhaseOk(t) && SenderOk(t)
  {
    hide SlotsOk;
    assert MsgOk(s, m);
  }

  lemma CountAnswerKeepsMsg(s: State, m: Msg, n: Msg)
    requires Inv(s) && Enabled(s, CountAnswer(m)) && n in s.msgs
    ensures MsgOk(Apply(s, CountAnswer(m)), n)
  {
    hide SlotsOk, LoopMsgOk, LoopPhaseOk, SenderOk;
    assert MsgOk(s, m) && MsgOk(s, n);
  }

  lemma CountAnswerKeepsInv(s: State, m: Msg)
    requires Inv(s) && Enabled(s, CountAnswer(m))
    ensures Inv(Apply(s, CountAnswer(m)))
  {
    hide SlotsOk, MsgOk, LoopMsgOk, LoopPhaseOk, SenderOk;
    CountAnswerKeepsSlots(s, m);
    CountAnswerKeepsThreads(s, m);
    var t := Apply(s, CountAnswer(m));
    forall n | n in t.msgs ensures MsgOk(t, n) {
      CountAnswerKeepsMsg(s, m, n);
    }
  }

  lemma EnqueueAnswerKeepsSlots(s: State, m: Msg)
    requires Inv(s) && Enabled(s, EnqueueAnswer(m))
    ensures SlotsOk(Apply(s, EnqueueAnswer(m)))
  {
    hide CountOk;
    var t := Apply(s, EnqueueAnswer(m));
    assert MsgOk(s, m);
    forall f | 0 <= f < |t.slots| ensures SlotOk(t, f) && CountOk(t, f) {
      assert SlotOk(s, f);
      CountsFollow(s, t, Some(m), f);
    }
  }

  lemma EnqueueAnswerKeepsThreads(s: State, m: Msg)
    requires Inv(s) && Enabled(s, EnqueueAnswer(m))
    ensures var t := Apply(s, EnqueueAnswer(m)); LoopMsgOk(t) && LoopPhaseOk(t) && SenderOk(t)
  {
    hide SlotsOk;
    assert MsgOk(s, m);
  }

  lemma EnqueueAnswerKeepsMsg(s: State, m: Msg, n: Msg)
    requires Inv(s) && Enabled(s, EnqueueAnswer(m)) && n in s.msgs
    ensures MsgOk(Apply(s, EnqueueAnswer(m)), n)
  {
    hide SlotsOk, LoopMsgOk, LoopPhaseOk, SenderOk;
    assert MsgOk(s, m) && MsgOk(s, n);
  }

  lemma EnqueueAnswerKeepsInv(s: State, m: Msg)
    requires Inv(s) && Enabled(s, EnqueueAnswer(m))
    ensures Inv(Apply(s, EnqueueAnswer(m)))
  {
    hide SlotsOk, MsgOk, LoopMsgOk, LoopPhaseOk, SenderOk;
    EnqueueAnswerKeepsSlots(s, m);
    EnqueueAnswerKeepsThreads(s, m);
    var t := Apply(s, EnqueueAnswer(m));
    forall n | n in t.msgs ensures MsgOk(t, n) {
      EnqueueAnswerKeepsMsg(s, m, n);
    }
  }

  /** A counted message keeps the connection alive and its client in the map. */
  lemma FlyingFacts(s: State, m: Msg)
    requires Inv(s) && m in s.msgs && Counts(s.msgs[m].place)
    ensures var f := s.msgs[m].fd;
            && f < |s.slots| && Live(s.slots[f].phase) && s.slots[f].count > 0
            && (s.slots[f].closeRecv <==> s.slots[f].phase.Draining?)
            && Find(s, f) == Some(s.msgs[m].gen) && f in s.open
  {
    assert MsgOk(s, m);
    assert SlotOk(s, s.msgs[m].fd);
    CountedOnce(s, m);
  }

  lemma FinishKeepsSlots(s: State, m: Msg)
    requires Inv(s) && Enabled(s, Finish(m))
    ensures SlotsOk(Apply(s, Finish(m)))
  {
    hide CountOk;
    var t := Apply(s, Finish(m));
    FlyingFacts(s, m);
    forall f | 0 <= f < |t.slots| ensures SlotOk(t, f) && CountOk(t, f) {
      assert SlotOk(s, f);
      CountsFollow(s, t, Some(m), f);
    }
  }

  lemma DrainedIsNotRead(s: State, f: Fd)
    requires Inv(s) && f < |s.slots| && s.slots[f].phase.Draining?
    ensures !(s.loop.HasMessage? && s.loop.fd == f)
  {
  }

  lemma FinishKeepsThreads(s: State, m: Msg)
    requires Inv(s) && Enabled(s, Finish(m))
    ensures LoopMsgOk(Apply(s, Finish(m))) && LoopPhaseOk(Apply(s, Finish(m))) && SenderOk(Apply(s, Finish(m)))
  {
    hide CountOk, SlotOk;
    FlyingFacts(s, m);
    if s.sender.Releasing? {
      OwedOnce(s, m);
    }
  }

  lemma FinishKeepsMsg(s: State, m: Msg, n: Msg)
    requires Inv(s) && Enabled(s, Finish(m)) && n in s.msgs
    ensures MsgOk(Apply(s, Finish(m)), n)
  {
    hide CountOk, SlotOk, LoopPhaseOk, SenderOk;
    var t := Apply(s, Finish(m));
    FinishKeepsSlots(s, m);
    FlyingFacts(s, m);
    if s.slots[s.msgs[m].fd].phase.Draining? {
      DrainedIsNotRead(s, s.msgs[m].fd);
    }
    assert MsgOk(s, n);
    if s.msgs[n].place.Answer? {
      CountedOnce(t, s.msgs[n].place.to);
    }
    if t.msgs[n].fd < |t.slots| {
      CountedOnce(t, n);
    }
  }

  lemma FinishKeepsInv(s: State, m: Msg)
    requires Inv(s) && Enabled(s, Finish(m))
    ensures Inv(Apply(s, Finish(m)))
  {
    hide CountOk, SlotOk, MsgOk, LoopMsgOk, LoopPhaseOk, SenderOk;
    FinishKeepsSlots(s, m);
    FinishKeepsThreads(s, m);
    var t := Apply(s, Finish(m));
    forall n | n in t.msgs ensures MsgOk(t, n) {
      FinishKeepsMsg(s, m, n);
    }
  }

  lemma HandlerOnCloseKeepsSlots(s: State, m: Msg)
    requires Inv(s) && Enabled(s, HandlerOnClose(m))
    ensures SlotsOk(Apply(s, HandlerOnClose(m)))
  {
    hide CountOk;
    var t := Apply(s, HandlerOnClose(m));
    assert MsgOk(s, m);
    forall f | 0 <= f < |t.slots| ensures SlotOk(t, f) && CountOk(t, f) {
      assert SlotOk(s, f);
      CountsFollow(s, t, Some(m), f);
    }
  }

  lemma HandlerOnCloseKeepsThreads(s: State, m: Msg)
    requires Inv(s) && Enabled(s, HandlerOnClose(m))
    ensures var t := Apply(s, HandlerOnClose(m)); LoopMsgOk(t) && LoopPhaseOk(t) && SenderOk(t)
  {
    hide SlotsOk;
    assert MsgOk(s, m);
  }

  lemma HandlerOnCloseKeepsOwn(s: State, m: Msg)
    requires Inv(s) && Enabled(s, HandlerOnClose(m))
    ensures MsgOk(Apply(s, HandlerOnClose(m)), m)
  {
    hide SlotsOk, LoopMsgOk, LoopPhaseOk, SenderOk;
    assert MsgOk(s, m);
  }

  lemma HandlerOnCloseKeepsMsg(s: State, m: Msg, n: Msg)
    requires Inv(s) && Enabled(s, HandlerOnClose(m)) && n in s.msgs && n != m
    ensures MsgOk(Apply(s, HandlerOnClose(m)), n)
  {
    hide SlotsOk, LoopMsgOk, LoopPhaseOk, SenderOk;
    var t, f := Apply(s, HandlerOnClose(m)), s.msgs[m].fd;
    assert MsgOk(s, m) && s.slots[f].phase == OnClosing(Handler(m));
    assert MsgOk(s, n);
    assert t.loop == s.loop && t.msgs == s.msgs[m := t.msgs[m]] && t.msgs[m].place != Serving;
    assert t.slots == s.slots[f := t.slots[f]];
    hide Apply, Enabled, Inv;
  }

  lemma HandlerOnCloseKeepsInv(s: State, m: Msg)
    requires Inv(s) && Enabled(s, HandlerOnClose(m))
    ensures Inv(Apply(s, HandlerOnClose(m)))
  {
    hide SlotsOk, MsgOk, LoopMsgOk, LoopPhaseOk, SenderOk;
    HandlerOnCloseKeepsSlots(s, m);
    HandlerOnCloseKeepsThreads(s, m);
    HandlerOnCloseKeepsOwn(s, m);
    var t := Apply(s, HandlerOnClose(m));
    forall n | n in t.msgs ensures MsgOk(t, n) {
      if n != m {
        HandlerOnCloseKeepsMsg(s, m, n);
      }
    }
  }

  lemma HandlerCloseKeepsSlots(s: State, m: Msg)
    requires Inv(s) && Enabled(s, HandlerClose(m))
    ensures SlotsOk(Apply(s, HandlerClose(m)))
  {
    hide CountOk;
    var t := Apply(s, HandlerClose(m));
    assert MsgOk(s, m);
    forall f | 0 <= f < |t.slots| ensures SlotOk(t, f) && CountOk(t, f) {
      assert SlotOk(s, f);
      CountsFollow(s, t, Some(m), f);
    }
  }

  lemma HandlerCloseKeepsThreads(s: State, m: Msg)
    requires Inv(s) && Enabled(s, HandlerClose(m))
    ensures var t := Apply(s, HandlerClose(m)); LoopMsgOk(t) && LoopPhaseOk(t) && SenderOk(t)
  {
    hide SlotsOk;
    assert MsgOk(s, m);
  }

  lemma HandlerCloseKeepsOwn(s: State, m: Msg)
    requires Inv(s) && Enabled(s, HandlerClose(m))
    ensures MsgOk(Apply(s, HandlerClose(m)), m)
  {
    hide SlotsOk, LoopMsgOk, LoopPhaseOk, SenderOk;
    assert MsgOk(s, m);
  }

  lemma HandlerCloseKeepsMsg(s: State, m: Msg, n: Msg)
    requires Inv(s) && Enabled(s, HandlerClose(m)) && n in s.msgs && n != m
    ensures MsgOk(Apply(s, HandlerClose(m)), n)
  {
    hide SlotsOk, LoopMsgOk, LoopPhaseOk, SenderOk;
    var t, f := Apply(s, HandlerClose(m)), s.msgs[m].fd;
    assert MsgOk(s, m) && s.slots[f].phase == Closable(Handler(m));
    assert MsgOk(s, n);
    assert t.loop == s.loop && t.msgs == s.msgs[m := t.msgs[m]] && t.msgs[m].place != Serving;
    assert t.slots == s.slots[f := t.slots[f]];
    hide Apply, Enabled, Inv;
  }

  lemma HandlerCloseKeepsInv(s: State, m: Msg)
    requires Inv(s) && Enabled(s, HandlerClose(m))
    ensures Inv(Apply(s, HandlerClose(m)))
  {
    hide SlotsOk, MsgOk, LoopMsgOk, LoopPhaseOk, SenderOk;
    HandlerCloseKeepsSlots(s, m);
    HandlerCloseKeepsThreads(s, m);
    HandlerCloseKeepsOwn(s, m);
    var t := Apply(s, HandlerClose(m));
    forall n | n in t.msgs ensures MsgOk(t, n) {
      if n != m {
        HandlerCloseKeepsMsg(s, m, n);
      }
    }
  }

  lemma ReturnKeepsSlots(s: State, m: Msg)
    requires Inv(s) && Enabled(s, Return(m))
    ensures SlotsOk(Apply(s, Return(m)))
  {
    hide CountOk, LoopMsgOk, LoopPhaseOk;
    var t := Apply(s, Return(m));
    assert MsgOk(s, m);
    forall f | 0 <= f < |t.slots| ensures SlotOk(t, f) && CountOk(t, f) {
      assert SlotOk(s, f);
      CountsFollow(s, t, Some(m), f);
    }
  }

  lemma ReturnKeepsInv(s: State, m: Msg)
    requires Inv(s) && Enabled(s, Return(m))
    ensures Inv(Apply(s, Return(m)))
  {
    hide SlotsOk;
    var t := Apply(s, Return(m));
    assert MsgOk(s, m);
    ReturnKeepsSlots(s, m);
    forall n | n in t.msgs ensures MsgOk(t, n) {
      assert MsgOk(s, n);
    }
  }

  lemma SendKeepsSlots(s: State, m: Msg, sent: bool)
    requires Inv(s) && Enabled(s, Send(m, sent))
    ensures SlotsOk(Apply(s, Send(m, sent)))
  {
    hide CountOk, LoopMsgOk, LoopPhaseOk;
    var t := Apply(s, Send(m, sent));
    FlyingFacts(s, m);
    forall f | 0 <= f < |t.slots| ensures SlotOk(t, f) && CountOk(t, f) {
      assert SlotOk(s, f);
      CountsFollow(s, t, Some(m), f);
    }
  }

  lemma SendKeepsInv(s: State, m: Msg, sent: bool)
    requires Inv(s) && Enabled(s, Send(m, sent))
    ensures Inv(Apply(s, Send(m, sent)))
  {
    hide CountOk, SlotOk;
    var t := Apply(s, Send(m, sent));
    SendKeepsSlots(s, m, sent);
    FlyingFacts(s, m);
    forall n | n in t.msgs ensures MsgOk(t, n) {
      assert MsgOk(s, n);
    }
  }

  /** If the step is the decrement of the send thread, the message still has the descriptor it was sent to. */
  predicate FindsSame(s: State, a: Action) {
    a.SendRelease? && s.sender.Releasing? && s.sender.msg in s.msgs ==> s.msgs[s.sender.msg].fd == s.sender.fd
  }

  lemma SendReleaseKeepsSlots(s: State)
    requires Inv(s) && Enabled(s, SendRelease) && FindsSame(s, SendRelease)
    ensures SlotsOk(Apply(s, SendRelease))
  {
    hide CountOk, LoopMsgOk, LoopPhaseOk;
    var t := Apply(s, SendRelease);
    OwedOnce(s, s.sender.msg);
    forall f | 0 <= f < |t.slots| ensures SlotOk(t, f) && CountOk(t, f) {
      assert SlotOk(s, f);
      CountsFollow(s, t, None, f);
    }
  }

  lemma SendReleaseKeepsInv(s: State)
    requires Inv(s) && Enabled(s, SendRelease) && FindsSame(s, SendRelease)
    ensures Inv(Apply(s, SendRelease))
  {
    hide CountOk;
    var t := Apply(s, SendRelease);
    assert SlotOk(s, s.sender.fd);
    OwedOnce(s, s.sender.msg);
    SendReleaseKeepsSlots(s);
    hide SlotsOk;
    forall n | n in t.msgs ensures MsgOk(t, n) {
      assert MsgOk(s, n);
      if s.msgs[n].place.Answer? {
        OwedOnce(s, s.msgs[n].place.to);
      }
      OwedOnce(s, n);
    }
  }

  lemma SendOnCloseKeepsSlots(s: State)
    requires Inv(s) && Enabled(s, SendOnClose)
    ensures SlotsOk(Apply(s, SendOnClose))
  {
    hide CountOk, LoopMsgOk;
    var t := Apply(s, SendOnClose);
    forall f | 0 <= f < |t.slots| ensures SlotOk(t, f) && CountOk(t, f) {
      assert SlotOk(s, f);
      CountsFollow(s, t, None, f);
    }
  }

  lemma SendOnCloseKeepsInv(s: State)
    requires Inv(s) && Enabled(s, SendOnClose)
    ensures Inv(Apply(s, SendOnClose))
  {
    hide SlotsOk;
    var t := Apply(s, SendOnClose);
    SendOnCloseKeepsSlots(s);
    forall n | n in t.msgs ensures MsgOk(t, n) {
      assert MsgOk(s, n);
    }
  }

  lemma SendCloseKeepsSlots(s: State)
    requires Inv(s) && Enabled(s, SendClose)
    ensures SlotsOk(Apply(s, SendClose))
  {
    hide CountOk, LoopMsgOk;
    var t := Apply(s, SendClose);
    forall f | 0 <= f < |t.slots| ensures SlotOk(t, f) && CountOk(t, f) {
      assert SlotOk(s, f);
      CountsFollow(s, t, None, f);
    }
  }

  lemma SendCloseKeepsInv(s: State)
    requires Inv(s) && Enabled(s, SendClose)
    ensures Inv(Apply(s, SendClose))
  {
    hide SlotsOk;
    var t := Apply(s, SendClose);
    SendCloseKeepsSlots(s);
    forall n | n in t.msgs ensures MsgOk(t, n) {
      assert MsgOk(s, n);
    }
  }

  /** Every step of every thread keeps the invariant, as long as the send thread finds the descriptor it saved. */
  lemma StepKeepsInv(s: State, a: Action)
    requires Inv(s) && Enabled(s, a) && FindsSame(s, a)
    ensures Inv(Apply(s, a))
  {
    hide Inv, Enabled, Apply, FindsSame;
    match a
    case AcceptReset(f) => AcceptResetKeepsInv(s, f);
    case AcceptInsert => AcceptInsertKeepsInv(s);
    case Watch => WatchKeepsInv(s);
    case Refuse => RefuseKeepsInv(s);
    case Readable(f) => ReadableKeepsInv(s, f);
    case Take(m) => TakeKeepsInv(s, m);
    case Overload(more) => OverloadKeepsInv(s, more);
    case Again => AgainKeepsInv(s);
    case Count => CountKeepsInv(s);
    case Enqueue(more) => EnqueueKeepsInv(s, more);
    case Eof => EofKeepsInv(s);
    case MarkOffline => MarkOfflineKeepsInv(s);
    case Settle => SettleKeepsInv(s);
    case LoopOnClose => LoopOnCloseKeepsInv(s);
    case LoopClose => LoopCloseKeepsInv(s);
    case Leave => LeaveKeepsInv(s);
    case Begin(m) => BeginKeepsInv(s, m);
    case Lookup(m) => LookupKeepsInv(s, m);
    case TakeAnswer(q, m) => TakeAnswerKeepsInv(s, q, m);
    case CountAnswer(m) => CountAnswerKeepsInv(s, m);
    case EnqueueAnswer(m) => EnqueueAnswerKeepsInv(s, m);
    case Finish(m) => FinishKeepsInv(s, m);
    case HandlerOnClose(m) => HandlerOnCloseKeepsInv(s, m);
    case HandlerClose(m) => HandlerCloseKeepsInv(s, m);
    case Return(m) => ReturnKeepsInv(s, m);
    case Send(m, sent) => SendKeepsInv(s, m, sent);
    case SendRelease => SendReleaseKeepsInv(s);
    case SendOnClose => SendOnCloseKeepsInv(s);
    case SendClose => SendCloseKeepsInv(s);
  }

  /**
   * The decrement of the send thread leaves every counter exact if and only if the message, which any other thread may
   * have taken in the meantime, still has the descriptor it was sent to.
   */
  lemma ReleaseExact(s: State)
    requires Inv(s) && Enabled(s, SendRelease)
    ensures var t := Apply(s, SendRelease);
            (forall f :: 0 <= f < |t.slots| ==> CountOk(t, f)) <==> s.msgs[s.sender.msg].fd == s.sender.fd
  {
    var t := Apply(s, SendRelease);
    if s.msgs[s.sender.msg].fd == s.sender.fd {
      SendReleaseKeepsSlots(s);
    } else {
      OwedOnce(s, s.sender.msg);
      OneMessage(s, t, None, s.sender.fd);
      assert CountOk(s, s.sender.fd) && !CountOk(t, s.sender.fd);
    }
  }

  /** Else two of them are wrong: that of the descriptor it was sent to is too high, that of the one it has now too low. */
  lemma ReleaseMiscounts(s: State)
    requires Inv(s) && Enabled(s, SendRelease) && s.msgs[s.sender.msg].fd != s.sender.fd
    ensures var t, f, h := Apply(s, SendRelease), s.sender.fd, s.msgs[s.sender.msg].fd;
            && f < |t.slots| && t.slots[f].count == |Flying(t, f)| + 1
            && h < |t.slots| && t.slots[h].count == |Flying(t, h)| - 1
            && forall g :: 0 <= g < |t.slots| && g != f && g != h ==> CountOk(t, g)
  {
    var t, f, h := Apply(s, SendRelease), s.sender.fd, s.msgs[s.sender.msg].fd;
    OwedOnce(s, s.sender.msg);
    forall g | 0 <= g < |t.slots| ensures |Flying(t, g)| == |Flying(s, g)| && CountOk(s, g) {
      OneMessage(s, t, None, g);
    }
  }
}
