/**
 * The numbers of packets: whatever the interleaving, a message carries the number its packet was given when it was read,
 * no packet is served twice, and none is lost. All of this holds of every run, also of those in which the send thread
 * decrements a wrong counter.
 */
module TcpNumbers {
  import opened Common
  import opened TcpProtocol
  import opened TcpInvariant
  import opened TcpRuns
  import opened TcpLeak

  /** Read, and not yet looked at by a handler thread's OnRecvMessage. */
  predicate Unserved(p: Place) {
    p.Queued? || p.Handling?
  }

  /** Holds a packet from the moment it is queued until it has been served. */
  predicate HasPacket(p: Place) {
    Unserved(p) || p.Serving? || p.Missing?
  }

  // ---------- The counters ----------

  /** The numbers given to the packets of a connection, in the order they were read. */
  function Numbers(log: seq<Event>, g: Gen): seq<nat> {
    if log == [] then [] else
      var last := log[|log| - 1];
      Numbers(log[..|log| - 1], g) + if last.Receive? && last.gen == g then [last.num] else []
  }

  /** The loop thread works for f. */
  predicate WorksFor(l: Loop, f: Fd) {
    (l.Accepting? || l.Accepted? || l.Reading? || l.HasMessage? || l.Counted?) && l.fd == f
  }

  /** The slot of f belongs to a connection that was accepted with f. */
  predicate Owned(s: State, f: Fd) {
    f < |s.slots| && s.slots[f].gen < |s.fds| && s.fds[s.slots[f].gen] == f
  }

  ghost predicate SlotsOwned(s: State) {
    forall f: Fd :: f in s.watched || WorksFor(s.loop, f) ==> Owned(s, f)
  }

  /** The counter of a slot is the number of packets of its connection that have been read. */
  ghost predicate SlotsCount(s: State) {
    && (forall f: Fd :: Owned(s, f) ==> |Numbers(s.log, s.slots[f].gen)| == s.slots[f].recvSeq)
    && (forall g: Gen :: g >= |s.fds| ==> Numbers(s.log, g) == [])
  }

  /** The loop thread's message belongs to the connection it was read from. */
  predicate LoopGen(s: State) {
    LoopMsgOk(s) &&
    match s.loop
    case HasMessage(f, m) => s.msgs[m].gen == s.slots[f].gen
    case Counted(f, m) => s.msgs[m].gen == s.slots[f].gen
    case _ => true
  }

  ghost predicate InOrder(log: seq<Event>) {
    forall g: Gen, k :: 0 <= k < |Numbers(log, g)| ==> Numbers(log, g)[k] == k
  }

  // ---------- The packets ----------

  predicate Received(log: seq<Event>, g: Gen, n: nat) {
    Receive(g, n) in log
  }

  predicate Served(log: seq<Event>, g: Gen, n: nat) {
    exists i :: 0 <= i < |log| && log[i].Serve? && log[i].gen == g && log[i].num == n
  }

  predicate Carries(s: State, m: Msg, g: Gen, n: nat)
    requires m in s.msgs
  {
    s.msgs[m].gen == g && s.msgs[m].num == n
  }

  /** A message with a packet carries a number that was received for its connection, and no other carries the same. */
  predicate MsgNumbered(s: State, m: Msg)
    requires m in s.msgs
  {
    HasPacket(s.msgs[m].place) ==>
      && Received(s.log, s.msgs[m].gen, s.msgs[m].num)
      && (Unserved(s.msgs[m].place) ==> !Served(s.log, s.msgs[m].gen, s.msgs[m].num))
      && forall x :: x in s.msgs && x != m && HasPacket(s.msgs[x].place) ==> !Carries(s, x, s.msgs[m].gen, s.msgs[m].num)
  }

  ghost predicate MsgsNumbered(s: State) {
    forall m :: m in s.msgs ==> MsgNumbered(s, m)
  }

  /** Every packet was received before it was served, and was served once. */
  predicate ServedOnce(log: seq<Event>) {
    forall i :: 0 <= i < |log| && log[i].Serve? ==>
      Received(log[..i], log[i].gen, log[i].num) && !Served(log[..i], log[i].gen, log[i].num)
  }

  /** Every packet received has been served or is carried by a message that will be. */
  ghost predicate NoneLost(s: State) {
    forall g, n :: Received(s.log, g, n) ==>
      Served(s.log, g, n) || exists m :: m in s.msgs && Unserved(s.msgs[m].place) && Carries(s, m, g, n)
  }

  // ---------- The log ----------

  lemma {:induction false} ReceivedIsNumber(log: seq<Event>, g: Gen, n: nat)
    ensures Received(log, g, n) <==> n in Numbers(log, g)
    decreases |log|
  {
    if log != [] {
      var front, e := log[..|log| - 1], log[|log| - 1];
      assert log == front + [e];
      ReceivedIsNumber(front, g, n);
    }
  }

  lemma OneMore(log: seq<Event>, e: Event)
    ensures forall g: Gen :: Numbers(log + [e], g) == Numbers(log, g) + if e.Receive? && e.gen == g then [e.num] else []
    ensures forall g, n :: Received(log + [e], g, n) <==> Received(log, g, n) || e == Receive(g, n)
    ensures forall g, n :: Served(log + [e], g, n) <==> Served(log, g, n) || (e.Serve? && e.gen == g && e.num == n)
    ensures ServedOnce(log) && (e.Serve? ==> Received(log, e.gen, e.num) && !Served(log, e.gen, e.num)) ==>
              ServedOnce(log + [e])
  {
    var more := log + [e];
    assert more[..|log|] == log;
    forall g, n ensures Served(more, g, n) <==> Served(log, g, n) || (e.Serve? && e.gen == g && e.num == n) {
      if Served(log, g, n) {
        var i :| 0 <= i < |log| && log[i].Serve? && log[i].gen == g && log[i].num == n;
        assert more[i] == log[i];
      }
      assert more[|log|] == e;
    }
    hide Received, Served;
    if ServedOnce(log) && (e.Serve? ==> Received(log, e.gen, e.num) && !Served(log, e.gen, e.num)) {
      forall i | 0 <= i < |more| && more[i].Serve?
        ensures Received(more[..i], more[i].gen, more[i].num) && !Served(more[..i], more[i].gen, more[i].num)
      {
        assert i < |log| ==> more[..i] == log[..i] && more[i] == log[i];
      }
    }
  }

  // ---------- One step ----------

  /** Only AcceptReset changes whose a slot is, and only Enqueue counts a packet. */
  predicate SlotStep(s: State, a: Action, t: State, f: Fd)
    requires f < |s.slots| == |t.slots| && (a.Enqueue? ==> s.loop.Counted?)
  {
    if a == AcceptReset(f) then t.slots[f].gen == |s.fds| && t.slots[f].recvSeq == 0
    else
      && t.slots[f].gen == s.slots[f].gen
      && t.slots[f].recvSeq == s.slots[f].recvSeq + if a.Enqueue? && f == s.loop.fd then 1 else 0
  }

  ghost predicate SlotsStep(s: State, a: Action, t: State)
    requires a.Enqueue? ==> s.loop.Counted?
  {
    && |t.slots| == |s.slots| && t.fds == (if a.AcceptReset? then s.fds + [a.fd] else s.fds)
    && (forall f :: 0 <= f < |s.slots| ==> SlotStep(s, a, t, f))
    && (forall f: Fd :: f in t.watched || WorksFor(t.loop, f) ==>
          f in s.watched || WorksFor(s.loop, f) || (a == AcceptReset(f) && f < |s.slots|))
  }

  lemma ReadingSlots(s: State, a: Action)
    requires Enabled(s, a) && OfReading(a)
    ensures SlotsStep(s, a, Apply(s, a))
  {
  }

  lemma AcceptingSlots(s: State, a: Action)
    requires Enabled(s, a) && OfAccepting(a)
    ensures SlotsStep(s, a, Apply(s, a))
  {
  }

  lemma LeavingSlots(s: State, a: Action)
    requires Enabled(s, a) && OfLeaving(a)
    ensures SlotsStep(s, a, Apply(s, a))
  {
  }

  lemma ServingSlots(s: State, a: Action)
    requires Enabled(s, a) && OfServing(a)
    ensures SlotsStep(s, a, Apply(s, a))
  {
  }

  lemma ReturningSlots(s: State, a: Action)
    requires Enabled(s, a) && OfReturning(a)
    ensures SlotsStep(s, a, Apply(s, a))
  {
  }

  lemma SendingSlots(s: State, a: Action)
    requires Enabled(s, a) && OfSending(a)
    ensures SlotsStep(s, a, Apply(s, a))
  {
  }

  lemma AnySlots(s: State, a: Action)
    requires Enabled(s, a)
    ensures a.Enqueue? ==> s.loop.Counted?
    ensures SlotsStep(s, a, Apply(s, a))
  {
    assert a.Enqueue? ==> s.loop.Counted?;
    hide Enabled, Apply, SlotsStep;
    if OfReading(a) {
      ReadingSlots(s, a);
    } else if OfAccepting(a) {
      AcceptingSlots(s, a);
    } else if OfLeaving(a) {
      LeavingSlots(s, a);
    } else if OfServing(a) {
      ServingSlots(s, a);
    } else if OfReturning(a) {
      ReturningSlots(s, a);
    } else {
      SendingSlots(s, a);
    }
  }

  lemma OwnedStep(s: State, a: Action)
    requires Enabled(s, a) && SlotsOwned(s)
    ensures SlotsOwned(Apply(s, a))
  {
    AnySlots(s, a);
    hide Enabled, Apply;
    var t := Apply(s, a);
    forall f: Fd | f in t.watched || WorksFor(t.loop, f) ensures Owned(t, f) {
      if a != AcceptReset(f) {
        assert Owned(s, f) && SlotStep(s, a, t, f);
      } else {
        assert SlotStep(s, a, t, f);
      }
    }
  }

  /** The message that is moved has a packet afterwards only if it had it before; Enqueue and Lookup aside. */
  lemma MovedPacket(s: State, a: Action, m: Msg)
    requires LoopMsgOk(s) && Enabled(s, a) && Moved(s, a) == Some(m) && m in s.msgs && m in Apply(s, a).msgs
    ensures var x, y := s.msgs[m], Apply(s, a).msgs[m];
            if a.Enqueue? then
              && x.place == ReadCounted && y.place == Queued && y.gen == x.gen
              && s.loop.Counted? && s.loop.fd < |s.slots| && y.num == s.slots[s.loop.fd].recvSeq
            else if a.Lookup? then Unserved(x.place) && !Unserved(y.place) && y.gen == x.gen && y.num == x.num
            else
              && (HasPacket(y.place) ==> HasPacket(x.place) && y.gen == x.gen && y.num == x.num)
              && (Unserved(x.place) <==> Unserved(y.place))
  {
  }

  /** What a step adds to the log. */
  lemma EventOf(s: State, a: Action)
    requires Enabled(s, a)
    ensures |Added(s, a)| <= 1
    ensures Added(s, a) != [] ==>
              var e := Added(s, a)[0]; (e.Receive? <==> a.Enqueue?) && (e.Serve? <==> a.Lookup?)
    ensures a.Enqueue? ==>
              s.loop.Counted? && s.loop.msg in s.msgs && s.loop.fd < |s.slots|
              && Added(s, a) == [Receive(s.msgs[s.loop.msg].gen, s.slots[s.loop.fd].recvSeq)]
    ensures a.Lookup? ==>
              a.msg in s.msgs && Added(s, a) == [Serve(s.msgs[a.msg].gen, s.msgs[a.msg].num, Find(s, s.msgs[a.msg].fd))]
  {
  }

  /** The log after a step, by its one event. */
  lemma LogStep(s: State, a: Action)
    requires Enabled(s, a)
    ensures |Added(s, a)| <= 1
    ensures Apply(s, a).log == if Added(s, a) == [] then s.log else s.log + [Added(s, a)[0]]
  {
    hide Enabled, Apply, Added;
    EventOf(s, a);
    LogGrows(s, a);
    assert Added(s, a) != [] ==> Added(s, a) == [Added(s, a)[0]];
  }

  lemma ReadingGen(s: State, a: Action)
    requires LoopGen(s) && Enabled(s, a) && (OfReading(a) || OfAccepting(a) || OfLeaving(a))
    ensures LoopMsgOk(Apply(s, a)) ==> LoopGen(Apply(s, a))
  {
    hide LoopMsgOk;
    LoopHas(s);
  }

  lemma LoopHas(s: State)
    requires LoopMsgOk(s)
    ensures s.loop.HasMessage? || s.loop.Counted? ==> s.loop.msg in s.msgs && s.loop.fd < |s.slots|
  {
  }

  lemma OtherGen(s: State, a: Action)
    requires LoopGen(s) && Enabled(s, a) && (OfServing(a) || OfReturning(a) || OfSending(a))
    ensures LoopMsgOk(Apply(s, a)) ==> LoopGen(Apply(s, a))
  {
    AnySlots(s, a);
    OnlyMoved(s, a);
    hide Enabled, Apply, Moved;
    if s.loop.HasMessage? || s.loop.Counted? {
      assert SlotStep(s, a, Apply(s, a), s.loop.fd);
    }
  }

  lemma GenStep(s: State, a: Action)
    requires LoopGen(s) && Enabled(s, a)
    ensures LoopGen(Apply(s, a))
  {
    LoopMsgStays(s, a);
    hide LoopGen, LoopMsgOk, Enabled, Apply;
    if OfServing(a) || OfReturning(a) || OfSending(a) {
      OtherGen(s, a);
    } else {
      ReadingGen(s, a);
    }
    LoopGenHas(s);
  }

  lemma LoopGenHas(s: State)
    ensures LoopGen(s) ==> LoopMsgOk(s)
  {
  }

  /** The counters stay the numbers of packets read, which are numbered in order. */
  lemma CountsStep(s: State, a: Action)
    requires SlotsOwned(s) && SlotsCount(s) && LoopGen(s) && InOrder(s.log) && Enabled(s, a)
    ensures SlotsCount(Apply(s, a)) && InOrder(Apply(s, a).log)
  {
    var t := Apply(s, a);
    LoopHas(s);
    LogStep(s, a);
    EventOf(s, a);
    AnySlots(s, a);
    assert a.Enqueue? ==> WorksFor(s.loop, s.loop.fd) && Owned(s, s.loop.fd);
    assert a.Enqueue? ==> s.msgs[s.loop.msg].gen == s.slots[s.loop.fd].gen;
    if Added(s, a) != [] {
      OneMore(s.log, Added(s, a)[0]);
    }
    hide Enabled, Apply, Added, Numbers, LoopGen, SlotsOwned, Received, Served, ServedOnce, WorksFor;
    forall f: Fd | Owned(t, f) ensures |Numbers(t.log, t.slots[f].gen)| == t.slots[f].recvSeq {
      assert SlotStep(s, a, t, f);
      assert a != AcceptReset(f) ==> Owned(s, f);
    }
  }

  /** The number a packet gets is new: nothing received for its connection has it. */
  lemma NewNumber(s: State)
    requires SlotsOwned(s) && SlotsCount(s) && LoopGen(s) && InOrder(s.log) && s.loop.Counted?
    ensures s.loop.msg in s.msgs && s.loop.fd < |s.slots|
    ensures !Received(s.log, s.msgs[s.loop.msg].gen, s.slots[s.loop.fd].recvSeq)
  {
    LoopHas(s);
    var f, g := s.loop.fd, s.msgs[s.loop.msg].gen;
    assert WorksFor(s.loop, f) && Owned(s, f);
    ReceivedIsNumber(s.log, g, s.slots[f].recvSeq);
    hide Numbers;
  }

  lemma ServedWasReceived(log: seq<Event>, g: Gen, n: nat)
    requires ServedOnce(log) && Served(log, g, n)
    ensures Received(log, g, n)
  {
    var i :| 0 <= i < |log| && log[i].Serve? && log[i].gen == g && log[i].num == n;
    assert Received(log[..i], g, n);
  }

  lemma PacketsKept(s: State, a: Action)
    requires LoopMsgOk(s) && Enabled(s, a) && !a.Enqueue? && !a.Lookup?
    ensures var t := Apply(s, a);
            && t.msgs.Keys == s.msgs.Keys
            && forall m :: m in s.msgs ==>
                 && (HasPacket(t.msgs[m].place) ==> HasPacket(s.msgs[m].place) && t.msgs[m].gen == s.msgs[m].gen
                                                    && t.msgs[m].num == s.msgs[m].num)
                 && (Unserved(s.msgs[m].place) <==> Unserved(t.msgs[m].place))
  {
    OnlyMoved(s, a);
    var c := Moved(s, a);
    if c.Some? && c.value in s.msgs {
      MovedPacket(s, a, c.value);
    }
    hide Enabled, Apply, Moved, LoopMsgOk, HasPacket, Unserved;
  }

  lemma LogKept(s: State, a: Action)
    requires Enabled(s, a) && !a.Enqueue? && !a.Lookup? && ServedOnce(s.log)
    ensures var t := Apply(s, a);
            && ServedOnce(t.log)
            && (forall g, n :: Received(t.log, g, n) <==> Received(s.log, g, n))
            && (forall g, n :: Served(t.log, g, n) <==> Served(s.log, g, n))
  {
    LogStep(s, a);
    EventOf(s, a);
    if Added(s, a) != [] {
      OneMore(s.log, Added(s, a)[0]);
    }
    hide Enabled, Apply, Added, Received, Served, ServedOnce, Numbers;
  }

  /** A step that neither queues nor serves a packet leaves the packets and what is known about them alone. */
  lemma QuietPackets(s: State, a: Action)
    requires MsgsNumbered(s) && ServedOnce(s.log) && NoneLost(s) && LoopMsgOk(s) && Enabled(s, a)
    requires !a.Enqueue? && !a.Lookup?
    ensures MsgsNumbered(Apply(s, a)) && ServedOnce(Apply(s, a).log) && NoneLost(Apply(s, a))
  {
    hide *;
    PacketsKept(s, a);
    LogKept(s, a);
    SamePackets(s, Apply(s, a));
  }

  /** The same packets in the same messages. */
  lemma SamePackets(s: State, t: State)
    requires MsgsNumbered(s) && NoneLost(s) && t.msgs.Keys == s.msgs.Keys
    requires forall m :: m in s.msgs ==>
               && (HasPacket(t.msgs[m].place) ==> HasPacket(s.msgs[m].place) && t.msgs[m].gen == s.msgs[m].gen
                                                  && t.msgs[m].num == s.msgs[m].num)
               && (Unserved(s.msgs[m].place) <==> Unserved(t.msgs[m].place))
    requires forall g, n :: Received(t.log, g, n) <==> Received(s.log, g, n)
    requires forall g, n :: Served(t.log, g, n) <==> Served(s.log, g, n)
    ensures MsgsNumbered(t) && NoneLost(t)
  {
    hide Received, Served;
    forall m | m in t.msgs ensures MsgNumbered(t, m) {
      assert MsgNumbered(s, m);
    }
    forall g, n | Received(t.log, g, n) && !Served(t.log, g, n)
      ensures exists m :: m in t.msgs && Unserved(t.msgs[m].place) && Carries(t, m, g, n)
    {
      var m :| m in s.msgs && Unserved(s.msgs[m].place) && Carries(s, m, g, n);
      assert Carries(t, m, g, n);
    }
  }

  lemma EnqueuePackets(s: State, a: Action)
    requires MsgsNumbered(s) && ServedOnce(s.log) && NoneLost(s) && Enabled(s, a) && a.Enqueue?
    requires SlotsOwned(s) && SlotsCount(s) && LoopGen(s) && InOrder(s.log)
    ensures MsgsNumbered(Apply(s, a)) && ServedOnce(Apply(s, a).log) && NoneLost(Apply(s, a))
  {
    var t := Apply(s, a);
    LogStep(s, a);
    EventOf(s, a);
    OneMore(s.log, Added(s, a)[0]);
    OnlyMoved(s, a);
    var m0 := s.loop.msg;
    MovedPacket(s, a, m0);
    NewNumber(s);
    var g0, n0 := s.msgs[m0].gen, s.slots[s.loop.fd].recvSeq;
    if Served(s.log, g0, n0) {
      ServedWasReceived(s.log, g0, n0);
    }
    assert Moved(s, a) == Some(m0);
    hide Enabled, Apply, Added, Moved, LoopMsgOk, LoopGen, Received, Served, ServedOnce, Numbers, SlotsCount, InOrder;
    NewPacket(s, t, m0, g0, n0);
  }

  /** One message more has a packet, with a number of its own. */
  lemma NewPacket(s: State, t: State, m0: Msg, g0: Gen, n0: nat)
    requires MsgsNumbered(s) && NoneLost(s) && t.msgs.Keys == s.msgs.Keys && m0 in s.msgs
    requires forall m :: m in s.msgs && m != m0 ==> t.msgs[m] == s.msgs[m]
    requires !HasPacket(s.msgs[m0].place) && Unserved(t.msgs[m0].place) && Carries(t, m0, g0, n0)
    requires !Received(s.log, g0, n0) && !Served(s.log, g0, n0)
    requires forall g, n :: Received(t.log, g, n) <==> Received(s.log, g, n) || (g == g0 && n == n0)
    requires forall g, n :: Served(t.log, g, n) <==> Served(s.log, g, n)
    ensures MsgsNumbered(t) && NoneLost(t)
  {
    hide Received, Served;
    forall m | m in t.msgs ensures MsgNumbered(t, m) {
      assert MsgNumbered(s, m);
      forall x | x in t.msgs && x != m && HasPacket(t.msgs[x].place) && HasPacket(t.msgs[m].place)
        ensures !Carries(t, x, t.msgs[m].gen, t.msgs[m].num)
      {
        assert MsgNumbered(s, x);
        assert x != m0 && m != m0 ==> (Carries(t, x, t.msgs[m].gen, t.msgs[m].num) <==> Carries(s, x, s.msgs[m].gen, s.msgs[m].num));
      }
    }
    forall g, n | Received(t.log, g, n) && !Served(t.log, g, n)
      ensures exists m :: m in t.msgs && Unserved(t.msgs[m].place) && Carries(t, m, g, n)
    {
      if g != g0 || n != n0 {
        var m :| m in s.msgs && Unserved(s.msgs[m].place) && Carries(s, m, g, n);
        assert Carries(t, m, g, n);
      }
    }
  }

  lemma LookupPackets(s: State, a: Action)
    requires MsgsNumbered(s) && ServedOnce(s.log) && NoneLost(s) && Enabled(s, a) && a.Lookup? && LoopMsgOk(s)
    ensures MsgsNumbered(Apply(s, a)) && ServedOnce(Apply(s, a).log) && NoneLost(Apply(s, a))
  {
    var t := Apply(s, a);
    LogStep(s, a);
    EventOf(s, a);
    OneMore(s.log, Added(s, a)[0]);
    OnlyMoved(s, a);
    MovedPacket(s, a, a.msg);
    assert Moved(s, a) == Some(a.msg);
    assert MsgNumbered(s, a.msg);
    hide Enabled, Apply, Added, Moved, LoopMsgOk, Received, Served, ServedOnce, Numbers;
    ServedPacket(s, t, a.msg);
  }

  /** The packet of one message has been served. */
  lemma ServedPacket(s: State, t: State, m0: Msg)
    requires MsgsNumbered(s) && NoneLost(s) && t.msgs.Keys == s.msgs.Keys && m0 in s.msgs
    requires forall m :: m in s.msgs && m != m0 ==> t.msgs[m] == s.msgs[m]
    requires Unserved(s.msgs[m0].place) && !Unserved(t.msgs[m0].place)
    requires Carries(t, m0, s.msgs[m0].gen, s.msgs[m0].num)
    requires forall g, n :: Received(t.log, g, n) <==> Received(s.log, g, n)
    requires forall g, n :: Served(t.log, g, n) <==> Served(s.log, g, n) || (g == s.msgs[m0].gen && n == s.msgs[m0].num)
    ensures MsgsNumbered(t) && NoneLost(t)
  {
    hide Received, Served;
    assert MsgNumbered(s, m0);
    forall m | m in t.msgs ensures MsgNumbered(t, m) {
      assert MsgNumbered(s, m);
      forall x | x in t.msgs && x != m && HasPacket(t.msgs[x].place) && HasPacket(t.msgs[m].place)
        ensures !Carries(t, x, t.msgs[m].gen, t.msgs[m].num)
      {
        assert Carries(t, x, t.msgs[m].gen, t.msgs[m].num) <==> Carries(s, x, s.msgs[m].gen, s.msgs[m].num);
      }
      assert m != m0 && HasPacket(t.msgs[m].place) ==> !Carries(s, m, s.msgs[m0].gen, s.msgs[m0].num);
    }
    forall g, n | Received(t.log, g, n) && !Served(t.log, g, n)
      ensures exists m :: m in t.msgs && Unserved(t.msgs[m].place) && Carries(t, m, g, n)
    {
      var m :| m in s.msgs && Unserved(s.msgs[m].place) && Carries(s, m, g, n);
      assert Carries(t, m, g, n);
    }
  }

  // ---------- Whole runs ----------

  ghost predicate Numbered(s: State) {
    && SlotsOwned(s) && SlotsCount(s) && LoopGen(s) && InOrder(s.log)
    && MsgsNumbered(s) && ServedOnce(s.log) && NoneLost(s)
  }

  /** Every step of every thread keeps the packets in order. */
  lemma StepIsNumbered(s: State, a: Action)
    requires Numbered(s) && Enabled(s, a)
    ensures Numbered(Apply(s, a))
  {
    hide SlotsOwned, SlotsCount, LoopGen, InOrder, MsgsNumbered, ServedOnce, NoneLost, Enabled, Apply;
    OwnedStep(s, a);
    CountsStep(s, a);
    GenStep(s, a);
    LoopGenHas(s);
    if a.Enqueue? {
      EnqueuePackets(s, a);
    } else if a.Lookup? {
      LookupPackets(s, a);
    } else {
      QuietPackets(s, a);
    }
  }

  lemma NothingNumbered(messages: set<Msg>, sockets: nat)
    ensures Numbered(Initial(messages, sockets))
  {
  }

  lemma {:induction false} RunIsNumbered(s: State, run: seq<Action>)
    requires Numbered(s) && Possible(s, run)
    ensures Numbered(After(s, run))
    decreases |run|
  {
    hide Numbered, Enabled, Apply;
    if run != [] {
      StepIsNumbered(s, run[0]);
      RunIsNumbered(Apply(s, run[0]), run[1..]);
    }
  }

  /** A state that some interleaving of the threads reaches, with or without a disturbance. */
  ghost predicate Arises(s: State) {
    exists messages, sockets, run | Possible(Initial(messages, sockets), run) :: s == After(Initial(messages, sockets), run)
  }

  lemma ArisesNumbered(s: State)
    requires Arises(s)
    ensures Numbered(s)
  {
    hide Numbered, Initial;
    var messages, sockets, run :|
      Possible(Initial(messages, sockets), run) && s == After(Initial(messages, sockets), run);
    NothingNumbered(messages, sockets);
    RunIsNumbered(Initial(messages, sockets), run);
  }

  /** The packets of a connection, in the order they were read, are numbered 0, 1, 2 and so on. */
  lemma PacketsAreNumbered(s: State, g: Gen, k: nat)
    requires Arises(s) && k < |Numbers(s.log, g)|
    ensures Numbers(s.log, g)[k] == k
  {
    ArisesNumbered(s);
  }

  /**
   * A message that is queued, in hand or being served carries a number that was given to a packet of its connection, and
   * no other message carries the same.
   */
  lemma MessagesCarryNumbers(s: State, m: Msg, x: Msg)
    requires Arises(s) && m in s.msgs && s.msgs[m].place in {Queued, Handling, Serving, Missing}
    ensures Receive(s.msgs[m].gen, s.msgs[m].num) in s.log
    ensures x in s.msgs && x != m && s.msgs[x].place in {Queued, Handling, Serving, Missing} ==>
              s.msgs[x].gen != s.msgs[m].gen || s.msgs[x].num != s.msgs[m].num
  {
    ArisesNumbered(s);
    assert MsgNumbered(s, m);
  }

  /** Each packet is served at most once, after it was received. */
  lemma PacketsServedOnce(s: State, i: nat, j: nat)
    requires Arises(s) && i < |s.log| && s.log[i].Serve?
    ensures Receive(s.log[i].gen, s.log[i].num) in s.log[..i]
    ensures j < i && s.log[j].Serve? ==> s.log[j].gen != s.log[i].gen || s.log[j].num != s.log[i].num
  {
    ArisesNumbered(s);
    assert j < i ==> s.log[..i][j] == s.log[j];
  }

  /** No packet is lost: when no message is queued or in hand, every packet received has been served. */
  lemma PacketsAreServed(s: State, g: Gen, n: nat)
    requires Arises(s) && Receive(g, n) in s.log
    requires forall m :: m in s.msgs ==> s.msgs[m].place != Queued && s.msgs[m].place != Handling
    ensures exists i :: 0 <= i < |s.log| && s.log[i].Serve? && s.log[i].gen == g && s.log[i].num == n
  {
    ArisesNumbered(s);
    assert Received(s.log, g, n);
  }
}
