/**
 * SendMessageImmediately reads the descriptor of its message once more after the message is back in the idle list. Here
 * are runs in which another thread has taken the message by then, and what they lead to.
 */
module TcpReuse {
  import opened Common
  import opened TcpProtocol
  import opened TcpInvariant
  import opened TcpRuns

  // ---------- Runs in pieces ----------

  lemma {:induction false} Chain(s: State, a: seq<Action>, b: seq<Action>)
    requires Possible(s, a) && Possible(After(s, a), b)
    ensures Possible(s, a + b) && After(s, a + b) == After(After(s, a), b)
    ensures Undisturbed(s, a) && Undisturbed(After(s, a), b) ==> Undisturbed(s, a + b)
    decreases |a|
  {
    hide Enabled, Apply, FindsSame;
    if a == [] {
      assert a + b == b;
    } else {
      assert (a + b)[0] == a[0] && (a + b)[1..] == a[1..] + b;
      Chain(Apply(s, a[0]), a[1..], b);
    }
  }

  lemma OneStep(s: State, a: Action)
    requires Enabled(s, a)
    ensures Possible(s, [a]) && After(s, [a]) == Apply(s, a)
    ensures !a.SendRelease? ==> Undisturbed(s, [a])
  {
    hide Enabled, Apply;
    assert [a][1..] == [];
  }

  /** One more step at the end of a run. */
  lemma Extend(s: State, run: seq<Action>, a: Action)
    requires Possible(s, run) && Undisturbed(s, run) && Enabled(After(s, run), a) && !a.SendRelease?
    ensures Possible(s, run + [a]) && Undisturbed(s, run + [a]) && After(s, run + [a]) == Apply(After(s, run), a)
  {
    hide Enabled, Apply;
    OneStep(After(s, run), a);
    Chain(s, run, [a]);
  }

  // ---------- What a thread does on its own ----------

  /** The loop thread accepts a connection on a free descriptor. */
  function Connect(f: Fd): seq<Action> {
    [AcceptReset(f), AcceptInsert, Watch]
  }

  /** It reads a packet. */
  function Receive(f: Fd, m: Msg): seq<Action> {
    [Readable(f), Take(m)] + [Count, Enqueue(false)]
  }

  /** A handler thread begins to serve it. */
  function Serve(f: Fd, m: Msg): seq<Action> {
    Receive(f, m) + [Begin(m), Lookup(m)]
  }

  /** That thread queues an answer. */
  function Reply(m: Msg, answer: Msg): seq<Action> {
    [TakeAnswer(m, answer), CountAnswer(answer), EnqueueAnswer(answer)]
  }

  /** The stream ends while something of the connection is in hand. */
  function Hangup(f: Fd, m: Msg): seq<Action> {
    [Readable(f), Take(m)] + [Eof, MarkOffline] + [Settle, Leave]
  }

  lemma TwoSteps(s: State, a: Action, b: Action)
    requires Enabled(s, a) && Enabled(Apply(s, a), b) && !a.SendRelease? && !b.SendRelease?
    ensures Possible(s, [a, b]) && Undisturbed(s, [a, b]) && After(s, [a, b]) == Apply(Apply(s, a), b)
  {
    hide Enabled, Apply;
    OneStep(s, a);
    OneStep(Apply(s, a), b);
    Chain(s, [a], [b]);
    assert [a] + [b] == [a, b];
  }

  lemma ThreeSteps(s: State, a: Action, b: Action, c: Action)
    requires Enabled(s, a) && Enabled(Apply(s, a), b) && Enabled(Apply(Apply(s, a), b), c)
    requires !a.SendRelease? && !b.SendRelease? && !c.SendRelease?
    ensures Possible(s, [a, b, c]) && Undisturbed(s, [a, b, c])
    ensures After(s, [a, b, c]) == Apply(Apply(Apply(s, a), b), c)
  {
    hide Enabled, Apply;
    TwoSteps(s, a, b);
    OneStep(Apply(Apply(s, a), b), c);
    Chain(s, [a, b], [c]);
    assert [a, b] + [c] == [a, b, c];
  }

  /** Everything about a state but its log. */
  function Unlogged(s: State): State {
    s.(log := [])
  }

  lemma Connects(s: State, f: Fd)
    requires s.loop == Ready && f !in s.open && f < |s.slots| && f !in s.clients
    ensures Possible(s, Connect(f)) && Undisturbed(s, Connect(f))
    ensures Unlogged(After(s, Connect(f))) ==
            Unlogged(s).(slots := s.slots[f := Slot(0, false, 0, Open, |s.fds|)], clients := s.clients[f := |s.fds|],
                         watched := s.watched + {f}, open := s.open + {f}, fds := s.fds + [f])
  {
    Accepts(s, f);
    var t := Apply(s, AcceptReset(f));
    Inserts(t);
    var u := Apply(t, AcceptInsert);
    Watches(u);
    hide Enabled, Apply;
    ThreeSteps(s, AcceptReset(f), AcceptInsert, Watch);
  }

  lemma Accepts(s: State, f: Fd)
    requires s.loop == Ready && f !in s.open && f < |s.slots|
    ensures Enabled(s, AcceptReset(f))
    ensures Unlogged(Apply(s, AcceptReset(f))) ==
            Unlogged(s).(slots := s.slots[f := Slot(0, false, 0, Resetting, |s.fds|)], open := s.open + {f},
                         fds := s.fds + [f], loop := Accepting(f))
  {
  }

  lemma Inserts(s: State)
    requires s.loop.Accepting? && s.loop.fd < |s.slots| && s.loop.fd !in s.clients
    ensures Enabled(s, AcceptInsert)
    ensures var f := s.loop.fd;
            Unlogged(Apply(s, AcceptInsert)) ==
            Unlogged(s).(slots := s.slots[f := s.slots[f].(phase := Inserted)], clients := s.clients[f := s.slots[f].gen],
                         loop := Accepted(f))
  {
  }

  lemma Watches(s: State)
    requires s.loop.Accepted? && s.loop.fd < |s.slots|
    ensures Enabled(s, Watch)
    ensures var f := s.loop.fd;
            Unlogged(Apply(s, Watch)) ==
            Unlogged(s).(slots := s.slots[f := s.slots[f].(phase := Open)], watched := s.watched + {f}, loop := Ready)
  {
  }

  lemma Reads(s: State, f: Fd, m: Msg)
    requires s.loop == Ready && f in s.watched && f < |s.slots| && m in s.msgs && s.msgs[m].place == Idle
    ensures Possible(s, [Readable(f), Take(m)]) && Undisturbed(s, [Readable(f), Take(m)])
    ensures After(s, [Readable(f), Take(m)]) ==
            s.(msgs := s.msgs[m := Message(Place.Read, f, 0, s.slots[f].gen)], loop := HasMessage(f, m))
  {
    TwoSteps(s, Readable(f), Take(m));
  }

  lemma Receives(s: State, f: Fd, m: Msg)
    requires s.loop == Ready && f in s.watched && f < |s.slots| && m in s.msgs && s.msgs[m].place == Idle
    ensures Possible(s, Receive(f, m)) && Undisturbed(s, Receive(f, m))
    ensures var x := s.slots[f];
            Unlogged(After(s, Receive(f, m))) ==
            Unlogged(s).(msgs := s.msgs[m := Message(Queued, f, x.recvSeq, x.gen)],
                         slots := s.slots[f := x.(count := x.count + 1, recvSeq := x.recvSeq + 1)])
  {
    Reads(s, f, m);
    var t := After(s, [Readable(f), Take(m)]);
    Queues(t);
    hide Enabled, Apply, Possible, After, Undisturbed;
    TwoSteps(t, Count, Enqueue(false));
    Chain(s, [Readable(f), Take(m)], [Count, Enqueue(false)]);
  }

  lemma Queues(s: State)
    requires s.loop.HasMessage? && s.loop.fd < |s.slots| && Known(s, s.loop.msg)
    ensures Enabled(s, Count) && Enabled(Apply(s, Count), Enqueue(false))
    ensures var f, m := s.loop.fd, s.loop.msg;
            var x := s.slots[f];
            Unlogged(Apply(Apply(s, Count), Enqueue(false))) ==
            Unlogged(s).(msgs := s.msgs[m := s.msgs[m].(place := Queued, num := x.recvSeq)], loop := Ready,
                         slots := s.slots[f := x.(count := x.count + 1, recvSeq := x.recvSeq + 1)])
  {
  }

  lemma Begins(s: State, m: Msg)
    requires s.loop == Ready && Known(s, m) && s.msgs[m].place == Queued && s.msgs[m].fd in s.clients
    ensures Possible(s, [Begin(m), Lookup(m)]) && Undisturbed(s, [Begin(m), Lookup(m)])
    ensures Unlogged(After(s, [Begin(m), Lookup(m)])) ==
            Unlogged(s).(msgs := s.msgs[m := s.msgs[m].(place := Serving)])
  {
    Pops(s, m);
    Looks(Apply(s, Begin(m)), m);
    hide Enabled, Apply, Possible, After, Undisturbed;
    TwoSteps(s, Begin(m), Lookup(m));
  }

  lemma Pops(s: State, m: Msg)
    requires s.loop == Ready && Known(s, m) && s.msgs[m].place == Queued
    ensures Enabled(s, Begin(m)) && Apply(s, Begin(m)) == s.(msgs := s.msgs[m := s.msgs[m].(place := Handling)])
  {
  }

  lemma Looks(s: State, m: Msg)
    requires s.loop == Ready && Known(s, m) && s.msgs[m].place == Handling && s.msgs[m].fd in s.clients
    ensures Enabled(s, Lookup(m))
    ensures Unlogged(Apply(s, Lookup(m))) == Unlogged(s).(msgs := s.msgs[m := s.msgs[m].(place := Serving)])
  {
  }

  lemma Serves(s: State, f: Fd, m: Msg)
    requires s.loop == Ready && f in s.watched && f < |s.slots| && m in s.msgs && s.msgs[m].place == Idle
    requires f in s.clients
    ensures Possible(s, Serve(f, m)) && Undisturbed(s, Serve(f, m))
    ensures var x := s.slots[f];
            Unlogged(After(s, Serve(f, m))) ==
            Unlogged(s).(msgs := s.msgs[m := Message(Serving, f, x.recvSeq, x.gen)],
                         slots := s.slots[f := x.(count := x.count + 1, recvSeq := x.recvSeq + 1)])
  {
    hide Receive, Enabled, Apply, Possible, After, Undisturbed;
    Receives(s, f, m);
    Begins(After(s, Receive(f, m)), m);
    Chain(s, Receive(f, m), [Begin(m), Lookup(m)]);
  }

  lemma Replies(s: State, m: Msg, answer: Msg)
    requires s.loop == Ready && Known(s, m) && s.msgs[m].place == Serving && NotAnswering(s, m)
    requires answer in s.msgs && s.msgs[answer].place == Idle
    ensures Possible(s, Reply(m, answer)) && Undisturbed(s, Reply(m, answer))
    ensures var f := s.msgs[m].fd;
            var x := s.slots[f];
            After(s, Reply(m, answer)) ==
            s.(msgs := s.msgs[answer := Message(SendQueued, f, s.msgs[answer].num, s.msgs[m].gen)],
               slots := s.slots[f := x.(count := x.count + 1)])
  {
    Takes(s, m, answer);
    var t := Apply(s, TakeAnswer(m, answer));
    Counted(t, answer, m);
    hide Enabled, Apply;
    ThreeSteps(s, TakeAnswer(m, answer), CountAnswer(answer), EnqueueAnswer(answer));
  }

  lemma Takes(s: State, m: Msg, answer: Msg)
    requires s.loop == Ready && Known(s, m) && s.msgs[m].place == Serving && NotAnswering(s, m)
    requires answer in s.msgs && s.msgs[answer].place == Idle
    ensures Enabled(s, TakeAnswer(m, answer))
    ensures Apply(s, TakeAnswer(m, answer)) ==
            s.(msgs := s.msgs[answer := Message(Answer(m), s.msgs[m].fd, s.msgs[answer].num, s.msgs[m].gen)])
  {
  }

  lemma Counted(s: State, answer: Msg, m: Msg)
    requires s.loop == Ready && Known(s, answer) && s.msgs[answer].place == Answer(m)
    ensures Enabled(s, CountAnswer(answer)) && Enabled(Apply(s, CountAnswer(answer)), EnqueueAnswer(answer))
    ensures var f := s.msgs[answer].fd;
            Apply(Apply(s, CountAnswer(answer)), EnqueueAnswer(answer)) ==
            s.(msgs := s.msgs[answer := s.msgs[answer].(place := SendQueued)],
               slots := s.slots[f := s.slots[f].(count := s.slots[f].count + 1)])
  {
  }

  lemma HangsUp(s: State, f: Fd, m: Msg)
    requires s.loop == Ready && f in s.watched && f < |s.slots| && m in s.msgs && s.msgs[m].place == Idle
    requires s.slots[f].count > 0
    ensures Possible(s, Hangup(f, m)) && Undisturbed(s, Hangup(f, m))
    ensures var x := s.slots[f];
            Unlogged(After(s, Hangup(f, m))) ==
            Unlogged(s).(msgs := s.msgs[m := Message(Idle, f, 0, x.gen)], watched := s.watched - {f},
                         slots := s.slots[f := x.(closeRecv := true, phase := Draining)])
  {
    Reads(s, f, m);
    var t := After(s, [Readable(f), Take(m)]);
    Parts(t);
    Settles(Apply(Apply(t, Eof), MarkOffline));
    hide Enabled, Apply, Possible, After, Undisturbed;
    TwoSteps(t, Eof, MarkOffline);
    TwoSteps(After(t, [Eof, MarkOffline]), Settle, Leave);
    Chain(s, [Readable(f), Take(m)], [Eof, MarkOffline]);
    Chain(s, [Readable(f), Take(m)] + [Eof, MarkOffline], [Settle, Leave]);
  }

  lemma Parts(s: State)
    requires s.loop.HasMessage? && s.loop.fd < |s.slots| && Known(s, s.loop.msg)
    ensures Enabled(s, Eof) && Enabled(Apply(s, Eof), MarkOffline)
    ensures var f, m := s.loop.fd, s.loop.msg;
            Unlogged(Apply(Apply(s, Eof), MarkOffline)) ==
            Unlogged(s).(msgs := s.msgs[m := s.msgs[m].(place := Parting)], watched := s.watched - {f},
                         slots := s.slots[f := s.slots[f].(phase := Stopping)], loop := Offline(f, Some(m)))
  {
  }

  lemma Settles(s: State)
    requires s.loop.Offline? && s.loop.fd < |s.slots| && s.loop.held.Some? && Known(s, s.loop.held.value)
    requires s.slots[s.loop.fd].count > 0
    ensures Enabled(s, Settle) && Enabled(Apply(s, Settle), Leave)
    ensures var f, m := s.loop.fd, s.loop.held.value;
            Unlogged(Apply(Apply(s, Settle), Leave)) ==
            Unlogged(s).(msgs := s.msgs[m := s.msgs[m].(place := Idle)], loop := Ready,
                         slots := s.slots[f := s.slots[f].(closeRecv := true, phase := Draining)])
  {
  }

  // ---------- Two connections ----------

  /** Descriptor 0 is served, and an answer to it, message 1, is in the send list; descriptor 1 has been accepted. */
  function Prelude(): seq<Action> {
    Connect(0) + Serve(0, 0) + Reply(0, 1) + Connect(1)
  }

  lemma AfterPrelude() returns (s: State)
    ensures Possible(Initial({0, 1, 2, 3}, 2), Prelude()) && Undisturbed(Initial({0, 1, 2, 3}, 2), Prelude())
    ensures s == After(Initial({0, 1, 2, 3}, 2), Prelude())
    ensures s.loop == Ready && s.sender == Waiting && s.watched == {0, 1} && s.clients == map[0 := 0, 1 := 1]
    ensures s.slots == [Slot(2, false, 1, Open, 0), Slot(0, false, 0, Open, 1)] && s.msgs.Keys == {0, 1, 2, 3}
    ensures s.msgs[0] == Message(Serving, 0, 0, 0) && s.msgs[1] == Message(SendQueued, 0, 0, 0)
    ensures s.msgs[2].place == s.msgs[3].place == Idle
  {
    hide Connect, Serve, Reply, Enabled, Apply, After, Possible, Undisturbed;
    var start := Initial({0, 1, 2, 3}, 2);
    Connects(start, 0);
    var s1 := After(start, Connect(0));
    Serves(s1, 0, 0);
    var s2 := After(s1, Serve(0, 0));
    Chain(start, Connect(0), Serve(0, 0));
    Replies(s2, 0, 1);
    var s3 := After(s2, Reply(0, 1));
    Chain(start, Connect(0) + Serve(0, 0), Reply(0, 1));
    Connects(s3, 1);
    s := After(s3, Connect(1));
    Chain(start, Connect(0) + Serve(0, 0) + Reply(0, 1), Connect(1));
  }

  // ---------- What may happen to the message ----------

  /** The loop thread takes the message for the other connection. */
  lemma TakenByLoop() returns (run: seq<Action>)
    ensures Possible(Initial({0, 1, 2, 3}, 2), run) && Undisturbed(Initial({0, 1, 2, 3}, 2), run)
    ensures var s := After(Initial({0, 1, 2, 3}, 2), run);
            && Enabled(s, SendRelease) && s.sender.fd == 0 && s.msgs[s.sender.msg].fd == 1
            && s.loop == HasMessage(1, s.sender.msg) && !Exact(Apply(s, SendRelease))
  {
    hide Prelude, Possible, After, Undisturbed;
    var start := Initial({0, 1, 2, 3}, 2);
    var s := AfterPrelude();
    Extend(start, Prelude(), Send(1, true));
    var t := Apply(s, Send(1, true));
    Reads(t, 1, 1);
    Chain(start, Prelude() + [Send(1, true)], [Readable(1), Take(1)]);
    run := Prelude() + [Send(1, true)] + [Readable(1), Take(1)];
    NotExactAfter({0, 1, 2, 3}, 2, run);
  }

  /** A handler thread takes it for an answer to the other connection. */
  lemma TakenByHandler() returns (run: seq<Action>)
    ensures Possible(Initial({0, 1, 2, 3}, 2), run) && Undisturbed(Initial({0, 1, 2, 3}, 2), run)
    ensures var s := After(Initial({0, 1, 2, 3}, 2), run);
            && Enabled(s, SendRelease) && s.sender.fd == 0 && s.msgs[s.sender.msg].fd == 1
            && s.msgs[s.sender.msg].place == Answer(2) && !Exact(Apply(s, SendRelease))
  {
    hide Prelude, Serve, Possible, After, Undisturbed;
    var start := Initial({0, 1, 2, 3}, 2);
    var s := AfterPrelude();
    Serves(s, 1, 2);
    var t := After(s, Serve(1, 2));
    Chain(start, Prelude(), Serve(1, 2));
    run := Prelude() + Serve(1, 2);
    Extend(start, run, Send(1, true));
    var u := Apply(t, Send(1, true));
    Takes(u, 2, 1);
    Extend(start, run + [Send(1, true)], TakeAnswer(2, 1));
    run := run + [Send(1, true)] + [TakeAnswer(2, 1)];
    NotExactAfter({0, 1, 2, 3}, 2, run);
  }

  lemma NotExactAfter(messages: set<Msg>, sockets: nat, run: seq<Action>)
    requires Possible(Initial(messages, sockets), run) && Undisturbed(Initial(messages, sockets), run)
    requires var s := After(Initial(messages, sockets), run);
             Enabled(s, SendRelease) && s.msgs[s.sender.msg].fd != s.sender.fd
    ensures !Exact(Apply(After(Initial(messages, sockets), run), SendRelease))
  {
    hide Initial, Inv, Traced, Apply;
    NoFlight(messages, sockets);
    RunKeepsInv(Initial(messages, sockets), run);
    DisturbedIsNotExact(After(Initial(messages, sockets), run), SendRelease);
  }

  /**
   * If that other connection has been disconnected, its counter comes to zero too early: OnClose deletes a client that
   * a handler thread is serving.
   */
  lemma ClosedTooEarly() returns (run: seq<Action>)
    ensures Possible(Initial({0, 1, 2, 3}, 2), run)
    ensures var s := After(Initial({0, 1, 2, 3}, 2), run);
            && OnClose(1, Some(1)) in s.log && 2 in s.msgs && s.msgs[2] == Message(Serving, 1, 0, 1)
            && 1 !in s.clients
  {
    hide Prelude, Serve, Hangup, Possible, After, Undisturbed;
    var start := Initial({0, 1, 2, 3}, 2);
    var s := AfterPrelude();
    Serves(s, 1, 2);
    var t := After(s, Serve(1, 2));
    Chain(start, Prelude(), Serve(1, 2));
    HangsUp(t, 1, 3);
    var u := After(t, Hangup(1, 3));
    Chain(start, Prelude() + Serve(1, 2), Hangup(1, 3));
    run := Prelude() + Serve(1, 2) + Hangup(1, 3);
    Extend(start, run, Send(1, true));
    var v := Apply(u, Send(1, true));
    Takes(v, 2, 1);
    Extend(start, run + [Send(1, true)], TakeAnswer(2, 1));
    run := run + [Send(1, true)] + [TakeAnswer(2, 1)];
    run := ReleaseAndClose(start, run);
  }

  lemma ReleaseAndClose(start: State, before: seq<Action>) returns (run: seq<Action>)
    requires Possible(start, before)
    requires var s := After(start, before);
             && s.loop == Ready && s.sender == Releasing(1, 0) && Known(s, 1) && s.msgs[1].fd == 1 < |s.slots|
             && s.slots[1].count == 1 && s.slots[1].closeRecv && s.slots[1].gen == 1 && Find(s, 1) == Some(1)
    ensures Possible(start, run)
    ensures var s, t := After(start, before), After(start, run);
            t.msgs == s.msgs && 1 !in t.clients && OnClose(1, Some(1)) in t.log
  {
    var s := After(start, before);
    ClosesThen(s);
    hide Enabled, Apply;
    TwoStepsOnly(s, SendRelease, SendOnClose);
    Chain(start, before, [SendRelease, SendOnClose]);
    run := before + [SendRelease, SendOnClose];
  }

  lemma TwoStepsOnly(s: State, a: Action, b: Action)
    requires Enabled(s, a) && Enabled(Apply(s, a), b)
    ensures Possible(s, [a, b]) && After(s, [a, b]) == Apply(Apply(s, a), b)
  {
    hide Enabled, Apply;
    OneStep(s, a);
    OneStep(Apply(s, a), b);
    Chain(s, [a], [b]);
    assert [a] + [b] == [a, b];
  }

  lemma ClosesThen(s: State)
    requires s.loop == Ready && s.sender == Releasing(1, 0) && Known(s, 1) && s.msgs[1].fd == 1 < |s.slots|
    requires s.slots[1].count == 1 && s.slots[1].closeRecv && s.slots[1].gen == 1 && Find(s, 1) == Some(1)
    ensures Enabled(s, SendRelease) && Enabled(Apply(s, SendRelease), SendOnClose)
    ensures var t := Apply(Apply(s, SendRelease), SendOnClose);
            t.msgs == s.msgs && 1 !in t.clients && OnClose(1, Some(1)) in t.log
  {
    var t := Apply(s, SendRelease);
    var e := OnClose(1, Some(1));
    assert Apply(t, SendOnClose).log == s.log + [e];
    assert (s.log + [e])[|s.log|] == e;
  }
}
