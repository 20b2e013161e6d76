/**
 * How TcpServer and its observer CamShareMiddleware share connections between threads: the loop thread accepts, reads
 * and disconnects; any number of handler threads serve received messages and queue answers; the send thread sends
 * them. Every section under a mutex is one step, and the steps of the threads interleave in every possible way.
 *
 * The message lists are kept as the places messages are in, and any message of a list may be popped, which includes
 * the front. A handler thread is the message it holds. What recv, send and accept return is part of the action.
 */
module TcpProtocol {
  import opened Common

  type Fd = nat
  type Msg = nat
  type Gen = nat   // numbers connections in the order they are accepted

  /** Where a message is. */
  datatype Place =
    | Idle               // in the idle list
    | Read               // popped by Recv_Callback for its fd
    | ReadCounted        // counted, not yet in the handle list
    | Parting            // held by OnDisconnect
    | Queued             // in the handle list
    | Handling           // popped by a handler thread
    | Serving            // in OnRecvMessage, with the client found in the map
    | Missing            // in OnRecvMessage, no client found
    | Answer(to: Msg)          // popped by SendRespond2Client while serving message to
    | AnswerCounted(to: Msg)   // counted, not yet in the send list
    | SendQueued         // in the send list
    | Closing            // held by the handler thread that has to call OnClose
    | Erased             // held by the handler thread that has to close the socket
    | Returning          // about to go back to the idle list

  datatype Message = Message(place: Place, fd: Fd, num: nat, gen: Gen)

  /** Who closes a connection: the loop thread, the handler thread that holds a message, or the send thread. */
  datatype Closer = LoopThread | Handler(msg: Msg) | SendThread

  /** How far a connection is; who closes it, if it is being closed. */
  datatype Phase =
    | Free | Resetting | Inserted | Open | Stopping | Draining | OnClosing(closer: Closer) | Closable(closer: Closer)

  /** An index of mpHandlingMessageCount, mpCloseRecv and mpPacketSeqRecv; phase and gen are for the proof only. */
  datatype Slot = Slot(count: int, closeRecv: bool, recvSeq: nat, phase: Phase, gen: Gen)

  datatype Loop =
    | Ready
    | Accepting(fd: Fd)                           // counters reset
    | Accepted(fd: Fd)                            // OnAccept done
    | Reading(fd: Fd)                             // in the loop of Recv_Callback
    | HasMessage(fd: Fd, msg: Msg)
    | Counted(fd: Fd, msg: Msg)
    | Dropping(fd: Fd, held: Option<Msg>)         // OnDisconnect, watcher stopped
    | Offline(fd: Fd, held: Option<Msg>)          // the observer has marked the client
    | LoopClosing(fd: Fd, held: Option<Msg>)      // has to call OnClose
    | LoopErased(fd: Fd, held: Option<Msg>)       // has to close the socket
    | Leaving(held: Option<Msg>)

  /** Where the send thread is. */
  datatype Sender =
    | Waiting
    | Releasing(msg: Msg, fd: Fd)   // msg, sent to fd, is back in the idle list; the counter is not yet decremented
    | SendClosing(fd: Fd)           // has to call OnClose
    | SendErased(fd: Fd)            // has to close the socket

  /** What can be seen from outside. A client is named by its connection. */
  datatype Event =
    | Accept(gen: Gen)
    | Receive(gen: Gen, num: nat)                    // a packet gets its number
    | Serve(gen: Gen, num: nat, client: Option<Gen>) // a handler looks up the client of a packet
    | Sent(gen: Gen, client: Option<Gen>)            // OnSendMessage looks up the client
    | Disconnected(gen: Gen, client: Option<Gen>)    // OnDisconnect looks up the client
    | OnClose(gen: Gen, client: Option<Gen>)         // OnClose deletes the client it finds
    | Close(gen: Gen)                                // close(fd)

  datatype State = State(
    msgs: map<Msg, Message>,
    slots: seq<Slot>,
    clients: map<Fd, Gen>,    // mClientMap
    watched: set<Fd>,         // active read watchers
    open: set<Fd>,            // descriptors the kernel has given out
    loop: Loop,
    sender: Sender,
    fds: seq<Fd>,             // the descriptor of every connection accepted so far
    log: seq<Event>)

  datatype Action =
    | AcceptReset(fd: Fd) | AcceptInsert | Watch | Refuse
    | Readable(fd: Fd) | Take(msg: Msg) | Overload(more: bool) | Again | Count | Enqueue(more: bool) | Eof
    | MarkOffline | Settle | LoopOnClose | LoopClose | Leave
    | Begin(msg: Msg) | Lookup(msg: Msg) | TakeAnswer(to: Msg, msg: Msg) | CountAnswer(msg: Msg)
    | EnqueueAnswer(msg: Msg) | Finish(msg: Msg) | HandlerOnClose(msg: Msg) | HandlerClose(msg: Msg) | Return(msg: Msg)
    | Send(msg: Msg, sent: bool) | SendRelease | SendOnClose | SendClose

  // ---------- The steps ----------

  function Find(s: State, f: Fd): Option<Gen> {
    if f in s.clients then Some(s.clients[f]) else None
  }

  function Put(s: State, m: Msg, p: Place): State
    requires m in s.msgs
  {
    s.(msgs := s.msgs[m := s.msgs[m].(place := p)])
  }

  function SetSlot(s: State, f: Fd, x: Slot): State
    requires f < |s.slots|
  {
    s.(slots := s.slots[f := x])
  }

  function Log(s: State, e: Event): State {
    s.(log := s.log + [e])
  }

  function At(s: State, m: Msg): Option<Place> {
    if m in s.msgs then Some(s.msgs[m].place) else None
  }

  /** The message is there and its descriptor is in range. */
  predicate Known(s: State, m: Msg) {
    m in s.msgs && s.msgs[m].fd < |s.slots|
  }

  predicate HeldKnown(s: State, held: Option<Msg>) {
    held.Some? ==> Known(s, held.value)
  }

  predicate LoopKnown(s: State) {
    match s.loop
    case Ready => true
    case Accepting(f) => f < |s.slots|
    case Accepted(f) => f < |s.slots|
    case Reading(f) => f < |s.slots|
    case HasMessage(f, m) => f < |s.slots| && Known(s, m)
    case Counted(f, m) => f < |s.slots| && Known(s, m)
    case Dropping(f, held) => f < |s.slots| && HeldKnown(s, held)
    case Offline(f, held) => f < |s.slots| && HeldKnown(s, held)
    case LoopClosing(f, held) => f < |s.slots| && HeldKnown(s, held)
    case LoopErased(f, held) => f < |s.slots| && HeldKnown(s, held)
    case Leaving(held) => HeldKnown(s, held)
  }

  /** No answer to message m is being prepared, so the thread that holds m is not in SendRespond2Client. */
  predicate NotAnswering(s: State, m: Msg) {
    forall a :: a in s.msgs ==> s.msgs[a].place != Answer(m) && s.msgs[a].place != AnswerCounted(m)
  }

  /** The thread that has to make the step is where the step starts. */
  predicate Enabled(s: State, a: Action) {
    && LoopKnown(s)
    && match a
       case AcceptReset(f) => s.loop == Ready && f !in s.open && f < |s.slots|
       case AcceptInsert => s.loop.Accepting?
       case Watch => s.loop.Accepted?
       case Refuse => s.loop.Accepted?
       case Readable(f) => s.loop == Ready && f in s.watched && f < |s.slots|
       case Take(m) => s.loop.Reading? && At(s, m) == Some(Idle)
       case Overload(_) => s.loop.HasMessage?
       case Again => s.loop.HasMessage?
       case Count => s.loop.HasMessage?
       case Enqueue(_) => s.loop.Counted?
       case Eof => s.loop.HasMessage?
       case MarkOffline => s.loop.Dropping?
       case Settle => s.loop.Offline?
       case LoopOnClose => s.loop.LoopClosing?
       case LoopClose => s.loop.LoopErased?
       case Leave => s.loop.Leaving?
       case Begin(m) => Known(s, m) && s.msgs[m].place == Queued
       case Lookup(m) => Known(s, m) && s.msgs[m].place == Handling
       case TakeAnswer(q, m) =>
         Known(s, q) && s.msgs[q].place == Serving && NotAnswering(s, q) && At(s, m) == Some(Idle)
       case CountAnswer(m) => Known(s, m) && s.msgs[m].place.Answer?
       case EnqueueAnswer(m) => Known(s, m) && s.msgs[m].place.AnswerCounted?
       case Finish(m) => Known(s, m) && s.msgs[m].place in {Serving, Missing} && NotAnswering(s, m)
       case HandlerOnClose(m) => Known(s, m) && s.msgs[m].place == Closing
       case HandlerClose(m) => Known(s, m) && s.msgs[m].place == Erased
       case Return(m) => At(s, m) == Some(Returning)
       case Send(m, _) => s.sender == Waiting && Known(s, m) && s.msgs[m].place == SendQueued
       case SendRelease => s.sender.Releasing? && Known(s, s.sender.msg)
       case SendOnClose => s.sender.SendClosing? && s.sender.fd < |s.slots|
       case SendClose => s.sender.SendErased? && s.sender.fd < |s.slots|
  }

  function PutHeld(s: State, held: Option<Msg>, p: Place): State
    requires HeldKnown(s, held)
  {
    if held.Some? then Put(s, held.value, p) else s
  }

  /** OnClose: the client in the map, if any, is deleted. */
  function EraseClient(s: State, f: Fd, closer: Closer): State
    requires f < |s.slots|
  {
    Log(SetSlot(s, f, s.slots[f].(phase := Closable(closer))), OnClose(s.slots[f].gen, Find(s, f)))
      .(clients := s.clients - {f})
  }

  /** close(fd) */
  function CloseFd(s: State, f: Fd): State
    requires f < |s.slots|
  {
    Log(SetSlot(s, f, s.slots[f].(phase := Free)), Close(s.slots[f].gen)).(open := s.open - {f})
  }

  /** The decrement of CloseSocketIfNeedByHandleThread: the last message of a disconnected socket closes it. */
  function Release(s: State, f: Fd, closer: Closer): State
    requires f < |s.slots|
  {
    var x := s.slots[f].(count := s.slots[f].count - 1);
    SetSlot(s, f, if x.count == 0 && x.closeRecv then x.(phase := OnClosing(closer)) else x)
  }

  predicate MustClose(s: State, f: Fd)
    requires f < |s.slots|
  {
    s.slots[f].count == 1 && s.slots[f].closeRecv
  }

  function Apply(s: State, a: Action): State
    requires Enabled(s, a)
  {
    match a
    case AcceptReset(f) =>
      Log(SetSlot(s, f, Slot(0, false, 0, Resetting, |s.fds|)), Accept(|s.fds|))
        .(open := s.open + {f}, fds := s.fds + [f], loop := Accepting(f))
    case AcceptInsert =>
      var f := s.loop.fd;   // KSafeMap::Insert keeps an element that is there already
      SetSlot(s, f, s.slots[f].(phase := Inserted))
        .(clients := if f in s.clients then s.clients else s.clients[f := s.slots[f].gen], loop := Accepted(f))
    case Watch =>
      var f := s.loop.fd;
      SetSlot(s, f, s.slots[f].(phase := Open)).(watched := s.watched + {f}, loop := Ready)
    case Refuse =>
      var f := s.loop.fd;   // no watcher left: Disconnect and OnDisconnect without a message
      SetSlot(s, f, s.slots[f].(phase := Stopping)).(loop := Dropping(f, None))
    case Readable(f) => s.(loop := Reading(f))
    case Take(m) =>
      var f := s.loop.fd;
      s.(msgs := s.msgs[m := Message(Read, f, 0, s.slots[f].gen)], loop := HasMessage(f, m))
    case Overload(more) => Put(s, s.loop.msg, Idle).(loop := if more then Reading(s.loop.fd) else Ready)
    case Again => Put(s, s.loop.msg, Idle).(loop := Ready)
    case Count =>
      var f := s.loop.fd;
      Put(SetSlot(s, f, s.slots[f].(count := s.slots[f].count + 1)), s.loop.msg, ReadCounted)
        .(loop := Counted(f, s.loop.msg))
    case Enqueue(more) =>
      var f, m := s.loop.fd, s.loop.msg;
      var x := s.slots[f];
      Log(SetSlot(s, f, x.(recvSeq := x.recvSeq + 1)), Receive(s.msgs[m].gen, x.recvSeq))
        .(msgs := s.msgs[m := s.msgs[m].(place := Queued, num := x.recvSeq)],
          loop := if more then Reading(f) else Ready)
    case Eof =>
      var f, m := s.loop.fd, s.loop.msg;
      Put(SetSlot(s, f, s.slots[f].(phase := Stopping)), m, Parting)
        .(watched := s.watched - {f}, loop := Dropping(f, Some(m)))
    case MarkOffline =>
      var f := s.loop.fd;
      Log(s, Disconnected(s.slots[f].gen, Find(s, f))).(loop := Offline(f, s.loop.held))
    case Settle =>
      var f := s.loop.fd;
      if s.slots[f].count == 0 then
        SetSlot(s, f, s.slots[f].(phase := OnClosing(LoopThread))).(loop := LoopClosing(f, s.loop.held))
      else
        SetSlot(s, f, s.slots[f].(closeRecv := true, phase := Draining)).(loop := Leaving(s.loop.held))
    case LoopOnClose => EraseClient(s, s.loop.fd, LoopThread).(loop := LoopErased(s.loop.fd, s.loop.held))
    case LoopClose => CloseFd(s, s.loop.fd).(loop := Leaving(s.loop.held))
    case Leave => PutHeld(s, s.loop.held, Idle).(loop := Ready)
    case Begin(m) => Put(s, m, Handling)
    case Lookup(m) =>
      var c := Find(s, s.msgs[m].fd);
      Log(Put(s, m, if c.Some? then Serving else Missing), Serve(s.msgs[m].gen, s.msgs[m].num, c))
    case TakeAnswer(q, m) =>
      s.(msgs := s.msgs[m := Message(Answer(q), s.msgs[q].fd, s.msgs[m].num, s.msgs[q].gen)])
    case CountAnswer(m) =>
      var f := s.msgs[m].fd;
      Put(SetSlot(s, f, s.slots[f].(count := s.slots[f].count + 1)), m, AnswerCounted(s.msgs[m].place.to))
    case EnqueueAnswer(m) => Put(s, m, SendQueued)
    case Finish(m) =>
      var f := s.msgs[m].fd;
      Put(Release(s, f, Handler(m)), m, if MustClose(s, f) then Closing else Returning)
    case HandlerOnClose(m) => Put(EraseClient(s, s.msgs[m].fd, Handler(m)), m, Erased)
    case HandlerClose(m) => Put(CloseFd(s, s.msgs[m].fd), m, Returning)
    case Return(m) => Put(s, m, Idle)
    case Send(m, sent) =>   // up to the return of the message, whose descriptor fd has been saved before
      Put(if sent then Log(s, Sent(s.msgs[m].gen, Find(s, s.msgs[m].fd))) else s, m, Idle)
        .(sender := Releasing(m, s.msgs[m].fd))
    case SendRelease =>     // the last statement reads the descriptor of the message again
      var f := s.msgs[s.sender.msg].fd;
      Release(s, f, SendThread).(sender := if MustClose(s, f) then SendClosing(f) else Waiting)
    case SendOnClose => EraseClient(s, s.sender.fd, SendThread).(sender := SendErased(s.sender.fd))
    case SendClose => CloseFd(s, s.sender.fd).(sender := Waiting)
  }

  // ---------- Runs ----------

  /** All messages idle, descriptors below sockets, nothing accepted yet. */
  function Initial(messages: set<Msg>, sockets: nat): State {
    State(map m | m in messages :: Message(Idle, 0, 0, 0), seq(sockets, _ => Slot(0, false, 0, Free, 0)),
          map[], {}, {}, Ready, Waiting, [], [])
  }

  predicate Possible(s: State, run: seq<Action>)
    decreases |run|
  {
    run == [] || (Enabled(s, run[0]) && Possible(Apply(s, run[0]), run[1..]))
  }

  function After(s: State, run: seq<Action>): State
    requires Possible(s, run)
    decreases |run|
  {
    if run == [] then s else After(Apply(s, run[0]), run[1..])
  }
}
