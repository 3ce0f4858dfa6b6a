/** How a task that waits on a socket is woken: by `read_waker` for a reader, and by `write_waker` for a
    writer, for a flush and for `open_socket`. Each half of a socket has one task. */
module SocketWakers {
  import opened Bytes
  import opened SocketModel
  import opened Wrappers

  datatype Half = ReadHalf | WriteHalf

  datatype Waiter = Reader | Writer | Flusher | Opening

  function HalfOf(w: Waiter): Half { if w == Reader then ReadHalf else WriteHalf }

  /** The poll of the waiter would not wait for the state to change. */
  predicate Served(w: Waiter, st: State) {
    || st.closed
    || match w
       case Reader => Flat(st.readBuffer) != []
       case Writer => st.acknowledged > 0
       case Flusher => st.acknowledged == st.initialAck
       case Opening => st.remoteId != 0
  }

  /** `handle_message` notifies the waker of this half. */
  predicate Notifies(f: Frame, h: Half) {
    f.Clse? || (if h == ReadHalf then f.Wrte? else f.Okay?)
  }

  /** One half of a socket: `waiter` is what its task last polled for, `registered` says that the waker is
      armed, `checked` that this poll has seen no transport error yet, `parked` that it ended pending, and
      `woken` that the task holds a wake since then. `listed` says whether the table has the socket, and
      `error` and `told` that the transport failed and that this half was told. */
  datatype Waiting = Waiting(
    half: Half,
    st: State,
    waiter: Waiter,
    registered: bool,
    checked: bool,
    parked: bool,
    woken: bool,
    listed: bool,
    error: bool,
    told: bool)

  /** A poll registers its waker, looks at the transport error, and looks at the state under its lock.
      `Message` comes from the table, `Take` and `Spend` are what a read and a write do to the state, and `Close`
      is the close in `poll_shutdown`. The transport error is set first, and the sockets in the table are told
      later. */
  datatype Act =
    | Register(w: Waiter)
    | SeeNoError
    | Look
    | Message(f: Frame)
    | Take(cap: nat)
    | Spend(len: nat)
    | Close
    | SetError
    | TellError

  /** The task of the other half polls at any time; the task of this half only when it is not parked. */
  predicate Runs(m: Waiting, h: Half) { m.half != h || !m.parked }

  predicate Can(m: Waiting, a: Act) {
    match a
    case Register(w) => HalfOf(w) == m.half
    case SeeNoError => m.registered || m.woken
    case Look => m.checked
    case Message(f) => m.listed && !f.Open?
    case Take(_) => Runs(m, ReadHalf)
    case Spend(len) => Runs(m, WriteHalf) && !m.st.closed && len <= m.st.acknowledged
    case Close => Runs(m, WriteHalf) && !m.error && !m.st.closed
    case SetError => !m.error
    case TellError => m.error && m.listed && !m.told
  }

  function Notify(m: Waiting): Waiting {
    if m.registered then m.(registered := false, woken := true) else m
  }

  function Do(m: Waiting, a: Act): Waiting
    requires Can(m, a)
  {
    match a
    case Register(w) => m.(waiter := w, registered := true, checked := false, parked := false, woken := false)
    case SeeNoError => m.(checked := !m.error)
    case Look => m.(checked := false, parked := !Served(m.waiter, m.st))
    case Message(f) =>
      var st := Handle(m.st, f);
      var d := m.(st := st, listed := !st.closed);
      if Notifies(f, m.half) then Notify(d) else d
    case Take(cap) => m.(st := m.st.(readBuffer := Drain(m.st.readBuffer, cap).1))
    case Spend(len) => m.(st := m.st.(acknowledged := m.st.acknowledged - len))
    case Close => m.(st := m.st.(closed := true))
    case SetError => m.(error := true)
    case TellError => Notify(m.(told := true))
  }

  /** A new socket; one made by `accept` knows its peer and its window. */
  function Init(h: Half, remoteId: u32, window: nat): Waiting {
    Waiting(h, State(remoteId, false, [], window, window), if h == ReadHalf then Reader else Writer,
            false, false, false, false, true, false, false)
  }

  function Run(h: Half, remoteId: u32, window: nat, acts: seq<Act>): Option<Waiting> {
    if acts == [] then
      Some(Init(h, remoteId, window))
    else
      var n := |acts| - 1;
      var before := Run(h, remoteId, window, acts[..n]);
      if before.Some? && Can(before.value, acts[n]) then Some(Do(before.value, acts[n])) else None
  }

  /** Since its task last began to poll, this socket was shut down by its own owner. */
  predicate ShutDownSince(acts: seq<Act>) {
    acts != [] && match acts[|acts| - 1]
                  case Register(_) => false
                  case Close => true
                  case _ => ShutDownSince(acts[..|acts| - 1])
  }

  /** A parked task without a wake is registered for the next, has nothing to be told, and what it waits for
      has not come, except that its own socket may have been shut down. */
  ghost predicate Waits(m: Waiting, shutDown: bool) {
    && HalfOf(m.waiter) == m.half
    && (m.told ==> m.error)
    && (m.registered || m.woken || (!m.checked && !m.parked))
    && (m.checked && m.told ==> m.woken)
    && (m.parked && !m.woken ==> !m.told && !Served(m.waiter, m.st.(closed := false)))
    && (m.parked && !m.woken ==> (m.st.closed <==> shutDown))
    && (m.parked && m.half == WriteHalf ==> !shutDown)
    && (shutDown ==> m.st.closed)
  }

  lemma NothingToTake(q: seq<Data>, cap: nat)
    requires Flat(q) == []
    ensures Flat(Drain(q, cap).1) == []
  {
    DrainSplits(q, cap);
  }

  /** A message arrives: it notifies the half that it serves, and closes nothing silently. */
  lemma MessageStep(m: Waiting, a: Act, shutDown: bool)
    requires Waits(m, shutDown) && Can(m, a) && a.Message?
    ensures Waits(Do(m, a), shutDown) && Do(m, a).half == m.half
  {
    if Notifies(a.f, m.half) {
      NotifiedStep(m, a, shutDown);
    } else {
      QuietStep(m, a, shutDown);
    }
  }

  lemma NotifiedStep(m: Waiting, a: Act, shutDown: bool)
    requires Waits(m, shutDown) && Can(m, a) && a.Message? && Notifies(a.f, m.half)
    ensures Waits(Do(m, a), shutDown) && Do(m, a).half == m.half
  {
    assert Do(m, a).registered == false;
  }

  /** A message that does not notify this half does not serve it. */
  lemma QuietStep(m: Waiting, a: Act, shutDown: bool)
    requires Waits(m, shutDown) && Can(m, a) && a.Message? && !Notifies(a.f, m.half)
    ensures Waits(Do(m, a), shutDown) && Do(m, a).half == m.half
  {
    assert Handle(m.st, a.f).closed == m.st.closed;
  }

  /** The owner's tasks read, write and shut down. */
  lemma OwnerStep(m: Waiting, a: Act, shutDown: bool)
    requires Waits(m, shutDown) && Can(m, a) && (a.Take? || a.Spend?)
    ensures Waits(Do(m, a), shutDown) && Do(m, a).half == m.half
  {
    if a.Take? && Flat(m.st.readBuffer) == [] {
      NothingToTake(m.st.readBuffer, a.cap);
    }
  }

  /** A poll goes on, the socket is shut down, or the transport fails. */
  lemma OtherStep(m: Waiting, a: Act, before: bool, after: bool)
    requires Waits(m, before) && Can(m, a) && !a.Message? && !a.Take? && !a.Spend?
    requires after == if a.Register? then false else a.Close? || before
    ensures Waits(Do(m, a), after) && Do(m, a).half == m.half
  {
  }

  lemma WaitsStep(m: Waiting, a: Act, before: bool, after: bool)
    requires Waits(m, before) && Can(m, a)
    requires after == if a.Register? then false else a.Close? || before
    ensures Waits(Do(m, a), after) && Do(m, a).half == m.half
  {
    if a.Message? {
      MessageStep(m, a, before);
    } else if a.Take? || a.Spend? {
      OwnerStep(m, a, before);
    } else {
      OtherStep(m, a, before, after);
    }
  }

  lemma {:induction false} RunWaits(h: Half, remoteId: u32, window: nat, acts: seq<Act>)
    requires Run(h, remoteId, window, acts).Some?
    ensures Waits(Run(h, remoteId, window, acts).value, ShutDownSince(acts))
    ensures Run(h, remoteId, window, acts).value.half == h
  {
    if acts != [] {
      var n := |acts| - 1;
      RunWaits(h, remoteId, window, acts[..n]);
      WaitsStep(Run(h, remoteId, window, acts[..n]).value, acts[n], ShutDownSince(acts[..n]), ShutDownSince(acts));
    }
  }

  /** In every interleaving, a parked task without a wake is registered for the next one and has not been
      passed over: what it waits for - data, credit, a peer, a close - has come only if its own socket was
      shut down meanwhile, and it was told no transport error. That cannot happen to a task that writes,
      flushes or opens: it has a wake once it can go on. */
  lemma WaiterIsWoken(h: Half, remoteId: u32, window: nat, acts: seq<Act>)
    requires Run(h, remoteId, window, acts).Some?
    ensures var m := Run(h, remoteId, window, acts).value;
            && (m.parked && !m.woken ==>
                  m.registered && !m.told && (Served(m.waiter, m.st) <==> ShutDownSince(acts)))
            && (m.parked && h == WriteHalf && (Served(m.waiter, m.st) || m.told) ==> m.woken)
  {
    RunWaits(h, remoteId, window, acts);
    var m := Run(h, remoteId, window, acts).value;
    assert m.st.closed || m.st.(closed := false) == m.st;
  }

  /** The exception is real: a reader finds nothing and parks, the other half shuts the socket down, and nobody
      wakes the reader, although its next poll would end at once. */
  lemma ShutdownWakesNoReader(remoteId: u32, window: nat)
    ensures var acts := [Register(Reader), SeeNoError, Look, Close];
            var r := Run(ReadHalf, remoteId, window, acts);
            r.Some? && r.value.parked && !r.value.woken && Served(Reader, r.value.st)
  {
    var acts := [Register(Reader), SeeNoError, Look, Close];
    assert acts[..3][..2] == acts[..2] && acts[..2][..1] == acts[..1] && acts[..1][..0] == [];
    var m := Init(ReadHalf, remoteId, window);
    assert Run(ReadHalf, remoteId, window, acts[..1]) == Some(Do(m, acts[0]));
    assert Run(ReadHalf, remoteId, window, acts[..2]).Some?;
    assert Run(ReadHalf, remoteId, window, acts[..3]).Some?;
  }
}
