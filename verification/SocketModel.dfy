/** One socket: the fields of `State`, what each message and each poll does to them, and the
    bookkeeping (histories and ledgers) that the protocol theorems speak about. */
module SocketModel {
  import opened Bytes

  const DELAYED_ACK_BYTES: u32 := 32 * 1024 * 1024
  const MAX_PAYLOAD: u32 := 1024 * 1024

  /** The four messages that sockets exchange. `src` is arg0 and `dst` is arg1. */
  datatype Frame =
    | Open(src: u32, window: u32, service: Data)
    | Okay(src: u32, dst: u32, avail: u32)
    | Wrte(src: u32, dst: u32, data: Data)
    | Clse(src: u32, dst: u32)

  /** The mutable fields of a socket, without its timer. */
  datatype State = State(
    remoteId: u32,
    closed: bool,
    readBuffer: seq<Data>,
    initialAck: nat,
    acknowledged: nat)

  /** What one message does to the socket it is addressed to. */
  function Handle(st: State, f: Frame): State
    requires !f.Open?
  {
    match f
    case Okay(src, _, avail) =>
      var known := if st.remoteId == 0 then st.(initialAck := avail, remoteId := src) else st;
      known.(acknowledged := known.acknowledged + avail)
    case Wrte(_, _, data) => st.(readBuffer := st.readBuffer + [data])
    case Clse(_, _) => st.(closed := true)
  }

  /** All bytes of a queue of chunks. */
  function Flat(q: seq<Data>): Data {
    if q == [] then [] else q[0] + Flat(q[1..])
  }

  lemma {:induction false} FlatAppend(q: seq<Data>, d: Data)
    ensures Flat(q + [d]) == Flat(q) + d
  {
    if q == [] {
      assert Flat([d]) == d + Flat([]);
    } else {
      FlatAppend(q[1..], d);
      assert (q + [d])[1..] == q[1..] + [d];
    }
  }

  /** The bytes a read of room `cap` takes from the queue, and the queue it leaves. */
  function Drain(q: seq<Data>, cap: nat): (Data, seq<Data>)
  {
    if cap == 0 || q == [] then
      ([], q)
    else if |q[0]| <= cap then
      var (taken, rest) := Drain(q[1..], cap - |q[0]|);
      (q[0] + taken, rest)
    else
      (q[0][..cap], [q[0][cap..]] + q[1..])
  }

  function Min(a: int, b: int): int { if a <= b then a else b }

  /** A read splits the queued bytes in two and takes as many as fit. */
  lemma {:induction false} DrainSplits(q: seq<Data>, cap: nat)
    ensures Drain(q, cap).0 + Flat(Drain(q, cap).1) == Flat(q)
    ensures |Drain(q, cap).0| == Min(cap, |Flat(q)|)
    ensures |Drain(q, cap).1| <= |q|
  {
    if cap == 0 || q == [] {
    } else if |q[0]| <= cap {
      DrainSplits(q[1..], cap - |q[0]|);
      var (taken, rest) := Drain(q[1..], cap - |q[0]|);
      assert (q[0] + taken) + Flat(rest) == q[0] + (taken + Flat(rest));
    } else {
      var rest := [q[0][cap..]] + q[1..];
      assert rest[1..] == q[1..];
      assert Flat(rest) == q[0][cap..] + Flat(q[1..]);
      assert q[0][..cap] + (q[0][cap..] + Flat(q[1..])) == (q[0][..cap] + q[0][cap..]) + Flat(q[1..]);
      assert q[0][..cap] + q[0][cap..] == q[0];
    }
  }

  /** How much of `buf` one write may send. */
  function WriteLen(st: State, buf: Data): nat {
    Min(Min(|buf|, st.acknowledged), MAX_PAYLOAD)
  }

  /** What a read answers with: an OKAY for the bytes it took, unless the socket is closed. */
  function ReadReply(id: u32, st: State, cap: nat): seq<Frame> {
    var filled := |Drain(st.readBuffer, cap).0|;
    if st.closed || filled == 0 then [] else [Okay(id, st.remoteId, filled % 0x1_0000_0000)]
  }

  /** `poll_flush` answers ready exactly here. */
  predicate FlushReady(st: State) {
    st.acknowledged == st.initialAck
  }

  // ---- A socket with the progress of its owner ------------------------------------------------

  /** Where the owner of the socket stands. `Opening` and `Accepting` are inside `open_socket` and
      `PendingSocket::accept`; `Flushed` and `Sending` are inside `poll_shutdown`, after its flush and
      after its state change; `Dropped` has lost its handle. */
  datatype Phase = Opening | Accepting | Held | Flushed | Sending | Dropped

  /** Who closed the socket first. */
  datatype Closer = Nobody | Local | Peer

  datatype Origin = Opened | Accepted

  /** `pend` is the message of a `write_message_async` (or of the last step of `poll_shutdown`) not yet
      on the wire; `listed` says whether the table still holds the socket. `written` and `received`
      record what the owner wrote and read. The three counters record credit that never comes back:
      bytes read after a close, bytes that arrived after removal from the table, and acknowledgments
      that arrived after removal. */
  datatype Sock = Sock(
    id: u32,
    origin: Origin,
    st: State,
    phase: Phase,
    pend: seq<Frame>,
    listed: bool,
    written: Data,
    received: Data,
    unacked: nat,
    discarded: nat,
    ackDiscarded: nat,
    closer: Closer)

  function OpenedSock(id: u32, service: Data): Sock {
    Sock(id, Opened, State(0, false, [], 0, 0), Opening, [Open(id, DELAYED_ACK_BYTES, service)],
         true, [], [], 0, 0, 0, Nobody)
  }

  function AcceptedSock(id: u32, remote: u32, window: u32): Sock {
    Sock(id, Accepted, State(remote, false, [], window, window), Accepting,
         [Okay(id, remote, DELAYED_ACK_BYTES)], true, [], [], 0, 0, 0, Nobody)
  }

  /** Everything that has reached this end for its reader. */
  function Arrived(s: Sock): Data {
    s.received + Flat(s.st.readBuffer)
  }

  /** The owner's steps. `Emit` puts the pending message on the wire; `Return` ends `open_socket`;
      `FlushOk`, `Finish` and then `Emit` are the three lock sections of `poll_shutdown`. If the transport
      fails before the last one, the shutdown ends in an error and the socket can only be dropped. A read that
      finds nothing on an open socket waits: it changes nothing and is no step. */
  datatype Op =
    | Emit
    | Return
    | Read(cap: nat)
    | Write(buf: Data)
    | FlushOk
    | Finish
    | Drop

  predicate Can(s: Sock, op: Op, failed: bool) {
    match op
    case Emit => |s.pend| == 1 && !failed
    case Return => s.phase == Opening && s.pend == [] && s.st.remoteId != 0 && !failed
    case Read(cap) => s.phase == Held && !failed && (s.st.closed || (cap > 0 && s.st.readBuffer != []))
    case Write(_) => s.phase == Held && !failed && !s.st.closed && s.st.acknowledged > 0
    case FlushOk => s.phase == Held && !failed && FlushReady(s.st)
    case Finish => s.phase == Flushed
    case Drop => s.phase in {Opening, Accepting, Held} || (s.phase == Sending && failed)
  }

  /** A read that cannot be made would take and send nothing. */
  lemma WaitingReadsNothing(s: Sock, cap: nat)
    requires s.phase == Held && !Can(s, Read(cap), false)
    ensures Drain(s.st.readBuffer, cap) == ([], s.st.readBuffer) && ReadReply(s.id, s.st, cap) == []
  {
  }

  /** What the step puts on the wire: nothing or one frame. */
  function Sends(s: Sock, op: Op): seq<Frame> {
    match op
    case Emit => s.pend
    case Read(cap) => ReadReply(s.id, s.st, cap)
    case Write(buf) => [Wrte(s.id, s.st.remoteId, buf[..WriteLen(s.st, buf)])]
    case _ => []
  }

  /** The shutdown that `poll_shutdown` and the destructor share: it closes an open socket of a live
      transport and leaves a CLSE to send. */
  function Shutdown(s: Sock, failed: bool): Sock {
    if failed || s.st.closed then s.(pend := [])
    else s.(st := s.st.(closed := true), closer := Local, pend := [Clse(s.id, s.st.remoteId)])
  }

  function After(s: Sock, op: Op, failed: bool): Sock {
    match op
    case Emit =>
      s.(pend := [], phase := if s.phase in {Accepting, Sending} then Held else s.phase)
    case Return => s.(phase := Held)
    case Read(cap) =>
      var (taken, rest) := Drain(s.st.readBuffer, cap);
      s.(st := s.st.(readBuffer := rest), received := s.received + taken,
         unacked := if s.st.closed then s.unacked + |taken| else s.unacked)
    case Write(buf) =>
      var len := WriteLen(s.st, buf);
      s.(st := s.st.(acknowledged := s.st.acknowledged - len), written := s.written + buf[..len])
    case FlushOk => s.(phase := Flushed)
    case Finish =>
      var t := Shutdown(s, failed);
      t.(phase := if t.pend == [] then Held else Sending)
    case Drop => Shutdown(s, failed).(phase := Dropped, listed := false)
  }

  /** `n` is at most each of three limits, and reaches one of them. */
  predicate Fullest(n: nat, buf: Data, credit: nat) {
    && n <= |buf| && n <= credit && n <= 1_048_576
    && (n == |buf| || n == credit || n == 1_048_576)
  }

  /** A write sends one WRTE with the front of the buffer, as long as the buffer, the credit and one message of
      1 MiB allow, and pays for it with credit. */
  lemma WriteIsFull(s: Sock, buf: Data)
    requires Can(s, Write(buf), false)
    ensures exists n: nat ::
              && Fullest(n, buf, s.st.acknowledged)
              && Sends(s, Write(buf)) == [Wrte(s.id, s.st.remoteId, buf[..n])]
              && After(s, Write(buf), false).st.acknowledged == s.st.acknowledged - n
              && After(s, Write(buf), false).written == s.written + buf[..n]
  {
    assert Fullest(WriteLen(s.st, buf), buf, s.st.acknowledged);
  }

  /** A frame addressed to this socket reaches its endpoint: the table applies it and then forgets a
      closed socket; an unlisted socket never sees it. */
  function Deliver(s: Sock, f: Frame): Sock
    requires !f.Open?
  {
    if s.listed then
      var st := Handle(s.st, f);
      s.(st := st, listed := !st.closed,
         closer := if f.Clse? && s.closer == Nobody then Peer else s.closer)
    else
      match f
      case Wrte(_, _, data) => s.(discarded := s.discarded + |data|)
      case Okay(_, _, avail) => s.(ackDiscarded := s.ackDiscarded + avail)
      case Clse(_, _) => s
  }
}
