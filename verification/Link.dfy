/** One connection between two sockets, with the wire in each direction: the byte pipe that the
    multiplexed transport has to provide for each of its sockets. */
module Link {
  import opened Bytes
  import opened SocketModel
  import opened Wrappers

  /** The frames that left one end: already delivered, in flight, and lost when the end failed. */
  datatype Wire = Wire(done: seq<Frame>, flight: seq<Frame>, lost: seq<Frame>)

  function Sent(w: Wire): seq<Frame> { w.done + w.flight + w.lost }

  function Push(w: Wire, fs: seq<Frame>): Wire { w.(flight := w.flight + fs) }

  function Pop(w: Wire): Wire
    requires w.flight != []
  {
    w.(done := w.done + [w.flight[0]], flight := w.flight[1..])
  }

  /** The transport of this end fails: only the first `keep` frames in flight still arrive. */
  function Cut(w: Wire, keep: nat): Wire
    requires keep <= |w.flight|
  {
    w.(flight := w.flight[..keep], lost := w.flight[keep..] + w.lost)
  }

  /** What became of an OPEN at the end that received it. */
  datatype Request = Waiting(window: u32) | Refusing | Refused | Forgotten | Taken(local: u32)

  /** Which end: the one that opened the connection or the one that accepts it. */
  datatype End = Opener | Acceptor

  /** The opener `o` and the acceptor `a`, the wires out of each, and the request at the far end. */
  datatype Link = Link(
    o: Option<Sock>,
    a: Option<Sock>,
    req: Option<Request>,
    oa: Wire,
    ao: Wire,
    oFailed: bool,
    aFailed: bool)

  function NoWire(): Wire { Wire([], [], []) }

  /** Nothing has happened on this connection yet; the transports may have failed already. */
  predicate Fresh(c: Link) {
    c.o == None && c.a == None && c.req == None && c.oa == NoWire() && c.ao == NoWire()
  }

  datatype Step =
    | Start(id: u32, service: Data)
    | Do(e: End, op: Op)
    | Arrive(from: End)
    | Take(id: u32)
    | Refuse
    | SendRefusal
    | Forget
    | Fail(e: End, keep: nat)

  predicate CanStep(c: Link, s: Step) {
    match s
    case Start(id, _) => Fresh(c) && !c.oFailed && id != 0
    case Do(Opener, op) => c.o.Some? && Can(c.o.value, op, c.oFailed)
    case Do(Acceptor, op) => c.a.Some? && Can(c.a.value, op, c.aFailed)
    case Arrive(Opener) => c.oa.flight != [] && !c.aFailed
    case Arrive(Acceptor) => c.ao.flight != [] && !c.oFailed
    case Take(id) => c.req.Some? && c.req.value.Waiting? && id != 0 && c.o.Some?
    case Refuse => c.req.Some? && c.req.value.Waiting?
    case SendRefusal => c.req.Some? && c.req.value.Refusing? && !c.aFailed && c.o.Some?
    case Forget => c.req.Some? && (c.req.value.Waiting? || c.req.value.Refusing?)
    case Fail(Opener, keep) => !c.oFailed && keep <= |c.oa.flight|
    case Fail(Acceptor, keep) => !c.aFailed && keep <= |c.ao.flight|
  }

  /** The far end takes the next frame of the opener: an OPEN becomes a request, and a frame for the
      accepted socket goes to it. A frame for anything else is dropped. */
  function ArriveFar(c: Link): Link
    requires c.oa.flight != []
  {
    var f := c.oa.flight[0];
    var d := c.(oa := Pop(c.oa));
    if f.Open? then d.(req := Some(Waiting(f.window)))
    else if c.a.Some? && c.a.value.id == f.dst then d.(a := Some(Deliver(c.a.value, f)))
    else d
  }

  function ArriveNear(c: Link): Link
    requires c.ao.flight != []
  {
    var f := c.ao.flight[0];
    var d := c.(ao := Pop(c.ao));
    if !f.Open? && c.o.Some? && c.o.value.id == f.dst then d.(o := Some(Deliver(c.o.value, f))) else d
  }

  function Next(c: Link, s: Step): Link
    requires CanStep(c, s)
  {
    match s
    case Start(id, service) => c.(o := Some(OpenedSock(id, service)))
    case Do(Opener, op) =>
      c.(o := Some(After(c.o.value, op, c.oFailed)), oa := Push(c.oa, Sends(c.o.value, op)))
    case Do(Acceptor, op) =>
      c.(a := Some(After(c.a.value, op, c.aFailed)), ao := Push(c.ao, Sends(c.a.value, op)))
    case Arrive(Opener) => ArriveFar(c)
    case Arrive(Acceptor) => ArriveNear(c)
    case Take(id) =>
      c.(req := Some(Taken(id)), a := Some(AcceptedSock(id, c.o.value.id, c.req.value.window)))
    case Refuse => c.(req := Some(Refusing))
    case SendRefusal => c.(req := Some(Refused), ao := Push(c.ao, [Clse(0, c.o.value.id)]))
    case Forget => c.(req := Some(Forgotten))
    case Fail(Opener, keep) => c.(oFailed := true, oa := Cut(c.oa, keep))
    case Fail(Acceptor, keep) => c.(aFailed := true, ao := Cut(c.ao, keep))
  }
}
