/** Two endpoints that share one message connection for any number of sockets, as a step system, and
    what one connection sees of it. */
module Multiplex {
  import opened Bytes
  import opened SocketModel
  import opened Wrappers
  import opened Link

  /** One transport: every socket ever created under its local id, the OPENs received, the number of
      local ids handed out, and whether the transport has failed. */
  datatype Endpoint = Endpoint(
    socks: map<u32, Sock>,
    req: map<u32, Request>,
    allocs: nat,
    failed: bool)

  datatype Side = Left | Right

  function Other(s: Side): Side { if s == Left then Right else Left }

  /** The endpoints and the wire out of each. */
  datatype Mux = Mux(l: Endpoint, r: Endpoint, lw: Wire, rw: Wire)

  function At(m: Mux, s: Side): Endpoint { if s == Left then m.l else m.r }
  function Out(m: Mux, s: Side): Wire { if s == Left then m.lw else m.rw }

  function SetAt(m: Mux, s: Side, e: Endpoint): Mux {
    if s == Left then m.(l := e) else m.(r := e)
  }

  function SetOut(m: Mux, s: Side, w: Wire): Mux {
    if s == Left then m.(lw := w) else m.(rw := w)
  }

  function Init(): Mux {
    var e := Endpoint(map[], map[], 0, false);
    Mux(e, e, NoWire(), NoWire())
  }

  /** `last_id.fetch_add`: the counter starts at 1 and wraps. */
  function NextId(e: Endpoint): u32 { (1 + e.allocs) % 0x1_0000_0000 }

  function AddSock(e: Endpoint, k: Sock): Endpoint {
    e.(socks := e.socks[NextId(e) := k], allocs := e.allocs + 1)
  }

  datatype Act =
    | OpenSocket(s: Side, service: Data)
    | Local(s: Side, id: u32, op: Op)
    | Transfer(s: Side)
    | Accept(s: Side, remote: u32)
    | Reject(s: Side, remote: u32)
    | SendReject(s: Side, remote: u32)
    | Abandon(s: Side, remote: u32)
    | Break(s: Side, keep: nat)

  predicate CanAct(m: Mux, act: Act) {
    var e := At(m, act.s);
    match act
    case OpenSocket(_, _) => !e.failed
    case Local(_, id, op) => id in e.socks && Can(e.socks[id], op, e.failed)
    case Transfer(s) => Out(m, s).flight != [] && !At(m, Other(s)).failed
    case Accept(_, remote) => remote in e.req && e.req[remote].Waiting?
    case Reject(_, remote) => remote in e.req && e.req[remote].Waiting?
    case SendReject(_, remote) => remote in e.req && e.req[remote].Refusing? && !e.failed
    case Abandon(_, remote) => remote in e.req && (e.req[remote].Waiting? || e.req[remote].Refusing?)
    case Break(s, keep) => !e.failed && keep <= |Out(m, s).flight|
  }

  /** The reader task of an endpoint takes one message. */
  function Receive(e: Endpoint, f: Frame): Endpoint {
    if f.Open? then e.(req := e.req[f.src := Waiting(f.window)])
    else if f.dst in e.socks then e.(socks := e.socks[f.dst := Deliver(e.socks[f.dst], f)])
    else e
  }

  function DoAct(m: Mux, act: Act): Mux
    requires CanAct(m, act)
  {
    var e, w := At(m, act.s), Out(m, act.s);
    match act
    case OpenSocket(s, service) => SetAt(m, s, AddSock(e, OpenedSock(NextId(e), service)))
    case Local(s, id, op) =>
      var k := e.socks[id];
      SetOut(SetAt(m, s, e.(socks := e.socks[id := After(k, op, e.failed)])), s, Push(w, Sends(k, op)))
    case Transfer(s) =>
      SetOut(SetAt(m, Other(s), Receive(At(m, Other(s)), w.flight[0])), s, Pop(w))
    case Accept(s, remote) =>
      var id := NextId(e);
      var known := AddSock(e, AcceptedSock(id, remote, e.req[remote].window));
      SetAt(m, s, known.(req := e.req[remote := Taken(id)]))
    case Reject(s, remote) => SetAt(m, s, e.(req := e.req[remote := Refusing]))
    case SendReject(s, remote) =>
      SetOut(SetAt(m, s, e.(req := e.req[remote := Refused])), s, Push(w, [Clse(0, remote)]))
    case Abandon(s, remote) => SetAt(m, s, e.(req := e.req[remote := Forgotten]))
    case Break(s, keep) => SetOut(SetAt(m, s, e.(failed := true)), s, Cut(w, keep))
  }

  /** The state after a list of actions, unless one of them was not possible. */
  function Run(acts: seq<Act>): Option<Mux> {
    if acts == [] then
      Some(Init())
    else
      var n := |acts| - 1;
      var before := Run(acts[..n]);
      if before.Some? && CanAct(before.value, acts[n]) then Some(DoAct(before.value, acts[n])) else None
  }

  /** Fewer than 2^32 local ids were handed out at either end. */
  predicate IdsLast(m: Mux) {
    m.l.allocs < 0x1_0000_0000 && m.r.allocs < 0x1_0000_0000
  }

  // ---- What one connection sees ---------------------------------------------------------------

  /** The frames of one connection: those its opener sent, or those sent to its opener. */
  datatype Sel = BySrc(id: u32) | ByDst(id: u32)

  predicate Picks(sel: Sel, f: Frame) {
    match sel
    case BySrc(id) => f.src == id
    case ByDst(id) => !f.Open? && f.dst == id
  }

  function Pick(w: seq<Frame>, sel: Sel): seq<Frame> {
    if w == [] then [] else (if Picks(sel, w[0]) then [w[0]] else []) + Pick(w[1..], sel)
  }

  function PickWire(w: Wire, sel: Sel): Wire {
    Wire(Pick(w.done, sel), Pick(w.flight, sel), Pick(w.lost, sel))
  }

  function Find(socks: map<u32, Sock>, id: u32): Option<Sock> {
    if id in socks then Some(socks[id]) else None
  }

  /** The connection that side `s` opened under local id `id`. */
  function Project(m: Mux, s: Side, id: u32): Link {
    var near, far := At(m, s), At(m, Other(s));
    var req := if id in far.req then Some(far.req[id]) else None;
    Link(Find(near.socks, id),
         if req.Some? && req.value.Taken? then Find(far.socks, req.value.local) else None,
         req,
         PickWire(Out(m, s), BySrc(id)),
         PickWire(Out(m, Other(s)), ByDst(id)),
         near.failed,
         far.failed)
  }

  /** The part an action plays in that connection, if any. */
  function StepOf(m: Mux, act: Act, s: Side, id: u32): Option<Step>
    requires CanAct(m, act)
  {
    var e, w := At(m, act.s), Out(m, act.s);
    var ours := act.s == s;
    match act
    case OpenSocket(_, service) => if ours && NextId(e) == id then Some(Start(id, service)) else None
    case Local(_, x, op) =>
      if ours then
        if x == id then Some(Do(Opener, op)) else None
      else if e.socks[x].origin == Accepted && e.socks[x].st.remoteId == id then Some(Do(Acceptor, op))
      else None
    case Transfer(_) =>
      if ours then
        if Picks(BySrc(id), w.flight[0]) then Some(Arrive(Opener)) else None
      else if Picks(ByDst(id), w.flight[0]) then Some(Arrive(Acceptor))
      else None
    case Accept(_, remote) => if !ours && remote == id then Some(Take(NextId(e))) else None
    case Reject(_, remote) => if !ours && remote == id then Some(Refuse) else None
    case SendReject(_, remote) => if !ours && remote == id then Some(SendRefusal) else None
    case Abandon(_, remote) => if !ours && remote == id then Some(Forget) else None
    case Break(_, keep) =>
      if ours then Some(Fail(Opener, |Pick(w.flight[..keep], BySrc(id))|))
      else Some(Fail(Acceptor, |Pick(w.flight[..keep], ByDst(id))|))
  }

  /** The steps of one connection in a run of the whole. */
  function StepsOf(acts: seq<Act>, s: Side, id: u32): seq<Step>
    requires Run(acts).Some?
  {
    if acts == [] then
      []
    else
      var n := |acts| - 1;
      var step := StepOf(Run(acts[..n]).value, acts[n], s, id);
      StepsOf(acts[..n], s, id) + if step.Some? then [step.value] else []
  }

  function NoLink(): Link { Link(None, None, None, NoWire(), NoWire(), false, false) }

  /** The state of a connection after a list of its own steps, unless one was not possible. */
  function LinkRun(steps: seq<Step>): Option<Link> {
    if steps == [] then
      Some(NoLink())
    else
      var n := |steps| - 1;
      var before := LinkRun(steps[..n]);
      if before.Some? && CanStep(before.value, steps[n]) then Some(Next(before.value, steps[n])) else None
  }
}
