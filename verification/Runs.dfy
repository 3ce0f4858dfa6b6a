/** All runs: routing and every connection's invariant hold in every reachable state, and each
    connection of a run is a run of that connection alone. */
module Runs {
  import opened Bytes
  import opened SocketModel
  import opened Wrappers
  import opened Link
  import opened LinkInvariant
  import opened LinkSteps
  import opened Multiplex
  import opened Routing
  import opened Refinement
  import Sequences

  /** Sockets stay, with their origin; an accepted socket keeps its peer. */
  ghost predicate Grows(e: Endpoint, e': Endpoint) {
    forall id :: id in e.socks ==>
      && id in e'.socks
      && e'.socks[id].origin == e.socks[id].origin
      && (e.socks[id].origin == SocketModel.Accepted ==> e'.socks[id].st.remoteId == e.socks[id].st.remoteId)
  }

  lemma RoutedStays(e: Endpoint, p: Endpoint, e': Endpoint, p': Endpoint, f: Frame)
    requires Routed(e, p, f) && Grows(e, e') && Grows(p, p') && Ids(e') && Ids(p')
    ensures Routed(e', p', f)
  {
  }

  lemma WireStays(e: Endpoint, p: Endpoint, e': Endpoint, p': Endpoint, w: seq<Frame>)
    requires Grows(e, e') && Grows(p, p') && Ids(e') && Ids(p')
    requires forall f :: f in w ==> Routed(e, p, f)
    ensures forall f :: f in w ==> Routed(e', p', f)
  {
    forall f | f in w ensures Routed(e', p', f) {
      RoutedStays(e, p, e', p', f);
    }
  }

  lemma WiresStay(m: Mux, m': Mux, s: Side)
    requires Routes(m) && Grows(At(m, s), At(m', s)) && Grows(At(m, Other(s)), At(m', Other(s)))
    requires Ids(At(m', s)) && Ids(At(m', Other(s)))
    ensures var w := Out(m, s);
            && (forall f :: f in w.done ==> Routed(At(m', s), At(m', Other(s)), f))
            && (forall f :: f in w.flight ==> Routed(At(m', s), At(m', Other(s)), f))
            && (forall f :: f in w.lost ==> Routed(At(m', s), At(m', Other(s)), f))
  {
    var e, p, e', p', w := At(m, s), At(m, Other(s)), At(m', s), At(m', Other(s)), Out(m, s);
    WireStays(e, p, e', p', w.done);
    WireStays(e, p, e', p', w.flight);
    WireStays(e, p, e', p', w.lost);
  }

  /** One socket of an endpoint changes and keeps its name, its origin and, if accepted, its peer. */
  lemma SockChanges(e: Endpoint, p: Endpoint, id: u32, k: Sock)
    requires Ids(e) && Requests(e, p) && Requests(p, e) && Pending(e) && id in e.socks
    requires k.id == id && k.origin == e.socks[id].origin
    requires k.origin == SocketModel.Accepted ==> k.st.remoteId == e.socks[id].st.remoteId
    requires k.pend != [] ==>
      && |k.pend| == 1 && k.pend[0].src == id
      && (k.pend[0].Open? ==> k.origin == Opened)
      && (!k.pend[0].Open? ==> k.pend[0].dst == k.st.remoteId)
    ensures var e' := e.(socks := e.socks[id := k]);
            Ids(e') && Requests(e', p) && Requests(p, e') && Pending(e') && Grows(e, e') && Grows(p, p)
  {
  }

  ghost predicate Named(k: Sock, id: u32, before: Sock) {
    && k.id == id && k.origin == before.origin
    && (k.origin == SocketModel.Accepted ==> k.st.remoteId == before.st.remoteId)
    && (k.pend != [] ==>
      && |k.pend| == 1 && k.pend[0].src == id
      && (k.pend[0].Open? ==> k.origin == Opened)
      && (!k.pend[0].Open? ==> k.pend[0].dst == k.st.remoteId))
  }

  lemma AfterNamed(e: Endpoint, id: u32, op: Op)
    requires Ids(e) && Pending(e) && id in e.socks && Can(e.socks[id], op, e.failed)
    ensures Named(After(e.socks[id], op, e.failed), id, e.socks[id])
  {
  }

  /** The endpoint of side `s` may have changed, and one frame may have gone out. */
  lemma Rebuild(m: Mux, m': Mux, s: Side, fs: seq<Frame>)
    requires Routes(m) && |fs| <= 1
    requires Grows(At(m, s), At(m', s)) && At(m', Other(s)) == At(m, Other(s))
    requires Out(m', s) == Push(Out(m, s), fs) && Out(m', Other(s)) == Out(m, Other(s))
    requires Ids(At(m', s)) && Requests(At(m', s), At(m', Other(s)))
    requires Requests(At(m', Other(s)), At(m', s)) && Pending(At(m', s))
    requires fs != [] ==> Routed(At(m', s), At(m', Other(s)), fs[0])
    ensures Routes(m')
  {
    WiresStay(m, m', s);
    WiresStay(m, m', Other(s));
    assert RoutedSide(At(m', s), At(m', Other(s)), Out(m', s));
    assert RoutedSide(At(m', Other(s)), At(m', s), Out(m', Other(s)));
  }

  /** What a socket sends is routed. */
  lemma LocalFrame(m: Mux, act: Act)
    requires Routes(m) && Links(m) && act.Local? && CanAct(m, act)
    ensures var e, p := At(m, act.s), At(m, Other(act.s));
            var fs := Sends(e.socks[act.id], act.op);
            |fs| <= 1 && (fs != [] ==> Routed(e, p, fs[0]))
  {
    SendsNamed(At(m, act.s), act.id, act.op);
    PeerNamed(m, act.s, act.id);
  }

  lemma LocalRoutes(m: Mux, act: Act)
    requires Routes(m) && Links(m) && act.Local? && CanAct(m, act)
    ensures Routes(DoAct(m, act))
  {
    var e, p, e' := At(m, act.s), At(m, Other(act.s)), At(DoAct(m, act), act.s);
    var fs := Sends(e.socks[act.id], act.op);
    LocalFrame(m, act);
    AfterNamed(e, act.id, act.op);
    SockChanges(e, p, act.id, After(e.socks[act.id], act.op, e.failed));
    if fs != [] {
      RoutedStays(e, p, e', p, fs[0]);
    }
    Rebuild(m, DoAct(m, act), act.s, fs);
  }

  lemma OpenRoutes(m: Mux, act: Act)
    requires Routes(m) && act.OpenSocket? && CanAct(m, act) && IdsLast(DoAct(m, act))
    ensures Routes(DoAct(m, act))
  {
    assert Push(Out(m, act.s), []) == Out(m, act.s);
    OpenRequests(At(m, act.s), At(m, Other(act.s)), act.service);
    Rebuild(m, DoAct(m, act), act.s, []);
  }

  lemma OpenRequests(e: Endpoint, p: Endpoint, service: Data)
    requires Ids(e) && Requests(e, p) && Requests(p, e) && Pending(e) && e.allocs + 1 < 0x1_0000_0000
    ensures var e' := AddSock(e, OpenedSock(NextId(e), service));
            Ids(e') && Requests(e', p) && Requests(p, e') && Pending(e') && Grows(e, e') && Grows(p, p)
  {
    assert NextId(e) !in e.socks;
    NewSock(e, p, OpenedSock(NextId(e), service));
  }

  lemma AcceptRoutes(m: Mux, act: Act)
    requires Routes(m) && act.Accept? && CanAct(m, act) && IdsLast(DoAct(m, act))
    ensures Routes(DoAct(m, act))
  {
    var e, p, e' := At(m, act.s), At(m, Other(act.s)), At(DoAct(m, act), act.s);
    assert Push(Out(m, act.s), []) == Out(m, act.s);
    AcceptRequests(e, p, act.remote);
    Rebuild(m, DoAct(m, act), act.s, []);
  }

  lemma AcceptRequests(e: Endpoint, p: Endpoint, remote: u32)
    requires Ids(e) && Requests(e, p) && Requests(p, e) && Pending(e) && e.allocs + 1 < 0x1_0000_0000
    requires remote in e.req && e.req[remote].Waiting?
    ensures var id := NextId(e);
            var e' := AddSock(e, AcceptedSock(id, remote, e.req[remote].window)).(req := e.req[remote := Taken(id)]);
            Ids(e') && Requests(e', p) && Requests(p, e') && Pending(e') && Grows(e, e') && Grows(p, p)
  {
    var id := NextId(e);
    assert id !in e.socks;
    var k := AcceptedSock(id, remote, e.req[remote].window);
    NewSock(e, p, k);
    TakenRequest(e, AddSock(e, k), p, id, remote);
  }

  /** A fresh socket disturbs nothing that is said of the others. */
  lemma NewSock(e: Endpoint, p: Endpoint, k: Sock)
    requires Ids(e) && Requests(p, e) && Pending(e) && e.allocs + 1 < 0x1_0000_0000
    requires k.id == NextId(e)
    requires |k.pend| == 1 && k.pend[0].src == k.id && (k.pend[0].Open? <==> k.origin == Opened)
    requires !k.pend[0].Open? ==> k.pend[0].dst == k.st.remoteId
    ensures var e' := AddSock(e, k); Ids(e') && Requests(p, e') && Pending(e') && Grows(e, e')
  {
    assert NextId(e) !in e.socks;
  }

  lemma TakenRequest(e: Endpoint, added: Endpoint, p: Endpoint, id: u32, remote: u32)
    requires Requests(e, p) && id !in e.socks && remote in e.req && e.req[remote].Waiting?
    requires added.req == e.req && id in added.socks
    requires added.socks[id].origin == SocketModel.Accepted && added.socks[id].st.remoteId == remote
    requires added.socks == e.socks[id := added.socks[id]]
    ensures Requests(added.(req := e.req[remote := Taken(id)]), p)
  {
  }

  /** A request that is not answered by a socket changes what is said of it and nothing else. */
  lemma ReqChanges(e: Endpoint, p: Endpoint, remote: u32, q: Request)
    requires Ids(e) && Requests(e, p) && Requests(p, e) && Pending(e)
    requires remote in p.socks && p.socks[remote].origin == Opened && !q.Taken?
    requires remote in e.req ==> !e.req[remote].Taken?
    ensures var e' := e.(req := e.req[remote := q]);
            Ids(e') && Requests(e', p) && Requests(p, e') && Pending(e') && Grows(e, e') && Grows(p, p)
  {
  }

  /** A request is turned down, and no message is sent yet. */
  lemma AnswerRoutes(m: Mux, act: Act)
    requires Routes(m) && CanAct(m, act) && (act.Reject? || act.Abandon?)
    ensures Routes(DoAct(m, act))
  {
    var e, p := At(m, act.s), At(m, Other(act.s));
    Sequences.Empty(Out(m, act.s).flight);
    assert Push(Out(m, act.s), []) == Out(m, act.s);
    ReqChanges(e, p, act.remote, if act.Reject? then Refusing else Forgotten);
    Rebuild(m, DoAct(m, act), act.s, []);
  }

  lemma RefusalRoutes(m: Mux, act: Act)
    requires Routes(m) && CanAct(m, act) && act.SendReject?
    ensures Routes(DoAct(m, act))
  {
    ReqChanges(At(m, act.s), At(m, Other(act.s)), act.remote, Refused);
    Rebuild(m, DoAct(m, act), act.s, [Clse(0, act.remote)]);
  }

  lemma CutFrames(w: Wire, keep: nat)
    requires keep <= |w.flight|
    ensures forall f :: f in Cut(w, keep).flight ==> f in w.flight
    ensures forall f :: f in Cut(w, keep).lost ==> f in w.flight || f in w.lost
  {
  }

  lemma BreakRoutes(m: Mux, act: Act)
    requires Routes(m) && CanAct(m, act) && act.Break?
    ensures Routes(DoAct(m, act))
  {
    var m' := DoAct(m, act);
    var e, p, e' := At(m, act.s), At(m, Other(act.s)), At(m', act.s);
    CutFrames(Out(m, act.s), act.keep);
    FailedRouted(e, p, Out(m, act.s), Out(m', act.s));
    FailedRouted(p, e, Out(m, Other(act.s)), Out(m', Other(act.s)));
  }

  /** That a transport failed changes no name; frames may move from the flight to the losses. */
  lemma FailedRouted(e: Endpoint, p: Endpoint, w: Wire, w': Wire)
    requires RoutedSide(e, p, w) && w'.done == w.done
    requires forall f :: f in w'.flight ==> f in w.flight
    requires forall f :: f in w'.lost ==> f in w.flight || f in w.lost
    ensures RoutedSide(e, p, w')
    ensures RoutedSide(e.(failed := true), p, w') && RoutedSide(e, p.(failed := true), w')
  {
  }

  /** An endpoint takes in a message, and the wire it came on forgets it. */
  lemma Absorb(m: Mux, m': Mux, s: Side)
    requires Routes(m) && Out(m, s).flight != []
    requires At(m', s) == At(m, s) && Grows(At(m, Other(s)), At(m', Other(s)))
    requires Out(m', s) == Pop(Out(m, s)) && Out(m', Other(s)) == Out(m, Other(s))
    requires Ids(At(m', Other(s))) && Requests(At(m', Other(s)), At(m', s))
    requires Requests(At(m', s), At(m', Other(s))) && Pending(At(m', Other(s)))
    ensures Routes(m')
  {
    WiresStay(m, m', s);
    WiresStay(m, m', Other(s));
    var f := Out(m, s).flight[0];
    assert f in Out(m, s).flight;
    assert RoutedSide(At(m', s), At(m', Other(s)), Out(m', s));
    assert RoutedSide(At(m', Other(s)), At(m', s), Out(m', Other(s)));
  }

  /** No opener learns its peer while a message of its own waits for that. */
  lemma OpenerNamed(m: Mux, act: Act)
    requires Routes(m) && Links(m) && act.Transfer? && CanAct(m, act)
    requires var f, p := Out(m, act.s).flight[0], At(m, Other(act.s));
             !f.Open? && f.dst in p.socks && p.socks[f.dst].origin == Opened
    ensures var f, p := Out(m, act.s).flight[0], At(m, Other(act.s));
            Named(Deliver(p.socks[f.dst], f), f.dst, p.socks[f.dst])
  {
    var s, f := Other(act.s), Out(m, act.s).flight[0];
    var c := Project(m, s, f.dst);
    assert IsKey(m, s, f.dst) && Inv(c);
    PickPop(Out(m, act.s), ByDst(f.dst));
    HeadFromAcceptor(c);
  }

  lemma AcceptorNamed(e: Endpoint, p: Endpoint, f: Frame)
    requires Ids(e) && Ids(p) && Requests(e, p) && Pending(e) && !f.Open?
    requires f.dst in e.socks && e.socks[f.dst].origin == SocketModel.Accepted
    ensures Named(Deliver(e.socks[f.dst], f), f.dst, e.socks[f.dst])
  {
    assert e.socks[f.dst].st.remoteId in p.socks;
  }

  lemma DeliverNamed(m: Mux, act: Act)
    requires Routes(m) && Links(m) && act.Transfer? && CanAct(m, act)
    requires var f := Out(m, act.s).flight[0]; !f.Open? && f.dst in At(m, Other(act.s)).socks
    ensures var f, p := Out(m, act.s).flight[0], At(m, Other(act.s));
            Named(Deliver(p.socks[f.dst], f), f.dst, p.socks[f.dst])
  {
    var f, p := Out(m, act.s).flight[0], At(m, Other(act.s));
    if p.socks[f.dst].origin == Opened {
      OpenerNamed(m, act);
    } else {
      AcceptorNamed(p, At(m, act.s), f);
    }
  }

  lemma OpenTransferRoutes(m: Mux, act: Act)
    requires Routes(m) && Links(m) && act.Transfer? && CanAct(m, act) && Out(m, act.s).flight[0].Open?
    ensures Routes(DoAct(m, act))
  {
    var f, p := Out(m, act.s).flight[0], At(m, Other(act.s));
    assert Routed(At(m, act.s), p, f);
    OutwardHead(m, act.s, f.src);
    ReqChanges(p, At(m, act.s), f.src, Waiting(f.window));
    Absorb(m, DoAct(m, act), act.s);
  }

  lemma DataTransferRoutes(m: Mux, act: Act)
    requires Routes(m) && Links(m) && act.Transfer? && CanAct(m, act) && !Out(m, act.s).flight[0].Open?
    ensures Routes(DoAct(m, act))
  {
    var f, p := Out(m, act.s).flight[0], At(m, Other(act.s));
    if f.dst in p.socks {
      DeliverNamed(m, act);
      SockChanges(p, At(m, act.s), f.dst, Deliver(p.socks[f.dst], f));
    }
    Absorb(m, DoAct(m, act), act.s);
  }

  lemma TransferRoutes(m: Mux, act: Act)
    requires Routes(m) && Links(m) && act.Transfer? && CanAct(m, act)
    ensures Routes(DoAct(m, act))
  {
    if Out(m, act.s).flight[0].Open? {
      OpenTransferRoutes(m, act);
    } else {
      DataTransferRoutes(m, act);
    }
  }

  lemma ActRoutes(m: Mux, act: Act)
    requires Routes(m) && Links(m) && CanAct(m, act) && IdsLast(DoAct(m, act))
    ensures Routes(DoAct(m, act))
  {
    match act
    case OpenSocket(_, _) => OpenRoutes(m, act);
    case Local(_, _, _) => LocalRoutes(m, act);
    case Transfer(_) => TransferRoutes(m, act);
    case Accept(_, _) => AcceptRoutes(m, act);
    case Break(_, _) => BreakRoutes(m, act);
    case SendReject(_, _) => RefusalRoutes(m, act);
    case _ => AnswerRoutes(m, act);
  }

  /** An id keeps its meaning. */
  lemma KeyBefore(m: Mux, act: Act, s: Side, id: u32)
    requires Routes(m) && CanAct(m, act) && IdsLast(DoAct(m, act)) && IsKey(DoAct(m, act), s, id)
    ensures IsKey(m, s, id)
  {
    if id in At(m, s).socks {
      SocksStay(m, act, s, id);
    }
  }

  ghost predicate Continues(k: Sock, k': Sock) {
    k'.origin == k.origin && (k.st.remoteId != 0 ==> k'.st.remoteId == k.st.remoteId)
  }

  lemma StepContinues(k: Sock, op: Op, failed: bool)
    requires Can(k, op, failed)
    ensures Continues(k, After(k, op, failed))
  {
  }

  lemma DeliverContinues(k: Sock, f: Frame)
    requires !f.Open?
    ensures Continues(k, Deliver(k, f))
  {
  }

  /** Sockets stay, with their origin, and a peer that is known stays known. */
  lemma SocksStay(m: Mux, act: Act, s: Side, id: u32)
    requires Ids(m.l) && Ids(m.r) && CanAct(m, act) && IdsLast(DoAct(m, act)) && id in At(m, s).socks
    ensures id in At(DoAct(m, act), s).socks
    ensures Continues(At(m, s).socks[id], At(DoAct(m, act), s).socks[id])
  {
    var k := At(m, s).socks[id];
    if act.Local? {
      StepContinues(At(m, act.s).socks[act.id], act.op, At(m, act.s).failed);
    } else if act.Transfer? {
      if !Out(m, act.s).flight[0].Open? {
        DeliverContinues(k, Out(m, act.s).flight[0]);
      }
    } else {
      NothingHappens(m, act, s, id);
    }
  }

  lemma NothingHappens(m: Mux, act: Act, s: Side, id: u32)
    requires Ids(m.l) && Ids(m.r) && CanAct(m, act) && IdsLast(DoAct(m, act)) && id in At(m, s).socks
    requires !act.Local? && !act.Transfer?
    ensures id in At(DoAct(m, act), s).socks && At(DoAct(m, act), s).socks[id] == At(m, s).socks[id]
  {
    if act.OpenSocket? || act.Accept? {
      assert NextId(At(m, act.s)) !in At(m, act.s).socks;
    }
  }

  lemma ActLinks(m: Mux, act: Act)
    requires Routes(m) && Links(m) && CanAct(m, act) && IdsLast(DoAct(m, act))
    ensures Links(DoAct(m, act))
  {
    var m' := DoAct(m, act);
    forall s: Side, id: u32 | IsKey(m', s, id)
      ensures Inv(Project(m', s, id))
    {
      KeyBefore(m, act, s, id);
      ActSimulates(m, act, s, id);
      var step := StepOf(m, act, s, id);
      if step.Some? {
        StepKeeps(Project(m, s, id), step.value);
      }
    }
  }

  lemma InitHolds()
    ensures Routes(Init()) && Links(Init())
  {
    forall s: Side, id: u32
      ensures Fresh(Project(Init(), s, id))
    {
    }
  }

  /** In every run that hands out fewer than 2^32 ids at each end, every reachable state routes every
      frame and keeps every connection's invariant. */
  lemma {:induction false} RunHolds(acts: seq<Act>)
    requires Run(acts).Some? && IdsLast(Run(acts).value)
    ensures Routes(Run(acts).value) && Links(Run(acts).value)
  {
    if acts == [] {
      InitHolds();
    } else {
      var n := |acts| - 1;
      var m := Run(acts[..n]).value;
      RunHolds(acts[..n]);
      ActRoutes(m, acts[n]);
      ActLinks(m, acts[n]);
    }
  }

  /** Multiplexing refines independent byte pipes: what a run of the whole does to one connection is a
      run of that connection alone. */
  lemma {:induction false} RunRefines(acts: seq<Act>, s: Side, id: u32)
    requires Run(acts).Some? && IdsLast(Run(acts).value) && IsKey(Run(acts).value, s, id)
    ensures LinkRun(StepsOf(acts, s, id)) == Some(Project(Run(acts).value, s, id))
  {
    if acts == [] {
      assert Project(Init(), s, id) == NoLink();
    } else {
      var n := |acts| - 1;
      var m := Run(acts[..n]).value;
      RunHolds(acts[..n]);
      KeyBefore(m, acts[n], s, id);
      RunRefines(acts[..n], s, id);
      ActSimulates(m, acts[n], s, id);
      var before, step := StepsOf(acts[..n], s, id), StepOf(m, acts[n], s, id);
      if step.Some? {
        LinkRunExtends(before, step.value);
        assert StepsOf(acts, s, id) == before + [step.value];
      } else {
        assert StepsOf(acts, s, id) == before + [] == before;
      }
    }
  }

  lemma LinkRunExtends(before: seq<Step>, step: Step)
    requires LinkRun(before).Some? && CanStep(LinkRun(before).value, step)
    ensures LinkRun(before + [step]) == Some(Next(LinkRun(before).value, step))
  {
    assert (before + [step])[..|before|] == before;
  }
}
