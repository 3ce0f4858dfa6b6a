/** The multiplexed transport refines independent connections: every action of the whole is at most one
    step of each connection. */
module Refinement {
  import opened Bytes
  import opened SocketModel
  import opened Wrappers
  import opened Link
  import opened LinkInvariant
  import opened LinkSteps
  import opened Multiplex
  import opened Routing

  /** The connection sees the action as one step of its own or not at all. */
  ghost predicate Simulates(m: Mux, act: Act, s: Side, id: u32)
    requires CanAct(m, act)
  {
    var c, d, step := Project(m, s, id), Project(DoAct(m, act), s, id), StepOf(m, act, s, id);
    if step.Some? then CanStep(c, step.value) && d == Next(c, step.value) else d == c
  }

  /** What a socket sends carries its own id and, unless it is an OPEN, the id it knows of its peer. */
  lemma SendsNamed(e: Endpoint, x: u32, op: Op)
    requires Ids(e) && Pending(e) && x in e.socks && Can(e.socks[x], op, e.failed)
    ensures var fs := Sends(e.socks[x], op);
            |fs| <= 1 && (fs != [] ==> fs[0].src == x
                                       && (fs[0].Open? ==> e.socks[x].origin == Opened)
                                       && (!fs[0].Open? ==> fs[0].dst == e.socks[x].st.remoteId))
  {
  }

  /** The peer of a socket, once known, is the accepted socket that knows it. */
  lemma PeerNamed(m: Mux, s: Side, x: u32)
    requires Routes(m) && Links(m) && x in At(m, s).socks
    ensures var k, p := At(m, s).socks[x], At(m, Other(s));
            && (k.origin == Opened && k.st.remoteId != 0 ==>
                  k.st.remoteId in p.socks && p.socks[k.st.remoteId].origin == SocketModel.Accepted
                  && p.socks[k.st.remoteId].st.remoteId == x)
            && (k.origin == SocketModel.Accepted ==>
                  k.st.remoteId in p.socks && p.socks[k.st.remoteId].origin == Opened)
  {
    if At(m, s).socks[x].origin == Opened {
      assert IsKey(m, s, x);
      assert Inv(Project(m, s, x));
    }
  }

  lemma OwnFrame(m: Mux, act: Act, s: Side, id: u32)
    requires act.Local? && CanAct(m, act) && act.s == s && act.id == id
    ensures var c, d, e := Project(m, s, id), Project(DoAct(m, act), s, id), At(m, s);
            && d.o == Some(After(e.socks[id], act.op, e.failed))
            && d.a == c.a && d.req == c.req && d.ao == c.ao && d.oFailed == c.oFailed && d.aFailed == c.aFailed
            && Out(DoAct(m, act), s) == Push(Out(m, s), Sends(e.socks[id], act.op))
  {
  }

  lemma OwnStep(m: Mux, act: Act, s: Side, id: u32)
    requires Routes(m) && act.Local? && CanAct(m, act) && act.s == s && act.id == id
    requires IsKey(m, s, id)
    ensures Simulates(m, act, s, id)
  {
    var fs := Sends(At(m, s).socks[id], act.op);
    OwnFrame(m, act, s, id);
    SendsNamed(At(m, s), id, act.op);
    PickPush(Out(m, s), fs, BySrc(id));
  }

  lemma PeerStep(m: Mux, act: Act, s: Side, id: u32)
    requires Routes(m) && act.Local? && CanAct(m, act) && act.s == Other(s) && IsKey(m, s, id)
    requires var k := At(m, act.s).socks[act.id]; k.origin == SocketModel.Accepted && k.st.remoteId == id
    ensures Simulates(m, act, s, id)
  {
    var k := At(m, act.s).socks[act.id];
    SendsNamed(At(m, act.s), act.id, act.op);
    PickPush(Out(m, act.s), Sends(k, act.op), ByDst(id));
    assert At(m, act.s).req[id] == Taken(act.id);
  }

  /** A step of the same endpoint's other sockets. */
  lemma NeighbourStep(m: Mux, act: Act, s: Side, id: u32)
    requires Routes(m) && act.Local? && CanAct(m, act) && act.s == s && act.id != id
    ensures Simulates(m, act, s, id)
  {
    var fs := Sends(At(m, s).socks[act.id], act.op);
    SendsNamed(At(m, s), act.id, act.op);
    PickPush(Out(m, s), fs, BySrc(id));
    assert Project(DoAct(m, act), s, id).oa == Project(m, s, id).oa;
  }

  /** A socket at the far endpoint that is not the peer sends nothing to the opener. */
  lemma StrangerFrames(m: Mux, act: Act, s: Side, id: u32)
    requires Routes(m) && Links(m) && act.Local? && CanAct(m, act) && IsKey(m, s, id)
    requires act.s == Other(s) && StepOf(m, act, s, id).None?
    ensures var fs := Sends(At(m, act.s).socks[act.id], act.op);
            |fs| <= 1 && (fs != [] ==> !Picks(ByDst(id), fs[0]))
  {
    SendsNamed(At(m, act.s), act.id, act.op);
    PeerNamed(m, act.s, act.id);
  }

  /** A step of a socket at the far endpoint that is not the peer. */
  lemma StrangerStep(m: Mux, act: Act, s: Side, id: u32)
    requires Routes(m) && Links(m) && act.Local? && CanAct(m, act) && IsKey(m, s, id)
    requires act.s == Other(s) && StepOf(m, act, s, id).None?
    ensures Simulates(m, act, s, id)
  {
    StrangerFrames(m, act, s, id);
    Unmoved(m, act, s, id);
  }

  lemma Unmoved(m: Mux, act: Act, s: Side, id: u32)
    requires Routes(m) && act.Local? && CanAct(m, act)
    requires act.s == Other(s) && StepOf(m, act, s, id).None?
    requires var fs := Sends(At(m, act.s).socks[act.id], act.op);
             |fs| <= 1 && (fs != [] ==> !Picks(ByDst(id), fs[0]))
    ensures Simulates(m, act, s, id)
  {
    var c, d := Project(m, s, id), Project(DoAct(m, act), s, id);
    PickPush(Out(m, act.s), Sends(At(m, act.s).socks[act.id], act.op), ByDst(id));
    assert d.oa == c.oa && d.ao == c.ao;
    assert d.o == c.o && d.req == c.req;
    assert d.a == c.a;
  }

  lemma LocalSimulates(m: Mux, act: Act, s: Side, id: u32)
    requires Routes(m) && Links(m) && act.Local? && CanAct(m, act) && IsKey(m, s, id)
    ensures Simulates(m, act, s, id)
  {
    if act.s == s {
      if act.id == id {
        OwnStep(m, act, s, id);
      } else {
        NeighbourStep(m, act, s, id);
      }
    } else if StepOf(m, act, s, id).Some? {
      PeerStep(m, act, s, id);
    } else {
      StrangerStep(m, act, s, id);
    }
  }

  /** The opener's next message is for its peer, or for nobody. */
  lemma OutwardHead(m: Mux, s: Side, id: u32)
    requires Routes(m) && Links(m) && IsKey(m, s, id)
    requires Out(m, s).flight != [] && Out(m, s).flight[0].src == id
    ensures var f, c := Out(m, s).flight[0], Project(m, s, id);
            && c.oa.flight != [] && c.oa.flight[0] == f
            && (f.Open? ==> c.req.None? && c.a.None?)
            && (!f.Open? ==> f.dst == 0 || (c.a.Some? && c.a.value.id == f.dst))
  {
    var c := Project(m, s, id);
    PickPop(Out(m, s), BySrc(id));
    assert Inv(c);
    assert c.o.Some?;
    HeadFromOpener(c);
  }

  /** What a message that leaves the opener's endpoint cannot change. */
  lemma OutwardFrame(m: Mux, act: Act, s: Side, id: u32)
    requires act.Transfer? && CanAct(m, act) && act.s == s
    ensures var c, d := Project(m, s, id), Project(DoAct(m, act), s, id);
            && d.o == c.o && d.ao == c.ao && d.oFailed == c.oFailed && d.aFailed == c.aFailed
            && At(DoAct(m, act), Other(s)) == Receive(At(m, Other(s)), Out(m, s).flight[0])
            && Out(DoAct(m, act), s) == Pop(Out(m, s))
  {
  }

  /** The OPEN of the connection becomes its request. */
  lemma OpenOutward(m: Mux, act: Act, s: Side, id: u32)
    requires act.Transfer? && CanAct(m, act) && act.s == s
    requires Out(m, s).flight[0].src == id && Out(m, s).flight[0].Open? && Project(m, s, id).a.None?
    ensures var d := Project(DoAct(m, act), s, id);
            d.req == Some(Waiting(Out(m, s).flight[0].window)) && d.a.None?
  {
    OutwardFrame(m, act, s, id);
  }

  /** Any other message of it reaches the accepted socket, if it is meant for it. */
  lemma DataOutward(m: Mux, act: Act, s: Side, id: u32)
    requires Routes(m) && act.Transfer? && CanAct(m, act) && act.s == s && !Out(m, s).flight[0].Open?
    requires var f, c := Out(m, s).flight[0], Project(m, s, id);
             f.dst == 0 || (c.a.Some? && c.a.value.id == f.dst)
    ensures var f, c, d := Out(m, s).flight[0], Project(m, s, id), Project(DoAct(m, act), s, id);
            && d.req == c.req
            && d.a == if c.a.Some? && c.a.value.id == f.dst then Some(Deliver(c.a.value, f)) else c.a
  {
    OutwardFrame(m, act, s, id);
    assert Ids(At(m, Other(s)));
  }

  lemma OpenArrives(m: Mux, act: Act, s: Side, id: u32)
    requires act.Transfer? && CanAct(m, act) && act.s == s && Out(m, s).flight[0].src == id
    requires var f, c := Out(m, s).flight[0], Project(m, s, id);
             f.Open? && c.a.None? && c.oa.flight != [] && c.oa.flight[0] == f
    ensures Project(DoAct(m, act), s, id) == ArriveFar(Project(m, s, id))
  {
    OutwardFrame(m, act, s, id);
    PickPop(Out(m, s), BySrc(id));
    OpenOutward(m, act, s, id);
  }

  lemma DataArrives(m: Mux, act: Act, s: Side, id: u32)
    requires Routes(m) && act.Transfer? && CanAct(m, act) && act.s == s && Out(m, s).flight[0].src == id
    requires var f, c := Out(m, s).flight[0], Project(m, s, id);
             !f.Open? && c.oa.flight != [] && c.oa.flight[0] == f
             && (f.dst == 0 || (c.a.Some? && c.a.value.id == f.dst))
    ensures Project(DoAct(m, act), s, id) == ArriveFar(Project(m, s, id))
  {
    OutwardFrame(m, act, s, id);
    PickPop(Out(m, s), BySrc(id));
    DataOutward(m, act, s, id);
  }

  lemma ArrivesSimulates(m: Mux, act: Act, s: Side, id: u32)
    requires act.Transfer? && CanAct(m, act) && act.s == s && Out(m, s).flight[0].src == id
    requires Project(m, s, id).oa.flight != []
    requires Project(DoAct(m, act), s, id) == ArriveFar(Project(m, s, id))
    ensures Simulates(m, act, s, id)
  {
  }

  /** A message that leaves the opener's endpoint. */
  lemma OwnOutward(m: Mux, act: Act, s: Side, id: u32)
    requires Routes(m) && Links(m) && act.Transfer? && CanAct(m, act) && IsKey(m, s, id) && act.s == s
    requires Out(m, s).flight[0].src == id
    ensures Simulates(m, act, s, id)
  {
    OutwardHead(m, s, id);
    if Out(m, s).flight[0].Open? {
      OpenArrives(m, act, s, id);
    } else {
      DataArrives(m, act, s, id);
    }
    ArrivesSimulates(m, act, s, id);
  }

  lemma OtherOutward(m: Mux, act: Act, s: Side, id: u32)
    requires Routes(m) && act.Transfer? && CanAct(m, act) && IsKey(m, s, id) && act.s == s
    requires Out(m, s).flight[0].src != id
    ensures Simulates(m, act, s, id)
  {
    var c, d := Project(m, s, id), Project(DoAct(m, act), s, id);
    assert Routed(At(m, s), At(m, Other(s)), Out(m, s).flight[0]);
    PickPop(Out(m, s), BySrc(id));
    assert d.oa == c.oa;
    assert d.a == c.a;
  }

  /** A message that comes back to it. */
  lemma InwardTransfer(m: Mux, act: Act, s: Side, id: u32)
    requires Routes(m) && act.Transfer? && CanAct(m, act) && IsKey(m, s, id) && act.s == Other(s)
    ensures Simulates(m, act, s, id)
  {
    var w, c, d := Out(m, act.s), Project(m, s, id), Project(DoAct(m, act), s, id);
    var f := w.flight[0];
    assert Routed(At(m, act.s), At(m, s), f);
    PickPop(w, ByDst(id));
    if Picks(ByDst(id), f) {
      assert c.ao.flight[0] == f;
    } else {
      assert d.ao == c.ao;
    }
  }

  lemma TransferSimulates(m: Mux, act: Act, s: Side, id: u32)
    requires Routes(m) && Links(m) && act.Transfer? && CanAct(m, act) && IsKey(m, s, id)
    ensures Simulates(m, act, s, id)
  {
    if act.s == s {
      if Out(m, s).flight[0].src == id {
        OwnOutward(m, act, s, id);
      } else {
        OtherOutward(m, act, s, id);
      }
    } else {
      InwardTransfer(m, act, s, id);
    }
  }

  lemma OwnOpen(m: Mux, act: Act, s: Side, id: u32)
    requires act.OpenSocket? && CanAct(m, act) && act.s == s && id == NextId(At(m, s)) != 0
    requires Fresh(Project(m, s, id))
    ensures Simulates(m, act, s, id)
  {
  }

  lemma NeighbourOpen(m: Mux, act: Act, s: Side, id: u32)
    requires act.OpenSocket? && CanAct(m, act) && act.s == s && id != NextId(At(m, s))
    ensures Simulates(m, act, s, id)
  {
  }

  lemma FarOpen(m: Mux, act: Act, s: Side, id: u32)
    requires act.OpenSocket? && CanAct(m, act) && act.s == Other(s)
    requires var p := At(m, Other(s));
             NextId(p) !in p.socks && (id in p.req && p.req[id].Taken? ==> p.req[id].local in p.socks)
    ensures Simulates(m, act, s, id)
  {
  }

  lemma OtherOpen(m: Mux, act: Act, s: Side, id: u32)
    requires Routes(m) && act.OpenSocket? && CanAct(m, act) && IdsLast(DoAct(m, act))
    requires act.s == s ==> id != NextId(At(m, s))
    ensures Simulates(m, act, s, id)
  {
    if act.s == s {
      NeighbourOpen(m, act, s, id);
    } else {
      var p := At(m, Other(s));
      assert NextId(p) !in p.socks;
      assert Requests(p, At(m, s));
      FarOpen(m, act, s, id);
    }
  }

  lemma OpenSimulates(m: Mux, act: Act, s: Side, id: u32)
    requires Routes(m) && act.OpenSocket? && CanAct(m, act) && IdsLast(DoAct(m, act)) && IsKey(m, s, id)
    ensures Simulates(m, act, s, id)
  {
    if act.s == s && NextId(At(m, s)) == id {
      Unborn(m, s, id);
      OwnOpen(m, act, s, id);
    } else {
      OtherOpen(m, act, s, id);
    }
  }

  /** Nothing is known of an id that was not handed out. */
  lemma Unborn(m: Mux, s: Side, id: u32)
    requires Routes(m) && id != 0 && id !in At(m, s).socks
    ensures Fresh(Project(m, s, id))
  {
    var w, v := Out(m, s), Out(m, Other(s));
    PickNone(w.done, BySrc(id));
    PickNone(w.flight, BySrc(id));
    PickNone(w.lost, BySrc(id));
    PickNone(v.done, ByDst(id));
    PickNone(v.flight, ByDst(id));
    PickNone(v.lost, ByDst(id));
  }

  lemma TakesRequest(m: Mux, act: Act, s: Side, id: u32)
    requires Routes(m) && act.Accept? && CanAct(m, act) && IdsLast(DoAct(m, act))
    requires act.s == Other(s) && act.remote == id
    ensures Simulates(m, act, s, id)
  {
    var c, d := Project(m, s, id), Project(DoAct(m, act), s, id);
    assert c.o.Some? && c.o.value.id == id;
    assert d.oa == c.oa && d.ao == c.ao;
  }

  /** An accept changes no wire, and no socket that existed. */
  lemma AcceptFrame(m: Mux, act: Act, s: Side, id: u32)
    requires Routes(m) && act.Accept? && CanAct(m, act) && IdsLast(DoAct(m, act))
    requires act.s == s ==> id != NextId(At(m, s))
    ensures var c, d := Project(m, s, id), Project(DoAct(m, act), s, id);
            && d.o == c.o && d.oa == c.oa && d.ao == c.ao
            && d.oFailed == c.oFailed && d.aFailed == c.aFailed
  {
    assert NextId(At(m, act.s)) !in At(m, act.s).socks;
  }

  lemma NearAccept(m: Mux, act: Act, s: Side, id: u32)
    requires Routes(m) && act.Accept? && CanAct(m, act) && IdsLast(DoAct(m, act))
    requires IsKey(DoAct(m, act), s, id) && act.s == s
    ensures Simulates(m, act, s, id)
  {
    AcceptFrame(m, act, s, id);
    assert At(DoAct(m, act), Other(s)) == At(m, Other(s));
  }

  /** The requests of others keep their answer. */
  lemma OtherRequest(e: Endpoint, p: Endpoint, remote: u32, id: u32)
    requires Ids(e) && Requests(e, p) && e.allocs + 1 < 0x1_0000_0000
    requires remote in e.req && e.req[remote].Waiting? && id != remote
    ensures var k := AcceptedSock(NextId(e), remote, e.req[remote].window);
            var e' := AddSock(e, k).(req := e.req[remote := Taken(NextId(e))]);
            && (id in e'.req <==> id in e.req)
            && (id in e.req ==> e'.req[id] == e.req[id])
            && (id in e.req && e.req[id].Taken? ==> Find(e'.socks, e.req[id].local) == Find(e.socks, e.req[id].local))
  {
    if id in e.req && e.req[id].Taken? {
      assert e.req[id].local in e.socks && e.req[id].local != NextId(e);
    }
  }

  lemma OtherAccept(m: Mux, act: Act, s: Side, id: u32)
    requires Routes(m) && act.Accept? && CanAct(m, act) && IdsLast(DoAct(m, act))
    requires act.s == Other(s) && act.remote != id
    ensures Simulates(m, act, s, id)
  {
    AcceptFrame(m, act, s, id);
    OtherRequest(At(m, Other(s)), At(m, s), act.remote, id);
  }

  lemma RejectFrame(m: Mux, act: Act, s: Side, id: u32)
    requires CanAct(m, act) && (act.Reject? || act.Abandon?)
    ensures var c, d := Project(m, s, id), Project(DoAct(m, act), s, id);
            && d.oa == c.oa && d.ao == c.ao && d.o == c.o && d.oFailed == c.oFailed && d.aFailed == c.aFailed
            && (act.s == s || act.remote != id ==> d.req == c.req && d.a == c.a)
  {
  }

  lemma RejectSimulates(m: Mux, act: Act, s: Side, id: u32)
    requires CanAct(m, act) && (act.Reject? || act.Abandon?)
    ensures Simulates(m, act, s, id)
  {
    RejectFrame(m, act, s, id);
    if act.s != s && act.remote == id {
      FarRejects(m, act, s, id);
    }
  }

  lemma FarRejects(m: Mux, act: Act, s: Side, id: u32)
    requires CanAct(m, act) && (act.Reject? || act.Abandon?) && act.s == Other(s) && act.remote == id
    ensures var c, d := Project(m, s, id), Project(DoAct(m, act), s, id);
            && c.req.Some? && (c.req.value.Waiting? || (act.Abandon? && c.req.value.Refusing?))
            && d.req == Some(if act.Reject? then Refusing else Forgotten) && d.a == c.a
  {
  }

  lemma SendsRefusal(m: Mux, act: Act, s: Side, id: u32)
    requires Routes(m) && CanAct(m, act) && act.SendReject? && act.s == Other(s) && act.remote == id
    ensures Simulates(m, act, s, id)
  {
    PickPush(Out(m, act.s), [Clse(0, id)], ByDst(id));
    assert Project(m, s, id).o.Some? && Project(m, s, id).o.value.id == id;
  }

  lemma OtherRefusal(m: Mux, act: Act, s: Side, id: u32)
    requires CanAct(m, act) && id != 0 && act.SendReject? && (act.s == s || act.remote != id)
    ensures Simulates(m, act, s, id)
  {
    PickPush(Out(m, act.s), [Clse(0, act.remote)], BySrc(id));
    PickPush(Out(m, act.s), [Clse(0, act.remote)], ByDst(id));
    var c, d := Project(m, s, id), Project(DoAct(m, act), s, id);
    assert d.oa == c.oa && d.ao == c.ao;
  }

  lemma OwnBreak(m: Mux, act: Act, s: Side, id: u32)
    requires act.Break? && CanAct(m, act) && act.s == s
    ensures Simulates(m, act, s, id)
  {
    var m' := DoAct(m, act);
    PickCut(Out(m, s), act.keep, BySrc(id));
    assert At(m', s).socks == At(m, s).socks && At(m', Other(s)) == At(m, Other(s));
    assert Out(m', Other(s)) == Out(m, Other(s));
  }

  lemma PeerBreak(m: Mux, act: Act, s: Side, id: u32)
    requires act.Break? && CanAct(m, act) && act.s == Other(s)
    ensures Simulates(m, act, s, id)
  {
    var m' := DoAct(m, act);
    PickCut(Out(m, act.s), act.keep, ByDst(id));
    assert At(m', s) == At(m, s) && At(m', Other(s)).socks == At(m, Other(s)).socks;
    assert Out(m', s) == Out(m, s);
  }

  lemma ActSimulates(m: Mux, act: Act, s: Side, id: u32)
    requires Routes(m) && Links(m) && CanAct(m, act) && IdsLast(DoAct(m, act))
    requires IsKey(m, s, id) && IsKey(DoAct(m, act), s, id)
    ensures Simulates(m, act, s, id)
  {
    match act
    case OpenSocket(_, _) => OpenSimulates(m, act, s, id);
    case Local(_, _, _) => LocalSimulates(m, act, s, id);
    case Transfer(_) => TransferSimulates(m, act, s, id);
    case Break(_, _) =>
      if act.s == s {
        OwnBreak(m, act, s, id);
      } else {
        PeerBreak(m, act, s, id);
      }
    case Accept(_, _) =>
      if act.s == s {
        NearAccept(m, act, s, id);
      } else if act.remote != id {
        OtherAccept(m, act, s, id);
      } else {
        TakesRequest(m, act, s, id);
      }
    case SendReject(_, _) =>
      if act.s == s || act.remote != id {
        OtherRefusal(m, act, s, id);
      } else {
        SendsRefusal(m, act, s, id);
      }
    case _ => RejectSimulates(m, act, s, id);
  }
}
