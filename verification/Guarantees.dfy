/** What users of the sockets may rely on, in every run of two endpoints with any number of sockets. */
module Guarantees {
  import opened Bytes
  import opened SocketModel
  import opened Wrappers
  import opened Link
  import opened LinkInvariant
  import opened LinkSteps
  import opened Multiplex
  import opened Routing
  import opened Refinement
  import opened Runs
  import Sequences

  /** A run of fewer than 2^32 ids at each end, in which side `s` opened a connection under `id`. */
  ghost predicate Reaches(acts: seq<Act>, s: Side, id: u32) {
    Run(acts).Some? && IdsLast(Run(acts).value) && id in At(Run(acts).value, s).socks
    && At(Run(acts).value, s).socks[id].origin == Opened
  }

  ghost function View(acts: seq<Act>, s: Side, id: u32): (c: Link)
    requires Reaches(acts, s, id)
    ensures c.o.Some?
  {
    Project(Run(acts).value, s, id)
  }

  lemma ViewHolds(acts: seq<Act>, s: Side, id: u32)
    requires Reaches(acts, s, id)
    ensures Inv(View(acts, s, id))
  {
    RunHolds(acts);
    assert Ids(At(Run(acts).value, s));
    assert IsKey(Run(acts).value, s, id);
  }

  /** What a reader received is a prefix of what its peer wrote, in both directions, whatever was shut
      down, dropped, removed from a table or lost. */
  lemma StreamsArePrefixes(acts: seq<Act>, s: Side, id: u32)
    requires Reaches(acts, s, id)
    ensures var c := View(acts, s, id);
            && OrNone(c.a).received <= c.o.value.written
            && c.o.value.received <= OrNone(c.a).written
  {
    ViewHolds(acts, s, id);
  }

  /** The places a window of send credit is in: still with the writer `x`, under way as payload, queued at
      the reader `y`, on the way back, or never to return. */
  ghost function CreditOf(x: Sock, y: Sock, xw: Wire, yw: Wire): nat {
    x.st.acknowledged + |Stream(xw.flight)| + |Flat(y.st.readBuffer)| + Credit(yw.flight)
    + Forfeited(x, y, xw, yw)
  }

  /** Bytes read or dropped without acknowledgment, and credit dropped or lost. */
  ghost function Forfeited(x: Sock, y: Sock, xw: Wire, yw: Wire): nat {
    y.unacked + y.discarded + x.ackDiscarded + |Stream(xw.lost)| + Credit(yw.lost)
  }

  /** The acceptor has answered the OPEN with its OKAY. */
  ghost predicate Answered(c: Link) {
    c.a.Some? && Sent(c.ao) != [] && Sent(c.ao)[0].Okay?
  }

  /** Send credit is conserved in both directions, and none is forfeited while both ends stay open and
      their transports up. */
  lemma CreditIsConserved(acts: seq<Act>, s: Side, id: u32)
    requires Reaches(acts, s, id) && View(acts, s, id).a.Some?
    ensures var c := View(acts, s, id);
            var o, a := c.o.value, c.a.value;
            && CreditOf(a, o, c.ao, c.oa) == DELAYED_ACK_BYTES
            && CreditOf(o, a, c.oa, c.ao) == (if Answered(c) then DELAYED_ACK_BYTES else 0)
            && (o.listed && a.listed && !o.st.closed && !a.st.closed && !c.oFailed && !c.aFailed ==>
                  Forfeited(o, a, c.oa, c.ao) == 0 == Forfeited(a, o, c.ao, c.oa))
  {
    ViewHolds(acts, s, id);
  }

  /** The window bounds everything: credit never exceeds the initial window, no queue holds more than
      32 MiB, and an acknowledgment is never truncated by its cast to 32 bits. */
  lemma WindowBounds(acts: seq<Act>, s: Side, id: u32, cap: nat)
    requires Reaches(acts, s, id)
    ensures Bounded(View(acts, s, id).o.value, cap) && Bounded(OrNone(View(acts, s, id).a), cap)
  {
    ViewHolds(acts, s, id);
    var c := View(acts, s, id);
    FlowBounds(c.o.value, OrNone(c.a), c.oa, c.ao, NearGrant(c), cap);
    FlowBounds(OrNone(c.a), c.o.value, c.ao, c.oa, FarGrant(c), cap);
  }

  ghost predicate Bounded(k: Sock, cap: nat) {
    && k.st.acknowledged <= 33_554_432
    && |Flat(k.st.readBuffer)| <= 33_554_432
    && |Drain(k.st.readBuffer, cap).0| % 0x1_0000_0000 == |Drain(k.st.readBuffer, cap).0|
  }

  lemma FlowBounds(x: Sock, y: Sock, xw: Wire, yw: Wire, grant: nat, cap: nat)
    requires Flow(x, y, xw, yw, grant) && grant <= W
    ensures x.st.acknowledged <= W && |Flat(y.st.readBuffer)| <= W
    ensures |Drain(y.st.readBuffer, cap).0| % 0x1_0000_0000 == |Drain(y.st.readBuffer, cap).0|
  {
    DrainSplits(y.st.readBuffer, cap);
  }

  /** When a flush is ready on an opened socket, its peer has read every byte written. */
  lemma FlushIsExact(acts: seq<Act>, s: Side, id: u32)
    requires Reaches(acts, s, id) && View(acts, s, id).a.Some?
    ensures var c := View(acts, s, id);
            var o, a := c.o.value, c.a.value;
            && (FlushReady(o.st) && o.st.remoteId != 0 ==> a.received == o.written)
            && (FlushReady(a.st) ==> o.received == a.written)
  {
    ViewHolds(acts, s, id);
    var c := View(acts, s, id);
    var o, a := c.o.value, c.a.value;
    if FlushReady(o.st) && o.st.remoteId != 0 {
      assert |Arrived(a)| == |o.written| && Flat(a.st.readBuffer) == [];
      assert Arrived(a) == a.received + [] == a.received;
    }
    if FlushReady(a.st) {
      assert |Arrived(o)| == |a.written| && Flat(o.st.readBuffer) == [];
      assert Arrived(o) == o.received + [] == o.received;
    }
  }

  /** While `poll_shutdown` is past its flush, its CLSE cannot overtake data: the peer has read it all,
      although messages may arrive between the lock sections. */
  lemma ShutdownNeverOvertakes(acts: seq<Act>, s: Side, id: u32)
    requires Reaches(acts, s, id) && View(acts, s, id).a.Some?
    ensures var c := View(acts, s, id);
            var o, a := c.o.value, c.a.value;
            && (o.phase in {Flushed, Sending} ==> a.received == o.written)
            && (a.phase in {Flushed, Sending} ==> o.received == a.written)
  {
    ViewHolds(acts, s, id);
    FlushIsExact(acts, s, id);
  }

  /** A read that succeeds with nothing in a non-empty buffer, on a socket that its peer closed first,
      comes after every byte the peer ever wrote; and the peer writes no more. */
  lemma EofIsExact(acts: seq<Act>, s: Side, id: u32, cap: nat)
    requires Reaches(acts, s, id) && cap > 0
    ensures var c := View(acts, s, id);
            var o, a := c.o.value, OrNone(c.a);
            && (o.closer == Peer && Drain(o.st.readBuffer, cap).0 == [] ==> o.received == a.written)
            && (a.closer == Peer && Drain(a.st.readBuffer, cap).0 == [] ==> a.received == o.written)
            && (o.closer == Peer && c.a.Some? ==> a.st.closed)
            && (a.closer == Peer ==> o.st.closed)
  {
    ViewHolds(acts, s, id);
    var c := View(acts, s, id);
    var o, a := c.o.value, OrNone(c.a);
    DrainSplits(o.st.readBuffer, cap);
    DrainSplits(a.st.readBuffer, cap);
    assert Flat(o.st.readBuffer) == [] ==> Arrived(o) == o.received + [] == o.received;
    assert Flat(a.st.readBuffer) == [] ==> Arrived(a) == a.received + [] == a.received;
  }

  /** As long as `open_socket` waits, the table holds its socket. */
  lemma WaitingIsListed(acts: seq<Act>, s: Side, id: u32)
    requires Reaches(acts, s, id)
    ensures var o := View(acts, s, id).o.value; o.phase == Opening && !o.st.closed ==> o.listed
  {
    ViewHolds(acts, s, id);
  }

  /** An OKAY cannot be missed: the first one to arrive opens the waiting socket with the full window. */
  lemma OkayIsNotMissed(acts: seq<Act>, s: Side, id: u32)
    requires Reaches(acts, s, id)
    requires var c := View(acts, s, id);
             c.o.value.phase == Opening && !c.o.value.st.closed && c.o.value.st.remoteId == 0
             && c.ao.flight != [] && c.ao.flight[0].Okay?
    ensures var c := View(acts, s, id);
            && c.o.value.listed
            && c.a.Some?
            && var st := ArriveNear(c).o.value.st;
               st.remoteId == c.a.value.id && st.acknowledged == st.initialAck == 33_554_432
  {
    WaitingIsListed(acts, s, id);
    ViewHolds(acts, s, id);
    HeadFromAcceptor(View(acts, s, id));
  }

  /** Ids are non-zero, a socket is kept under its own id, and two opened ends name each other. */
  lemma EndsNameEachOther(acts: seq<Act>, s: Side, id: u32)
    requires Reaches(acts, s, id)
    ensures var m, c := Run(acts).value, View(acts, s, id);
            && id != 0 && c.o.value.id == id
            && (c.a.Some? ==>
                  && c.a.value.id != 0
                  && c.a.value.id in At(m, Other(s)).socks
                  && At(m, Other(s)).socks[c.a.value.id] == c.a.value
                  && c.a.value.st.remoteId == id)
            && (c.o.value.st.remoteId != 0 ==> c.a.Some? && c.o.value.st.remoteId == c.a.value.id)
  {
    RunHolds(acts);
    ViewHolds(acts, s, id);
  }

  /** Every socket that exists belongs to a connection: it opened one, or it accepted the one its
      `remoteId` names. */
  lemma EverySocketHasItsConnection(acts: seq<Act>, s: Side, id: u32)
    requires Run(acts).Some? && IdsLast(Run(acts).value) && id in At(Run(acts).value, s).socks
    ensures var k := At(Run(acts).value, s).socks[id];
            if k.origin == Opened then Reaches(acts, s, id)
            else Reaches(acts, Other(s), k.st.remoteId) && View(acts, Other(s), k.st.remoteId).a == Some(k)
  {
    RunHolds(acts);
    var m := Run(acts).value;
    var k := At(m, s).socks[id];
    if k.origin == SocketModel.Accepted {
      assert At(m, s).req[k.st.remoteId] == Taken(id);
    }
  }

  /** A peer, once known, never changes, however the run goes on. */
  lemma {:induction false} PeerIsForever(acts: seq<Act>, more: seq<Act>, s: Side, id: u32)
    requires Run(acts).Some? && Run(acts + more).Some? && IdsLast(Run(acts + more).value)
    requires id in At(Run(acts).value, s).socks && At(Run(acts).value, s).socks[id].st.remoteId != 0
    ensures id in At(Run(acts + more).value, s).socks
    ensures At(Run(acts + more).value, s).socks[id].st.remoteId == At(Run(acts).value, s).socks[id].st.remoteId
    decreases |more|
  {
    if more == [] {
      Sequences.Empty(acts);
    } else {
      var n := |more| - 1;
      var before := acts + more[..n];
      Sequences.Last(acts, more);
      IdsBefore(Run(before).value, more[n]);
      PeerIsForever(acts, more[..n], s, id);
      IdsHold(before);
      SocksStay(Run(before).value, more[n], s, id);
    }
  }

  /** The k-th id an endpoint hands out. */
  function Id(k: nat): u32 { NextId(Endpoint(map[], map[], k, false)) }

  /** The first `n` ids are non-zero and pairwise different. */
  ghost predicate UniqueIds(n: nat) {
    forall k :: 0 <= k < n ==> Id(k) != 0 && forall j :: 0 <= j < k ==> Id(j) != Id(k)
  }

  /** Ids are good exactly as long as there are fewer than 2^32 of them: the next one would be 0, which
      stands for "not yet opened". */
  lemma IdsAreUnique(n: nat)
    ensures UniqueIds(n) <==> n < 0x1_0000_0000
  {
    if n < 0x1_0000_0000 {
      forall k | 0 <= k < n ensures Id(k) == 1 + k {
      }
    } else {
      assert Id(0xFFFF_FFFF) == 0;
    }
  }

  /** What one connection does is invisible to every other: an action changes what a connection sees only
      if it is a step of that connection, and then by that step alone. */
  lemma OthersAreUntouched(acts: seq<Act>, act: Act, s: Side, id: u32)
    requires Reaches(acts, s, id)
    requires CanAct(Run(acts).value, act) && IdsLast(DoAct(Run(acts).value, act))
    ensures Reaches(acts + [act], s, id)
    ensures var step := StepOf(Run(acts).value, act, s, id);
            if step.None? then View(acts + [act], s, id) == View(acts, s, id)
            else CanStep(View(acts, s, id), step.value)
                 && View(acts + [act], s, id) == Next(View(acts, s, id), step.value)
  {
    var m := Run(acts).value;
    assert (acts + [act])[..|acts|] == acts;
    RunHolds(acts);
    assert id != 0 by { assert Ids(At(m, s)); }
    SocksStay(m, act, s, id);
    ActSimulates(m, act, s, id);
  }

  lemma NearCloseArrives(c: Link)
    requires Inv(c) && c.o.Some? && c.a.Some? && !c.oFailed && !c.aFailed && c.oa.flight == []
    ensures c.o.value.st.closed && c.o.value.pend == [] && c.o.value.st.remoteId != 0 ==> c.a.value.st.closed
  {
    Sequences.Empty(c.oa.done);
    assert Sent(c.oa) == c.oa.done;
  }

  lemma FarCloseArrives(c: Link)
    requires Inv(c) && c.o.Some? && c.a.Some? && !c.oFailed && !c.aFailed && c.ao.flight == []
    ensures c.a.value.st.closed && c.a.value.pend == [] ==> c.o.value.st.closed
  {
    Sequences.Empty(c.ao.done);
    assert Sent(c.ao) == c.ao.done;
  }

  /** A close reaches the peer. Once nothing more is to be sent or under way and no transport failed, the peer
      of a dropped opener is closed exactly if the opener had learned whom to address, or if the peer's own
      owner closed it; the peer of a socket that was shut down is closed, and so is the peer of an acceptor. */
  lemma CloseArrives(acts: seq<Act>, s: Side, id: u32)
    requires Reaches(acts, s, id) && View(acts, s, id).a.Some?
    requires !View(acts, s, id).oFailed && !View(acts, s, id).aFailed
    ensures var c := View(acts, s, id);
            var o, a := c.o.value, c.a.value;
            && (o.phase == Dropped && o.pend == [] && c.oa.flight == [] ==>
                  (a.st.closed <==> o.st.remoteId != 0 || a.closer == SocketModel.Local))
            && (o.phase == Held && o.st.closed && c.oa.flight == [] ==> a.st.closed)
            && (a.st.closed && a.pend == [] && c.ao.flight == [] ==> o.st.closed)
  {
    ViewHolds(acts, s, id);
    var c := View(acts, s, id);
    if c.oa.flight == [] {
      NearCloseArrives(c);
    }
    if c.ao.flight == [] {
      FarCloseArrives(c);
    }
  }

  /** A refusal reaches the opener. */
  lemma RefusalArrives(acts: seq<Act>, s: Side, id: u32)
    requires Reaches(acts, s, id) && View(acts, s, id).req == Some(Refused)
    requires !View(acts, s, id).oFailed && View(acts, s, id).ao.flight == [] == View(acts, s, id).ao.lost
    ensures View(acts, s, id).o.value.st.closed && View(acts, s, id).a.None?
  {
    ViewHolds(acts, s, id);
    var c := View(acts, s, id);
    Sequences.Empty(c.ao.done);
    assert Sent(c.ao) == c.ao.done;
  }

  lemma IdsBefore(m: Mux, act: Act)
    requires CanAct(m, act) && IdsLast(DoAct(m, act))
    ensures IdsLast(m)
  {
  }

  lemma IdsHold(acts: seq<Act>)
    requires Run(acts).Some? && IdsLast(Run(acts).value)
    ensures Ids(Run(acts).value.l) && Ids(Run(acts).value.r)
  {
    RunHolds(acts);
  }

  lemma StepGoesOn(acts: seq<Act>, act: Act, s: Side, id: u32)
    requires Reaches(acts, s, id) && CanAct(Run(acts).value, act) && IdsLast(DoAct(Run(acts).value, act))
    ensures Reaches(acts + [act], s, id)
    ensures DroppedUnknown(View(acts, s, id).o.value) ==> DroppedUnknown(View(acts + [act], s, id).o.value)
  {
    var m := RunsTo(acts, act);
    IdsHold(acts);
    SocksStay(Run(acts).value, act, s, id);
    if DroppedUnknown(View(acts, s, id).o.value) {
      DroppedIsUnlisted(acts, s, id);
      DroppedStays(Run(acts).value, act, s, id);
    }
  }

  lemma DroppedIsUnlisted(acts: seq<Act>, s: Side, id: u32)
    requires Reaches(acts, s, id) && View(acts, s, id).o.value.phase == Dropped
    ensures !View(acts, s, id).o.value.listed
  {
    ViewHolds(acts, s, id);
  }

  /** A run that goes on keeps the connections it had, and a socket dropped before it knew its peer stays
      so. */
  lemma {:induction false} RunGoesOn(acts: seq<Act>, more: seq<Act>, s: Side, id: u32)
    requires Reaches(acts, s, id) && Run(acts + more).Some? && IdsLast(Run(acts + more).value)
    ensures Reaches(acts + more, s, id)
    ensures DroppedUnknown(View(acts, s, id).o.value) ==> DroppedUnknown(View(acts + more, s, id).o.value)
    decreases |more|
  {
    if more == [] {
      Sequences.Empty(acts);
    } else {
      var n := |more| - 1;
      var before := acts + more[..n];
      Sequences.Last(acts, more);
      IdsBefore(Run(before).value, more[n]);
      RunGoesOn(acts, more[..n], s, id);
      StepGoesOn(before, more[n], s, id);
    }
  }

  ghost predicate DroppedUnknown(k: Sock) { k.phase == Dropped && k.st.remoteId == 0 }

  /** The close of a socket that is dropped before it learns its peer is lost: however the run goes on, the
      peer is never closed by it. */
  lemma CloseIsLostBeforeOkay(acts: seq<Act>, more: seq<Act>, s: Side, id: u32)
    requires Reaches(acts, s, id) && DroppedUnknown(View(acts, s, id).o.value)
    requires Run(acts + more).Some? && IdsLast(Run(acts + more).value)
    ensures Reaches(acts + more, s, id)
    ensures DroppedUnknown(View(acts + more, s, id).o.value)
    ensures OrNone(View(acts + more, s, id).a).closer != Peer
  {
    RunGoesOn(acts, more, s, id);
    ViewHolds(acts + more, s, id);
  }

  lemma RunsTo(acts: seq<Act>, act: Act) returns (m: Mux)
    requires Run(acts).Some? && CanAct(Run(acts).value, act)
    ensures Run(acts + [act]) == Some(m) && m == DoAct(Run(acts).value, act)
  {
    assert (acts + [act])[..|acts|] == acts;
    m := DoAct(Run(acts).value, act);
  }

  /** The opener's OPEN was sent and accepted, and the acceptor's OKAY is still to be sent. */
  function Answering(service: Data): Mux {
    var o := OpenedSock(1, service).(pend := []);
    var a := AcceptedSock(1, 1, DELAYED_ACK_BYTES);
    Mux(Endpoint(map[1 := o], map[], 1, false),
        Endpoint(map[1 := a], map[1 := Taken(1)], 1, false),
        Wire([Open(1, DELAYED_ACK_BYTES, service)], [], []),
        NoWire())
  }

  lemma CanBeAnswering(service: Data) returns (acts: seq<Act>)
    ensures Run(acts) == Some(Answering(service))
  {
    acts := [];
    var m := RunsTo(acts, OpenSocket(Left, service));
    acts := acts + [OpenSocket(Left, service)];
    m := RunsTo(acts, Act.Local(Left, 1, Emit));
    acts := acts + [Act.Local(Left, 1, Emit)];
    m := RunsTo(acts, Transfer(Left));
    acts := acts + [Transfer(Left)];
    m := RunsTo(acts, Act.Accept(Right, 1));
    acts := acts + [Act.Accept(Right, 1)];
    assert m.lw.done == Answering(service).lw.done && m.lw.flight == [];
    assert m.l.socks == Answering(service).l.socks;
    assert m.r.socks == Answering(service).r.socks && m.r.req == Answering(service).r.req;
  }

  /** The opener was dropped, and its CLSE and the acceptor's OKAY are on their way. */
  function Crossing(service: Data): Mux {
    var o := OpenedSock(1, service).(st := State(0, true, [], 0, 0), phase := Dropped, pend := [],
                                     listed := false, closer := SocketModel.Local);
    var a := AcceptedSock(1, 1, DELAYED_ACK_BYTES).(pend := [], phase := Held);
    Mux(Endpoint(map[1 := o], map[], 1, false),
        Endpoint(map[1 := a], map[1 := Taken(1)], 1, false),
        Wire([Open(1, DELAYED_ACK_BYTES, service)], [Clse(1, 0)], []),
        Wire([], [Okay(1, 1, DELAYED_ACK_BYTES)], []))
  }

  lemma CanBeCrossing(service: Data, start: seq<Act>) returns (acts: seq<Act>)
    requires Run(start) == Some(Answering(service))
    ensures Run(acts) == Some(Crossing(service))
  {
    acts := start;
    var m := RunsTo(acts, Act.Local(Right, 1, Emit));
    acts := acts + [Act.Local(Right, 1, Emit)];
    m := RunsTo(acts, Act.Local(Left, 1, Drop));
    acts := acts + [Act.Local(Left, 1, Drop)];
    m := RunsTo(acts, Act.Local(Left, 1, Emit));
    acts := acts + [Act.Local(Left, 1, Emit)];
    assert m.lw.flight == Crossing(service).lw.flight && m.rw.flight == Crossing(service).rw.flight;
    assert m.l.socks == Crossing(service).l.socks && m.r.socks == Crossing(service).r.socks;
  }

  /** It does happen: the opener is dropped while the acceptor's OKAY is on its way. Everything arrives,
      nothing failed, and the acceptor is left open. */
  lemma CloseCanBeLost(service: Data) returns (acts: seq<Act>)
    ensures Reaches(acts, Left, 1) && View(acts, Left, 1).a.Some?
    ensures var c := View(acts, Left, 1);
            && DroppedUnknown(c.o.value) && c.o.value.pend == [] && c.oa.flight == [] && c.ao.flight == []
            && !c.oFailed && !c.aFailed
            && c.a.value.phase == Held && c.a.value.listed && !c.a.value.st.closed
  {
    acts := CanBeAnswering(service);
    acts := CanBeCrossing(service, acts);
    var m := RunsTo(acts, Transfer(Left));
    acts := acts + [Transfer(Left)];
    m := RunsTo(acts, Transfer(Right));
    acts := acts + [Transfer(Right)];
    assert m.lw.flight == [] && m.rw.flight == [];
  }

  lemma DroppedStays(m: Mux, act: Act, s: Side, id: u32)
    requires Ids(m.l) && Ids(m.r) && CanAct(m, act) && id in At(m, s).socks
    requires DroppedUnknown(At(m, s).socks[id]) && !At(m, s).socks[id].listed
    ensures id in At(DoAct(m, act), s).socks
    ensures IdsLast(DoAct(m, act)) ==> DroppedUnknown(At(DoAct(m, act), s).socks[id])
  {
    if IdsLast(DoAct(m, act)) && (act.OpenSocket? || act.Accept?) {
      assert NextId(At(m, act.s)) !in At(m, act.s).socks;
    }
  }

  // ---- What appears on the wire -----------------------------------------------------------------

  /** Everything that side `s` ever sent. */
  ghost function SentBy(acts: seq<Act>, s: Side): seq<Frame>
    requires Run(acts).Some?
  {
    Sent(Out(Run(acts).value, s))
  }

  lemma PickSent(w: Wire, sel: Sel)
    ensures Pick(Sent(w), sel) == Sent(PickWire(w, sel))
  {
    PickAppend(w.done + w.flight, w.lost, sel);
    PickAppend(w.done, w.flight, sel);
  }

  lemma {:induction false} PickSame(w: seq<Frame>, x: u32, y: u32)
    requires forall f :: f in w ==> (Picks(BySrc(x), f) <==> Picks(ByDst(y), f) && f.src == x)
    requires forall f :: f in Pick(w, ByDst(y)) ==> f.src == x
    ensures Pick(w, BySrc(x)) == Pick(w, ByDst(y))
  {
    if w != [] {
      assert w[0] in w;
      if Picks(ByDst(y), w[0]) {
        assert Pick(w, ByDst(y))[0] == w[0];
      }
      forall f | f in Pick(w[1..], ByDst(y)) ensures f.src == x {
        assert f in Pick(w, ByDst(y));
      }
      PickSame(w[1..], x, y);
    }
  }

  /** Nothing follows a CLSE, the socket is closed once it was sent, and every WRTE fits. */
  ghost predicate WellSent(k: Sock, sent: seq<Frame>) {
    forall i :: 0 <= i < |sent| ==>
      && (sent[i].Clse? ==> i == |sent| - 1 && k.st.closed)
      && (sent[i].Wrte? ==> |sent[i].data| <= 1_048_576)
  }

  /** A socket sends CLSE at most once, and after it nothing: no OKAY, no WRTE. Every WRTE fits. */
  lemma ClseIsLast(acts: seq<Act>, s: Side, id: u32)
    requires Run(acts).Some? && IdsLast(Run(acts).value) && id in At(Run(acts).value, s).socks
    ensures WellSent(At(Run(acts).value, s).socks[id], Pick(SentBy(acts, s), BySrc(id)))
  {
    EverySocketHasItsConnection(acts, s, id);
    if At(Run(acts).value, s).socks[id].origin == Opened {
      OpenerSends(acts, s, id);
    } else {
      AcceptorSends(acts, s, id);
    }
  }

  lemma OpenerWellSent(c: Link)
    requires Inv(c) && c.o.Some?
    ensures WellSent(c.o.value, Sent(c.oa))
  {
    forall i | 0 <= i < |Sent(c.oa)| ensures Sent(c.oa)[i].Wrte? ==> |Sent(c.oa)[i].data| <= MAX_PAYLOAD {
      assert NearFrame(c, Sent(c.oa)[i], i == 0);
    }
  }

  lemma AcceptorWellSent(c: Link)
    requires Inv(c) && c.o.Some? && c.a.Some?
    ensures WellSent(c.a.value, Sent(c.ao))
  {
    forall i | 0 <= i < |Sent(c.ao)| ensures Sent(c.ao)[i].Wrte? ==> |Sent(c.ao)[i].data| <= MAX_PAYLOAD {
      assert FarFrame(c, Sent(c.ao)[i], i == 0);
    }
  }

  lemma OpenerSends(acts: seq<Act>, s: Side, id: u32)
    requires Reaches(acts, s, id)
    ensures WellSent(At(Run(acts).value, s).socks[id], Pick(SentBy(acts, s), BySrc(id)))
  {
    ViewHolds(acts, s, id);
    PickSent(Out(Run(acts).value, s), BySrc(id));
    OpenerWellSent(View(acts, s, id));
  }

  lemma AcceptorSends(acts: seq<Act>, s: Side, id: u32)
    requires Run(acts).Some? && IdsLast(Run(acts).value) && id in At(Run(acts).value, s).socks
    requires At(Run(acts).value, s).socks[id].origin == SocketModel.Accepted
    ensures WellSent(At(Run(acts).value, s).socks[id], Pick(SentBy(acts, s), BySrc(id)))
  {
    EverySocketHasItsConnection(acts, s, id);
    var r := At(Run(acts).value, s).socks[id].st.remoteId;
    ViewHolds(acts, Other(s), r);
    AcceptorFrames(acts, s, id);
    AcceptorWellSent(View(acts, Other(s), r));
  }

  /** What an accepted socket sends is what its connection sees come back. */
  lemma AcceptorFrames(acts: seq<Act>, s: Side, id: u32)
    requires Run(acts).Some? && IdsLast(Run(acts).value) && id in At(Run(acts).value, s).socks
    requires At(Run(acts).value, s).socks[id].origin == SocketModel.Accepted
    requires var r := At(Run(acts).value, s).socks[id].st.remoteId;
             Reaches(acts, Other(s), r) && View(acts, Other(s), r).a == Some(At(Run(acts).value, s).socks[id])
    ensures Pick(SentBy(acts, s), BySrc(id))
         == Sent(View(acts, Other(s), At(Run(acts).value, s).socks[id].st.remoteId).ao)
  {
    RunHolds(acts);
    var m := Run(acts).value;
    var r, w := At(m, s).socks[id].st.remoteId, Out(m, s);
    var c := View(acts, Other(s), r);
    ViewHolds(acts, Other(s), r);
    PickSent(w, ByDst(r));
    forall i | 0 <= i < |Sent(c.ao)| ensures Sent(c.ao)[i].src == id {
      assert FarFrame(c, Sent(c.ao)[i], i == 0);
    }
    forall f | f in Sent(w)
      ensures Picks(BySrc(id), f) <==> Picks(ByDst(r), f) && f.src == id
    {
      assert Routed(At(m, s), At(m, Other(s)), f);
    }
    PickSame(Sent(w), id, r);
  }
}
