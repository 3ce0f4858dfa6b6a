/** Frames find their way: which socket a frame belongs to is the same at both ends, so an action on one
    connection is invisible to every other one. */
module Routing {
  import opened Bytes
  import opened SocketModel
  import opened Link
  import opened LinkInvariant
  import opened Multiplex
  import Sequences

  /** Local ids are exactly 1 up to the number handed out, and name the socket that holds them. */
  ghost predicate Ids(e: Endpoint) {
    && e.allocs < 0x1_0000_0000
    && (forall id :: id in e.socks ==> 1 <= id <= e.allocs && e.socks[id].id == id)
  }

  /** A request answered with a socket and the socket that answers it name each other. */
  ghost predicate Requests(e: Endpoint, p: Endpoint) {
    && (forall r :: r in e.req ==>
          && r in p.socks && p.socks[r].origin == Opened
          && (e.req[r].Taken? ==>
                && e.req[r].local in e.socks
                && e.socks[e.req[r].local].origin == SocketModel.Accepted
                && e.socks[e.req[r].local].st.remoteId == r))
    && (forall b :: b in e.socks && e.socks[b].origin == SocketModel.Accepted ==>
          && e.socks[b].st.remoteId in e.req
          && e.req[e.socks[b].st.remoteId] == Taken(b))
  }

  /** A frame from `e` to `p` has a known sender. A frame for an accepted socket comes from the socket it
      was accepted for, and a frame from an accepted socket goes there. */
  ghost predicate Routed(e: Endpoint, p: Endpoint, f: Frame) {
    if f.Open? then
      f.src in e.socks && e.socks[f.src].origin == Opened
    else
      && (if f.src == 0 then f.Clse? else f.src in e.socks)
      && (f.dst == 0 || f.dst in p.socks)
      && (f.dst in p.socks && p.socks[f.dst].origin == SocketModel.Accepted ==>
            f.src == p.socks[f.dst].st.remoteId)
      && (f.src in e.socks && e.socks[f.src].origin == SocketModel.Accepted ==>
            f.dst == e.socks[f.src].st.remoteId)
  }

  ghost predicate Pending(e: Endpoint) {
    forall id :: id in e.socks && e.socks[id].pend != [] ==>
      var f := e.socks[id].pend[0];
      && |e.socks[id].pend| == 1
      && f.src == id
      && (f.Open? ==> e.socks[id].origin == Opened)
      && (!f.Open? ==> f.dst == e.socks[id].st.remoteId)
  }

  ghost predicate RoutedSide(e: Endpoint, p: Endpoint, w: Wire) {
    && Ids(e)
    && Requests(e, p)
    && Pending(e)
    && (forall f :: f in w.done ==> Routed(e, p, f))
    && (forall f :: f in w.flight ==> Routed(e, p, f))
    && (forall f :: f in w.lost ==> Routed(e, p, f))
  }

  ghost predicate Routes(m: Mux) {
    RoutedSide(m.l, m.r, m.lw) && RoutedSide(m.r, m.l, m.rw)
  }

  /** Side `s` opened, or may still open, a connection under this id. */
  ghost predicate IsKey(m: Mux, s: Side, id: u32) {
    id != 0 && (id in At(m, s).socks ==> At(m, s).socks[id].origin == Opened)
  }

  ghost predicate Links(m: Mux) {
    forall s: Side, id: u32 :: IsKey(m, s, id) ==> Inv(Project(m, s, id))
  }

  // ---- Picking frames -------------------------------------------------------------------------

  lemma {:induction false} PickAppend(u: seq<Frame>, v: seq<Frame>, sel: Sel)
    ensures Pick(u + v, sel) == Pick(u, sel) + Pick(v, sel)
  {
    if u == [] {
      assert u + v == v;
    } else {
      PickAppend(u[1..], v, sel);
      Sequences.Front(u, v);
      Sequences.Assoc(if Picks(sel, u[0]) then [u[0]] else [], Pick(u[1..], sel), Pick(v, sel));
    }
  }

  lemma PickOne(f: Frame, sel: Sel)
    ensures Pick([f], sel) == if Picks(sel, f) then [f] else []
  {
    assert [f][1..] == [];
  }

  lemma {:induction false} PickNone(w: seq<Frame>, sel: Sel)
    requires forall f :: f in w ==> !Picks(sel, f)
    ensures Pick(w, sel) == []
  {
    if w != [] {
      PickNone(w[1..], sel);
    }
  }

  lemma PickPush(w: Wire, fs: seq<Frame>, sel: Sel)
    requires |fs| <= 1
    ensures PickWire(Push(w, fs), sel)
         == if fs != [] && Picks(sel, fs[0]) then Push(PickWire(w, sel), fs) else PickWire(w, sel)
    ensures fs == [] ==> Push(PickWire(w, sel), fs) == PickWire(w, sel) && Push(w, fs) == w
  {
    PickAppend(w.flight, fs, sel);
    if fs != [] {
      assert fs == [fs[0]];
      PickOne(fs[0], sel);
    }
  }

  lemma PickPop(w: Wire, sel: Sel)
    requires w.flight != []
    ensures Picks(sel, w.flight[0]) ==>
      PickWire(w, sel).flight != [] && PickWire(w, sel).flight[0] == w.flight[0]
      && PickWire(Pop(w), sel) == Pop(PickWire(w, sel))
    ensures !Picks(sel, w.flight[0]) ==> PickWire(Pop(w), sel) == PickWire(w, sel)
  {
    PickAppend(w.done, [w.flight[0]], sel);
    PickOne(w.flight[0], sel);
  }

  lemma PickCut(w: Wire, keep: nat, sel: Sel)
    requires keep <= |w.flight|
    ensures var k := |Pick(w.flight[..keep], sel)|;
            k <= |PickWire(w, sel).flight| && PickWire(Cut(w, keep), sel) == Cut(PickWire(w, sel), k)
  {
    assert w.flight[..keep] + w.flight[keep..] == w.flight;
    PickAppend(w.flight[..keep], w.flight[keep..], sel);
    PickAppend(w.flight[keep..], w.lost, sel);
  }
}
