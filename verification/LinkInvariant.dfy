/** What holds of one connection in every reachable state. */
module LinkInvariant {
  import opened Bytes
  import opened SocketModel
  import opened Wrappers
  import opened Link

  const W: nat := DELAYED_ACK_BYTES

  /** The payload bytes carried by a run of frames. */
  function Stream(w: seq<Frame>): Data {
    if w == [] then [] else (if w[0].Wrte? then w[0].data else []) + Stream(w[1..])
  }

  /** The send credit carried by a run of frames. */
  function Credit(w: seq<Frame>): nat {
    if w == [] then 0 else (if w[0].Okay? then w[0].avail else 0) + Credit(w[1..])
  }

  /** Stands for a socket that does not exist. */
  const NoSock := Sock(0, Accepted, State(0, false, [], 0, 0), Dropped, [], false, [], [], 0, 0, 0, Nobody)

  function OrNone(s: Option<Sock>): Sock { if s.Some? then s.value else NoSock }

  /** One direction: `x` writes on `xw`, `y` reads and acknowledges on `yw`. The send credit `grant`
      given to `x` is spread over exactly these places, and what arrived is what was written, up to
      what is still under way. */
  ghost predicate Flow(x: Sock, y: Sock, xw: Wire, yw: Wire, grant: nat) {
    && x.st.acknowledged + |Stream(xw.flight)| + |Stream(xw.lost)| + |Flat(y.st.readBuffer)|
       + y.unacked + y.discarded + Credit(yw.flight) + Credit(yw.lost) + x.ackDiscarded == grant
    && |Arrived(y)| + y.discarded + |Stream(xw.flight)| + |Stream(xw.lost)| == |x.written|
    && (y.listed ==> Arrived(y) + Stream(xw.flight) + Stream(xw.lost) == x.written)
    && Arrived(y) <= x.written
    && (y.closer == Peer ==> Arrived(y) == x.written)
  }

  ghost predicate EndsWithClse(w: seq<Frame>) {
    w != [] && w[|w| - 1].Clse?
  }

  /** What one end has sent so far obeys the close protocol: nothing follows a CLSE. */
  ghost predicate Discipline(x: Sock, xw: Wire, failed: bool) {
    && (forall i :: 0 <= i < |Sent(xw)| - 1 ==> !Sent(xw)[i].Clse?)
    && (EndsWithClse(Sent(xw)) ==> x.st.closed && x.pend == [])
    && (x.pend != [] ==> |x.pend| == 1)
    && (x.pend != [] && x.pend[0].Clse? ==> x.st.closed)
    && (x.st.closed <==> x.closer != Nobody)
    && (x.phase == Sending ==> x.pend != [] && x.pend[0].Clse?)
    && (x.phase in {Held, Flushed} ==> x.pend == [])
    && (x.phase == Dropped ==> !x.listed && (x.pend == [] || x.pend[0].Clse?))
    && (x.listed ==> x.closer != Peer)
    && (x.phase in {Flushed, Sending} ==> FlushReady(x.st))
    && (!x.st.closed ==> x.unacked == 0 && (x.phase != Dropped ==> x.listed))
    && (x.listed ==> x.discarded == 0 && x.ackDiscarded == 0)
    && (!failed ==> xw.lost == [])
  }

  /** A frame of the opener: the OPEN first, and then frames for the accepted socket, or a CLSE for
      nobody when it gave up before it learned whom to address. */
  ghost predicate NearFrame(c: Link, f: Frame, first: bool)
    requires c.o.Some?
  {
    && f.src == c.o.value.id
    && (f.Wrte? ==> |f.data| <= MAX_PAYLOAD)
    && (if f.Open? then first && f.window == DELAYED_ACK_BYTES
        else f.dst == c.o.value.st.remoteId && (f.dst != 0 || f.Clse?))
  }

  ghost predicate Near(c: Link)
    requires c.o.Some?
  {
    var o := c.o.value;
    && o.id != 0
    && o.origin == Opened
    && (forall i :: 0 <= i < |Sent(c.oa)| ==> NearFrame(c, Sent(c.oa)[i], i == 0))
    && (c.req.Some? ==> c.oa.done != [] && Sent(c.oa)[0].Open?)
    && (c.req.None? && c.oa.done != [] ==> !Sent(c.oa)[0].Open?)
    && (c.req.None? ==> c.a.None? && Sent(c.ao) == [])
    && (o.pend != [] ==>
          if o.pend[0].Open? then Sent(c.oa) == [] && o.phase == Opening && o.pend[0].src == o.id
                                  && o.pend[0].window == DELAYED_ACK_BYTES
          else o.pend == [Clse(o.id, o.st.remoteId)])
    && o.phase != Accepting
    && (o.phase in {Held, Flushed, Sending} ==> o.st.remoteId != 0)
    && (o.st.remoteId == 0 ==> o.st.acknowledged == 0 && o.st.initialAck == 0 && o.written == [])
    && (o.st.remoteId != 0 ==>
          && c.req == Some(Taken(o.st.remoteId))
          && o.st.initialAck == W
          && c.ao.done != []
          && Sent(c.ao)[0].Okay?)
    && (o.listed && o.st.remoteId == 0 ==> c.ao.done == [] && !o.st.closed)
  }

  ghost predicate FarFrame(c: Link, f: Frame, first: bool)
    requires c.o.Some? && c.a.Some?
  {
    && f.src == c.a.value.id
    && (f.Wrte? ==> |f.data| <= MAX_PAYLOAD)
    && !f.Open?
    && f.dst == c.o.value.id
    && (first && f.Okay? ==> f.avail == DELAYED_ACK_BYTES)
    && (first ==> f.Okay? || f.Clse?)
  }

  ghost predicate Far(c: Link)
    requires c.o.Some?
  {
    && (c.a.Some? <==> c.req.Some? && c.req.value.Taken?)
    && (c.req.Some? && c.req.value.Waiting? ==> c.req.value.window == DELAYED_ACK_BYTES)
    && (c.a.None? ==> Sent(c.ao) == if c.req == Some(Refused) then [Clse(0, c.o.value.id)] else [])
    && (c.a.Some? ==>
          var a := c.a.value;
          && a.id == c.req.value.local
          && a.id != 0
          && a.origin == SocketModel.Accepted
          && a.st.remoteId == c.o.value.id
          && a.st.initialAck == W
          && (forall i :: 0 <= i < |Sent(c.ao)| ==> FarFrame(c, Sent(c.ao)[i], i == 0))
          && (a.pend != [] ==>
                if a.phase == Accepting then Sent(c.ao) == [] && a.pend == [Okay(a.id, c.o.value.id, DELAYED_ACK_BYTES)]
                else a.pend == [Clse(a.id, c.o.value.id)])
          && (a.phase == Accepting ==> a.pend != [])
          && a.phase != Opening
          && (a.phase in {Held, Flushed, Sending} ==> Sent(c.ao) != [] && Sent(c.ao)[0].Okay?))
  }

  /** The credit the acceptor gives comes with its OKAY; the opener's comes with its OPEN. */
  ghost function NearGrant(c: Link): nat {
    if Sent(c.ao) != [] && Sent(c.ao)[0].Okay? then W else 0
  }

  ghost function FarGrant(c: Link): nat {
    if c.a.Some? then W else 0
  }

  /** Both directions add up. */
  ghost predicate Flows(c: Link)
    requires c.o.Some?
  {
    && Flow(c.o.value, OrNone(c.a), c.oa, c.ao, NearGrant(c))
    && Flow(OrNone(c.a), c.o.value, c.ao, c.oa, FarGrant(c))
  }

  /** Both ends keep the close protocol, and an end closed by its peer was sent a CLSE. */
  ghost predicate Closes(c: Link)
    requires c.o.Some?
  {
    && Discipline(c.o.value, c.oa, c.oFailed)
    && (c.a.Some? ==> Discipline(c.a.value, c.ao, c.aFailed))
    && (!c.aFailed ==> c.ao.lost == [])
    && (c.o.value.closer == Peer ==> EndsWithClse(Sent(c.ao)))
    && (c.a.Some? && c.a.value.closer == Peer ==> EndsWithClse(Sent(c.oa)) && c.o.value.st.remoteId != 0)
  }

  ghost predicate Base(c: Link) {
    if c.o.None? then Fresh(c) else Near(c) && Far(c) && Closes(c) && Flows(c)
  }

  /** An end that closes on a live transport says so: its CLSE waits to be sent or is its last frame. */
  ghost predicate Announces(x: Sock, xw: Wire, failed: bool) {
    !failed ==>
      && (x.phase == Dropped ==> x.st.closed)
      && (x.closer == Local ==>
            && x.phase !in {Opening, Accepting}
            && (if x.pend == [] then EndsWithClse(Sent(xw)) else x.pend[0].Clse?))
  }

  /** A CLSE that was delivered to a live transport has closed the socket it was meant for. */
  ghost predicate Heard(c: Link)
    requires c.o.Some?
  {
    && (!c.oFailed && EndsWithClse(c.ao.done) ==> c.o.value.st.closed)
    && (c.a.Some? && !c.aFailed && EndsWithClse(c.oa.done) && c.o.value.st.remoteId != 0 ==> c.a.value.st.closed)
  }

  ghost predicate Tells(c: Link) {
    && c.o.Some?
    && Announces(c.o.value, c.oa, c.oFailed)
    && (c.a.Some? ==> Announces(c.a.value, c.ao, c.aFailed))
    && Heard(c)
  }

  ghost predicate Inv(c: Link) {
    Base(c) && (c.o.Some? ==> Tells(c))
  }
}
