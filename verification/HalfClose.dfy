/** What a reader gets after its own socket was shut down. The end of file that it sees then is not the end of what
    its peer wrote: the table forgets a closed socket at the next message, and drops what comes after. */
module HalfClose {
  import opened Bytes
  import opened SocketModel
  import opened Link
  import opened LinkInvariant
  import opened Multiplex
  import opened Routing
  import opened Guarantees
  import opened Completion
  import opened Wrappers

  /** The reader has taken everything from its queue, and nothing of this direction is on its way or lost. */
  ghost predicate Drained(reader: Sock, w: Wire) {
    Flat(reader.st.readBuffer) == [] && w.flight == [] && w.lost == []
  }

  /** A drained reader got everything that was written exactly if nothing arrived after its socket had left the
      table. */
  lemma DrainedMeansComplete(acts: seq<Act>, s: Side, id: u32)
    requires Reaches(acts, s, id) && View(acts, s, id).a.Some?
    ensures var c := View(acts, s, id);
            var o, a := c.o.value, c.a.value;
            && (Drained(o, c.ao) ==> (o.received == a.written <==> o.discarded == 0))
            && (Drained(a, c.oa) ==> (a.received == o.written <==> a.discarded == 0))
  {
    ViewHolds(acts, s, id);
    var c := View(acts, s, id);
    FlowIsComplete(c.o.value, c.a.value, c.oa, c.ao, NearGrant(c));
    FlowIsComplete(c.a.value, c.o.value, c.ao, c.oa, FarGrant(c));
  }

  lemma FlowIsComplete(x: Sock, y: Sock, xw: Wire, yw: Wire, grant: nat)
    requires Flow(x, y, xw, yw, grant)
    ensures Drained(y, xw) ==> (y.received == x.written <==> y.discarded == 0)
  {
    if Drained(y, xw) {
      assert Arrived(y) == y.received + [] == y.received;
    }
  }

  // ---- A run in which data is dropped ------------------------------------------------------------

  const WINDOW: nat := DELAYED_ACK_BYTES
  const OKAY := Okay(1, 1, DELAYED_ACK_BYTES)

  /** The connection with the ends `o` and `a`, once the OPEN was accepted; `oa` and `ao` are the wires. */
  function Conn(o: Sock, a: Sock, oa: Wire, ao: Wire): Link {
    Link(Some(o), Some(a), Some(Taken(1)), oa, ao, false, false)
  }

  /** The opener's wire when only the OPEN was delivered, and `fs` are in flight. */
  function There(service: Data, fs: seq<Frame>): Wire { Wire([Open(1, DELAYED_ACK_BYTES, service)], fs, []) }

  /** The opener that knows its peer. */
  function Near(service: Data, st: State, closer: Closer): Sock {
    OpenedSock(1, service).(pend := [], st := st, phase := Held, closer := closer)
  }

  /** The acceptor that has `left` bytes of credit and wrote `written`. */
  function Far(left: nat, written: Data): Sock {
    AcceptedSock(1, 1, DELAYED_ACK_BYTES).(st := State(1, false, [], WINDOW, left), pend := [], phase := Held,
                                           written := written)
  }

  function Full(closed: bool, queue: seq<Data>): State { State(1, closed, queue, WINDOW, WINDOW) }

  lemma FollowOne(c: Link, x: Step)
    requires CanStep(c, x)
    ensures Follow(c, [x]) == Some(Next(c, x))
  {
    assert [x][1..] == [];
  }

  lemma FollowTwo(c: Link, x: Step, y: Step)
    requires CanStep(c, x) && CanStep(Next(c, x), y)
    ensures Follow(c, [x, y]) == Some(Next(Next(c, x), y))
  {
    assert [x, y][1..] == [y];
    FollowOne(Next(c, x), y);
  }

  lemma FollowThree(c: Link, x: Step, y: Step, z: Step)
    requires CanStep(c, x) && CanStep(Next(c, x), y) && CanStep(Next(Next(c, x), y), z)
    ensures Follow(c, [x, y, z]) == Some(Next(Next(Next(c, x), y), z))
  {
    assert [x, y, z][1..] == [y, z];
    FollowTwo(Next(c, x), y, z);
  }

  const OPENS := [Do(Acceptor, Emit), Arrive(Acceptor), Do(Opener, Return)]

  lemma Opens(service: Data)
    ensures Follow(Project(Answering(service), Left, 1), OPENS)
         == Some(Conn(Near(service, Full(false, []), Nobody), Far(WINDOW, []), There(service, []), Wire([OKAY], [], [])))
  {
    var c := Project(Answering(service), Left, 1);
    PickOne(Open(1, DELAYED_ACK_BYTES, service), BySrc(1));
    assert c.oa == There(service, []);
    var c1 := Next(c, Do(Acceptor, Emit));
    assert c1.ao.flight == [OKAY];
    var c2 := Next(c1, Arrive(Acceptor));
    assert c2.ao.done == [OKAY] && c2.ao.flight == [];
    var c3 := Next(c2, Do(Opener, Return));
    assert c3.oa.flight == [];
    FollowThree(c, Do(Acceptor, Emit), Arrive(Acceptor), Do(Opener, Return));
  }

  const SHUTS := [Do(Opener, FlushOk), Do(Opener, Finish), Do(Opener, Emit)]

  lemma Shuts(service: Data, a: Sock, ao: Wire)
    ensures Follow(Conn(Near(service, Full(false, []), Nobody), a, There(service, []), ao), SHUTS)
         == Some(Conn(Near(service, Full(true, []), SocketModel.Local), a, There(service, [Clse(1, 1)]), ao))
  {
    var c := Conn(Near(service, Full(false, []), Nobody), a, There(service, []), ao);
    var c1 := Next(c, Do(Opener, FlushOk));
    assert c1.oa.flight == [];
    var c2 := Next(c1, Do(Opener, Finish));
    assert c2.oa.flight == [];
    var c3 := Next(c2, Do(Opener, Emit));
    assert c3.oa.flight == [Clse(1, 1)];
    FollowThree(c, Do(Opener, FlushOk), Do(Opener, Finish), Do(Opener, Emit));
  }

  function Writes(one: byte, two: byte): seq<Step> { [Do(Acceptor, Write([one])), Do(Acceptor, Write([two]))] }

  lemma WritesTwice(o: Sock, oa: Wire, one: byte, two: byte)
    ensures Follow(Conn(o, Far(WINDOW, []), oa, Wire([OKAY], [], [])), Writes(one, two))
         == Some(Conn(o, Far(WINDOW - 2, [one, two]), oa, Wire([OKAY], [Wrte(1, 1, [one]), Wrte(1, 1, [two])], [])))
  {
    var c := Conn(o, Far(WINDOW, []), oa, Wire([OKAY], [], []));
    assert [one][..1] == [one] && [two][..1] == [two];
    var c1 := Next(c, Do(Acceptor, Write([one])));
    assert c1.a.value.written == [one] && c1.ao.flight == [Wrte(1, 1, [one])];
    var c2 := Next(c1, Do(Acceptor, Write([two])));
    assert c2.a.value.written == [one, two] && c2.ao.flight == [Wrte(1, 1, [one]), Wrte(1, 1, [two])];
    FollowTwo(c, Do(Acceptor, Write([one])), Do(Acceptor, Write([two])));
  }

  const ARRIVES := [Arrive(Acceptor), Arrive(Acceptor)]

  /** The first byte is queued and makes the table forget the socket; the second is dropped. */
  function HalfDropped(service: Data, one: byte): Sock {
    Near(service, Full(true, [[one]]), SocketModel.Local).(listed := false, discarded := 1)
  }

  lemma ArrivesTwice(service: Data, a: Sock, oa: Wire, one: byte, two: byte)
    ensures Follow(Conn(Near(service, Full(true, []), SocketModel.Local), a, oa,
                        Wire([OKAY], [Wrte(1, 1, [one]), Wrte(1, 1, [two])], [])), ARRIVES)
         == Some(Conn(HalfDropped(service, one), a, oa, Wire([OKAY, Wrte(1, 1, [one]), Wrte(1, 1, [two])], [], [])))
  {
    var x, y := Wrte(1, 1, [one]), Wrte(1, 1, [two]);
    var c := Conn(Near(service, Full(true, []), SocketModel.Local), a, oa, Wire([OKAY], [x, y], []));
    var c1 := Next(c, Arrive(Acceptor));
    assert c1.o.value.st.readBuffer == [[one]] && c1.ao.done == [OKAY, x] && c1.ao.flight == [y];
    var c2 := Next(c1, Arrive(Acceptor));
    assert c2.ao.done == [OKAY, x, y] && c2.ao.flight == [];
    FollowTwo(c, Arrive(Acceptor), Arrive(Acceptor));
  }

  const ENDS := [Do(Opener, Read(1)), Arrive(Opener)]

  /** The first byte is read, the CLSE arrives, and nothing is left. */
  lemma Ends(service: Data, a: Sock, ao: Wire, one: byte)
    requires a.id == 1
    ensures Follow(Conn(HalfDropped(service, one), a, There(service, [Clse(1, 1)]), ao), ENDS)
         == Some(Conn(HalfDropped(service, one).(st := Full(true, []), received := [one], unacked := 1),
                      Deliver(a, Clse(1, 1)),
                      Wire([Open(1, DELAYED_ACK_BYTES, service), Clse(1, 1)], [], []), ao))
  {
    var c := Conn(HalfDropped(service, one), a, There(service, [Clse(1, 1)]), ao);
    assert Drain([[one]], 1) == ([one], []) by {
      assert [[one]][1..] == [] && [one] + [] == [one];
    }
    var c1 := Next(c, Do(Opener, Read(1)));
    assert c1.o.value.received == [one] && c1.oa.flight == [Clse(1, 1)];
    var c2 := Next(c1, Arrive(Opener));
    assert c2.oa.done == [Open(1, DELAYED_ACK_BYTES, service), Clse(1, 1)] && c2.oa.flight == [];
    FollowTwo(c, Do(Opener, Read(1)), Arrive(Opener));
  }

  lemma Goes(acts: seq<Act>, steps: seq<Step>) returns (after: seq<Act>)
    requires Reaches(acts, Left, 1) && View(acts, Left, 1).a.Some?
    requires (forall step :: step in steps ==> Ordinary(step)) && Follow(View(acts, Left, 1), steps).Some?
    ensures Reaches(after, Left, 1) && View(after, Left, 1) == Follow(View(acts, Left, 1), steps).value
  {
    var more := AloneMeansPossible(acts, Left, 1, steps);
    after := acts + more;
  }

  /** The opener was opened and has shut down. */
  lemma CanBeShut(service: Data) returns (acts: seq<Act>)
    ensures Reaches(acts, Left, 1)
    ensures View(acts, Left, 1)
         == Conn(Near(service, Full(true, []), SocketModel.Local), Far(WINDOW, []),
                 There(service, [Clse(1, 1)]), Wire([OKAY], [], []))
  {
    acts := CanBeAnswering(service);
    Opens(service);
    acts := Goes(acts, OPENS);
    Shuts(service, Far(WINDOW, []), Wire([OKAY], [], []));
    acts := Goes(acts, SHUTS);
  }

  /** It does happen: everything is delivered, nothing failed, and the next read of the opener is an end of file,
      but it never gets the second byte. */
  lemma DataCanBeDropped(service: Data, one: byte, two: byte) returns (acts: seq<Act>)
    ensures Reaches(acts, Left, 1) && View(acts, Left, 1).a.Some?
    ensures var c := View(acts, Left, 1);
            && Drained(c.o.value, c.ao) && c.oa.flight == [] && !c.oFailed && !c.aFailed
            && c.o.value.phase == Held && c.o.value.st.closed
            && c.o.value.received == [one] && c.a.value.written == [one, two]
  {
    var a := Far(WINDOW - 2, [one, two]);
    acts := CanBeShut(service);
    WritesTwice(Near(service, Full(true, []), SocketModel.Local), There(service, [Clse(1, 1)]), one, two);
    acts := Goes(acts, Writes(one, two));
    ArrivesTwice(service, a, There(service, [Clse(1, 1)]), one, two);
    acts := Goes(acts, ARRIVES);
    Ends(service, a, Wire([OKAY, Wrte(1, 1, [one]), Wrte(1, 1, [two])], [], []), one);
    acts := Goes(acts, ENDS);
  }
}
