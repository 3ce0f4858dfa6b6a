/** How each step changes the ledger and the byte stream of one direction. */
module FlowLemmas {
  import opened Bytes
  import opened SocketModel
  import opened Link
  import opened LinkInvariant
  import Sequences

  lemma {:induction false} StreamAppend(u: seq<Frame>, v: seq<Frame>)
    ensures Stream(u + v) == Stream(u) + Stream(v)
  {
    if u == [] {
      assert u + v == v;
    } else {
      StreamAppend(u[1..], v);
      Sequences.Front(u, v);
      Sequences.Assoc(if u[0].Wrte? then u[0].data else [], Stream(u[1..]), Stream(v));
    }
  }

  lemma {:induction false} CreditAppend(u: seq<Frame>, v: seq<Frame>)
    ensures Credit(u + v) == Credit(u) + Credit(v)
  {
    if u == [] {
      assert u + v == v;
    } else {
      CreditAppend(u[1..], v);
      Sequences.Front(u, v);
    }
  }

  lemma PushTotals(w: Wire, fs: seq<Frame>)
    ensures Stream(Push(w, fs).flight) == Stream(w.flight) + Stream(fs)
    ensures Credit(Push(w, fs).flight) == Credit(w.flight) + Credit(fs)
  {
    StreamAppend(w.flight, fs);
    CreditAppend(w.flight, fs);
  }

  lemma OneFrame(f: Frame)
    ensures Stream([f]) == if f.Wrte? then f.data else []
    ensures Credit([f]) == if f.Okay? then f.avail else 0
  {
    assert [f][1..] == [];
  }

  /** Bytes are written at the end: credit for them moves onto the wire. */
  lemma WriteMoves(x: Sock, x': Sock, y: Sock, xw: Wire, xw': Wire, yw: Wire, grant: nat, sent: Data)
    requires Flow(x, y, xw, yw, grant) && y.closer != Peer && xw.lost == [] == xw'.lost
    requires x'.st.acknowledged + |sent| == x.st.acknowledged && x'.ackDiscarded == x.ackDiscarded
    requires x'.written == x.written + sent && Stream(xw'.flight) == Stream(xw.flight) + sent
    ensures Flow(x', y, xw', yw, grant)
  {
    Sequences.Empty(Arrived(y) + Stream(xw.flight));
    Sequences.Empty(Arrived(y) + Stream(xw'.flight));
    Sequences.Assoc(Arrived(y), Stream(xw.flight), sent);
  }

  lemma WriterWrites(x: Sock, y: Sock, xw: Wire, yw: Wire, grant: nat, buf: Data)
    requires Flow(x, y, xw, yw, grant) && Can(x, Write(buf), false)
    requires y.closer != Peer && xw.lost == []
    ensures Flow(After(x, Write(buf), false), y, Push(xw, Sends(x, Write(buf))), yw, grant)
  {
    var fs, sent := Sends(x, Write(buf)), buf[..WriteLen(x.st, buf)];
    PushTotals(xw, fs);
    OneFrame(fs[0]);
    WriteMoves(x, After(x, Write(buf), false), y, xw, Push(xw, fs), yw, grant, sent);
  }

  /** Nothing of this direction changes. */
  lemma WriterRests(x: Sock, x': Sock, y: Sock, xw: Wire, xw': Wire, yw: Wire, grant: nat)
    requires Flow(x, y, xw, yw, grant)
    requires x'.st.acknowledged == x.st.acknowledged && x'.ackDiscarded == x.ackDiscarded
    requires x'.written == x.written && Stream(xw'.flight) == Stream(xw.flight) && xw'.lost == xw.lost
    ensures Flow(x', y, xw', yw, grant)
  {
  }

  lemma CarriesNothing(x: Sock, op: Op, failed: bool)
    requires Can(x, op, failed) && !op.Write? && (op.Emit? ==> !x.pend[0].Wrte?)
    ensures Stream(Sends(x, op)) == []
    ensures var x' := After(x, op, failed);
            x'.st.acknowledged == x.st.acknowledged && x'.ackDiscarded == x.ackDiscarded && x'.written == x.written
  {
    var fs := Sends(x, op);
    if fs != [] {
      OneFrame(fs[0]);
      assert fs == [fs[0]];
    }
  }

  /** The writer's own step keeps its direction: a write moves credit and bytes onto the wire. */
  lemma WriterSteps(x: Sock, y: Sock, xw: Wire, yw: Wire, grant: nat, op: Op, failed: bool)
    requires Flow(x, y, xw, yw, grant) && Can(x, op, failed)
    requires op.Emit? ==> !x.pend[0].Wrte?
    requires xw.lost == [] || failed
    requires op.Write? ==> y.closer != Peer
    ensures Flow(After(x, op, failed), y, Push(xw, Sends(x, op)), yw, grant)
  {
    if op.Write? {
      WriterWrites(x, y, xw, yw, grant, op.buf);
    } else {
      CarriesNothing(x, op, failed);
      PushTotals(xw, Sends(x, op));
      Sequences.Empty(Stream(xw.flight));
      WriterRests(x, After(x, op, failed), y, xw, Push(xw, Sends(x, op)), yw, grant);
    }
  }

  /** A read takes nothing away from what has arrived, and what it acknowledges is what it took. */
  lemma ReadMoves(y: Sock, cap: nat)
    requires |Flat(y.st.readBuffer)| < 0x1_0000_0000
    ensures var y' := After(y, Read(cap), false);
            && Arrived(y') == Arrived(y)
            && |Flat(y.st.readBuffer)| + y.unacked
               == |Flat(y'.st.readBuffer)| + y'.unacked + Credit(Sends(y, Read(cap)))
            && y'.discarded == y.discarded && y'.listed == y.listed && y'.closer == y.closer
  {
    DrainSplits(y.st.readBuffer, cap);
    var (taken, rest) := Drain(y.st.readBuffer, cap);
    assert (y.received + taken) + Flat(rest) == y.received + (taken + Flat(rest));
    assert |Flat(y.st.readBuffer)| == |taken| + |Flat(rest)|;
    if !y.st.closed && taken != [] {
      OneFrame(Okay(y.id, y.st.remoteId, |taken| % 0x1_0000_0000));
    }
  }

  /** The reader's step: a read moves queued bytes to its owner and credit onto the way back. */
  lemma ReaderReads(x: Sock, y: Sock, xw: Wire, yw: Wire, grant: nat, cap: nat)
    requires Flow(x, y, xw, yw, grant) && grant <= W
    ensures Flow(x, After(y, Read(cap), false), xw, Push(yw, Sends(y, Read(cap))), grant)
  {
    ReadMoves(y, cap);
    PushTotals(yw, Sends(y, Read(cap)));
  }

  /** Any other step of the reader leaves the direction alone, except that a granting OKAY adds its
      credit. */
  lemma ReaderSteps(x: Sock, y: Sock, xw: Wire, yw: Wire, grant: nat, op: Op, failed: bool)
    requires Flow(x, y, xw, yw, grant) && Can(y, op, failed) && grant <= W
    ensures Flow(x, After(y, op, failed), xw, Push(yw, Sends(y, op)),
                 grant + if op.Emit? then Credit(y.pend) else 0)
  {
    if op.Read? {
      ReaderReads(x, y, xw, yw, grant, op.cap);
    } else {
      PushTotals(yw, Sends(y, op));
      if op.Write? {
        OneFrame(Sends(y, op)[0]);
      }
    }
  }

  /** What a frame carries is queued when the socket is listed, and counted as discarded when not. */
  lemma DeliverMoves(y: Sock, f: Frame)
    requires !f.Open?
    ensures var y' := Deliver(y, f);
            && (y.listed ==> Arrived(y') == Arrived(y) + Stream([f]) && y'.discarded == y.discarded)
            && (!y.listed ==> Arrived(y') == Arrived(y) && y'.discarded == y.discarded + |Stream([f])|)
            && |Flat(y'.st.readBuffer)| + y'.discarded
               == |Flat(y.st.readBuffer)| + y.discarded + |Stream([f])|
            && y'.unacked == y.unacked
            && (y'.listed ==> y.listed)
            && (y'.closer == Peer ==> y.closer == Peer || (y.listed && f.Clse?))
  {
    OneFrame(f);
    if y.listed && f.Wrte? {
      FlatAppend(y.st.readBuffer, f.data);
      assert y.received + (Flat(y.st.readBuffer) + f.data) == y.received + Flat(y.st.readBuffer) + f.data;
    }
  }

  /** A frame of the writer arrives at the reader. */
  lemma ReaderGets(x: Sock, y: Sock, xw: Wire, yw: Wire, grant: nat)
    requires Flow(x, y, xw, yw, grant) && xw.flight != [] && !xw.flight[0].Open?
    requires xw.flight[0].Clse? ==> |xw.flight| == 1 && xw.lost == []
    requires y.closer == Peer ==> !y.listed
    ensures Flow(x, Deliver(y, xw.flight[0]), Pop(xw), yw, grant)
  {
    DeliverMoves(y, xw.flight[0]);
    OneFrame(xw.flight[0]);
    assert Stream(xw.flight) == Stream([xw.flight[0]]) + Stream(xw.flight[1..]);
    Shift(x, y, Deliver(y, xw.flight[0]), xw, yw, grant);
  }

  lemma Shift(x: Sock, y: Sock, y': Sock, xw: Wire, yw: Wire, grant: nat)
    requires Flow(x, y, xw, yw, grant) && xw.flight != []
    requires Stream(xw.flight) == Stream([xw.flight[0]]) + Stream(xw.flight[1..])
    requires y.listed ==> Arrived(y') == Arrived(y) + Stream([xw.flight[0]]) && y'.discarded == y.discarded
    requires !y.listed ==>
      Arrived(y') == Arrived(y) && y'.discarded == y.discarded + |Stream([xw.flight[0]])|
    requires |Flat(y'.st.readBuffer)| + y'.discarded
          == |Flat(y.st.readBuffer)| + y.discarded + |Stream([xw.flight[0]])|
    requires y'.unacked == y.unacked
    requires y'.listed ==> y.listed
    requires y'.closer == Peer ==>
      || (y.closer == Peer && !y.listed)
      || (y.listed && Stream(xw.flight) == [] == Stream(xw.lost))
    ensures Flow(x, y', Pop(xw), yw, grant)
  {
    var here, rest, lost := Stream([xw.flight[0]]), Stream(xw.flight[1..]), Stream(xw.lost);
    assert Arrived(y) + (here + rest) + lost == (Arrived(y) + here) + rest + lost;
    if y.listed {
      assert Arrived(y') + rest + lost == x.written;
      assert Arrived(y') <= x.written;
    }
  }

  /** A frame of the reader arrives at the writer. */
  lemma WriterGets(x: Sock, y: Sock, xw: Wire, yw: Wire, grant: nat)
    requires Flow(x, y, xw, yw, grant) && yw.flight != [] && !yw.flight[0].Open?
    ensures Flow(Deliver(x, yw.flight[0]), y, xw, Pop(yw), grant)
  {
  }

  /** The writer's transport fails. */
  lemma WriterFails(x: Sock, y: Sock, xw: Wire, yw: Wire, grant: nat, keep: nat)
    requires Flow(x, y, xw, yw, grant) && keep <= |xw.flight| && xw.lost == []
    ensures Flow(x, y, Cut(xw, keep), yw, grant)
  {
    StreamAppend(xw.flight[..keep], xw.flight[keep..]);
    assert xw.flight[..keep] + xw.flight[keep..] == xw.flight;
    assert xw.flight[keep..] + [] == xw.flight[keep..];
    var s, t := Stream(xw.flight[..keep]), Stream(xw.flight[keep..]);
    assert Arrived(y) + s + t == Arrived(y) + (s + t) + [];
  }

  lemma ReaderFails(x: Sock, y: Sock, xw: Wire, yw: Wire, grant: nat, keep: nat)
    requires Flow(x, y, xw, yw, grant) && keep <= |yw.flight| && yw.lost == []
    ensures Flow(x, y, xw, Cut(yw, keep), grant)
  {
    CreditAppend(yw.flight[..keep], yw.flight[keep..]);
    assert yw.flight[..keep] + yw.flight[keep..] == yw.flight;
    assert yw.flight[keep..] + [] == yw.flight[keep..];
  }

  /** A frame no socket takes: it must carry neither bytes nor credit. */
  lemma WireOnly(x: Sock, y: Sock, xw: Wire, yw: Wire, grant: nat)
    requires Flow(x, y, xw, yw, grant)
    ensures xw.flight != [] && !xw.flight[0].Wrte? ==> Flow(x, y, Pop(xw), yw, grant)
    ensures yw.flight != [] && !yw.flight[0].Okay? ==> Flow(x, y, xw, Pop(yw), grant)
  {
    if xw.flight != [] && !xw.flight[0].Wrte? {
      assert Stream(xw.flight) == [] + Stream(xw.flight[1..]) == Stream(xw.flight[1..]);
    }
  }
}
