/** Every step of one connection keeps its invariant. */
module LinkSteps {
  import opened Bytes
  import opened SocketModel
  import opened Link
  import opened LinkInvariant
  import opened FlowLemmas
  import Sequences

  lemma SentAfterPush(w: Wire, fs: seq<Frame>)
    requires w.lost == [] || fs == []
    ensures Sent(Push(w, fs)) == Sent(w) + fs
  {
  }

  lemma SentAfterPop(w: Wire)
    requires w.flight != []
    ensures Sent(Pop(w)) == Sent(w)
    ensures w.flight[0] == Sent(w)[|w.done|]
    ensures |w.flight| > 1 || w.lost != [] ==> |w.done| < |Sent(w)| - 1
  {
  }

  lemma SentAfterCut(w: Wire, keep: nat)
    requires keep <= |w.flight| && w.lost == []
    ensures Sent(Cut(w, keep)) == Sent(w)
  {
  }

  /** A step of the owner keeps the close protocol of its end. */
  lemma DisciplineDo(x: Sock, xw: Wire, failed: bool, op: Op)
    requires Discipline(x, xw, failed) && Can(x, op, failed)
    ensures Discipline(After(x, op, failed), Push(xw, Sends(x, op)), failed)
  {
    SentAfterPush(xw, Sends(x, op));
  }

  /** A delivery keeps it too, provided no credit is left to come while a shutdown is under way. */
  lemma DisciplineGets(x: Sock, xw: Wire, failed: bool, f: Frame)
    requires Discipline(x, xw, failed) && !f.Open?
    requires x.phase in {Flushed, Sending} && f.Okay? ==> f.avail == 0 && x.st.remoteId != 0
    ensures Discipline(Deliver(x, f), xw, failed)
  {
  }

  lemma StartKeeps(c: Link, id: u32, service: Data)
    requires Base(c) && CanStep(c, Start(id, service))
    ensures Base(Next(c, Start(id, service)))
  {
  }

  lemma NearFramesStay(c: Link, d: Link, fs: seq<Frame>)
    requires c.o.Some? && d.o.Some? && Sent(d.oa) == Sent(c.oa) + fs && |fs| <= 1
    requires d.o.value.id == c.o.value.id && d.o.value.st.remoteId == c.o.value.st.remoteId
    requires forall i :: 0 <= i < |Sent(c.oa)| ==> NearFrame(c, Sent(c.oa)[i], i == 0)
    requires fs != [] ==> NearFrame(d, fs[0], Sent(c.oa) == [])
    ensures forall i :: 0 <= i < |Sent(d.oa)| ==> NearFrame(d, Sent(d.oa)[i], i == 0)
  {
    forall i | 0 <= i < |Sent(d.oa)| ensures NearFrame(d, Sent(d.oa)[i], i == 0) {
      if i < |Sent(c.oa)| {
        assert NearFrame(c, Sent(c.oa)[i], i == 0);
      }
    }
  }

  lemma FarFramesStay(c: Link, d: Link, fs: seq<Frame>)
    requires c.o.Some? && d.o.Some? && c.a.Some? && d.a.Some? && Sent(d.ao) == Sent(c.ao) + fs && |fs| <= 1
    requires d.o.value.id == c.o.value.id && d.a.value.id == c.a.value.id
    requires forall i :: 0 <= i < |Sent(c.ao)| ==> FarFrame(c, Sent(c.ao)[i], i == 0)
    requires fs != [] ==> FarFrame(d, fs[0], Sent(c.ao) == [])
    ensures forall i :: 0 <= i < |Sent(d.ao)| ==> FarFrame(d, Sent(d.ao)[i], i == 0)
  {
    forall i | 0 <= i < |Sent(d.ao)| ensures FarFrame(d, Sent(d.ao)[i], i == 0) {
      if i < |Sent(c.ao)| {
        assert FarFrame(c, Sent(c.ao)[i], i == 0);
      }
    }
  }

  lemma NearShape(c: Link, op: Op)
    requires c.o.Some? && Near(c) && Far(c)
    requires Discipline(c.o.value, c.oa, c.oFailed) && CanStep(c, Do(Opener, op))
    requires !op.Emit? && !op.Drop?
    ensures Near(Next(c, Do(Opener, op))) && Far(Next(c, Do(Opener, op)))
  {
    SentAfterPush(c.oa, Sends(c.o.value, op));
  }

  lemma NearDrop(c: Link, op: Op)
    requires c.o.Some? && Near(c) && Far(c)
    requires Discipline(c.o.value, c.oa, c.oFailed) && CanStep(c, Do(Opener, op))
    requires op.Drop?
    ensures Near(Next(c, Do(Opener, op))) && Far(Next(c, Do(Opener, op)))
  {
    var d := Next(c, Do(Opener, op));
    Sequences.Empty(c.oa.flight);
    assert d.oa == c.oa;
    NearFramesStay(c, d, []);
    assert Far(d);
  }

  lemma NearEmit(c: Link, op: Op)
    requires c.o.Some? && Near(c) && Far(c)
    requires Discipline(c.o.value, c.oa, c.oFailed) && CanStep(c, Do(Opener, op))
    requires op.Emit?
    ensures Near(Next(c, Do(Opener, op))) && Far(Next(c, Do(Opener, op)))
    ensures !c.o.value.pend[0].Wrte? && Credit(c.o.value.pend) == 0
  {
    var d, fs := Next(c, Do(Opener, op)), c.o.value.pend;
    SentAfterPush(c.oa, fs);
    OneFrame(fs[0]);
    assert fs == [fs[0]];
    NearFramesStay(c, d, fs);
    assert Far(d);
  }

  lemma NearFlows(c: Link, op: Op)
    requires Base(c) && CanStep(c, Do(Opener, op))
    requires op.Emit? ==> !c.o.value.pend[0].Wrte? && Credit(c.o.value.pend) == 0
    ensures Flows(Next(c, Do(Opener, op)))
  {
    var d := Next(c, Do(Opener, op));
    WriterSteps(c.o.value, OrNone(c.a), c.oa, c.ao, NearGrant(c), op, c.oFailed);
    ReaderSteps(OrNone(c.a), c.o.value, c.ao, c.oa, FarGrant(c), op, c.oFailed);
    assert d.ao == c.ao && d.a == c.a && NearGrant(d) == NearGrant(c) && FarGrant(d) == FarGrant(c);
  }

  lemma NearCloses(c: Link, op: Op)
    requires c.o.Some? && Near(c) && Closes(c) && CanStep(c, Do(Opener, op))
    ensures Closes(Next(c, Do(Opener, op)))
  {
    SentAfterPush(c.oa, Sends(c.o.value, op));
    DisciplineDo(c.o.value, c.oa, c.oFailed, op);
  }

  lemma NearDoKeeps(c: Link, op: Op)
    requires Base(c) && CanStep(c, Do(Opener, op))
    ensures Base(Next(c, Do(Opener, op)))
  {
    if op.Emit? {
      NearEmit(c, op);
    } else if op.Drop? {
      NearDrop(c, op);
    } else {
      NearShape(c, op);
    }
    NearFlows(c, op);
    NearCloses(c, op);
  }

  lemma FarShape(c: Link, op: Op)
    requires c.o.Some? && c.a.Some? && Near(c) && Far(c)
    requires Discipline(c.a.value, c.ao, c.aFailed) && CanStep(c, Do(Acceptor, op))
    requires !op.Emit? && !op.Drop?
    ensures Near(Next(c, Do(Acceptor, op))) && Far(Next(c, Do(Acceptor, op)))
  {
    SentAfterPush(c.ao, Sends(c.a.value, op));
  }

  lemma FarDrop(c: Link, op: Op)
    requires c.o.Some? && c.a.Some? && Near(c) && Far(c)
    requires Discipline(c.a.value, c.ao, c.aFailed) && CanStep(c, Do(Acceptor, op))
    requires op.Drop?
    ensures Near(Next(c, Do(Acceptor, op))) && Far(Next(c, Do(Acceptor, op)))
  {
    var d := Next(c, Do(Acceptor, op));
    Sequences.Empty(c.ao.flight);
    assert d.ao == c.ao;
    FarFramesStay(c, d, []);
    assert Near(d);
  }

  lemma FarEmit(c: Link, op: Op)
    requires c.o.Some? && c.a.Some? && Near(c) && Far(c)
    requires Discipline(c.a.value, c.ao, c.aFailed) && CanStep(c, Do(Acceptor, op))
    requires op.Emit?
    ensures Near(Next(c, Do(Acceptor, op))) && Far(Next(c, Do(Acceptor, op)))
    ensures !c.a.value.pend[0].Wrte?
    ensures NearGrant(Next(c, Do(Acceptor, op))) == NearGrant(c) + Credit(c.a.value.pend)
  {
    var d, fs := Next(c, Do(Acceptor, op)), c.a.value.pend;
    SentAfterPush(c.ao, fs);
    OneFrame(fs[0]);
    assert fs == [fs[0]];
    FarFramesStay(c, d, fs);
    assert Near(d);
  }

  lemma FarFlows(c: Link, op: Op)
    requires Base(c) && CanStep(c, Do(Acceptor, op)) && c.o.Some?
    requires var d := Next(c, Do(Acceptor, op));
             NearGrant(d) == NearGrant(c) + if op.Emit? then Credit(c.a.value.pend) else 0
    requires op.Emit? ==> !c.a.value.pend[0].Wrte?
    ensures Flows(Next(c, Do(Acceptor, op)))
  {
    var d := Next(c, Do(Acceptor, op));
    WriterSteps(c.a.value, c.o.value, c.ao, c.oa, FarGrant(c), op, c.aFailed);
    ReaderSteps(c.o.value, c.a.value, c.oa, c.ao, NearGrant(c), op, c.aFailed);
    assert d.oa == c.oa && d.o == c.o && FarGrant(d) == FarGrant(c);
  }

  lemma FarCloses(c: Link, op: Op)
    requires c.o.Some? && Far(c) && Closes(c) && CanStep(c, Do(Acceptor, op))
    ensures Closes(Next(c, Do(Acceptor, op)))
  {
    SentAfterPush(c.ao, Sends(c.a.value, op));
    DisciplineDo(c.a.value, c.ao, c.aFailed, op);
  }

  lemma FarKeepsShape(c: Link, op: Op)
    requires c.o.Some? && c.a.Some? && Near(c) && Far(c)
    requires Discipline(c.a.value, c.ao, c.aFailed) && CanStep(c, Do(Acceptor, op))
    ensures Near(Next(c, Do(Acceptor, op))) && Far(Next(c, Do(Acceptor, op)))
    ensures op.Emit? ==> !c.a.value.pend[0].Wrte?
    ensures NearGrant(Next(c, Do(Acceptor, op))) == NearGrant(c) + if op.Emit? then Credit(c.a.value.pend) else 0
  {
    if op.Emit? {
      FarEmit(c, op);
    } else if op.Drop? {
      FarDrop(c, op);
    } else {
      FarShape(c, op);
    }
  }

  lemma FarDoKeeps(c: Link, op: Op)
    requires Base(c) && CanStep(c, Do(Acceptor, op))
    ensures Base(Next(c, Do(Acceptor, op)))
  {
    FarKeepsShape(c, op);
    FarFlows(c, op);
    FarCloses(c, op);
  }

  /** In flight a CLSE is the last frame of its end, and OPEN travels before any request exists. */
  lemma HeadFromOpener(c: Link)
    requires c.o.Some? && Near(c) && Far(c) && Closes(c) && c.oa.flight != []
    ensures var f := c.oa.flight[0];
            && f.src == c.o.value.id
            && (f.Open? ==> c.req.None? && c.a.None? && f.window == DELAYED_ACK_BYTES && c.oa.done == [])
            && (f.Clse? ==> |c.oa.flight| == 1 && c.oa.lost == [] && EndsWithClse(Sent(c.oa)))
            && (!f.Open? ==> if f.dst == 0 then f.Clse? && c.o.value.st.remoteId == 0
                             else f.dst == c.o.value.st.remoteId && c.a.Some? && c.a.value.id == f.dst)
  {
    SentAfterPop(c.oa);
    assert NearFrame(c, Sent(c.oa)[|c.oa.done|], |c.oa.done| == 0);
  }

  lemma ArriveFarNear(c: Link)
    requires c.o.Some? && Near(c) && Far(c) && Closes(c) && CanStep(c, Arrive(Opener))
    ensures Near(ArriveFar(c))
  {
    HeadFromOpener(c);
    SentAfterPop(c.oa);
    NearFramesStay(c, ArriveFar(c), []);
  }

  lemma ArriveFarFar(c: Link)
    requires c.o.Some? && Near(c) && Far(c) && Closes(c) && CanStep(c, Arrive(Opener))
    ensures Far(ArriveFar(c))
    ensures NearGrant(ArriveFar(c)) == NearGrant(c) && FarGrant(ArriveFar(c)) == FarGrant(c)
  {
    HeadFromOpener(c);
    if c.a.Some? {
      assert c.a.value.st.remoteId != 0;
      FarFramesStay(c, ArriveFar(c), []);
    }
  }

  /** A writer that has all its credit is owed none. */
  lemma NoCreditLeft(x: Sock, y: Sock, xw: Wire, yw: Wire, grant: nat)
    requires Flow(x, y, xw, yw, grant) && yw.flight != []
    ensures x.st.acknowledged == grant && yw.flight[0].Okay? ==> yw.flight[0].avail == 0
  {
    assert Credit(yw.flight) >= if yw.flight[0].Okay? then yw.flight[0].avail else 0;
  }

  lemma ArriveFarCloses(c: Link)
    requires Base(c) && c.o.Some? && CanStep(c, Arrive(Opener))
    ensures Closes(ArriveFar(c))
  {
    var f := c.oa.flight[0];
    HeadFromOpener(c);
    SentAfterPop(c.oa);
    if c.a.Some? && !f.Open? && c.a.value.id == f.dst {
      NoCreditLeft(c.a.value, c.o.value, c.ao, c.oa, FarGrant(c));
      DisciplineGets(c.a.value, c.ao, c.aFailed, f);
    }
  }

  lemma ArriveFarKeeps(c: Link)
    requires Base(c) && CanStep(c, Arrive(Opener))
    ensures Base(ArriveFar(c))
  {
    var f := c.oa.flight[0];
    HeadFromOpener(c);
    ArriveFarNear(c);
    ArriveFarFar(c);
    ArriveFarCloses(c);
    if c.a.Some? && !f.Open? && c.a.value.id == f.dst {
      ReaderGets(c.o.value, c.a.value, c.oa, c.ao, NearGrant(c));
      WriterGets(c.a.value, c.o.value, c.ao, c.oa, FarGrant(c));
    } else {
      WireOnly(c.o.value, OrNone(c.a), c.oa, c.ao, NearGrant(c));
      WireOnly(OrNone(c.a), c.o.value, c.ao, c.oa, FarGrant(c));
    }
  }

  /** The first frame the opener hears is the granting OKAY or a CLSE. */
  lemma HeadFromAcceptor(c: Link)
    requires Base(c) && c.o.Some? && c.ao.flight != []
    ensures var f := c.ao.flight[0];
            && !f.Open?
            && f.dst == c.o.value.id
            && (f.Clse? ==> |c.ao.flight| == 1 && c.ao.lost == [] && EndsWithClse(Sent(c.ao)))
            && (f.Wrte? || f.Okay? ==> c.a.Some? && f.src == c.a.value.id && Sent(c.ao)[0].Okay?)
            && (f.Okay? && c.o.value.listed && c.o.value.st.remoteId == 0 ==>
                  f.avail == DELAYED_ACK_BYTES && c.o.value.pend == []
                  && forall i :: 0 <= i < |Sent(c.oa)| ==> Sent(c.oa)[i].Open?)
  {
    SentAfterPop(c.ao);
    if c.a.Some? {
      assert FarFrame(c, Sent(c.ao)[|c.ao.done|], |c.ao.done| == 0);
      assert FarFrame(c, Sent(c.ao)[0], true);
      OnlyOpenSent(c);
    }
  }

  /** An opener that still waits for its peer has sent no more than its OPEN. */
  lemma OnlyOpenSent(c: Link)
    requires c.o.Some? && Near(c) && Discipline(c.o.value, c.oa, c.oFailed)
    ensures c.o.value.listed && c.o.value.st.remoteId == 0 ==> forall i :: 0 <= i < |Sent(c.oa)| ==> Sent(c.oa)[i].Open?
  {
    forall i | 0 <= i < |Sent(c.oa)| && c.o.value.listed && c.o.value.st.remoteId == 0
      ensures Sent(c.oa)[i].Open?
    {
      assert NearFrame(c, Sent(c.oa)[i], i == 0);
    }
  }

  lemma ArriveNearFar(c: Link)
    requires c.o.Some? && Far(c) && CanStep(c, Arrive(Acceptor))
    ensures Far(ArriveNear(c))
    ensures NearGrant(ArriveNear(c)) == NearGrant(c) && FarGrant(ArriveNear(c)) == FarGrant(c)
  {
    SentAfterPop(c.ao);
    if c.a.Some? {
      FarFramesStay(c, ArriveNear(c), []);
    }
  }

  lemma ArriveNearNear(c: Link)
    requires Base(c) && c.o.Some? && CanStep(c, Arrive(Acceptor))
    ensures Near(ArriveNear(c))
  {
    var d := ArriveNear(c);
    HeadFromAcceptor(c);
    SentAfterPop(c.ao);
    if c.o.value.st.remoteId == d.o.value.st.remoteId {
      NearFramesStay(c, d, []);
    } else {
      forall i | 0 <= i < |Sent(d.oa)|
        ensures NearFrame(d, Sent(d.oa)[i], i == 0)
      {
        assert NearFrame(c, Sent(c.oa)[i], i == 0);
      }
    }
  }

  lemma ArriveNearCloses(c: Link)
    requires Base(c) && c.o.Some? && CanStep(c, Arrive(Acceptor))
    ensures Closes(ArriveNear(c))
  {
    var f := c.ao.flight[0];
    HeadFromAcceptor(c);
    SentAfterPop(c.ao);
    NoCreditLeft(c.o.value, OrNone(c.a), c.oa, c.ao, NearGrant(c));
    DisciplineGets(c.o.value, c.oa, c.oFailed, f);
  }

  lemma ArriveNearKeeps(c: Link)
    requires Base(c) && CanStep(c, Arrive(Acceptor))
    ensures Base(ArriveNear(c))
  {
    HeadFromAcceptor(c);
    ArriveNearNear(c);
    ArriveNearFar(c);
    ArriveNearCloses(c);
    ReaderGets(OrNone(c.a), c.o.value, c.ao, c.oa, FarGrant(c));
    WriterGets(c.o.value, OrNone(c.a), c.oa, c.ao, NearGrant(c));
  }

  lemma TakeNear(c: Link, id: u32)
    requires c.o.Some? && Near(c) && CanStep(c, Take(id))
    ensures Near(Next(c, Take(id)))
  {
    NearFramesStay(c, Next(c, Take(id)), []);
  }

  lemma TakeFar(c: Link, id: u32)
    requires c.o.Some? && c.a.None? && Far(c) && CanStep(c, Take(id)) && Sent(c.ao) == []
    ensures Far(Next(c, Take(id)))
  {
  }

  lemma TakeCloses(c: Link, id: u32)
    requires c.o.Some? && c.a.None? && Closes(c) && CanStep(c, Take(id)) && Sent(c.ao) == []
    ensures Closes(Next(c, Take(id)))
  {
  }

  /** Before the acceptor exists nothing has come back. */
  lemma NothingBack(c: Link)
    requires c.o.Some? && Far(c) && c.req.Some? && c.req.value.Waiting?
    ensures c.a.None? && Sent(c.ao) == [] && c.ao.flight == [] == c.ao.lost && NearGrant(c) == 0 == FarGrant(c)
  {
  }

  lemma TakeFlows(c: Link, id: u32)
    requires c.o.Some? && CanStep(c, Take(id)) && Flows(c) && c.req.value.window == W
    requires c.a.None? && c.ao.flight == [] == c.ao.lost && NearGrant(c) == 0 == FarGrant(c)
    ensures Flows(Next(c, Take(id)))
  {
  }

  lemma TakeKeeps(c: Link, id: u32)
    requires Base(c) && CanStep(c, Take(id))
    ensures Base(Next(c, Take(id)))
  {
    NothingBack(c);
    TakeNear(c, id);
    TakeFar(c, id);
    TakeCloses(c, id);
    TakeFlows(c, id);
  }

  lemma RefuseShape(c: Link, s: Step)
    requires c.o.Some? && Near(c) && Far(c) && CanStep(c, s) && (s.Refuse? || s.Forget?)
    ensures Near(Next(c, s)) && Far(Next(c, s))
  {
    NearFramesStay(c, Next(c, s), []);
  }

  lemma RefuseKeeps(c: Link, s: Step)
    requires Base(c) && CanStep(c, s) && (s.Refuse? || s.Forget?)
    ensures Base(Next(c, s))
  {
    RefuseShape(c, s);
    assert NearGrant(Next(c, s)) == NearGrant(c) && FarGrant(Next(c, s)) == FarGrant(c);
  }

  lemma RefusalNear(c: Link)
    requires c.o.Some? && Near(c) && CanStep(c, SendRefusal)
    ensures Near(Next(c, SendRefusal))
  {
    NearFramesStay(c, Next(c, SendRefusal), []);
  }

  lemma RefusalFar(c: Link)
    requires c.o.Some? && Far(c) && CanStep(c, SendRefusal)
    requires c.ao.lost == []
    ensures c.a.None? && Sent(c.ao) == [] && Far(Next(c, SendRefusal))
  {
    SentAfterPush(c.ao, [Clse(0, c.o.value.id)]);
  }

  lemma RefusalCloses(c: Link)
    requires c.o.Some? && c.a.None? && Closes(c) && CanStep(c, SendRefusal)
    requires Sent(c.ao) == []
    ensures Closes(Next(c, SendRefusal))
  {
    SentAfterPush(c.ao, [Clse(0, c.o.value.id)]);
  }

  lemma RefusalFlows(c: Link)
    requires c.o.Some? && c.a.None? && Flows(c) && CanStep(c, SendRefusal) && Sent(c.ao) == []
    ensures Flows(Next(c, SendRefusal))
  {
    var refusal := [Clse(0, c.o.value.id)];
    PushTotals(c.ao, refusal);
    OneFrame(refusal[0]);
    Sequences.Empty(Stream(c.ao.flight));
    assert Sent(Next(c, SendRefusal).ao)[0] == refusal[0];
  }

  lemma RefusalKeeps(c: Link)
    requires Base(c) && CanStep(c, SendRefusal)
    ensures Base(Next(c, SendRefusal))
  {
    RefusalNear(c);
    RefusalFar(c);
    RefusalCloses(c);
    RefusalFlows(c);
  }

  lemma SameShape(c: Link, d: Link)
    requires c.o.Some? && Near(c) && Far(c)
    requires d.o == c.o && d.a == c.a && d.req == c.req
    requires Sent(d.oa) == Sent(c.oa) && Sent(d.ao) == Sent(c.ao)
    requires d.oa.done == c.oa.done && d.ao.done == c.ao.done
    ensures Near(d) && Far(d) && NearGrant(d) == NearGrant(c) && FarGrant(d) == FarGrant(c)
  {
    NearFramesStay(c, d, []);
    if c.a.Some? {
      FarFramesStay(c, d, []);
    }
  }

  lemma FailShape(c: Link, e: End, keep: nat)
    requires c.o.Some? && Near(c) && Far(c) && Closes(c) && CanStep(c, Fail(e, keep))
    ensures var d := Next(c, Fail(e, keep));
            && Near(d) && Far(d) && Closes(d)
            && NearGrant(d) == NearGrant(c) && FarGrant(d) == FarGrant(c)
  {
    if e == Opener {
      SentAfterCut(c.oa, keep);
    } else {
      SentAfterCut(c.ao, keep);
    }
    SameShape(c, Next(c, Fail(e, keep)));
  }

  lemma FailKeeps(c: Link, e: End, keep: nat)
    requires Base(c) && c.o.Some? && CanStep(c, Fail(e, keep))
    ensures Base(Next(c, Fail(e, keep)))
  {
    FailShape(c, e, keep);
    if e == Opener {
      WriterFails(c.o.value, OrNone(c.a), c.oa, c.ao, NearGrant(c), keep);
      ReaderFails(OrNone(c.a), c.o.value, c.ao, c.oa, FarGrant(c), keep);
    } else {
      WriterFails(OrNone(c.a), c.o.value, c.ao, c.oa, FarGrant(c), keep);
      ReaderFails(c.o.value, OrNone(c.a), c.oa, c.ao, NearGrant(c), keep);
    }
  }

  // ---- A close is told to the peer --------------------------------------------------------------

  lemma AnnouncesDo(x: Sock, xw: Wire, failed: bool, op: Op)
    requires Discipline(x, xw, failed) && Announces(x, xw, failed) && Can(x, op, failed)
    ensures Announces(After(x, op, failed), Push(xw, Sends(x, op)), failed)
  {
    var sent, fs := Sent(xw), Sends(x, op);
    SentAfterPush(xw, fs);
    if x.closer == Local && !op.Emit? {
      assert fs == [] && sent + fs == sent;
    }
  }

  lemma AnnouncesGets(x: Sock, xw: Wire, failed: bool, f: Frame)
    requires Announces(x, xw, failed) && !f.Open?
    ensures Announces(Deliver(x, f), xw, failed)
  {
  }

  /** A frame reaches a live end: if it is a CLSE, the end is closed now. */
  lemma ClseCloses(x: Sock, xw: Wire, failed: bool, f: Frame)
    requires Discipline(x, xw, failed) && Announces(x, xw, failed) && !failed && !f.Open?
    ensures f.Clse? || x.st.closed ==> Deliver(x, f).st.closed
  {
  }

  lemma DoTells(c: Link, e: End, op: Op)
    requires Inv(c) && c.o.Some? && CanStep(c, Do(e, op))
    ensures Tells(Next(c, Do(e, op)))
  {
    if e == Opener {
      AnnouncesDo(c.o.value, c.oa, c.oFailed, op);
    } else {
      AnnouncesDo(c.a.value, c.ao, c.aFailed, op);
    }
  }

  lemma ArriveFarTells(c: Link)
    requires Inv(c) && c.o.Some? && CanStep(c, Arrive(Opener))
    ensures Tells(ArriveFar(c))
  {
    var f := c.oa.flight[0];
    HeadFromOpener(c);
    SentAfterPop(c.oa);
    if c.a.Some? && !f.Open? && c.a.value.id == f.dst {
      AnnouncesGets(c.a.value, c.ao, c.aFailed, f);
      ClseCloses(c.a.value, c.ao, c.aFailed, f);
    }
  }

  lemma ArriveNearTells(c: Link)
    requires Inv(c) && c.o.Some? && CanStep(c, Arrive(Acceptor))
    ensures Tells(ArriveNear(c))
  {
    var f := c.ao.flight[0];
    HeadFromAcceptor(c);
    SentAfterPop(c.ao);
    AnnouncesGets(c.o.value, c.oa, c.oFailed, f);
    ClseCloses(c.o.value, c.oa, c.oFailed, f);
  }

  lemma FailTells(c: Link, e: End, keep: nat)
    requires Inv(c) && c.o.Some? && CanStep(c, Fail(e, keep))
    ensures Tells(Next(c, Fail(e, keep)))
  {
    if e == Opener {
      assert c.a.Some? ==> Announces(c.a.value, c.ao, c.aFailed);
    } else {
      assert Announces(c.o.value, c.oa, c.oFailed);
    }
  }

  lemma StepTells(c: Link, s: Step)
    requires Inv(c) && c.o.Some? && CanStep(c, s)
    ensures Tells(Next(c, s))
  {
    match s
    case Do(e, op) => DoTells(c, e, op);
    case Arrive(Opener) => ArriveFarTells(c);
    case Arrive(Acceptor) => ArriveNearTells(c);
    case Fail(e, keep) => FailTells(c, e, keep);
    case _ =>
  }

  lemma StepKeepsBase(c: Link, s: Step)
    requires Base(c) && CanStep(c, s)
    ensures Base(Next(c, s))
  {
    match s
    case Start(id, service) => StartKeeps(c, id, service);
    case Do(Opener, op) => NearDoKeeps(c, op);
    case Do(Acceptor, op) => FarDoKeeps(c, op);
    case Arrive(Opener) => ArriveFarKeeps(c);
    case Arrive(Acceptor) => ArriveNearKeeps(c);
    case Take(id) => TakeKeeps(c, id);
    case Fail(e, keep) =>
      if c.o.Some? {
        FailKeeps(c, e, keep);
      }
    case SendRefusal => RefusalKeeps(c);
    case _ => RefuseKeeps(c, s);
  }

  /** The invariant holds before anything happens and after every step. */
  lemma StepKeeps(c: Link, s: Step)
    requires Inv(c) && CanStep(c, s)
    ensures Inv(Next(c, s))
  {
    StepKeepsBase(c, s);
    if c.o.Some? {
      StepTells(c, s);
    }
  }
}
