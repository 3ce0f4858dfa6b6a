/** Two open ends with a finite amount to send: something can always be done until everything is
    delivered and acknowledged, and it cannot go on forever. */
module Progress {
  import opened Bytes
  import opened SocketModel
  import opened Wrappers
  import opened Link
  import opened LinkInvariant
  import opened LinkSteps
  import opened FlowLemmas

  /** A connection and what its two owners still want to write. */
  datatype Job = Job(c: Link, todoO: Data, todoA: Data)

  /** Both ends are opened, held by their owners and not closed; both transports are up. */
  ghost predicate Live(c: Link) { Inv(c) && Open(c) }

  ghost predicate Open(c: Link) {
    && c.o.Some? && c.a.Some?
    && OpenEnd(c.o.value) && OpenEnd(c.a.value)
    && !c.oFailed && !c.aFailed
  }

  ghost predicate OpenEnd(k: Sock) { k.phase == Held && !k.st.closed }

  function SockOf(c: Link, e: End): Sock
    requires c.o.Some? && c.a.Some?
  {
    if e == Opener then c.o.value else c.a.value
  }

  function Todo(j: Job, e: End): Data { if e == Opener then j.todoO else j.todoA }

  function WireOf(c: Link, e: End): Wire { if e == Opener then c.oa else c.ao }

  /** `poll_write` of a buffer with the next `n` bytes, `poll_read` into room for `cap` bytes, and one
      delivery. */
  datatype Work = Put(e: End, n: nat) | Get(e: End, cap: nat) | Carry(e: End)

  predicate CanWork(j: Job, w: Work)
    requires j.c.o.Some? && j.c.a.Some?
  {
    match w
    case Put(e, n) => 0 < n <= |Todo(j, e)| && SockOf(j.c, e).st.acknowledged > 0
    case Get(e, cap) => cap > 0 && SockOf(j.c, e).st.readBuffer != []
    case Carry(e) => WireOf(j.c, e).flight != []
  }

  function StepOfWork(j: Job, w: Work): Step
    requires w.Put? ==> w.n <= |Todo(j, w.e)|
  {
    match w
    case Put(e, n) => Do(e, Write(Todo(j, e)[..n]))
    case Get(e, cap) => Do(e, Read(cap))
    case Carry(e) => Arrive(e)
  }

  function AfterWork(j: Job, w: Work): Job
    requires j.c.o.Some? && j.c.a.Some? && CanWork(j, w) && CanStep(j.c, StepOfWork(j, w))
  {
    var d := Next(j.c, StepOfWork(j, w));
    match w
    case Put(Opener, n) => Job(d, j.todoO[WriteLen(j.c.o.value.st, j.todoO[..n])..], j.todoA)
    case Put(Acceptor, n) => Job(d, j.todoO, j.todoA[WriteLen(j.c.a.value.st, j.todoA[..n])..])
    case _ => j.(c := d)
  }

  /** Each byte has four stations: unwritten, on the wire, queued, and on its way back as credit. */
  ghost function Measure(j: Job): nat
    requires j.c.o.Some? && j.c.a.Some?
  {
    12 * (|j.todoO| + |j.todoA|) + OneWay(j.c.a.value, j.c.oa) + OneWay(j.c.o.value, j.c.ao)
  }

  ghost function OneWay(reader: Sock, w: Wire): nat {
    9 * |Stream(w.flight)| + 3 * Credit(w.flight) + 2 * |w.flight|
    + 6 * |Flat(reader.st.readBuffer)| + |reader.st.readBuffer|
  }

  /** While both ends are live, what is in flight is WRTE and OKAY. */
  lemma OnlyPayload(c: Link, e: End)
    requires Live(c) && WireOf(c, e).flight != []
    ensures WireOf(c, e).flight[0].Wrte? || WireOf(c, e).flight[0].Okay?
    ensures WireOf(c, e).flight[0].dst == SockOf(c, if e == Opener then Acceptor else Opener).id
  {
    if e == Opener {
      HeadFromOpener(c);
    } else {
      HeadFromAcceptor(c);
    }
  }

  /** Unless everything is written and acknowledged, some work can be done. */
  lemma NeverStuck(j: Job)
    requires Live(j.c)
    requires forall w: Work :: !CanWork(j, w)
    ensures j.todoO == [] && j.todoA == []
    ensures FlushReady(j.c.o.value.st) && FlushReady(j.c.a.value.st)
    ensures j.c.a.value.received == j.c.o.value.written && j.c.o.value.received == j.c.a.value.written
  {
    var o, a := j.c.o.value, j.c.a.value;
    assert !CanWork(j, Carry(Opener)) && !CanWork(j, Carry(Acceptor));
    assert !CanWork(j, Get(Opener, 1)) && !CanWork(j, Get(Acceptor, 1));
    assert !CanWork(j, Put(Opener, |j.todoO|)) && !CanWork(j, Put(Acceptor, |j.todoA|));
    assert Arrived(o) == o.received + [] && Arrived(a) == a.received + [];
    Quiet(o, a, j.c.oa, j.c.ao, NearGrant(j.c));
    Quiet(a, o, j.c.ao, j.c.oa, FarGrant(j.c));
  }

  /** With nothing under way all credit is back, and everything written was read. */
  lemma Quiet(x: Sock, y: Sock, xw: Wire, yw: Wire, grant: nat)
    requires Flow(x, y, xw, yw, grant)
    requires xw.flight == [] == xw.lost && yw.flight == [] == yw.lost && y.st.readBuffer == []
    requires y.unacked == 0 && y.discarded == 0 && x.ackDiscarded == 0
    ensures x.st.acknowledged == grant && y.received == x.written
  {
    assert Arrived(y) == y.received + [] == y.received;
  }

  lemma {:induction false} DrainCounts(q: seq<Data>, cap: nat)
    requires cap > 0 && q != []
    ensures var (taken, rest) := Drain(q, cap);
            |taken| == |Flat(q)| - |Flat(rest)| && |rest| <= |q| && (taken == [] ==> |rest| < |q|)
  {
    DrainSplits(q, cap);
    if |q[0]| == 0 {
      DrainSplits(q[1..], cap);
    }
  }

  /** A write moves bytes from the owner to the wire. */
  lemma PutCosts(x: Sock, xw: Wire, todo: Data)
    requires x.st.acknowledged > 0 && todo != []
    ensures var fs, len := Sends(x, Write(todo)), WriteLen(x.st, todo);
            && 0 < len <= |todo|
            && |Stream(Push(xw, fs).flight)| == |Stream(xw.flight)| + len
            && Credit(Push(xw, fs).flight) == Credit(xw.flight)
            && |Push(xw, fs).flight| == |xw.flight| + 1
  {
    PushTotals(xw, Sends(x, Write(todo)));
    OneFrame(Sends(x, Write(todo))[0]);
  }

  /** A read moves bytes from the queue to credit on the wire. */
  lemma GetCosts(y: Sock, yw: Wire, cap: nat, peer: Sock, xw: Wire)
    requires !y.st.closed && cap > 0 && y.st.readBuffer != [] && |Flat(y.st.readBuffer)| <= W
    ensures var y', w' := After(y, Read(cap), false), Push(yw, Sends(y, Read(cap)));
            OneWay(y', xw) + OneWay(peer, w') < OneWay(y, xw) + OneWay(peer, yw)
  {
    var taken := |Drain(y.st.readBuffer, cap).0|;
    DrainCounts(y.st.readBuffer, cap);
    AckCosts(y, yw, cap, taken);
  }

  lemma AckCosts(y: Sock, yw: Wire, cap: nat, taken: nat)
    requires !y.st.closed && taken == |Drain(y.st.readBuffer, cap).0| <= W
    ensures var w' := Push(yw, Sends(y, Read(cap)));
            && Stream(w'.flight) == Stream(yw.flight)
            && Credit(w'.flight) == Credit(yw.flight) + taken
            && |w'.flight| == |yw.flight| + if taken == 0 then 0 else 1
  {
    var fs := Sends(y, Read(cap));
    PushTotals(yw, fs);
    if taken != 0 {
      OneFrame(Okay(y.id, y.st.remoteId, taken));
    }
    assert Stream(yw.flight) + [] == Stream(yw.flight);
  }

  /** A delivery moves bytes or credit from the wire to the socket. */
  lemma CarryCosts(y: Sock, xw: Wire)
    requires xw.flight != [] && (xw.flight[0].Wrte? || xw.flight[0].Okay?)
    ensures OneWay(Deliver(y, xw.flight[0]), Pop(xw)) < OneWay(y, xw)
    ensures !Deliver(y, xw.flight[0]).st.closed || y.st.closed
  {
    var f := xw.flight[0];
    if f.Wrte? && y.listed {
      FlatAppend(y.st.readBuffer, f.data);
    }
  }

  lemma OwnerKeepsOpen(c: Link, e: End, op: Op)
    requires Open(c) && CanStep(c, Do(e, op)) && (op.Read? || op.Write?)
    ensures Open(Next(c, Do(e, op)))
  {
  }

  lemma CarryKeepsOpen(c: Link, e: End)
    requires Live(c) && CanStep(c, Arrive(e))
    ensures Open(Next(c, Arrive(e)))
  {
    OnlyPayload(c, e);
  }

  /** All work is possible and keeps the connection live. */
  lemma WorkKeepsLive(j: Job, w: Work)
    requires Live(j.c) && CanWork(j, w)
    ensures CanStep(j.c, StepOfWork(j, w)) && Live(AfterWork(j, w).c)
  {
    var step := StepOfWork(j, w);
    assert CanStep(j.c, step);
    if w.Carry? {
      CarryKeepsOpen(j.c, w.e);
    } else {
      OwnerKeepsOpen(j.c, step.e, step.op);
    }
    StepKeeps(j.c, step);
  }

  lemma PutProgress(j: Job, w: Work)
    requires Open(j.c) && CanWork(j, w) && w.Put? && CanStep(j.c, StepOfWork(j, w))
    ensures Measure(AfterWork(j, w)) < Measure(j)
  {
    if w.e == Opener {
      PutCosts(j.c.o.value, j.c.oa, j.todoO[..w.n]);
    } else {
      PutCosts(j.c.a.value, j.c.ao, j.todoA[..w.n]);
    }
  }

  lemma GetProgress(j: Job, w: Work)
    requires Open(j.c) && CanWork(j, w) && w.Get? && CanStep(j.c, StepOfWork(j, w))
    requires |Flat(SockOf(j.c, w.e).st.readBuffer)| <= W
    ensures Measure(AfterWork(j, w)) < Measure(j)
  {
    if w.e == Opener {
      GetCosts(j.c.o.value, j.c.oa, w.cap, j.c.a.value, j.c.ao);
    } else {
      GetCosts(j.c.a.value, j.c.ao, w.cap, j.c.o.value, j.c.oa);
    }
  }

  lemma QueueFits(c: Link, e: End)
    requires Live(c)
    ensures |Flat(SockOf(c, e).st.readBuffer)| <= W
  {
  }

  lemma CarryProgress(j: Job, w: Work)
    requires Open(j.c) && CanWork(j, w) && w.Carry? && CanStep(j.c, StepOfWork(j, w))
    requires var f := WireOf(j.c, w.e).flight[0];
             (f.Wrte? || f.Okay?) && f.dst == SockOf(j.c, if w.e == Opener then Acceptor else Opener).id
    ensures Measure(AfterWork(j, w)) < Measure(j)
  {
    if w.e == Opener {
      CarryCosts(j.c.a.value, j.c.oa);
    } else {
      CarryCosts(j.c.o.value, j.c.ao);
    }
  }

  /** All work brings the end nearer. */
  lemma WorkIsProgress(j: Job, w: Work)
    requires Live(j.c) && CanWork(j, w) && CanStep(j.c, StepOfWork(j, w))
    requires AfterWork(j, w).c.o.Some? && AfterWork(j, w).c.a.Some?
    ensures Measure(AfterWork(j, w)) < Measure(j)
  {
    match w
    case Put(_, _) => PutProgress(j, w);
    case Get(e, _) => QueueFits(j.c, e); GetProgress(j, w);
    case Carry(e) => OnlyPayload(j.c, e); CarryProgress(j, w);
  }

  /** The state after some work, unless one piece of it was not possible. */
  function RunWork(j: Job, ws: seq<Work>): Option<Job>
    requires j.c.o.Some? && j.c.a.Some?
    ensures RunWork(j, ws).Some? ==> RunWork(j, ws).value.c.o.Some? && RunWork(j, ws).value.c.a.Some?
    decreases |ws|
  {
    if ws == [] then Some(j)
    else if CanWork(j, ws[0]) && CanStep(j.c, StepOfWork(j, ws[0]))
            && AfterWork(j, ws[0]).c.o.Some? && AfterWork(j, ws[0]).c.a.Some? then
      RunWork(AfterWork(j, ws[0]), ws[1..])
    else None
  }

  /** Every run of work is finite, keeps the connection live and loses no byte of what was to be
      written; when nothing more can be done, both flushes are ready and each reader has received
      exactly what was written before and all that was still to be written. */
  lemma {:induction false} WorkEnds(j: Job, ws: seq<Work>)
    requires Live(j.c) && RunWork(j, ws).Some?
    ensures var k := RunWork(j, ws).value;
            && |ws| + Measure(k) <= Measure(j)
            && Live(k.c)
            && k.c.o.value.written + k.todoO == j.c.o.value.written + j.todoO
            && k.c.a.value.written + k.todoA == j.c.a.value.written + j.todoA
            && ((forall w: Work :: !CanWork(k, w)) ==>
                  && FlushReady(k.c.o.value.st) && FlushReady(k.c.a.value.st)
                  && k.c.a.value.received == j.c.o.value.written + j.todoO
                  && k.c.o.value.received == j.c.a.value.written + j.todoA)
    decreases |ws|
  {
    var k := RunWork(j, ws).value;
    if ws == [] {
    } else {
      WorkKeepsLive(j, ws[0]);
      WorkIsProgress(j, ws[0]);
      WorkKeepsText(j, ws[0]);
      WorkEnds(AfterWork(j, ws[0]), ws[1..]);
    }
    if forall w: Work :: !CanWork(k, w) {
      NeverStuck(k);
      assert k.c.o.value.written + [] == k.c.o.value.written;
      assert k.c.a.value.written + [] == k.c.a.value.written;
    }
  }

  lemma WorkKeepsText(j: Job, w: Work)
    requires Open(j.c) && CanWork(j, w) && CanStep(j.c, StepOfWork(j, w))
    requires AfterWork(j, w).c.o.Some? && AfterWork(j, w).c.a.Some?
    ensures var k := AfterWork(j, w);
            && k.c.o.value.written + k.todoO == j.c.o.value.written + j.todoO
            && k.c.a.value.written + k.todoA == j.c.a.value.written + j.todoA
  {
    if w.Put? {
      PutKeepsText(SockOf(j.c, w.e), Todo(j, w.e), w.n);
    }
  }

  lemma PutKeepsText(x: Sock, todo: Data, n: nat)
    requires n <= |todo|
    ensures After(x, Write(todo[..n]), false).written + todo[WriteLen(x.st, todo[..n])..] == x.written + todo
  {
    var len := WriteLen(x.st, todo[..n]);
    assert todo[..n][..len] == todo[..len];
    assert (x.written + todo[..len]) + todo[len..] == x.written + (todo[..len] + todo[len..]);
    assert todo[..len] + todo[len..] == todo;
  }
}
