/** Message framing over USB bulk transfers: which packets belong to which transfer is decided only by
    their sizes (section 5.8.3 of the USB 2.0 specification). */
module Usb {
  import opened Bytes
  import opened Wrappers
  import opened Messages
  import Arith
  import Sequences

  /** The packets of one bulk transfer: full packets and a last one that may be short or, for an empty
      transfer, empty. */
  function Chunks(d: Data, p: nat): seq<Data>
    requires p > 0
  {
    if |d| <= p then [d] else [d[..p]] + Chunks(d[p..], p)
  }

  // ---- Reading ----------------------------------------------------------------------------------

  /** What an IN endpoint hands over: a packet, or the failure of the transfer under way. */
  datatype InEvent = Packet(data: Data) | Fault

  datatype Completion = NotYet | Done(data: Data, rest: seq<InEvent>) | Failed(rest: seq<InEvent>)

  /** The transfer of a buffer of `size` bytes ends when the buffer is full or a packet is short. */
  function Complete(size: nat, arrived: seq<InEvent>, p: nat): (c: Completion)
    ensures c.Done? ==> |c.rest| < |arrived|
    ensures c.Failed? ==> |c.rest| < |arrived|
    decreases |arrived|
  {
    if arrived == [] then NotYet
    else if arrived[0].Fault? then Failed(arrived[1..])
    else
      var d := arrived[0].data;
      if |d| < p || |d| >= size then Done(d, arrived[1..])
      else
        match Complete(size - |d|, arrived[1..], p)
        case NotYet => NotYet
        case Failed(rest) => Failed(rest)
        case Done(more, rest) => Done(d + more, rest)
  }

  /** `next_multiple_of`. */
  function RoundUp(n: nat, p: nat): nat
    requires p > 0
  {
    if n % p == 0 then n else n + p - n % p
  }

  /** The IN side of the connection: the sizes of the buffers in the queue, the header whose payload is
      awaited, and the packets no transfer has taken yet. */
  datatype Reader = Reader(queue: seq<nat>, header: Option<Header>, arrived: seq<InEvent>)

  datatype ReadResult = Got(m: Message) | Pending | BadHeader(reason: string) | TransferFault

  /** A header transfer: the buffers for what follows go into the queue, and the poll ends if the message is
      complete or the header is bad. */
  function OnHeader(r: Reader, decoded: Result<Header>, p: nat): (res: (Reader, Option<ReadResult>))
    requires p > 0
    ensures res.0.arrived == r.arrived
  {
    match decoded
    case Err(e) => (r, Some(BadHeader(e)))
    case Ok(h) =>
      if h.dataLength == 0 then
        (r.(queue := r.queue + [p]), Some(Got(Message(h, []))))
      else
        (Reader(r.queue + [RoundUp(h.dataLength, p), p], Some(h), r.arrived), None)
  }

  /** One `poll_read_message`, after the first buffer is in the queue. */
  function ReadLoop(r: Reader, p: nat): (Reader, ReadResult)
    requires p > 0
    decreases |r.arrived|
  {
    if r.queue == [] then (r, Pending)
    else
      match Complete(r.queue[0], r.arrived, p)
      case NotYet => (r, Pending)
      case Failed(rest) => (r.(queue := r.queue[1..], arrived := rest), TransferFault)
      case Done(buf, rest) =>
        var queue := r.queue[1..];
        match r.header
        case Some(header) => (Reader(queue, None, rest), Got(Message(header, buf)))
        case None =>
          var (r', last) := OnHeader(Reader(queue, None, rest), Decode(buf), p);
          if last.Some? then (r', last.value) else ReadLoop(r', p)
  }

  /** The loop, one transfer at a time. */
  lemma LoopCases(r: Reader, p: nat)
    requires p > 0 && r.queue != []
    ensures var c, queue := Complete(r.queue[0], r.arrived, p), r.queue[1..];
            && (c.NotYet? ==> ReadLoop(r, p) == (r, Pending))
            && (c.Failed? ==> ReadLoop(r, p) == (Reader(queue, r.header, c.rest), TransferFault))
            && (c.Done? && r.header.Some? ==>
                  ReadLoop(r, p) == (Reader(queue, None, c.rest), Got(Message(r.header.value, c.data))))
            && (c.Done? && r.header.None? ==>
                  var (r', last) := OnHeader(Reader(queue, None, c.rest), Decode(c.data), p);
                  ReadLoop(r, p) == if last.Some? then (r', last.value) else ReadLoop(r', p))
  {
  }

  function PollRead(r: Reader, p: nat): (Reader, ReadResult)
    requires p > 0
  {
    ReadLoop(if r.queue == [] then r.(queue := [p]) else r, p)
  }

  /** The packets a device sends for a message: the header in one transfer, a payload in another, and no
      zero-length packet. */
  function DevicePackets(m: Message, p: nat): seq<InEvent>
    requires p > 0
  {
    [Packet(Encode(m.header))] + PayloadPackets(m, p)
  }

  function PayloadPackets(m: Message, p: nat): seq<InEvent>
    requires p > 0
  {
    if m.payload == [] then [] else Packets(Chunks(m.payload, p))
  }

  function Packets(ds: seq<Data>): seq<InEvent> {
    if ds == [] then [] else [Packet(ds[0])] + Packets(ds[1..])
  }

  function DeviceStream(ms: seq<Message>, p: nat): seq<InEvent>
    requires p > 0
  {
    if ms == [] then [] else DevicePackets(ms[0], p) + DeviceStream(ms[1..], p)
  }

  /** The header states the length of its payload. */
  predicate Honest(m: Message) { m.header.dataLength == |m.payload| }

  /** The reader is in step with a device that still has to deliver `ms`: what has arrived and what is
      `future` are exactly the packets of `ms`, less a header already taken. The queue is [header] or
      [payload, header]. */
  ghost predicate InStep(r: Reader, ms: seq<Message>, future: seq<InEvent>, p: nat)
    requires p > 0
  {
    match r.header
    case None => r.queue == [p] && r.arrived + future == DeviceStream(ms, p)
    case Some(h) =>
      && ms != [] && ms[0].header == h && ms[0].payload != []
      && r.queue == [RoundUp(|ms[0].payload|, p), p]
      && r.arrived + future == Packets(Chunks(ms[0].payload, p)) + DeviceStream(ms[1..], p)
  }

  /** A transfer of `k` packets takes exactly the packets of a payload that needs `k`, or waits for the
      rest. */
  lemma {:induction false} PayloadCompletes(d: Data, k: nat, arrived: seq<InEvent>, future: seq<InEvent>,
                                            tail: seq<InEvent>, p: nat)
    requires p > 0 && k > 0 && (k - 1) * p < |d| <= k * p
    requires arrived + future == Packets(Chunks(d, p)) + tail
    ensures match Complete(k * p, arrived, p)
            case NotYet => future != []
            case Failed(_) => false
            case Done(data, rest) => data == d && rest + future == tail
    decreases k
  {
    if arrived == [] {
    } else if k == 1 {
      LastPacket(d, arrived, future, tail, p);
    } else {
      Arith.MulMono(1, k - 1, p);
      assert (k - 1) * p == k * p - p && (k - 2) * p == (k - 1) * p - p;
      FullPacket(d, arrived, future, tail, p);
      PayloadCompletes(d[p..], k - 1, arrived[1..], future, tail, p);
      assert d[..p] + d[p..] == d;
    }
  }

  lemma LastPacket(d: Data, arrived: seq<InEvent>, future: seq<InEvent>, tail: seq<InEvent>, p: nat)
    requires 0 < |d| <= p && arrived != []
    requires arrived + future == Packets(Chunks(d, p)) + tail
    ensures arrived[0] == Packet(d) && arrived[1..] + future == tail
  {
    PacketsCons(d, []);
    assert [d] + [] == [d];
    assert [Packet(d)] + Packets([]) + tail == [Packet(d)] + tail;
    TakeHead(arrived, future, Packet(d), tail);
  }

  lemma FullPacket(d: Data, arrived: seq<InEvent>, future: seq<InEvent>, tail: seq<InEvent>, p: nat)
    requires 0 < p < |d| && arrived != []
    requires arrived + future == Packets(Chunks(d, p)) + tail
    ensures arrived[0] == Packet(d[..p])
    ensures arrived[1..] + future == Packets(Chunks(d[p..], p)) + tail
  {
    var head, rest := d[..p], Chunks(d[p..], p);
    var more := Packets(rest);
    assert Chunks(d, p) == [head] + rest;
    PacketsCons(head, rest);
    Sequences.Assoc([Packet(head)], more, tail);
    TakeHead(arrived, future, Packet(head), more + tail);
  }

  // ---- Polls that fail ---------------------------------------------------------------------------

  function Total(ds: seq<Data>): nat {
    if ds == [] then 0 else |ds[0]| + Total(ds[1..])
  }

  lemma FaultFails(size: nat, rest: seq<InEvent>, p: nat)
    ensures Complete(size, [Fault] + rest, p) == Failed(rest)
  {
    var arrived := [Fault] + rest;
    assert arrived[0] == Fault && arrived[1..] == rest;
  }

  lemma FullPacketGoesOn(size: nat, d: Data, more: seq<InEvent>, p: nat)
    requires |d| >= p && |d| < size && Complete(size - |d|, more, p).Failed?
    ensures Complete(size, [Packet(d)] + more, p) == Complete(size - |d|, more, p)
  {
    var arrived := [Packet(d)] + more;
    assert arrived[0] == Packet(d) && arrived[1..] == more;
  }

  /** A fault among packets that do not yet end the transfer fails it. */
  lemma {:induction false} FaultIsFound(size: nat, ds: seq<Data>, rest: seq<InEvent>, p: nat)
    requires (forall d :: d in ds ==> |d| >= p) && Total(ds) < size
    ensures Complete(size, Packets(ds) + ([Fault] + rest), p) == Failed(rest)
    decreases |ds|
  {
    var fault := [Fault] + rest;
    if ds == [] {
      FaultFails(size, rest, p);
      Sequences.Empty(fault);
    } else {
      var head, more := [Packet(ds[0])], Packets(ds[1..]);
      FaultIsFound(size - |ds[0]|, ds[1..], rest, p);
      FullPacketGoesOn(size, ds[0], more + fault, p);
      Sequences.Assoc(head, more, fault);
    }
  }

  /** A fault under way ends the poll in an error, and the buffer is gone. */
  lemma FaultEndsPoll(r: Reader, ds: seq<Data>, rest: seq<InEvent>, p: nat)
    requires p > 0 && r.queue != [] && r.arrived == Packets(ds) + ([Fault] + rest)
    requires (forall d :: d in ds ==> |d| >= p) && Total(ds) < r.queue[0]
    ensures PollRead(r, p) == (Reader(r.queue[1..], r.header, rest), TransferFault)
  {
    FaultIsFound(r.queue[0], ds, rest, p);
  }

  /** A packet that ends the transfer of a header but is none ends the poll with the reason; an empty packet is
      such a packet. */
  lemma BadHeaderEndsPoll(r: Reader, d: Data, rest: seq<InEvent>, p: nat)
    requires p > 0 && r.header.None? && (r.queue == [] || r.queue == [p]) && r.arrived == [Packet(d)] + rest
    ensures Decode(d).Err? ==> PollRead(r, p) == (Reader([], None, rest), BadHeader(Decode(d).reason))
    ensures d == [] ==> Decode(d).Err?
  {
    var start := Reader([p], None, r.arrived);
    assert r.arrived[0] == Packet(d) && r.arrived[1..] == rest;
    assert Complete(p, r.arrived, p) == Done(d, rest);
    assert [p][1..] == [];
    LoopCases(start, p);
  }

  /** The rounded-up size is the packets it takes. */
  lemma RoundUpPackets(n: nat, p: nat) returns (k: nat)
    requires p > 0 && n > 0
    ensures k > 0 && RoundUp(n, p) == k * p && (k - 1) * p < n <= k * p
  {
    var q := n / p;
    assert n == q * p + n % p;
    k := if n % p == 0 then q else q + 1;
    assert (q + 1) * p == q * p + p && (q - 1) * p == q * p - p;
    if q == 0 {
      assert q * p == 0;
    }
  }

  lemma TakeHead(arrived: seq<InEvent>, future: seq<InEvent>, x: InEvent, rest: seq<InEvent>)
    requires arrived != [] && arrived + future == [x] + rest
    ensures arrived[0] == x && arrived[1..] + future == rest
  {
    assert (arrived + future)[0] == arrived[0];
    assert (arrived + future)[1..] == arrived[1..] + future;
    assert ([x] + rest)[1..] == rest;
  }

  lemma PacketsCons(d: Data, ds: seq<Data>)
    ensures Packets([d] + ds) == [Packet(d)] + Packets(ds)
  {
    assert ([d] + ds)[1..] == ds;
  }

  /** One poll of a reader in step: it returns the next message, or it waits because packets of that
      message are still to come. Nothing else can happen, and the reader stays in step. */
  lemma {:induction false} ReadsInStep(r: Reader, ms: seq<Message>, future: seq<InEvent>, p: nat)
    requires p >= HEADER_LENGTH && InStep(r, ms, future, p)
    requires forall m :: m in ms ==> Honest(m)
    ensures var (r', result) := ReadLoop(r, p);
            match result
            case Got(m) => ms != [] && m == ms[0] && InStep(r', ms[1..], future, p)
            case Pending => (ms == [] || future != []) && InStep(r', ms, future, p)
            case _ => false
  {
    match r.header
    case Some(h) => PayloadStep(r, ms, future, p);
    case None =>
      if ms != [] && r.arrived != [] {
        HeaderStep(r, ms, future, p);
        var m := ms[0];
        if m.payload != [] {
          PayloadStep(Reader([RoundUp(m.header.dataLength, p), p], Some(m.header), r.arrived[1..]), ms, future, p);
        }
      }
  }

  lemma StreamHead(ms: seq<Message>, p: nat)
    requires p > 0 && ms != []
    ensures DeviceStream(ms, p)
         == [Packet(Encode(ms[0].header))] + (PayloadPackets(ms[0], p) + DeviceStream(ms[1..], p))
  {
  }

  /** The packets after a header are those of its payload and then of the other messages. */
  lemma AfterHeader(r: Reader, ms: seq<Message>, future: seq<InEvent>, p: nat)
    requires p > 0 && InStep(r, ms, future, p) && r.header.None? && ms != [] && r.arrived != []
    ensures r.arrived[0] == Packet(Encode(ms[0].header))
    ensures r.arrived[1..] + future == PayloadPackets(ms[0], p) + DeviceStream(ms[1..], p)
  {
    StreamHead(ms, p);
    TakeHead(r.arrived, future, Packet(Encode(ms[0].header)), PayloadPackets(ms[0], p) + DeviceStream(ms[1..], p));
  }

  lemma HeaderStep(r: Reader, ms: seq<Message>, future: seq<InEvent>, p: nat)
    requires p >= HEADER_LENGTH && InStep(r, ms, future, p) && r.header.None?
    requires ms != [] && r.arrived != [] && Honest(ms[0])
    ensures var m, tail := ms[0], r.arrived[1..];
            if m.payload == [] then
              ReadLoop(r, p) == (Reader([p], None, tail), Got(m)) && tail + future == DeviceStream(ms[1..], p)
            else
              var r' := Reader([RoundUp(m.header.dataLength, p), p], Some(m.header), tail);
              ReadLoop(r, p) == ReadLoop(r', p) && InStep(r', ms, future, p)
  {
    AfterHeader(r, ms, future, p);
    LoopOverHeader(r, ms[0], p);
    assert [] + DeviceStream(ms[1..], p) == DeviceStream(ms[1..], p);
  }

  lemma LoopOverHeader(r: Reader, m: Message, p: nat)
    requires p >= HEADER_LENGTH && r.queue == [p] && r.header.None?
    requires r.arrived != [] && r.arrived[0] == Packet(Encode(m.header)) && Honest(m)
    ensures ReadLoop(r, p)
         == if m.payload == [] then (Reader([p], None, r.arrived[1..]), Got(m))
            else ReadLoop(Reader([RoundUp(m.header.dataLength, p), p], Some(m.header), r.arrived[1..]), p)
  {
    DecodeEncode(m.header, []);
    assert Encode(m.header) + [] == Encode(m.header);
    assert Complete(p, r.arrived, p) == Done(Encode(m.header), r.arrived[1..]);
    var queue := r.queue[1..];
    assert queue + [p] == [p] && queue + [RoundUp(m.header.dataLength, p), p] == [RoundUp(m.header.dataLength, p), p];
  }

  lemma PayloadStep(r: Reader, ms: seq<Message>, future: seq<InEvent>, p: nat)
    requires p > 0 && InStep(r, ms, future, p) && r.header.Some?
    ensures var (r', result) := ReadLoop(r, p);
            match result
            case Got(m) => m == ms[0] && InStep(r', ms[1..], future, p)
            case Pending => future != [] && r' == r
            case _ => false
  {
    var k := RoundUpPackets(|ms[0].payload|, p);
    PayloadCompletes(ms[0].payload, k, r.arrived, future, DeviceStream(ms[1..], p), p);
  }

  /** The connection under a schedule: packets arrive, and the owner polls. */
  datatype Event = Arrival(n: nat) | Poll

  /** The messages a fresh reader returns under a schedule, and the state it ends in. */
  function Schedule(events: seq<Event>, r: Reader, future: seq<InEvent>, p: nat)
      : (Reader, seq<InEvent>, seq<Message>, bool)
    requires p > 0
    decreases |events|
  {
    if events == [] then
      (r, future, [], true)
    else
      match events[0]
      case Arrival(n) =>
        var k := if n <= |future| then n else |future|;
        Schedule(events[1..], r.(arrived := r.arrived + future[..k]), future[k..], p)
      case Poll =>
        var (r', result) := PollRead(r, p);
        var (r1, f1, ms, ok) := Schedule(events[1..], r', future, p);
        match result
        case Got(m) => (r1, f1, [m] + ms, ok)
        case Pending => (r1, f1, ms, ok)
        case _ => (r1, f1, ms, false)
  }

  /** Whenever packets arrive and whenever the owner polls, the reader returns a prefix of the messages the
      device sent, and never an error; once everything has arrived, one more poll returns the next message
      as long as there is one. */
  lemma {:induction false} ScheduleReads(events: seq<Event>, r: Reader, ms: seq<Message>,
                                         future: seq<InEvent>, p: nat)
    requires p >= HEADER_LENGTH && InStep(r, ms, future, p)
    requires forall m :: m in ms ==> Honest(m)
    ensures Reads(Schedule(events, r, future, p), ms, p)
    decreases |events|
  {
    if events == [] {
      ReadsInStep(r, ms, future, p);
    } else if events[0].Arrival? {
      var k := if events[0].n <= |future| then events[0].n else |future|;
      ArrivalKeepsStep(r, ms, future, k, p);
      ScheduleReads(events[1..], r.(arrived := r.arrived + future[..k]), ms, future[k..], p);
    } else {
      ReadsInStep(r, ms, future, p);
      var (r', result) := PollRead(r, p);
      if result.Got? {
        ScheduleReads(events[1..], r', ms[1..], future, p);
        OneMore(Schedule(events[1..], r', future, p), ms, p);
      } else {
        ScheduleReads(events[1..], r', ms, future, p);
      }
    }
  }

  lemma ArrivalKeepsStep(r: Reader, ms: seq<Message>, future: seq<InEvent>, k: nat, p: nat)
    requires p > 0 && InStep(r, ms, future, p) && k <= |future|
    ensures InStep(r.(arrived := r.arrived + future[..k]), ms, future[k..], p)
  {
    Sequences.Assoc(r.arrived, future[..k], future[k..]);
    assert future[..k] + future[k..] == future;
  }

  /** The result of a schedule is as it should be for the messages `ms`. */
  ghost predicate Reads(end: (Reader, seq<InEvent>, seq<Message>, bool), ms: seq<Message>, p: nat)
    requires p > 0
  {
    var (r, future, got, ok) := end;
    && ok && got <= ms && InStep(r, ms[|got|..], future, p)
    && (future == [] && |got| < |ms| ==> PollRead(r, p).1 == Got(ms[|got|]))
  }

  lemma OneMore(end: (Reader, seq<InEvent>, seq<Message>, bool), ms: seq<Message>, p: nat)
    requires p > 0 && ms != [] && Reads(end, ms[1..], p)
    ensures Reads((end.0, end.1, [ms[0]] + end.2, end.3), ms, p)
  {
    assert ms[1..][|end.2|..] == ms[|end.2| + 1..];
    assert [ms[0]] + end.2 <= ms;
  }

  /** The first poll puts the header buffer in the queue; before that, packets only wait. */
  lemma {:induction false} FirstPollSubmits(events: seq<Event>, arrived: seq<InEvent>, future: seq<InEvent>, p: nat)
    requires p > 0
    ensures var x := Schedule(events, Reader([], None, arrived), future, p);
            var y := Schedule(events, Reader([p], None, arrived), future, p);
            x.1 == y.1 && x.2 == y.2 && x.3 == y.3 && PollRead(x.0, p) == PollRead(y.0, p)
    decreases |events|
  {
    if events != [] && events[0].Arrival? {
      var k := if events[0].n <= |future| then events[0].n else |future|;
      FirstPollSubmits(events[1..], arrived + future[..k], future[k..], p);
    }
  }

  /** From the start, under every schedule of arrivals and polls: what the reader returned is a prefix of
      what the device sent, no poll fails, and when all packets have arrived a poll returns the next
      message as long as there is one. */
  lemma ReaderIsExact(events: seq<Event>, ms: seq<Message>, p: nat)
    requires p >= HEADER_LENGTH && forall m :: m in ms ==> Honest(m)
    ensures var (r', f', got, ok) := Schedule(events, Reader([], None, []), DeviceStream(ms, p), p);
            ok && got <= ms && (f' == [] && |got| < |ms| ==> PollRead(r', p).1 == Got(ms[|got|]))
  {
    assert [] + DeviceStream(ms, p) == DeviceStream(ms, p);
    ScheduleReads(events, Reader([p], None, []), ms, DeviceStream(ms, p), p);
    FirstPollSubmits(events, [], DeviceStream(ms, p), p);
  }
}
