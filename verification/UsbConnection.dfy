/** The connection object: the two endpoint queues and the header whose payload is awaited. */
module UsbConnection {
  import opened Bytes
  import opened Wrappers
  import opened Messages
  import opened Usb
  import UsbOut

  /** What `poll_flush` answers. */
  datatype FlushResult = Flushed | Waiting | Faulted

  /** How many of the transfers that are over come before the first failed one. */
  function Successes(over: seq<bool>): (n: nat)
    ensures n <= |over|
    ensures n < |over| ==> !over[n]
    ensures forall i :: 0 <= i < n ==> over[i]
  {
    if over == [] || !over[0] then 0 else 1 + Successes(over[1..])
  }

  class UsbConnection {
    const packetSize: nat
    var inQueue: seq<nat>
    var inHeader: Option<Header>
    var arrived: seq<InEvent>
    var outQueue: seq<Data>
    /** Every packet submitted so far. */
    var outPackets: seq<Data>

    ghost predicate Valid() { packetSize >= HEADER_LENGTH }

    ghost function In(): Reader
      reads this
    {
      Reader(inQueue, inHeader, arrived)
    }

    constructor (packetSize: nat)
      requires packetSize >= HEADER_LENGTH
      ensures Valid() && this.packetSize == packetSize
      ensures In() == Reader([], None, []) && outQueue == [] && outPackets == []
    {
      this.packetSize := packetSize;
      inQueue, inHeader, arrived, outQueue, outPackets := [], None, [], [], [];
    }

    /** The next completion of the IN endpoint, if it is there. */
    method PollNextComplete() returns (c: Completion)
      requires inQueue != []
      modifies this`inQueue, this`arrived
      ensures c == Complete(old(inQueue[0]), old(arrived), packetSize)
      ensures c.NotYet? ==> inQueue == old(inQueue) && arrived == old(arrived)
      ensures !c.NotYet? ==> inQueue == old(inQueue)[1..] && arrived == c.rest
    {
      c := Complete(inQueue[0], arrived, packetSize);
      if !c.NotYet? {
        inQueue := inQueue[1..];
        arrived := c.rest;
      }
    }

    /** Reads a header transfer: queues the buffers for what follows, and returns a message that is
        already complete, or the error. */
    method TakeHeader(buf: Data) returns (r: Option<ReadResult>)
      requires Valid() && inHeader.None?
      modifies this`inQueue, this`inHeader
      ensures (In(), r) == OnHeader(old(In()), Decode(buf), packetSize)
    {
      var decoded := ReadHeader(buf);
      match decoded {
        case Err(e) => return Some(BadHeader(e));
        case Ok(header) =>
          if header.dataLength > 0 {
            inQueue := inQueue + [RoundUp(header.dataLength, packetSize)];
          }
          inQueue := inQueue + [packetSize];
          if header.dataLength == 0 {
            return Some(Got(Message(header, [])));
          }
          inHeader := Some(header);
          assert inQueue == old(inQueue) + [RoundUp(header.dataLength, packetSize), packetSize];
          return None;
      }
    }

    method PollReadMessage() returns (r: ReadResult)
      requires Valid()
      modifies this`inQueue, this`inHeader, this`arrived
      ensures (In(), r) == PollRead(old(In()), packetSize)
    {
      if inQueue == [] {
        inQueue := inQueue + [packetSize];
      }
      ghost var start := In();
      assert [] + [packetSize] == [packetSize];
      while inQueue != []
        invariant ReadLoop(In(), packetSize) == ReadLoop(start, packetSize)
        decreases |arrived|
      {
        ghost var before := In();
        var c := PollNextComplete();
        LoopCases(before, packetSize);
        if c.NotYet? {
          return Pending;
        }
        if c.Failed? {
          return TransferFault;
        }
        if inHeader.Some? {
          var header := inHeader.value;
          inHeader := None;
          return Got(Message(header, c.data));
        }
        var last := TakeHeader(c.data);
        if last.Some? {
          return last.value;
        }
      }
      return Pending;
    }

    method Submit(d: Data)
      requires Valid()
      modifies this`outQueue, this`outPackets
      ensures outQueue == old(outQueue) + [d]
      ensures outPackets == old(outPackets) + Chunks(d, packetSize)
    {
      outQueue := outQueue + [d];
      outPackets := outPackets + Chunks(d, packetSize);
    }

    /** Asserts that the caller flushed, and submits the transfers of one message. */
    method WriteMessage(m: Message)
      requires Valid() && outQueue == []
      modifies this`outQueue, this`outPackets
      ensures outQueue == UsbOut.Submitted(m, packetSize)
      ensures outPackets == old(outPackets) + UsbOut.PacketsOf(UsbOut.Submitted(m, packetSize), packetSize)
    {
      var header := ToVec(m.header);
      Submit(header);
      if m.payload != [] {
        Submit(m.payload);
        if m.header.dataLength % packetSize == 0 {
          Submit([]);
        }
      }
      UsbOut.PacketsOfCons(header, UsbOut.Body(m, packetSize), packetSize);
      if m.payload != [] {
        var none: seq<Data> := [];
        UsbOut.PacketsOfCons(m.payload, none, packetSize);
        UsbOut.PacketsOfCons(m.payload, [[]], packetSize);
        UsbOut.PacketsOfCons([], none, packetSize);
        assert [m.payload] + none == [m.payload] && [[]] + none == [[]];
        assert Chunks([], packetSize) + none == Chunks([], packetSize);
      }
      assert UsbOut.Submitted(m, packetSize) == [header] + UsbOut.Body(m, packetSize);
    }

    /** `over` says of the transfers that are over whether they succeeded. Ready means nothing is pending. */
    method PollFlush(over: seq<bool>) returns (r: FlushResult)
      requires |over| <= |outQueue|
      modifies this`outQueue
      ensures var n := Successes(over);
              if n == |old(outQueue)| then r == Flushed && outQueue == []
              else if n == |over| then r == Waiting && outQueue == old(outQueue)[n..]
              else r == Faulted && outQueue == old(outQueue)[n + 1..]
    {
      var i := 0;
      while |outQueue| > 0
        invariant 0 <= i <= |over| && outQueue == old(outQueue)[i..]
        invariant i + Successes(over[i..]) == Successes(over)
        decreases |outQueue|
      {
        if i == |over| {
          return Waiting;
        }
        var ok := over[i];
        outQueue := outQueue[1..];
        if !ok {
          return Faulted;
        }
        assert over[i..][1..] == over[i + 1..];
        i := i + 1;
      }
      return Flushed;
    }
  }
}
