/** Writing messages over USB: the packets sent let the device find every transfer again. */
module UsbOut {
  import opened Bytes
  import opened Wrappers
  import opened Messages
  import opened Usb
  import Arith

  /** The transfers a device sees: each ends with the first packet shorter than `p`. The second part of the
      result is an unfinished transfer. */
  function Recover(acc: Data, packets: seq<Data>, p: nat): (seq<Data>, Data)
    decreases |packets|
  {
    if packets == [] then ([], acc)
    else if |packets[0]| < p then
      var (ts, rest) := Recover([], packets[1..], p);
      ([acc + packets[0]] + ts, rest)
    else
      Recover(acc + packets[0], packets[1..], p)
  }

  /** What follows a header: the payload unless it is empty, and an empty transfer after a payload whose stated
      length is a multiple of the packet size. */
  function Body(m: Message, p: nat): seq<Data>
    requires p > 0
  {
    if m.payload == [] then [] else if m.header.dataLength % p == 0 then [m.payload, []] else [m.payload]
  }

  /** What `write_message` submits. */
  function Submitted(m: Message, p: nat): seq<Data>
    requires p > 0
  {
    [Encode(m.header)] + Body(m, p)
  }

  /** The packets of submitted transfers. */
  function PacketsOf(ts: seq<Data>, p: nat): seq<Data>
    requires p > 0
  {
    if ts == [] then [] else Chunks(ts[0], p) + PacketsOf(ts[1..], p)
  }

  /** The transfers the device is meant to see. */
  function Intended(ms: seq<Message>): seq<Data> {
    if ms == [] then []
    else [Encode(ms[0].header)] + ((if ms[0].payload == [] then [] else [ms[0].payload]) + Intended(ms[1..]))
  }

  function Stream(ms: seq<Message>, p: nat): seq<Data>
    requires p > 0
  {
    if ms == [] then [] else PacketsOf(Submitted(ms[0], p), p) + Stream(ms[1..], p)
  }

  /** How a device turns transfers back into messages. */
  function Parse(ts: seq<Data>): Option<seq<Message>>
    decreases |ts|
  {
    if ts == [] then Some([])
    else
      match Decode(ts[0])
      case Err(_) => None
      case Ok(h) =>
        if h.dataLength == 0 then
          match Parse(ts[1..])
          case None => None
          case Some(ms) => Some([Message(h, [])] + ms)
        else if |ts| == 1 then None
        else
          match Parse(ts[2..])
          case None => None
          case Some(ms) => Some([Message(h, ts[1])] + ms)
  }

  /** A transfer that ends in a short packet is recovered, and the next one starts fresh. */
  lemma {:induction false} ShortEnds(acc: Data, d: Data, rest: seq<Data>, p: nat)
    requires p > 0 && (d == [] || |d| % p != 0)
    ensures var (ts, left) := Recover([], rest, p);
            Recover(acc, Chunks(d, p) + rest, p) == ([acc + d] + ts, left)
    decreases |d|
  {
    var all := Chunks(d, p) + rest;
    if |d| <= p {
      Arith.ModShift(0, 1, p);
      assert all[0] == d && all[1..] == rest;
    } else {
      Arith.ModShift(|d| - p, 1, p);
      ShortEnds(acc + d[..p], d[p..], rest, p);
      assert all[0] == d[..p] && all[1..] == Chunks(d[p..], p) + rest;
      assert acc + d[..p] + d[p..] == acc + (d[..p] + d[p..]) == acc + d;
    }
  }

  /** A transfer of full packets only does not end. */
  lemma {:induction false} FullGoesOn(acc: Data, d: Data, rest: seq<Data>, p: nat)
    requires p > 0 && d != [] && |d| % p == 0
    ensures Recover(acc, Chunks(d, p) + rest, p) == Recover(acc + d, rest, p)
    decreases |d|
  {
    var all := Chunks(d, p) + rest;
    if |d| <= p {
      Arith.RemainderIsUnique(|d|, if |d| == p then 1 else 0, if |d| == p then 0 else |d|, p);
      assert all[0] == d && all[1..] == rest;
    } else {
      Arith.ModShift(|d| - p, 1, p);
      FullGoesOn(acc + d[..p], d[p..], rest, p);
      assert all[0] == d[..p] && all[1..] == Chunks(d[p..], p) + rest;
      assert acc + d[..p] + d[p..] == acc + (d[..p] + d[p..]) == acc + d;
    }
  }

  /** What the device sees of a payload, an optional empty transfer, and the next header. */
  function Seen(d: Data, z: bool, next: Data, p: nat): (seq<Data>, Data)
    requires p > 0
  {
    Recover([], Chunks(d, p) + ((if z then Chunks([], p) else []) + Chunks(next, p)), p)
  }

  lemma HeaderSeen(acc: Data, next: Data, p: nat)
    requires 0 < |next| < p
    ensures Recover(acc, Chunks(next, p), p) == ([acc + next], [])
  {
    Arith.RemainderIsUnique(|next|, 0, |next|, p);
    ShortEnds(acc, next, [], p);
    assert Chunks(next, p) + [] == Chunks(next, p);
    assert Recover([], [], p) == ([], []);
    assert [acc + next] + Recover([], [], p).0 == [acc + next];
  }

  lemma EmptySeen(acc: Data, next: Data, p: nat)
    requires 0 < |next| < p
    ensures Recover(acc, Chunks([], p) + Chunks(next, p), p) == ([acc, next], [])
  {
    HeaderSeen([], next, p);
    ShortEnds(acc, [], Chunks(next, p), p);
    var none: Data := [];
    assert [acc + none] + [none + next] == [acc + none, none + next];
    assert acc + none == acc && none + next == next;
  }

  /** The device sees exactly the payload and the next header just when the empty transfer is sent for
      multiples of the packet size and only for them. */
  lemma ZeroLengthPacketIsExact(d: Data, z: bool, next: Data, p: nat)
    requires d != [] && 0 < |next| < p
    ensures Seen(d, z, next, p) == ([d, next], []) <==> (z <==> |d| % p == 0)
  {
    var tail, none: Data := (if z then Chunks([], p) else []) + Chunks(next, p), [];
    var seen := Seen(d, z, next, p);
    assert !z ==> tail == Chunks(next, p);
    assert none + d == d && none + next == next;
    HeaderSeen(d, next, p);
    HeaderSeen(none, next, p);
    EmptySeen(d, next, p);
    EmptySeen(none, next, p);
    if |d| % p == 0 {
      FullGoesOn(none, d, tail, p);
      assert |seen.0| == if z then 2 else 1;
    } else {
      ShortEnds(none, d, tail, p);
      assert [d] + [next] == [d, next];
      assert |seen.0| == if z then 3 else 2;
    }
  }

  lemma PacketsOfCons(t: Data, ts: seq<Data>, p: nat)
    requires p > 0
    ensures PacketsOf([t] + ts, p) == Chunks(t, p) + PacketsOf(ts, p)
  {
    assert ([t] + ts)[1..] == ts;
  }

  /** One message is recovered whole, whatever follows. */
  lemma MessageRecovered(m: Message, rest: seq<Data>, p: nat)
    requires p > HEADER_LENGTH && Honest(m)
    ensures Recover([], PacketsOf(Submitted(m, p), p) + rest, p)
         == ([Encode(m.header)] + ((if m.payload == [] then [] else [m.payload]) + Recover([], rest, p).0),
             Recover([], rest, p).1)
  {
    var h, body := Encode(m.header), Body(m, p);
    Arith.RemainderIsUnique(|h|, 0, |h|, p);
    PacketsOfCons(h, body, p);
    assert Submitted(m, p) == [h] + body;
    assert Chunks(h, p) + PacketsOf(body, p) + rest == Chunks(h, p) + (PacketsOf(body, p) + rest);
    ShortEnds([], h, PacketsOf(body, p) + rest, p);
    assert [] + h == h;
    BodyRecovered(m, rest, p);
  }

  lemma BodyRecovered(m: Message, rest: seq<Data>, p: nat)
    requires p > 0 && Honest(m)
    ensures Recover([], PacketsOf(Body(m, p), p) + rest, p)
         == ((if m.payload == [] then [] else [m.payload]) + Recover([], rest, p).0, Recover([], rest, p).1)
  {
    var d, body := m.payload, Body(m, p);
    if d == [] {
      assert PacketsOf(body, p) + rest == rest;
      assert [] + Recover([], rest, p).0 == Recover([], rest, p).0;
    } else if |d| % p == 0 {
      PacketsOfCons(d, [[]], p);
      PacketsOfCons([], [], p);
      assert body == [d] + [[]];
      var none: seq<Data> := [];
      assert [[]] + none == [[]] && Chunks([], p) + none == Chunks([], p);
      assert PacketsOf(body, p) + rest == Chunks(d, p) + (Chunks([], p) + rest);
      FullGoesOn([], d, Chunks([], p) + rest, p);
      ShortEnds(d, [], rest, p);
      assert [] + d == d && d + [] == d;
    } else {
      PacketsOfCons(d, [], p);
      assert body == [d] + [];
      assert PacketsOf(body, p) + rest == Chunks(d, p) + rest;
      ShortEnds([], d, rest, p);
      assert [] + d == d;
    }
  }

  /** Every message sequence is recovered from its packets, transfer by transfer, with nothing left over. */
  lemma {:induction false} TransfersRecovered(ms: seq<Message>, p: nat)
    requires p > HEADER_LENGTH && forall m :: m in ms ==> Honest(m)
    ensures Recover([], Stream(ms, p), p) == (Intended(ms), [])
  {
    if ms != [] {
      TransfersRecovered(ms[1..], p);
      MessageRecovered(ms[0], Stream(ms[1..], p), p);
    }
  }

  lemma ParseFront(m: Message, ts: seq<Data>)
    requires Honest(m)
    requires Parse(ts).Some?
    ensures Parse([Encode(m.header)] + ((if m.payload == [] then [] else [m.payload]) + ts))
         == Some([m] + Parse(ts).value)
  {
    var all := [Encode(m.header)] + ((if m.payload == [] then [] else [m.payload]) + ts);
    DecodeEncode(m.header, []);
    assert Encode(m.header) + [] == Encode(m.header);
    assert all[0] == Encode(m.header);
    if m.payload == [] {
      assert all[1..] == ts;
    } else {
      assert all[1] == m.payload && all[2..] == ts;
    }
  }

  /** Decoding the transfers gives back the messages. */
  lemma {:induction false} MessagesParsed(ms: seq<Message>)
    requires forall m :: m in ms ==> Honest(m)
    ensures Parse(Intended(ms)) == Some(ms)
  {
    if ms != [] {
      MessagesParsed(ms[1..]);
      ParseFront(ms[0], Intended(ms[1..]));
      assert [ms[0]] + ms[1..] == ms;
    }
  }

  /** A packet at the front can only lengthen the first transfer. */
  lemma {:induction false} FirstTransferGrows(acc: Data, packets: seq<Data>, p: nat)
    ensures var (ts, left) := Recover(acc, packets, p);
            if ts == [] then |left| >= |acc| else packets != [] && |ts[0]| >= |acc| + |packets[0]|
    decreases |packets|
  {
    if packets != [] && |packets[0]| >= p {
      FirstTransferGrows(acc + packets[0], packets[1..], p);
    }
  }

  /** The framing works for every packet size the connection accepts except 24: there the header fills its
      packet, and the device cannot tell where it ends. */
  lemma WriterIsExact(ms: seq<Message>, p: nat)
    requires p >= HEADER_LENGTH && ms != [] && forall m :: m in ms ==> Honest(m)
    ensures Recover([], Stream(ms, p), p) == (Intended(ms), []) <==> p != HEADER_LENGTH
    ensures p != HEADER_LENGTH ==> Parse(Recover([], Stream(ms, p), p).0) == Some(ms)
  {
    if p != HEADER_LENGTH {
      TransfersRecovered(ms, p);
      MessagesParsed(ms);
    } else {
      var h, all := Encode(ms[0].header), Stream(ms, p);
      HeaderFirst(ms, p);
      assert Recover([], all, p) == Recover([] + h, all[1..], p);
      FirstTransferGrows([] + h, all[1..], p);
      NextIsNotEmpty(ms, p);
    }
  }

  lemma HeaderFirst(ms: seq<Message>, p: nat)
    requires p >= HEADER_LENGTH && ms != []
    ensures Stream(ms, p) != [] && Stream(ms, p)[0] == Encode(ms[0].header)
  {
    var t := Submitted(ms[0], p);
    assert t[0] == Encode(ms[0].header);
    assert Chunks(t[0], p) == [t[0]];
  }

  /** What follows a header packet is not an empty packet. */
  lemma NextIsNotEmpty(ms: seq<Message>, p: nat)
    requires p >= HEADER_LENGTH && ms != []
    ensures var all := Stream(ms, p); all != [] && (|all| > 1 ==> all[1] != [])
  {
    var t := Submitted(ms[0], p);
    HeaderFirst(ms, p);
    assert Chunks(t[0], p) == [t[0]];
    if ms[0].payload == [] {
      assert t[1..] == [];
      assert PacketsOf(t, p) == [t[0]] + [];
      if ms[1..] != [] {
        HeaderFirst(ms[1..], p);
      }
    } else {
      assert t[1..][0] == ms[0].payload;
      assert Chunks(ms[0].payload, p)[0] != [];
      assert PacketsOf(t, p) == [t[0]] + (Chunks(ms[0].payload, p) + PacketsOf(t[1..][1..], p));
    }
  }
}
