/** The FIFO wire between two endpoints, when USB transfers carry it: frames become messages, messages become
    packets, and what comes out at the other end are the same frames in the same order. */
module WireOverUsb {
  import opened SocketModel
  import opened Wrappers
  import opened Messages
  import opened Usb
  import opened Multiplex
  import opened Routing
  import opened Runs
  import opened Guarantees
  import UsbOut

  /** The payload's length fits the header's 32 bits. */
  predicate Fits(f: Frame) { |ToMessage(f).payload| < 0x1_0000_0000 }

  /** The messages are the first frames of `fs`. */
  predicate FramesOf(ms: seq<Message>, fs: seq<Frame>) {
    |ms| <= |fs| && forall i :: 0 <= i < |ms| ==> ToFrame(ms[i]) == Ok(fs[i])
  }

  lemma MessageIsFrame(f: Frame)
    requires Fits(f)
    ensures ToFrame(ToMessage(f)) == Ok(f) && Honest(ToMessage(f))
  {
    FrameRoundTrip(f);
  }

  lemma {:induction false} MessagesAt(fs: seq<Frame>)
    ensures |ToMessages(fs)| == |fs|
    ensures forall i :: 0 <= i < |fs| ==> ToMessages(fs)[i] == ToMessage(fs[i])
  {
    if fs != [] {
      MessagesAt(fs[1..]);
    }
  }

  lemma MessagesAreFrames(fs: seq<Frame>)
    requires forall f :: f in fs ==> Fits(f)
    ensures |ToMessages(fs)| == |fs| && FramesOf(ToMessages(fs), fs)
    ensures forall m :: m in ToMessages(fs) ==> Honest(m)
  {
    MessagesAt(fs);
    forall i | 0 <= i < |fs|
      ensures ToFrame(ToMessages(fs)[i]) == Ok(fs[i]) && Honest(ToMessages(fs)[i])
    {
      MessageIsFrame(fs[i]);
    }
  }

  /** From the device: under every schedule of arrivals and polls the messages that the reader returns are the
      first frames sent, and no poll fails; once all packets have arrived the next poll returns the next frame. */
  lemma FramesComeIn(events: seq<Event>, fs: seq<Frame>, p: nat)
    requires p >= HEADER_LENGTH && forall f :: f in fs ==> Fits(f)
    ensures var (r, future, got, ok) := Schedule(events, Reader([], None, []), DeviceStream(ToMessages(fs), p), p);
            && ok && FramesOf(got, fs)
            && (future == [] && |got| < |fs| ==>
                  PollRead(r, p).1.Got? && ToFrame(PollRead(r, p).1.m) == Ok(fs[|got|]))
  {
    MessagesAreFrames(fs);
    ReaderIsExact(events, ToMessages(fs), p);
    var (r, future, got, ok) := Schedule(events, Reader([], None, []), DeviceStream(ToMessages(fs), p), p);
    assert forall i :: 0 <= i < |got| ==> got[i] == ToMessages(fs)[i];
  }

  /** To the device: cutting the packets gives back exactly the frames written. */
  lemma FramesGoOut(fs: seq<Frame>, p: nat)
    requires p > HEADER_LENGTH && forall f :: f in fs ==> Fits(f)
    ensures var ms := UsbOut.Parse(UsbOut.Recover([], UsbOut.Stream(ToMessages(fs), p), p).0);
            ms.Some? && |ms.value| == |fs| && FramesOf(ms.value, fs)
  {
    MessagesAreFrames(fs);
    UsbOut.TransfersRecovered(ToMessages(fs), p);
    UsbOut.MessagesParsed(ToMessages(fs));
  }

  // ---- Every run fits -----------------------------------------------------------------------------

  lemma {:induction false} PickHas(w: seq<Frame>, sel: Sel, f: Frame)
    requires f in w && Picks(sel, f)
    ensures f in Pick(w, sel)
  {
    if f != w[0] {
      PickHas(w[1..], sel, f);
    }
  }

  lemma SentIsRouted(acts: seq<Act>, s: Side, f: Frame)
    requires Run(acts).Some? && IdsLast(Run(acts).value) && f in SentBy(acts, s)
    ensures Routed(At(Run(acts).value, s), At(Run(acts).value, Other(s)), f)
  {
    RunHolds(acts);
  }

  /** Whatever the sockets write, only the name of a service can be too long for its message. */
  lemma OnlyServicesAreLong(acts: seq<Act>, s: Side, f: Frame)
    requires Run(acts).Some? && IdsLast(Run(acts).value) && f in SentBy(acts, s)
    ensures Fits(f) <==> (f.Open? ==> |f.service| + 1 < 0x1_0000_0000)
  {
    if f.Wrte? {
      SentIsRouted(acts, s, f);
      ClseIsLast(acts, s, f.src);
      PickHas(SentBy(acts, s), BySrc(f.src), f);
      var i :| 0 <= i < |Pick(SentBy(acts, s), BySrc(f.src))| && Pick(SentBy(acts, s), BySrc(f.src))[i] == f;
    }
  }

  /** In every run whose service names are shorter than 2^32 - 1 bytes, USB carries all that an endpoint has sent,
      in both directions, as the wire of the model does. */
  lemma UsbIsTheWire(acts: seq<Act>, s: Side, events: seq<Event>, p: nat)
    requires p > HEADER_LENGTH && Run(acts).Some? && IdsLast(Run(acts).value)
    requires forall f :: f in SentBy(acts, s) && f.Open? ==> |f.service| + 1 < 0x1_0000_0000
    ensures var fs := SentBy(acts, s);
            var out := UsbOut.Parse(UsbOut.Recover([], UsbOut.Stream(ToMessages(fs), p), p).0);
            var (r, future, got, ok) := Schedule(events, Reader([], None, []), DeviceStream(ToMessages(fs), p), p);
            && out.Some? && |out.value| == |fs| && FramesOf(out.value, fs)
            && ok && FramesOf(got, fs)
            && (future == [] && |got| < |fs| ==>
                  PollRead(r, p).1.Got? && ToFrame(PollRead(r, p).1.m) == Ok(fs[|got|]))
  {
    forall f | f in SentBy(acts, s) ensures Fits(f) {
      OnlyServicesAreLong(acts, s, f);
    }
    FramesGoOut(SentBy(acts, s), p);
    FramesComeIn(events, SentBy(acts, s), p);
  }
}
