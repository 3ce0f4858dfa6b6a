/** The socket object: its methods update the state in place, as the model's functions say. */
module Socket {
  import opened Bytes
  import opened SocketModel
  import opened Messages
  import SocketWakers
  import Sequences
  import opened Wrappers

  /** What the connection's `poll_flush` answered. */
  datatype Flush = Flushed | Waiting | Broken

  /** `Poll<io::Result<T>>`. */
  datatype Poll<T> = Ready(value: T) | Pending | Failed

  /** The messages handed to the locked connection. */
  class Connection {
    var written: seq<Message>

    constructor ()
      ensures written == []
    {
      written := [];
    }

    method WriteMessage(m: Message)
      modifies this
      ensures written == old(written) + [m]
    {
      written := written + [m];
    }
  }

  /** The queue without the first `n` bytes of its first chunk. */
  function Rest(q: seq<Data>, n: nat): seq<Data>
    requires q != [] && n <= |q[0]|
  {
    if n == |q[0]| then q[1..] else [q[0][n..]] + q[1..]
  }

  /** Draining goes chunk by chunk. */
  lemma DrainChunk(q: seq<Data>, cap: nat)
    requires q != [] && cap > 0
    ensures var n := Min(cap, |q[0]|);
            Drain(q, cap) == (q[0][..n] + Drain(Rest(q, n), cap - n).0, Drain(Rest(q, n), cap - n).1)
  {
    if |q[0]| <= cap {
      assert q[0][..|q[0]|] == q[0];
    } else {
      Sequences.Empty(q[0][..cap]);
    }
  }

  /** How often a message notifies one half. */
  function Wakes(f: Frame, half: SocketWakers.Half): nat {
    if SocketWakers.Notifies(f, half) then 1 else 0
  }

  class SocketBackend {
    const localId: u32
    var remoteId: u32
    var closed: bool
    var readBuffer: seq<Data>
    var initialAcknowledgment: nat
    var acknowledged: nat
    // How often the wakers of the two halves were notified.
    var readNotified: nat
    var writeNotified: nat

    function Abs(): State
      reads this
    {
      State(remoteId, closed, readBuffer, initialAcknowledgment, acknowledged)
    }

    constructor (localId: u32, remoteId: u32, acknowledged: nat)
      ensures this.localId == localId
      ensures Abs() == State(remoteId, false, [], acknowledged, acknowledged)
      ensures readNotified == 0 && writeNotified == 0
    {
      this.localId := localId;
      this.remoteId := remoteId;
      this.closed := false;
      this.readBuffer := [];
      this.initialAcknowledgment := acknowledged;
      this.acknowledged := acknowledged;
      this.readNotified := 0;
      this.writeNotified := 0;
    }

    /** Wakes whoever waits on this socket. */
    method NotifyAll()
      modifies `readNotified, `writeNotified
      ensures readNotified == old(readNotified) + 1 && writeNotified == old(writeNotified) + 1
    {
      readNotified := readNotified + 1;
      writeNotified := writeNotified + 1;
    }

    /** Applies an OKAY, WRTE or CLSE and notifies the halves that it concerns; an OKAY without its four bytes
        changes nothing. */
    method HandleMessage(m: Message) returns (r: Result<bool>)
      requires m.header.command in {OKAY, WRTE, CLSE}
      modifies this
      ensures match ToFrame(m)
              case Ok(f) =>
                && Abs() == Handle(old(Abs()), f) && r == Ok(closed)
                && readNotified == old(readNotified) + Wakes(f, SocketWakers.ReadHalf)
                && writeNotified == old(writeNotified) + Wakes(f, SocketWakers.WriteHalf)
              case Err(e) =>
                && Abs() == old(Abs()) && r == Err(e)
                && readNotified == old(readNotified) && writeNotified == old(writeNotified)
    {
      match m.header.command {
        case OKAY =>
          if |m.payload| != 4 {
            return Err("no avail in OKAY");
          }
          var avail := FromLe32(m.payload);
          if remoteId == 0 {
            initialAcknowledgment := avail;
            remoteId := m.header.arg0;
          }
          acknowledged := acknowledged + avail;
          writeNotified := writeNotified + 1;
        case WRTE =>
          readBuffer := readBuffer + [m.payload];
          readNotified := readNotified + 1;
        case CLSE =>
          closed := true;
          NotifyAll();
      }
      return Ok(closed);
    }

    /** The shutdown shared by `poll_shutdown` and the destructor. */
    method Shutdown(transportError: bool) returns (m: Option<Message>)
      modifies `closed
      ensures closed == (old(closed) || !transportError)
      ensures Abs() == old(Abs()).(closed := closed)
      ensures m == if transportError || old(closed) then None else Some(ToMessage(Clse(localId, remoteId)))
    {
      if !transportError {
        if !closed {
          closed := true;
          return Some(NewMessage(CLSE, localId, remoteId, []));
        }
      }
      return None;
    }

    /** The loop that copies queued bytes into room for `room` bytes. */
    method Fill(room: nat) returns (filled: Data)
      modifies `readBuffer
      ensures (filled, readBuffer) == Drain(old(readBuffer), room)
    {
      filled := [];
      var remaining := room;
      while remaining > 0
        invariant 0 <= remaining <= room
        invariant filled + Drain(readBuffer, remaining).0 == Drain(old(readBuffer), room).0
        invariant Drain(readBuffer, remaining).1 == Drain(old(readBuffer), room).1
        decreases remaining, |readBuffer|
      {
        if readBuffer == [] {
          break;
        }
        var front := readBuffer[0];
        var n := Min(remaining, |front|);
        DrainChunk(readBuffer, remaining);
        Sequences.Assoc(filled, front[..n], Drain(Rest(readBuffer, n), remaining - n).0);
        filled := filled + front[..n];
        remaining := remaining - n;
        if n == |front| {
          readBuffer := readBuffer[1..];
        } else {
          readBuffer := [front[n..]] + readBuffer[1..];
        }
      }
      Sequences.Empty(filled);
    }

    /** Copies queued bytes into room for `room` bytes, and acknowledges them unless closed. */
    method PollRead(transportError: bool, flush: Flush, conn: Connection, room: nat)
        returns (r: Poll<()>, filled: Data)
      modifies `readBuffer, conn
      ensures
        if transportError || flush == Broken then
          r == Failed && filled == [] && Abs() == old(Abs()) && conn.written == old(conn.written)
        else if flush == Waiting then
          r == Pending && filled == [] && Abs() == old(Abs()) && conn.written == old(conn.written)
        else
          && filled == Drain(old(readBuffer), room).0
          && Abs() == old(Abs()).(readBuffer := Drain(old(readBuffer), room).1)
          && conn.written == old(conn.written) + ToMessages(ReadReply(localId, old(Abs()), room))
          && r == if closed || filled != [] then Ready(()) else Pending
    {
      if transportError || flush == Broken {
        return Failed, [];
      }
      if flush == Waiting {
        return Pending, [];
      }
      filled := Fill(room);
      if closed {
        return Ready(()), filled;
      }
      if |filled| == 0 {
        return Pending, filled;
      }
      conn.WriteMessage(NewMessage(OKAY, localId, remoteId, Le32(|filled| % 0x1_0000_0000)));
      assert ToMessages([Okay(localId, remoteId, |filled| % 0x1_0000_0000)])
          == [ToMessage(Okay(localId, remoteId, |filled| % 0x1_0000_0000))];
      return Ready(()), filled;
    }

    /** Sends as much of `buf` as the credit and one message allow. */
    method PollWrite(transportError: bool, flush: Flush, tick: bool, conn: Connection, buf: Data)
        returns (r: Poll<nat>)
      modifies `acknowledged, conn
      ensures
        if transportError || closed || flush == Broken then
          r == Failed && Abs() == old(Abs()) && conn.written == old(conn.written)
        else if flush == Waiting || old(acknowledged) == 0
                || (old(acknowledged) <= initialAcknowledgment / 2 && !tick) then
          r == Pending && Abs() == old(Abs()) && conn.written == old(conn.written)
        else
          var len := WriteLen(old(Abs()), buf);
          && r == Ready(len)
          && Abs() == old(Abs()).(acknowledged := old(acknowledged) - len)
          && conn.written == old(conn.written) + [ToMessage(Wrte(localId, remoteId, buf[..len]))]
      ensures r.Ready? ==>
        && Fullest(r.value, buf, old(acknowledged)) && acknowledged == old(acknowledged) - r.value
        && conn.written == old(conn.written) + [ToMessage(Wrte(localId, remoteId, buf[..r.value]))]
    {
      if transportError || closed || flush == Broken {
        return Failed;
      }
      if flush == Waiting || acknowledged == 0 {
        return Pending;
      }
      if acknowledged <= initialAcknowledgment / 2 {
        if !tick {
          return Pending;
        }
      }
      var len := Min(Min(|buf|, acknowledged), MAX_PAYLOAD);
      acknowledged := acknowledged - len;
      conn.WriteMessage(NewMessage(WRTE, localId, remoteId, buf[..len]));
      return Ready(len);
    }

    method PollFlush(transportError: bool, flush: Flush) returns (r: Poll<()>)
      ensures r == if transportError || flush == Broken then Failed
                   else if flush == Waiting then Pending
                   else if acknowledged == initialAcknowledgment then Ready(())
                   else if closed then Failed
                   else Pending
    {
      if transportError || flush == Broken {
        return Failed;
      }
      if flush == Waiting {
        return Pending;
      }
      if acknowledged == initialAcknowledgment {
        return Ready(());
      }
      if closed {
        return Failed;
      }
      return Pending;
    }

    /** Waits for the flush, then closes and sends CLSE; `flush` and `last` are the answers of the two
        connection flushes, and nothing else happens to the socket in between. */
    method PollShutdown(transportError: bool, flush: Flush, conn: Connection, last: Flush)
        returns (r: Poll<()>)
      modifies `closed, conn
      ensures
        if transportError || flush != Flush.Flushed || acknowledged != initialAcknowledgment then
          && Abs() == old(Abs()) && conn.written == old(conn.written)
          && (r.Failed? <==> transportError || flush == Broken || (flush == Flush.Flushed && old(closed)))
          && !r.Ready?
        else
          && Abs() == old(Abs()).(closed := true)
          && conn.written
             == old(conn.written) + (if old(closed) then [] else [ToMessage(Clse(localId, remoteId))])
          && r == if old(closed) || last == Flush.Flushed then Ready(())
                  else if last == Waiting then Pending else Failed
    {
      r := PollFlush(transportError, flush);
      if !r.Ready? {
        return;
      }
      var m := Shutdown(transportError);
      if m.Some? {
        conn.WriteMessage(m.value);
        match last {
          case Flushed => r := Ready(());
          case Waiting => r := Pending;
          case Broken => r := Failed;
        }
      } else {
        r := Ready(());
      }
    }
  }
}
