/** The transport object: the table of sockets, the id counter, and what each incoming message does. */
module Transport {
  import opened Bytes
  import opened SocketModel
  import opened Messages
  import opened Wrappers
  import opened Socket
  import Multiplex
  import SocketWakers
  import Sequences

  /** An OPEN that waits for the owner to accept or close it. */
  datatype PendingSocket = PendingSocket(remoteId: u32, acknowledged: u32, service: Data)

  /** What a message for one local id does to a table of socket states: the socket takes it, and a closed
      socket leaves the table. */
  function Dispatch(table: map<u32, State>, f: Frame): map<u32, State>
    requires !f.Open?
  {
    if f.dst !in table then table
    else
      var st := Handle(table[f.dst], f);
      if st.closed then table - {f.dst} else table[f.dst := st]
  }

  /** The states of the sockets an endpoint of the model still lists. */
  function Listed(e: Multiplex.Endpoint): map<u32, State> {
    map id | id in e.socks && e.socks[id].listed :: e.socks[id].st
  }

  /** The model's endpoint and the table agree on every message. */
  lemma ReceiveIsDispatch(e: Multiplex.Endpoint, f: Frame)
    requires !f.Open?
    ensures Listed(Multiplex.Receive(e, f)) == Dispatch(Listed(e), f)
  {
  }

  class TransportBackend {
    var sockets: map<u32, SocketBackend>
    var lastId: u32
    var error: Option<string>
    var connection: Option<Connection>
    var pending: seq<PendingSocket>
    // How often the reader task was told to stop.
    var closeNotified: nat

    /** Every socket is in the table under its own id, and an error has taken the connection away. */
    ghost predicate Valid()
      reads this
    {
      && (forall id :: id in sockets ==> sockets[id].localId == id)
      && (error.Some? <==> connection.None?)
    }

    function Table(): map<u32, State>
      reads this, sockets.Values
    {
      map id | id in sockets :: sockets[id].Abs()
    }

    constructor (conn: Connection)
      ensures Valid() && Table() == map[] && lastId == 1 && error.None? && pending == []
      ensures connection == Some(conn) && closeNotified == 0
    {
      sockets := map[];
      lastId := 1;
      error := None;
      connection := Some(conn);
      pending := [];
      closeNotified := 0;
    }

    /** A message for a socket: a message for an unknown id is dropped, and a closed socket leaves the table. */
    method Route(m: Message) returns (r: Result<()>)
      requires Valid() && m.header.command in {OKAY, WRTE, CLSE}
      modifies `sockets, sockets.Values
      ensures Valid()
      ensures match ToFrame(m)
              case Ok(f) => r.Ok? && Table() == Dispatch(old(Table()), f)
              case Err(_) => (r.Err? <==> m.header.arg1 in old(sockets)) && Table() == old(Table())
    {
      var localId := m.header.arg1;
      var closed := false;
      if localId in sockets {
        var h := sockets[localId].HandleMessage(m);
        match h {
          case Err(e) => return Err(e);
          case Ok(c) => closed := c;
        }
      }
      if closed {
        sockets := sockets - {localId};
      }
      return Ok(());
    }

    /** One message of the reader task; AUTH, CNXN and the rest are ignored. `utf8` says whether the service
        name of an OPEN is well formed. */
    method HandleMessage(m: Message, utf8: bool) returns (r: Result<()>)
      requires Valid()
      modifies `sockets, `pending, sockets.Values
      ensures Valid()
      ensures error.Some? ==> r.Err? && Table() == old(Table()) && pending == old(pending)
      ensures error.None? ==>
        match m.header.command
        case OPEN =>
          && Table() == old(Table())
          && (if utf8 then
                var f := ToFrame(m).value;
                r.Ok? && pending == old(pending) + [PendingSocket(f.src, f.window, f.service)]
              else r.Err? && pending == old(pending))
        case OKAY | WRTE | CLSE =>
          && pending == old(pending)
          && (match ToFrame(m)
              case Ok(f) => r.Ok? && Table() == Dispatch(old(Table()), f)
              case Err(_) => (r.Err? <==> m.header.arg1 in old(sockets)) && Table() == old(Table()))
        case _ => r.Ok? && Table() == old(Table()) && pending == old(pending)
    {
      if error.Some? {
        return Err("transport error");
      }
      match m.header.command {
        case OPEN =>
          var payload := m.payload;
          if |payload| > 0 && payload[|payload| - 1] == 0 {
            payload := payload[..|payload| - 1];
          }
          if !utf8 {
            return Err("service is not utf8");
          }
          pending := pending + [PendingSocket(m.header.arg0, m.header.arg1, payload)];
          return Ok(());
        case OKAY | WRTE | CLSE =>
          r := Route(m);
        case _ =>
          return Ok(());
      }
    }

    /** The loop of `on_error` over the table: each socket has both wakers notified once. */
    method NotifySockets()
      requires Valid()
      modifies sockets.Values`readNotified, sockets.Values`writeNotified
      ensures forall id :: id in sockets ==>
        && sockets[id].readNotified == old(sockets[id].readNotified) + 1
        && sockets[id].writeNotified == old(sockets[id].writeNotified) + 1
    {
      var rest := sockets.Keys;
      while rest != {}
        invariant rest <= sockets.Keys
        invariant forall id :: id in sockets && id !in rest ==>
          && sockets[id].readNotified == old(sockets[id].readNotified) + 1
          && sockets[id].writeNotified == old(sockets[id].writeNotified) + 1
        invariant forall id :: id in rest ==>
          && sockets[id].readNotified == old(sockets[id].readNotified)
          && sockets[id].writeNotified == old(sockets[id].writeNotified)
        decreases rest
      {
        var id: u32 :| id in rest;
        sockets[id].NotifyAll();
        rest := rest - {id};
      }
    }

    /** The first error is kept; it takes the connection away for good, stops the reader task and wakes
        whoever waits on a socket of the table. */
    method OnError(err: string)
      requires Valid()
      modifies `error, `connection, `closeNotified
      modifies sockets.Values`readNotified, sockets.Values`writeNotified
      ensures Valid()
      ensures old(error).Some? ==>
        && error == old(error) && connection == old(connection) && closeNotified == old(closeNotified)
        && (forall id :: id in sockets ==> unchanged(sockets[id]))
      ensures old(error).None? ==>
        && error == Some(err) && connection == None && closeNotified == old(closeNotified) + 1
        && (forall id :: id in sockets ==>
              && sockets[id].readNotified == old(sockets[id].readNotified) + 1
              && sockets[id].writeNotified == old(sockets[id].writeNotified) + 1)
    {
      if error.None? {
        error := Some(err);
        connection := None;
        closeNotified := closeNotified + 1;
        NotifySockets();
      }
    }

    /** A fresh socket enters the table under the next id. */
    method NewSocket(remoteId: u32, acknowledged: u32) returns (socket: SocketBackend)
      requires Valid()
      modifies `sockets, `lastId
      ensures Valid() && lastId == (old(lastId) + 1) % 0x1_0000_0000
      ensures fresh(socket) && sockets == old(sockets)[old(lastId) := socket]
      ensures socket.localId == old(lastId)
      ensures socket.Abs() == State(remoteId, false, [], acknowledged, acknowledged)
    {
      var localId := lastId;
      lastId := (lastId + 1) % 0x1_0000_0000;
      socket := new SocketBackend(localId, remoteId, acknowledged);
      sockets := sockets[localId := socket];
    }

    /** `write_message_async`: the message is handed to the connection, unless there is none, or the write
        fails with `broken`, which is then the transport's error. */
    method WriteMessageAsync(m: Message, broken: Option<string>) returns (r: Result<()>)
      requires Valid()
      modifies `error, `connection, `closeNotified, if connection.Some? then {connection.value} else {}
      modifies sockets.Values`readNotified, sockets.Values`writeNotified
      ensures Valid()
      ensures r.Ok? <==> old(error).None? && broken.None?
      ensures r.Ok? ==>
        && error == old(error) && connection == old(connection)
        && connection.value.written == old(connection.value.written) + [m]
      ensures r.Err? ==> error == if old(error).Some? then old(error) else broken
    {
      if connection.None? {
        return Err("closed");
      }
      if broken.Some? {
        OnError(broken.value);
        return Err("transport error");
      }
      connection.value.WriteMessage(m);
      return Ok(());
    }

    /** `open_socket` up to its wait: the socket is in the table before its OPEN is sent. If that fails, the
        socket is dropped and leaves the table. */
    method OpenSocket(service: Data, broken: Option<string>) returns (r: Result<SocketBackend>)
      requires Valid()
      modifies `sockets, `lastId, `error, `connection, `closeNotified
      modifies if connection.Some? then {connection.value} else {}
      modifies sockets.Values`readNotified, sockets.Values`writeNotified
      ensures Valid()
      ensures old(error).Some? ==> r.Err? && sockets == old(sockets) && lastId == old(lastId)
      ensures old(error).None? ==> lastId == (old(lastId) + 1) % 0x1_0000_0000
      ensures r.Ok? <==> old(error).None? && broken.None?
      ensures r.Ok? ==>
        && error == old(error) && connection == old(connection) && fresh(r.value)
        && sockets == old(sockets)[old(lastId) := r.value]
        && r.value.Abs() == State(0, false, [], 0, 0)
        && connection.value.written
           == old(connection.value.written) + [ToMessage(Open(old(lastId), DELAYED_ACK_BYTES, service))]
      ensures old(error).None? && r.Err? ==> error == broken && sockets == old(sockets) - {old(lastId)}
    {
      if error.Some? {
        return Err("transport error");
      }
      var socket := NewSocket(0, 0);
      var payload := service + [0];
      var sent := WriteMessageAsync(NewMessage(OPEN, socket.localId, DELAYED_ACK_BYTES, payload), broken);
      if sent.Err? {
        var _ := DropSocket(socket);
        return Err("transport error");
      }
      return Ok(socket);
    }

    /** `PendingSocket::accept`: the socket is in the table, with the window of the OPEN, before its OKAY. If
        that fails, the socket is dropped and leaves the table. */
    method Accept(p: PendingSocket, broken: Option<string>) returns (r: Result<SocketBackend>)
      requires Valid()
      modifies `sockets, `lastId, `error, `connection, `closeNotified
      modifies if connection.Some? then {connection.value} else {}
      modifies sockets.Values`readNotified, sockets.Values`writeNotified
      ensures Valid() && lastId == (old(lastId) + 1) % 0x1_0000_0000
      ensures r.Ok? <==> old(error).None? && broken.None?
      ensures r.Ok? ==>
        && error == old(error) && connection == old(connection) && fresh(r.value)
        && sockets == old(sockets)[old(lastId) := r.value]
        && r.value.Abs() == State(p.remoteId, false, [], p.acknowledged, p.acknowledged)
        && connection.value.written
           == old(connection.value.written) + [ToMessage(Okay(old(lastId), p.remoteId, DELAYED_ACK_BYTES))]
      ensures r.Err? ==>
        && error == (if old(error).Some? then old(error) else broken)
        && sockets == old(sockets) - {old(lastId)}
    {
      var socket := NewSocket(p.remoteId, p.acknowledged);
      var okay := NewMessage(OKAY, socket.localId, p.remoteId, Le32(DELAYED_ACK_BYTES));
      var sent := WriteMessageAsync(okay, broken);
      if sent.Err? {
        var _ := DropSocket(socket);
        return Err("transport error");
      }
      return Ok(socket);
    }

    /** `PendingSocket::close`. */
    method Close(p: PendingSocket, broken: Option<string>) returns (r: Result<()>)
      requires Valid()
      modifies `error, `connection, `closeNotified, if connection.Some? then {connection.value} else {}
      modifies sockets.Values`readNotified, sockets.Values`writeNotified
      ensures Valid()
      ensures r.Ok? <==> old(error).None? && broken.None?
      ensures r.Ok? ==>
        && error == old(error) && connection == old(connection)
        && connection.value.written == old(connection.value.written) + [ToMessage(Clse(0, p.remoteId))]
      ensures r.Err? ==> error == if old(error).Some? then old(error) else broken
    {
      r := WriteMessageAsync(NewMessage(CLSE, 0, p.remoteId, []), broken);
    }

    /** Dropping a `Socket`: it leaves the table, and the message to send is returned, if any. */
    method DropSocket(socket: SocketBackend) returns (m: Option<Message>)
      requires Valid()
      modifies `sockets, socket`closed
      ensures Valid() && sockets == old(sockets) - {socket.localId}
      ensures socket.Abs() == old(socket.Abs()).(closed := old(socket.closed) || error.None?)
      ensures m == if error.Some? || old(socket.closed) then None
                   else Some(ToMessage(Clse(socket.localId, socket.remoteId)))
    {
      sockets := sockets - {socket.localId};
      m := socket.Shutdown(error.Some?);
    }
  }

  // ---- The methods are the model's steps --------------------------------------------------------

  /** The object has the fields of the model's socket. */
  ghost predicate Is(socket: SocketBackend, k: Sock)
    reads socket
  {
    socket.localId == k.id && socket.Abs() == k.st
  }

  /** `poll_read` after a complete flush is the model's read; where the model has none, it waits. */
  method ReadIsStep(socket: SocketBackend, conn: Connection, room: nat, ghost k: Sock)
      returns (r: Poll<()>, filled: Data)
    requires Is(socket, k) && k.phase == Held
    modifies socket`readBuffer, conn
    ensures if Can(k, Read(room), false) then
              && Is(socket, After(k, Read(room), false))
              && After(k, Read(room), false).received == k.received + filled
              && conn.written == old(conn.written) + ToMessages(Sends(k, Read(room)))
            else
              r == Pending && filled == [] && Is(socket, k) && conn.written == old(conn.written)
    ensures room > 0 ==> (r.Pending? <==> !SocketWakers.Served(SocketWakers.Reader, k.st))
  {
    DrainSplits(k.st.readBuffer, room);
    if !Can(k, Read(room), false) {
      WaitingReadsNothing(k, room);
    }
    r, filled := socket.PollRead(false, Flush.Flushed, conn, room);
    Sequences.Empty(old(conn.written));
  }

  /** `poll_write` after a complete flush, and with the throttle open, is the model's write; where the model has
      none, it waits or fails. */
  method WriteIsStep(socket: SocketBackend, conn: Connection, buf: Data, ghost k: Sock) returns (r: Poll<nat>)
    requires Is(socket, k) && k.phase == Held
    modifies socket`acknowledged, conn
    ensures if Can(k, Write(buf), false) then
              && r.Ready?
              && Is(socket, After(k, Write(buf), false))
              && r.value <= |buf| && After(k, Write(buf), false).written == k.written + buf[..r.value]
              && conn.written == old(conn.written) + ToMessages(Sends(k, Write(buf)))
            else
              !r.Ready? && Is(socket, k) && conn.written == old(conn.written)
    ensures r.Pending? <==> !SocketWakers.Served(SocketWakers.Writer, k.st)
  {
    r := socket.PollWrite(false, Flush.Flushed, true, conn, buf);
    OneMessage(Wrte(k.id, k.st.remoteId, buf[..WriteLen(k.st, buf)]));
  }

  lemma OneMessage(f: Frame)
    ensures ToMessages([f]) == [ToMessage(f)]
  {
    assert [f][1..] == [];
  }

  /** The first half of `poll_shutdown`, its flush, is ready exactly if the model can go on. */
  method FlushIsStep(socket: SocketBackend, ghost k: Sock) returns (r: Poll<()>)
    requires Is(socket, k) && k.phase == Held
    ensures r.Ready? <==> Can(k, FlushOk, false)
    ensures r.Pending? <==> !SocketWakers.Served(SocketWakers.Flusher, k.st)
    ensures Is(socket, After(k, FlushOk, false))
  {
    r := socket.PollFlush(false, Flush.Flushed);
  }

  /** Its second half closes the socket; its CLSE is what the model then has to send. */
  method FinishIsStep(socket: SocketBackend, failed: bool, ghost k: Sock) returns (m: Option<Message>)
    requires Is(socket, k) && k.phase == Phase.Flushed
    modifies socket`closed
    ensures Can(k, Finish, failed) && Is(socket, After(k, Finish, failed))
    ensures (if m.Some? then [m.value] else []) == ToMessages(After(k, Finish, failed).pend)
  {
    m := socket.Shutdown(failed);
    OneMessage(Clse(k.id, k.st.remoteId));
  }

  /** The table right after `OpenSocket` and `Accept` is the model's. */
  lemma AddedSockets(e: Multiplex.Endpoint, remote: u32, window: u32, service: Data)
    ensures var id := Multiplex.NextId(e);
            && Listed(Multiplex.AddSock(e, OpenedSock(id, service)))
               == Listed(e)[id := State(0, false, [], 0, 0)]
            && OpenedSock(id, service).pend == [Open(id, 33_554_432, service)]
            && Listed(Multiplex.AddSock(e, AcceptedSock(id, remote, window)))
               == Listed(e)[id := State(remote, false, [], window, window)]
            && AcceptedSock(id, remote, window).pend == [Okay(id, remote, 33_554_432)]
  {
  }

  /** A dropped socket leaves the model's table, with the same state and the same message. */
  lemma DroppedSockets(e: Multiplex.Endpoint, id: u32)
    requires id in e.socks && Can(e.socks[id], Drop, e.failed)
    ensures var k := After(e.socks[id], Drop, e.failed);
            && Listed(e.(socks := e.socks[id := k])) == Listed(e) - {id}
            && k.st == e.socks[id].st.(closed := e.socks[id].st.closed || !e.failed)
            && k.pend == if e.failed || e.socks[id].st.closed then []
                         else [Clse(e.socks[id].id, e.socks[id].st.remoteId)]
  {
  }
}
