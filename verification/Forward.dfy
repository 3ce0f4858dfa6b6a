/** The forward table: which port is listened on for which target. */
module Forward {
  import opened Wrappers
  import opened Text
  import Sequences

  datatype Proto = Tcp(port: nat) | Other(name: string)

  function ParseProto(s: string): Result<Proto> {
    match StripPrefix(s, "tcp:")
    case None => Ok(Other(s))
    case Some(port) =>
      match ParseU16(port)
      case None => Err("parse port")
      case Some(n) => Ok(Tcp(n))
  }

  function Display(p: Proto): string {
    match p
    case Tcp(port) => "tcp:" + Decimal(port)
    case Other(name) => name
  }

  /** A text is a port exactly if "tcp:" is followed by a number below 65536, with an optional plus sign and leading
      zeros; it is an error if anything else follows, and a name if it does not begin so. */
  lemma ProtoIsExact(s: string)
    ensures !HasPrefix(s, "tcp:") ==> ParseProto(s) == Ok(Other(s))
    ensures HasPrefix(s, "tcp:") ==>
              (ParseProto(s).Ok? <==> exists n: nat, k: nat :: n < 0x1_0000 && PortText(s[4..], n, k))
    ensures forall n: nat, k: nat :: n < 0x1_0000 && HasPrefix(s, "tcp:") && PortText(s[4..], n, k) ==>
              ParseProto(s) == Ok(Tcp(n))
  {
    if HasPrefix(s, "tcp:") {
      U16IsExact(s[4..]);
    }
  }

  /** Whatever was parsed is printed so that it parses to itself; exactly these values do. */
  lemma ProtoRoundTrip(p: Proto)
    ensures ParseProto(Display(p)) == Ok(p) <==> exists s :: ParseProto(s) == Ok(p)
  {
    match p
    case Tcp(port) =>
      ParseDecimal(port);
      assert StripPrefix("tcp:" + Decimal(port), "tcp:") == Some(Decimal(port));
    case Other(name) =>
  }

  datatype Command =
    | Add(left: Proto, right: Proto, norebind: bool)
    | Remove(proto: Proto)
    | RemoveAll
    | List

  /** The text after "forward:" and, if it is there, "norebind:". */
  function ParseAdd(rest: string, norebind: bool): Result<Option<Command>> {
    match SplitOnce(rest, ";")
    case None => Err("invalid")
    case Some((l, r)) =>
      match ParseProto(l)
      case Err(e) => Err(e)
      case Ok(left) =>
        match ParseProto(r)
        case Err(e) => Err(e)
        case Ok(right) => Ok(Some(Add(left, right, norebind)))
  }

  function ParseCommand(service: string): Result<Option<Command>> {
    match StripPrefix(service, "forward:")
    case Some(s) =>
      var norebind := StripPrefix(s, "norebind:");
      var rest := if norebind.Some? then norebind.value else s;
      ParseAdd(rest, norebind.Some?)
    case None =>
      match StripPrefix(service, "killforward:")
      case Some(s) => (match ParseProto(s) case Err(e) => Err(e) case Ok(p) => Ok(Some(Remove(p))))
      case None =>
        if service == "killforward-all" then Ok(Some(RemoveAll))
        else if service == "list-forward" then Ok(Some(List))
        else Ok(None)
  }

  /** Everything else is no forward command, and is not an error either. */
  lemma NotACommand(service: string)
    ensures ParseCommand(service) == Ok(None) <==>
              && !HasPrefix(service, "forward:") && !HasPrefix(service, "killforward:")
              && service != "killforward-all" && service != "list-forward"
  {
  }

  /** How a client asks for a command. */
  function Service(cmd: Command): string {
    match cmd
    case Add(left, right, norebind) =>
      "forward:" + (if norebind then "norebind:" else "") + (Display(left) + ";" + Display(right))
    case Remove(proto) => "killforward:" + Display(proto)
    case RemoveAll => "killforward-all"
    case List => "list-forward"
  }

  /** A port fits 16 bits, and another name does not look like a port. */
  predicate Writable(p: Proto) {
    match p
    case Tcp(port) => port < 0x1_0000
    case Other(name) => !HasPrefix(name, "tcp:")
  }

  lemma DisplayParses(p: Proto)
    ensures Writable(p) ==> ParseProto(Display(p)) == Ok(p)
    ensures forall s :: ParseProto(s) == Ok(p) ==> Writable(p) && (p.Other? ==> s == p.name)
    ensures p.Tcp? ==> ';' !in Display(p) && !HasPrefix(Display(p), "norebind:")
  {
    if p.Tcp? {
      ParseDecimal(p.port);
      DecimalHasDigits(p.port);
      assert StripPrefix("tcp:" + Decimal(p.port), "tcp:") == Some(Decimal(p.port));
      assert Display(p)[0] == 't' && "norebind:"[0] == 'n';
    }
  }

  /** A command is understood as it was meant exactly if its parts can be written, its first part has no
      semicolon, and this does not look like a norebind. */
  predicate Understood(cmd: Command) {
    match cmd
    case Add(left, right, norebind) =>
      && Writable(left) && Writable(right)
      && ';' !in Display(left)
      && (norebind || !HasPrefix(Display(left), "norebind:"))
    case Remove(proto) => Writable(proto)
    case _ => true
  }

  lemma AddParses(left: Proto, right: Proto, norebind: bool)
    ensures ParseAdd(Display(left) + ";" + Display(right), norebind) == Ok(Some(Add(left, right, norebind)))
       <==> Writable(left) && Writable(right) && ';' !in Display(left)
  {
    SplitsAtFirst(Display(left), Display(right), ';');
    DisplayParses(left);
    DisplayParses(right);
  }

  lemma PrefixOfRest(l: string, r: string)
    requires ';' !in l
    ensures HasPrefix(l + ";" + r, "norebind:") <==> HasPrefix(l, "norebind:")
  {
    var s, p := l + ";" + r, "norebind:";
    assert s[|l|] == ';' && forall i :: 0 <= i < |p| ==> p[i] != ';';
    assert HasPrefix(s, p) ==> forall i :: 0 <= i < |p| ==> s[i] == s[..|p|][i] == p[i];
    if |l| >= |p| {
      assert s[..|p|] == l[..|p|];
    }
  }

  lemma AfterPrefix(p: string, s: string)
    ensures StripPrefix(p + s, p) == Some(s)
  {
  }

  lemma RemoveRoundTrip(proto: Proto)
    ensures ParseCommand(Service(Remove(proto))) == Ok(Some(Remove(proto))) <==> Writable(proto)
  {
    AfterPrefix("killforward:", Display(proto));
    assert Service(Remove(proto))[0] == 'k' && "forward:"[0] == 'f';
    DisplayParses(proto);
  }

  /** The two prefixes are taken off in turn. */
  lemma AddPrefixes(rest: string, norebind: bool)
    requires norebind || !HasPrefix(rest, "norebind:")
    ensures ParseCommand("forward:" + (if norebind then "norebind:" else "") + rest) == ParseAdd(rest, norebind)
  {
    if norebind {
      Sequences.Assoc("forward:", "norebind:", rest);
      AfterPrefix("forward:", "norebind:" + rest);
      AfterPrefix("norebind:", rest);
    } else {
      Sequences.Empty("forward:");
      AfterPrefix("forward:", rest);
    }
  }

  lemma MistakenNorebind(rest: string, cmd: Command)
    requires HasPrefix(rest, "norebind:") && cmd.Add? && !cmd.norebind
    ensures ParseCommand("forward:" + rest) != Ok(Some(cmd))
  {
    AfterPrefix("forward:", rest);
  }

  lemma AddRoundTrip(left: Proto, right: Proto, norebind: bool)
    ensures var cmd := Add(left, right, norebind);
            ParseCommand(Service(cmd)) == Ok(Some(cmd)) <==> Understood(cmd)
  {
    var rest := Display(left) + ";" + Display(right);
    AddParses(left, right, norebind);
    if ';' !in Display(left) {
      PrefixOfRest(Display(left), Display(right));
    }
    if !norebind && HasPrefix(rest, "norebind:") {
      Sequences.Empty("forward:");
      MistakenNorebind(rest, Add(left, right, norebind));
    } else {
      AddPrefixes(rest, norebind);
    }
  }

  lemma FixedRoundTrip(cmd: Command)
    requires cmd.RemoveAll? || cmd.List?
    ensures ParseCommand(Service(cmd)) == Ok(Some(cmd))
  {
    var s := Service(cmd);
    assert s[0] != 'f' && !HasPrefix(s, "forward:") by { assert "forward:"[0] == 'f'; }
    assert s[11] != ':' && !HasPrefix(s, "killforward:") by { assert "killforward:"[11] == ':'; }
  }

  /** What a client asks for is understood as it was meant exactly if it can be told apart from everything
      else it might mean. */
  lemma CommandRoundTrip(cmd: Command)
    ensures ParseCommand(Service(cmd)) == Ok(Some(cmd)) <==> Understood(cmd)
  {
    match cmd
    case Add(left, right, norebind) => AddRoundTrip(left, right, norebind);
    case Remove(proto) => RemoveRoundTrip(proto);
    case _ => FixedRoundTrip(cmd);
  }

  type ConnId = nat
  type ListenerId = nat

  /** One entry: the listener and its port, fixed when it was bound, and the target, which may change. */
  datatype Entry = Entry(listener: ListenerId, port: nat, conn: ConnId, remote: Proto)

  type Table = map<Proto, Entry>

  /** What the world answers to one command: which connections are closed, which listener tasks are
      finished, which connection the client's request picks, and what binding gives: a new listener
      and its port. */
  datatype World = World(
    closed: set<ConnId>,
    finished: set<ListenerId>,
    picked: Option<ConnId>,
    bound: Option<(ListenerId, nat)>)

  datatype Reply = Okay(port: Option<nat>) | Listing(entries: map<Proto, (bool, Proto)>) | Fail(reason: string)

  predicate Alive(e: Entry, w: World) { e.conn !in w.closed && e.listener !in w.finished }

  function Clean(t: Table, w: World): Table {
    map k | k in t && Alive(t[k], w) :: t[k]
  }

  /** The answer to one command, as the client may see it. */
  function Handle(t: Table, cmd: Command, w: World): (Table, Reply) {
    match cmd
    case Add(local, remote, norebind) =>
      var c := Clean(t, w);
      if local.Other? then (c, Fail("unsupported protocol"))
      else if w.picked.None? then (c, Fail("no connection"))
      else if local.port != 0 && local in c then
        if norebind then (c, Fail("already bound"))
        else (c[local := c[local].(conn := w.picked.value, remote := remote)], Okay(None))
      else if w.bound.None? then (c, Fail("bind"))
      else
        var (listener, port) := w.bound.value;
        (c[Tcp(port) := Entry(listener, port, w.picked.value, remote)],
         Okay(if local.port == 0 then Some(port) else None))
    case Remove(proto) => (Clean(t, w) - {proto}, Okay(None))
    case RemoveAll => (map[], Okay(None))
    case List =>
      var c := Clean(t, w);
      (c, Listing(map k | k in c :: (c[k].conn !in w.closed, c[k].remote)))
  }

  class ForwardingMgr {
    var listeners: Table

    constructor ()
      ensures listeners == map[]
    {
      listeners := map[];
    }

    /** Goes over the entries and drops those whose connection is closed or whose task is finished. */
    method CleanForwards(w: World)
      modifies this
      ensures listeners == Clean(old(listeners), w)
    {
      var rest := listeners.Keys;
      while rest != {}
        invariant rest <= listeners.Keys <= old(listeners).Keys
        invariant forall k :: k in listeners ==> listeners[k] == old(listeners)[k]
        invariant forall k :: k in old(listeners) && k !in rest ==> (k in listeners <==> Alive(old(listeners)[k], w))
        decreases rest
      {
        var k: Proto :| k in rest;
        rest := rest - {k};
        if listeners[k].conn in w.closed || listeners[k].listener in w.finished {
          listeners := listeners - {k};
        }
      }
    }

    method HandleForward(cmd: Command, w: World) returns (r: Reply)
      modifies this
      ensures (listeners, r) == Handle(old(listeners), cmd, w)
    {
      var allocatedPort := None;
      match cmd {
        case Add(local, remote, norebind) =>
          CleanForwards(w);
          if local.Other? {
            return Fail("unsupported protocol");
          }
          if w.picked.None? {
            return Fail("no connection");
          }
          if local.port != 0 && local in listeners {
            if norebind {
              return Fail("already bound");
            }
            listeners := listeners[local := listeners[local].(conn := w.picked.value, remote := remote)];
          } else {
            if w.bound.None? {
              return Fail("bind");
            }
            var (listener, boundPort) := w.bound.value;
            if local.port == 0 {
              allocatedPort := Some(boundPort);
            }
            listeners := listeners[Tcp(boundPort) := Entry(listener, boundPort, w.picked.value, remote)];
          }
        case Remove(proto) =>
          CleanForwards(w);
          listeners := listeners - {proto};
        case RemoveAll =>
          listeners := map[];
        case List =>
          CleanForwards(w);
          return Listing(map k | k in listeners :: (listeners[k].conn !in w.closed, listeners[k].remote));
      }
      return Okay(allocatedPort);
    }
  }

  // ---- What holds of every run ------------------------------------------------------------------

  /** The operating system binds the port that was asked for, or a free one; a new listener is new; and it
      never binds a port whose listener still runs. */
  predicate Fair(t: Table, used: set<ListenerId>, cmd: Command, w: World) {
    w.bound.Some? ==>
      var (listener, port) := w.bound.value;
      && port != 0
      && listener !in used
      && (cmd.Add? && cmd.left.Tcp? && cmd.left.port != 0 ==> port == cmd.left.port)
      && (forall k :: k in t && t[k].listener !in w.finished ==> t[k].port != port)
  }

  function NowUsed(used: set<ListenerId>, w: World): set<ListenerId> {
    if w.bound.Some? then used + {w.bound.value.0} else used
  }

  /** The table after a list of commands, with every listener ever made, unless the world was unfair. */
  function Run(cmds: seq<(Command, World)>): Option<(Table, set<ListenerId>)> {
    if cmds == [] then
      Some((map[], {}))
    else
      var n := |cmds| - 1;
      match Run(cmds[..n])
      case None => None
      case Some((t, used)) =>
        var (cmd, w) := cmds[n];
        if Fair(t, used, cmd, w) then Some((Handle(t, cmd, w).0, NowUsed(used, w))) else None
  }

  /** Every key is tcp:p with p not 0 and owns one listener, bound to that p; no two share a listener. */
  ghost predicate Sound(t: Table, used: set<ListenerId>) {
    && (forall k :: k in t ==> k.Tcp? && k.port != 0 && t[k].port == k.port && t[k].listener in used)
    && (forall j, k :: j in t && k in t && t[j].listener == t[k].listener ==> j == k)
  }

  lemma CleanKeepsSound(t: Table, used: set<ListenerId>, w: World)
    requires Sound(t, used)
    ensures Sound(Clean(t, w), used)
  {
  }

  lemma BindKeepsSound(t: Table, used: set<ListenerId>, e: Entry)
    requires Sound(t, used) && e.port != 0 && e.listener !in used
    ensures Sound(t[Tcp(e.port) := e], used + {e.listener})
  {
  }

  lemma HandleKeepsSound(t: Table, used: set<ListenerId>, cmd: Command, w: World)
    requires Sound(t, used) && Fair(t, used, cmd, w)
    ensures Sound(Handle(t, cmd, w).0, NowUsed(used, w))
  {
    CleanKeepsSound(t, used, w);
    if cmd.Add? && w.picked.Some? && w.bound.Some? {
      BindKeepsSound(Clean(t, w), used, Entry(w.bound.value.0, w.bound.value.1, w.picked.value, cmd.right));
    }
  }

  lemma {:induction false} EveryKeyOwnsItsListener(cmds: seq<(Command, World)>)
    requires Run(cmds).Some?
    ensures Sound(Run(cmds).value.0, Run(cmds).value.1)
  {
    if cmds != [] {
      var n := |cmds| - 1;
      EveryKeyOwnsItsListener(cmds[..n]);
      HandleKeepsSound(Run(cmds[..n]).value.0, Run(cmds[..n]).value.1, cmds[n].0, cmds[n].1);
    }
  }

  /** A successful Add of `local` has put `port` in the table: it is the port asked for, if any; an entry
      that was alive keeps its listener, and only without norebind; and all other entries are as they were
      after the cleanup. */
  ghost predicate Added(before: Table, after: Table, cmd: Command, w: World, port: nat)
    requires cmd.Add? && cmd.left.Tcp? && w.picked.Some?
  {
    var k, c := Tcp(port), Clean(before, w);
    && port != 0 && k in after
    && (cmd.left.port != 0 ==> port == cmd.left.port)
    && after[k].port == port && after[k].conn == w.picked.value && after[k].remote == cmd.right
    && (k in c ==> !cmd.norebind && after[k].listener == c[k].listener)
    && after - {k} == c - {k}
  }

  /** Each command in each state a run can reach: a port is returned exactly if port 0 was asked for; a
      refused command only cleans up dead entries; an Add changes one entry; a kill removes its key and dead
      entries. */
  lemma CommandIsExact(cmds: seq<(Command, World)>, cmd: Command, w: World)
    requires Run(cmds).Some? && Fair(Run(cmds).value.0, Run(cmds).value.1, cmd, w)
    ensures var before := Run(cmds).value.0;
            var (after, r) := Handle(before, cmd, w);
            && (r.Fail? ==> after == Clean(before, w))
            && (r.Okay? ==> (r.port.Some? <==> cmd.Add? && cmd.left == Tcp(0)))
            && (cmd.Add? && r.Okay? ==>
                  && cmd.left.Tcp? && w.picked.Some?
                  && exists p :: Added(before, after, cmd, w, p) && (r.port.Some? ==> r.port.value == p))
            && (cmd.Remove? ==> forall k :: k in after <==> k in before && k != cmd.proto && Alive(before[k], w))
  {
    EveryKeyOwnsItsListener(cmds);
    var (before, used) := Run(cmds).value;
    var (after, r) := Handle(before, cmd, w);
    if cmd.Add? && r.Okay? {
      var c := Clean(before, w);
      var p := if cmd.left.port != 0 then cmd.left.port else w.bound.value.1;
      assert after - {Tcp(p)} == c - {Tcp(p)};
      assert Added(before, after, cmd, w, p);
    }
  }

  /** The entry of `k` is there, and both its connection and its task are alive. */
  predicate LiveIn(t: Table, k: Proto, w: World) {
    k in t && t[k].conn !in w.closed && t[k].listener !in w.finished
  }

  /** When an Add succeeds: for a local port, with a connection, and either by giving a live entry of that port a new
      target, unless this was ruled out, or by binding. */
  lemma AddSucceedsExactly(cmds: seq<(Command, World)>, cmd: Command, w: World)
    requires Run(cmds).Some? && cmd.Add?
    ensures var t := Run(cmds).value.0;
            Handle(t, cmd, w).1.Okay? <==>
              && cmd.left.Tcp? && w.picked.Some?
              && (if cmd.left.port != 0 && LiveIn(t, cmd.left, w) then !cmd.norebind else w.bound.Some?)
  {
  }

  /** Every answer to the other commands: a kill keeps exactly the other live entries as they are, a kill of all
      keeps none, and a list shows exactly the live entries with their targets and changes nothing else. */
  lemma OthersAreExact(cmds: seq<(Command, World)>, cmd: Command, w: World)
    requires Run(cmds).Some? && !cmd.Add?
    ensures var t := Run(cmds).value.0;
            var (after, r) := Handle(t, cmd, w);
            match cmd
            case Remove(proto) =>
              && r == Okay(None)
              && (forall k :: k in after <==> LiveIn(t, k, w) && k != proto)
              && (forall k :: k in after ==> after[k] == t[k])
            case RemoveAll => r == Okay(None) && after == map[]
            case List =>
              && r.Listing?
              && (forall k :: k in after <==> LiveIn(t, k, w))
              && (forall k :: k in after ==> after[k] == t[k])
              && r.entries.Keys == after.Keys
              && (forall k :: k in after ==> r.entries[k] == (true, t[k].remote))
  {
  }

  // ---- Reverse forwards -------------------------------------------------------------------------

  /** `handle_reverse` on the map from the device's sockets to local ones. */
  function HandleReverse(t: map<Proto, Proto>, cmd: Command): Result<map<Proto, Proto>> {
    match cmd
    case Add(remote, local, norebind) =>
      if norebind && remote in t then Err("already bound, would fail") else Ok(t[remote := local])
    case Remove(proto) => Ok(t - {proto})
    case RemoveAll => Ok(map[])
    case List => Ok(t)
  }

  function RunReverse(cmds: seq<Command>): map<Proto, Proto> {
    if cmds == [] then map[]
    else
      var t := RunReverse(cmds[..|cmds| - 1]);
      match HandleReverse(t, cmds[|cmds| - 1])
      case Ok(u) => u
      case Err(_) => t
  }

  /** Whether `handle_socket` connects a socket of the device to a local port. */
  predicate Accepts(t: map<Proto, Proto>, service: string) {
    match ParseProto(service)
    case Err(_) => false
    case Ok(proto) => proto.Tcp? && exists k :: k in t && t[k] == proto
  }

  /** The command gives `remote` the target `local`, takes it away, or leaves it. */
  predicate Sets(t: map<Proto, Proto>, cmd: Command, remote: Proto, local: Proto) {
    cmd.Add? && cmd.left == remote && cmd.right == local && !(cmd.norebind && remote in t)
  }

  predicate Clears(t: map<Proto, Proto>, cmd: Command, remote: Proto) {
    || cmd.RemoveAll?
    || (cmd.Remove? && cmd.proto == remote)
    || (cmd.Add? && cmd.left == remote && !(cmd.norebind && remote in t))
  }

  /** Command `i` gave `remote` the target `local`, and none after it took it away. */
  ghost predicate SetAt(cmds: seq<Command>, i: nat, remote: Proto, local: Proto) {
    && i < |cmds|
    && Sets(RunReverse(cmds[..i]), cmds[i], remote, local)
    && forall j: nat :: i < j < |cmds| ==> !ClearedAt(cmds, j, remote)
  }

  ghost predicate SetAndKept(cmds: seq<Command>, remote: Proto, local: Proto) {
    exists i: nat :: SetAt(cmds, i, remote, local)
  }

  ghost predicate ClearedAt(cmds: seq<Command>, j: nat, remote: Proto)
    requires j < |cmds|
  {
    Clears(RunReverse(cmds[..j]), cmds[j], remote)
  }

  lemma PrefixSame(cmds: seq<Command>, n: nat, j: nat, remote: Proto, local: Proto)
    requires j < n <= |cmds|
    ensures ClearedAt(cmds[..n], j, remote) <==> ClearedAt(cmds, j, remote)
    ensures Sets(RunReverse(cmds[..n][..j]), cmds[..n][j], remote, local)
       <==> Sets(RunReverse(cmds[..j]), cmds[j], remote, local)
  {
    assert cmds[..n][..j] == cmds[..j] && cmds[..n][j] == cmds[j];
  }

  lemma SetAtStep(cmds: seq<Command>, i: nat, remote: Proto, local: Proto)
    requires cmds != []
    ensures var n := |cmds| - 1;
            SetAt(cmds, i, remote, local)
            <==> if i == n then Sets(RunReverse(cmds[..n]), cmds[n], remote, local)
                 else SetAt(cmds[..n], i, remote, local) && !ClearedAt(cmds, n, remote)
  {
    var n := |cmds| - 1;
    if i < n {
      PrefixSame(cmds, n, i, remote, local);
      forall j: nat | i < j < n
        ensures ClearedAt(cmds[..n], j, remote) <==> ClearedAt(cmds, j, remote)
      {
        PrefixSame(cmds, n, j, remote, local);
      }
    }
  }

  /** The table holds exactly what was set and kept. */
  lemma {:induction false} ReverseTableIsHistory(cmds: seq<Command>, remote: Proto, local: Proto)
    ensures remote in RunReverse(cmds) && RunReverse(cmds)[remote] == local <==> SetAndKept(cmds, remote, local)
  {
    if cmds != [] {
      var n := |cmds| - 1;
      ReverseTableIsHistory(cmds[..n], remote, local);
      forall i: nat
        ensures SetAt(cmds, i, remote, local)
           <==> if i == n then Sets(RunReverse(cmds[..n]), cmds[n], remote, local)
                else SetAt(cmds[..n], i, remote, local) && !ClearedAt(cmds, n, remote)
      {
        SetAtStep(cmds, i, remote, local);
      }
      assert SetAt(cmds, n, remote, local) <==> Sets(RunReverse(cmds[..n]), cmds[n], remote, local);
    }
  }

  /** A socket of the device is connected to a local port only if a reverse forward to that port was added
      and not taken away since; and then it is. */
  lemma AcceptsOnlyWhatWasForwarded(cmds: seq<Command>, service: string)
    ensures Accepts(RunReverse(cmds), service)
       <==> ParseProto(service).Ok? && ParseProto(service).value.Tcp?
            && exists remote :: SetAndKept(cmds, remote, ParseProto(service).value)
  {
    if ParseProto(service).Ok? {
      var local := ParseProto(service).value;
      var t := RunReverse(cmds);
      forall remote
        ensures remote in t && t[remote] == local <==> SetAndKept(cmds, remote, local)
      {
        ReverseTableIsHistory(cmds, remote, local);
      }
    }
  }
}
