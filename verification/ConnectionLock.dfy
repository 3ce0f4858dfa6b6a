/** Tasks that share the one connection behind its lock: which of them may write, and how the tasks that
    wait for a flush are woken. */
module ConnectionLock {
  import opened Wrappers

  type Task = nat

  /** What a task does under the lock. `Poll` is `poll_read` and `poll_write`, `Async` is a poll of
      `write_message_async`, `Flush` is the flush that begins `poll_shutdown` and `Last` the one that ends
      it. */
  datatype Job = Poll | Async | Flush | Last

  /** Who has the lock, for what, and whether its flush has found everything complete. */
  datatype Holder = Holder(task: Task, job: Job, flushed: bool)

  /** `pending` OUT transfers are not reaped, `over` of them are complete. `armed` says that the next
      completion wakes the collection `coll`. `woken` holds a wake for a task, `parked` are the tasks
      whose last poll ended because of a flush. `todo` are the asynchronous writes whose message is not
      sent yet, `sent` those who sent, in order. `shutting` are the tasks between the two halves of
      `poll_shutdown`. `asserted` is set when `write_message`, whoever calls it, finds a transfer
      pending. */
  datatype Conn = Conn(
    pending: nat,
    over: nat,
    armed: bool,
    coll: set<Task>,
    parked: set<Task>,
    woken: set<Task>,
    holder: Option<Holder>,
    todo: set<Task>,
    sent: seq<Task>,
    shutting: set<Task>,
    asserted: bool)

  function Init(): Conn {
    Conn(0, 0, false, {}, {}, {}, None, {}, [], {}, false)
  }

  /** The atomic steps. A task enters the lock and adds itself to the collection; then its flush finds
      everything complete or not. After a flush it writes or leaves: an asynchronous write leaves when it
      has nothing left to send, and flushes again after it wrote. `ShutdownWrite` takes the lock for the
      second half of `poll_shutdown` and writes without a flush of its own. The device completes a transfer
      at any time. */
  datatype Act =
    | Begin(t: Task)
    | Enter(t: Task, job: Job)
    | FlushDone
    | FlushPending
    | Write(transfers: nat)
    | Leave
    | Complete
    | ShutdownWrite(t: Task, transfers: nat)

  predicate Can(m: Conn, a: Act) {
    match a
    case Begin(t) => t !in m.todo && t !in m.sent
    case Enter(t, job) => m.holder.None? && !job.Last? && (job.Async? ==> t in m.todo || t in m.sent)
    case FlushDone => m.holder.Some? && !m.holder.value.flushed && m.over == m.pending
    case FlushPending => m.holder.Some? && !m.holder.value.flushed && m.over < m.pending
    case Write(n) =>
      && n > 0 && m.holder.Some? && m.holder.value.flushed
      && (m.holder.value.job.Poll? || (m.holder.value.job.Async? && m.holder.value.task in m.todo))
    case Leave =>
      && m.holder.Some? && m.holder.value.flushed
      && (m.holder.value.job.Async? ==> m.holder.value.task !in m.todo)
    case Complete => m.over < m.pending
    case ShutdownWrite(t, n) => m.holder.None? && t in m.shutting && n > 0
  }

  /** `write_message`: it asserts that no transfer is pending, and submits its own. */
  function WriteMessage(m: Conn, n: nat): Conn {
    if m.pending != 0 then m.(asserted := true) else m.(pending := n)
  }

  /** The polling task adds itself to the collection and flushes. */
  function Flushing(m: Conn, t: Task, job: Job): Conn {
    m.(holder := Some(Holder(t, job, false)), coll := m.coll + {t})
  }

  function Do(m: Conn, a: Act): Conn
    requires Can(m, a)
  {
    match a
    case Begin(t) => m.(todo := m.todo + {t})
    case Enter(t, job) => Flushing(m.(woken := m.woken - {t}, parked := m.parked - {t}), t, job)
    case FlushDone => m.(pending := 0, over := 0, holder := Some(m.holder.value.(flushed := true)))
    case FlushPending =>
      m.(pending := m.pending - m.over, over := 0, armed := true, holder := None,
         parked := m.parked + {m.holder.value.task})
    case Write(n) =>
      var t, w := m.holder.value.task, WriteMessage(m, n);
      if m.holder.value.job.Poll? then w.(holder := None)
      else Flushing(w.(todo := m.todo - {t}, sent := m.sent + [t]), t, Async)
    case Leave =>
      if m.holder.value.job.Flush? then m.(holder := None, shutting := m.shutting + {m.holder.value.task})
      else m.(holder := None)
    case Complete =>
      if m.armed then m.(over := m.over + 1, woken := m.woken + m.coll, coll := {}, armed := false)
      else m.(over := m.over + 1)
    case ShutdownWrite(t, n) =>
      var w := WriteMessage(m, n).(shutting := m.shutting - {t});
      if m.pending != 0 then w else Flushing(w, t, Last)
  }

  function Run(acts: seq<Act>): Option<Conn> {
    if acts == [] then
      Some(Init())
    else
      var n := |acts| - 1;
      var before := Run(acts[..n]);
      if before.Some? && Can(before.value, acts[n]) then Some(Do(before.value, acts[n])) else None
  }

  // ---- No wake-up is lost -----------------------------------------------------------------------

  /** A task that waits for a flush holds a wake, or it is in the collection, the endpoint will wake the
      collection at its next completion, and that completion is still to come. */
  ghost predicate Awaited(m: Conn) {
    && m.over <= m.pending
    && (forall t :: t in m.parked && t !in m.woken ==> t in m.coll && m.armed && m.over == 0 < m.pending)
    && (m.holder.Some? ==> m.holder.value.task in m.coll || m.holder.value.task in m.woken)
  }

  lemma AwaitedStep(m: Conn, a: Act)
    requires Awaited(m) && Can(m, a)
    ensures Awaited(Do(m, a))
  {
  }

  /** In every interleaving, however many tasks poll the one endpoint. */
  lemma {:induction false} NoLostWakeUp(acts: seq<Act>)
    requires Run(acts).Some?
    ensures Awaited(Run(acts).value)
  {
    if acts != [] {
      var n := |acts| - 1;
      NoLostWakeUp(acts[..n]);
      AwaitedStep(Run(acts[..n]).value, acts[n]);
    }
  }

  /** The last poll of the task ended because its flush had to wait. */
  predicate WaitsForFlush(acts: seq<Act>, t: Task)
    requires Run(acts).Some?
  {
    acts != [] &&
    var n := |acts| - 1;
    match acts[n]
    case FlushPending => Run(acts[..n]).value.holder.value.task == t || WaitsForFlush(acts[..n], t)
    case Enter(x, _) => x != t && WaitsForFlush(acts[..n], t)
    case _ => WaitsForFlush(acts[..n], t)
  }

  /** These are the tasks that the guarantee is about. */
  lemma {:induction false} ParkedExactly(acts: seq<Act>, t: Task)
    requires Run(acts).Some?
    ensures t in Run(acts).value.parked <==> WaitsForFlush(acts, t)
  {
    if acts != [] {
      ParkedExactly(acts[..|acts| - 1], t);
    }
  }

  /** So the completion that a waiting task needs does wake it. */
  lemma CompletionWakes(acts: seq<Act>, t: Task)
    requires Run(acts).Some? && t in Run(acts).value.parked && t !in Run(acts).value.woken
    ensures Can(Run(acts).value, Complete) && t in Do(Run(acts).value, Complete).woken
  {
    NoLostWakeUp(acts);
  }

  // ---- Flush before write -----------------------------------------------------------------------

  /** The last step that used the connection was a flush that found everything complete. */
  predicate Clean(acts: seq<Act>) {
    if acts == [] then true
    else
      match acts[|acts| - 1]
      case FlushDone => true
      case FlushPending => false
      case Write(_) => false
      case ShutdownWrite(_, _) => false
      case _ => Clean(acts[..|acts| - 1])
  }

  /** The task in the lock that has flushed finds the connection as it left it. */
  ghost predicate Guarded(m: Conn) {
    && m.over <= m.pending
    && (m.holder.Some? && m.holder.value.flushed ==> m.pending == 0)
  }

  lemma GuardedStep(m: Conn, a: Act)
    requires Guarded(m) && Can(m, a)
    ensures Guarded(Do(m, a))
    ensures match a
            case FlushDone => Do(m, a).pending == 0
            case FlushPending => Do(m, a).pending != 0
            case Write(_) => Do(m, a).pending != 0
            case ShutdownWrite(_, _) => Do(m, a).pending != 0
            case _ => Do(m, a).pending == m.pending
  {
  }

  /** Nothing is pending exactly if the last use of the connection left it clean; this can be read off
      the schedule. */
  lemma {:induction false} PendingIsUnclean(acts: seq<Act>)
    requires Run(acts).Some?
    ensures Run(acts).value.pending == 0 <==> Clean(acts)
    ensures Guarded(Run(acts).value)
  {
    if acts != [] {
      PendingIsUnclean(acts[..|acts| - 1]);
      GuardedStep(Run(acts[..|acts| - 1]).value, acts[|acts| - 1]);
    }
  }

  /** Which step makes the assertion in `write_message` fail: never the write of a task that flushed in the
      same lock section, whoever else uses the connection, but the write of a shutdown exactly if the last
      use of the connection left it unclean. */
  lemma AssertionFailsExactly(acts: seq<Act>, a: Act)
    requires Run(acts).Some? && Can(Run(acts).value, a) && !Run(acts).value.asserted
    ensures a.Write? ==> Run(acts).value.pending == 0
    ensures Do(Run(acts).value, a).asserted <==> a.ShutdownWrite? && !Clean(acts)
  {
    PendingIsUnclean(acts);
  }

  lemma RunsTo(acts: seq<Act>, a: Act) returns (m: Conn)
    requires Run(acts).Some? && Can(Run(acts).value, a)
    ensures Run(acts + [a]) == Some(m) && m == Do(Run(acts).value, a)
  {
    assert (acts + [a])[..|acts|] == acts;
    m := Do(Run(acts).value, a);
  }

  /** The failure is real: task 1 flushes for its shutdown, task 2 writes, and task 1 writes. */
  lemma ShutdownCanFail() returns (acts: seq<Act>)
    ensures acts == [Enter(1, Flush), FlushDone, Leave, Enter(2, Poll), FlushDone, Write(2), ShutdownWrite(1, 1)]
    ensures Run(acts).Some? && Run(acts).value.asserted
  {
    acts := [];
    var m := RunsTo(acts, Enter(1, Flush));
    acts := acts + [Enter(1, Flush)];
    m := RunsTo(acts, FlushDone);
    acts := acts + [FlushDone];
    m := RunsTo(acts, Leave);
    acts := acts + [Leave];
    m := RunsTo(acts, Enter(2, Poll));
    acts := acts + [Enter(2, Poll)];
    m := RunsTo(acts, FlushDone);
    acts := acts + [FlushDone];
    m := RunsTo(acts, Write(2));
    acts := acts + [Write(2)];
    m := RunsTo(acts, ShutdownWrite(1, 1));
    acts := acts + [ShutdownWrite(1, 1)];
  }

  /** Every shutdown finds the connection clean at its second half. Others may have used it in between, if the
      last of them left it flushed. */
  ghost predicate ShutdownsFindItClean(acts: seq<Act>) {
    forall i :: 0 <= i < |acts| && acts[i].ShutdownWrite? ==> Clean(acts[..i])
  }

  lemma FindItCleanPrefix(acts: seq<Act>)
    requires acts != []
    ensures var n := |acts| - 1;
            ShutdownsFindItClean(acts)
            <==> ShutdownsFindItClean(acts[..n]) && (acts[n].ShutdownWrite? ==> Clean(acts[..n]))
  {
    var n := |acts| - 1;
    assert forall i :: 0 <= i < n ==> acts[..n][..i] == acts[..i] && acts[..n][i] == acts[i];
    if ShutdownsFindItClean(acts[..n]) && (acts[n].ShutdownWrite? ==> Clean(acts[..n])) {
      forall i | 0 <= i < |acts| && acts[i].ShutdownWrite? ensures Clean(acts[..i]) {
        if i < n {
          assert acts[..n][i].ShutdownWrite?;
        }
      }
    }
  }

  lemma AssertedStep(m: Conn, a: Act)
    requires Guarded(m) && Can(m, a)
    ensures Do(m, a).asserted <==> m.asserted || (a.ShutdownWrite? && m.pending != 0)
  {
  }

  /** Over all interleavings of reads, writes, asynchronous writes and shutdowns the assertion holds exactly if
      every shutdown finds the connection clean. */
  lemma {:induction false} CleanShutdownsAreSafe(acts: seq<Act>)
    requires Run(acts).Some?
    ensures !Run(acts).value.asserted <==> ShutdownsFindItClean(acts)
  {
    if acts != [] {
      var before, a := acts[..|acts| - 1], acts[|acts| - 1];
      CleanShutdownsAreSafe(before);
      PendingIsUnclean(before);
      AssertedStep(Run(before).value, a);
      FindItCleanPrefix(acts);
      assert ShutdownsFindItClean(acts) <==> ShutdownsFindItClean(before) && (a.ShutdownWrite? ==> Clean(before));
    }
  }

  // ---- Asynchronous writes ----------------------------------------------------------------------

  ghost predicate SentOnce(m: Conn) {
    && (forall t :: t in m.todo ==> t !in m.sent)
    && (forall i, j :: 0 <= i < j < |m.sent| ==> m.sent[i] != m.sent[j])
    && (m.holder.Some? && m.holder.value.job.Async? ==>
          m.holder.value.task in m.todo || m.holder.value.task in m.sent)
  }

  lemma SentOnceStep(m: Conn, a: Act)
    requires SentOnce(m) && Can(m, a)
    ensures SentOnce(Do(m, a))
    ensures forall t :: t in m.todo || t in m.sent ==> t in Do(m, a).todo || t in Do(m, a).sent
    ensures a.Begin? ==> a.t in Do(m, a).todo
  {
  }

  /** `write_message_async` sends its message at most once, and none is forgotten. */
  lemma {:induction false} AsyncWritesOnce(acts: seq<Act>)
    requires Run(acts).Some?
    ensures SentOnce(Run(acts).value)
    ensures forall i :: 0 <= i < |acts| && acts[i].Begin? ==>
              acts[i].t in Run(acts).value.todo || acts[i].t in Run(acts).value.sent
  {
    if acts != [] {
      var n := |acts| - 1;
      AsyncWritesOnce(acts[..n]);
      SentOnceStep(Run(acts[..n]).value, acts[n]);
      forall i | 0 <= i < |acts| && acts[i].Begin?
        ensures acts[i].t in Run(acts).value.todo || acts[i].t in Run(acts).value.sent
      {
        if i < n {
          assert acts[..n][i] == acts[i];
        }
      }
    }
  }

  /** When its poll is over with nothing left to send, it has sent its message. */
  lemma AsyncDoneMeansSent(acts: seq<Act>)
    requires Run(acts).Some? && Can(Run(acts).value, Leave)
    requires Run(acts).value.holder.value.job.Async?
    ensures Run(acts).value.holder.value.task in Run(acts).value.sent
  {
    AsyncWritesOnce(acts);
  }
}
