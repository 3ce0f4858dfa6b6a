/** Whatever the other sockets have under way, the whole transport can always carry a live connection to
    its end. */
module Completion {
  import opened Bytes
  import opened SocketModel
  import opened Wrappers
  import opened Link
  import opened Multiplex
  import opened Routing
  import opened Runs
  import opened Guarantees
  import opened Progress
  import Sequences

  /** The run `more` continues `acts` and brings the connection to `c`. */
  ghost predicate Brings(acts: seq<Act>, more: seq<Act>, s: Side, id: u32, c: Link) {
    Reaches(acts + more, s, id) && View(acts + more, s, id) == c
  }

  lemma BringsThen(acts: seq<Act>, first: seq<Act>, more: seq<Act>, s: Side, id: u32, c: Link)
    requires Brings(acts + first, more, s, id, c)
    ensures Brings(acts, first + more, s, id, c)
  {
    Sequences.Assoc(acts, first, more);
  }

  /** The owner's steps are possible at once. */
  lemma OwnerCan(acts: seq<Act>, s: Side, id: u32, e: End, op: Op) returns (more: seq<Act>)
    requires Reaches(acts, s, id) && View(acts, s, id).a.Some? && CanStep(View(acts, s, id), Do(e, op))
    ensures Brings(acts, more, s, id, Next(View(acts, s, id), Do(e, op)))
  {
    var c := View(acts, s, id);
    EndsNameEachOther(acts, s, id);
    var act := if e == Opener then Act.Local(s, id, op) else Act.Local(Other(s), c.a.value.id, op);
    if e == Acceptor {
      AcceptedOrigin(acts, s, id);
    }
    OthersAreUntouched(acts, act, s, id);
    more := [act];
  }

  lemma AcceptedOrigin(acts: seq<Act>, s: Side, id: u32)
    requires Reaches(acts, s, id) && View(acts, s, id).a.Some?
    ensures View(acts, s, id).a.value.origin == SocketModel.Accepted
  {
    ViewHolds(acts, s, id);
  }

  /** The next frame of a connection is delivered after those of other connections ahead of it. */
  lemma {:induction false} FrameCanArrive(acts: seq<Act>, s: Side, id: u32, e: End) returns (more: seq<Act>)
    requires Reaches(acts, s, id) && CanStep(View(acts, s, id), Arrive(e))
    ensures Brings(acts, more, s, id, Next(View(acts, s, id), Arrive(e)))
    decreases |Out(Run(acts).value, if e == Opener then s else Other(s)).flight|
  {
    var from := if e == Opener then s else Other(s);
    var m, act := Run(acts).value, Transfer(from);
    assert Out(m, from).flight != [];
    OthersAreUntouched(acts, act, s, id);
    if StepOf(m, act, s, id).Some? {
      more := [act];
    } else {
      assert (acts + [act])[..|acts|] == acts;
      var rest := FrameCanArrive(acts + [act], s, id, e);
      more := [act] + rest;
      BringsThen(acts, [act], rest, s, id, Next(View(acts, s, id), Arrive(e)));
    }
  }

  /** What the two owners and the wires can do to a connection: all its steps but those that begin it, refuse it
      or fail. */
  predicate Ordinary(step: Step) { step.Do? || step.Arrive? }

  /** The connection alone after some steps, unless one of them was not possible. */
  function Follow(c: Link, steps: seq<Step>): Option<Link>
    decreases |steps|
  {
    if steps == [] then Some(c)
    else if CanStep(c, steps[0]) then Follow(Next(c, steps[0]), steps[1..])
    else None
  }

  lemma StepCanBeDone(acts: seq<Act>, s: Side, id: u32, step: Step) returns (more: seq<Act>)
    requires Reaches(acts, s, id) && View(acts, s, id).a.Some? && Ordinary(step) && CanStep(View(acts, s, id), step)
    ensures Brings(acts, more, s, id, Next(View(acts, s, id), step))
  {
    if step.Do? {
      more := OwnerCan(acts, s, id, step.e, step.op);
    } else {
      more := FrameCanArrive(acts, s, id, step.from);
    }
  }

  /** Whatever the connection could do if it were alone, the whole can make it do, with whatever other sockets
      have in flight. */
  lemma {:induction false} AloneMeansPossible(acts: seq<Act>, s: Side, id: u32, steps: seq<Step>)
      returns (more: seq<Act>)
    requires Reaches(acts, s, id) && View(acts, s, id).a.Some?
    requires (forall step :: step in steps ==> Ordinary(step)) && Follow(View(acts, s, id), steps).Some?
    ensures Brings(acts, more, s, id, Follow(View(acts, s, id), steps).value)
    decreases |steps|
  {
    if steps == [] {
      more := [];
      Sequences.Empty(acts);
    } else {
      var first := StepCanBeDone(acts, s, id, steps[0]);
      var rest := AloneMeansPossible(acts + first, s, id, steps[1..]);
      more := first + rest;
      BringsThen(acts, first, rest, s, id, Follow(View(acts, s, id), steps).value);
    }
  }

  lemma WorkCanBeDone(acts: seq<Act>, s: Side, id: u32, j: Job, w: Work) returns (more: seq<Act>)
    requires Reaches(acts, s, id) && j.c == View(acts, s, id) && Live(j.c) && CanWork(j, w)
    ensures CanStep(j.c, StepOfWork(j, w)) && Brings(acts, more, s, id, AfterWork(j, w).c)
  {
    WorkKeepsLive(j, w);
    match w
    case Put(e, n) => more := OwnerCan(acts, s, id, e, Write(Todo(j, e)[..n]));
    case Get(e, cap) => more := OwnerCan(acts, s, id, e, Read(cap));
    case Carry(e) => more := FrameCanArrive(acts, s, id, e);
  }

  /** The connection is finished: all that was to be written is written, read and acknowledged. */
  ghost predicate Finished(c: Link, writtenO: Data, writtenA: Data) {
    && c.o.Some? && c.a.Some?
    && FlushReady(c.o.value.st) && FlushReady(c.a.value.st)
    && c.o.value.written == writtenO && c.a.value.received == writtenO
    && c.a.value.written == writtenA && c.o.value.received == writtenA
  }

  /** What the connection's owners will have written in the end. */
  ghost predicate Owes(j: Job, writtenO: Data, writtenA: Data)
    requires j.c.o.Some? && j.c.a.Some?
  {
    j.c.o.value.written + j.todoO == writtenO && j.c.a.value.written + j.todoA == writtenA
  }

  lemma NothingLeft(j: Job, writtenO: Data, writtenA: Data)
    requires Live(j.c) && Owes(j, writtenO, writtenA) && forall w: Work :: !CanWork(j, w)
    ensures Finished(j.c, writtenO, writtenA)
  {
    NeverStuck(j);
    assert j.c.o.value.written + [] == j.c.o.value.written && j.c.a.value.written + [] == j.c.a.value.written;
  }

  /** One piece of work, done in the whole. */
  lemma OneWork(acts: seq<Act>, s: Side, id: u32, j: Job, w: Work, writtenO: Data, writtenA: Data)
      returns (more: seq<Act>, k: Job)
    requires Reaches(acts, s, id) && j.c == View(acts, s, id) && Live(j.c) && CanWork(j, w)
    requires Owes(j, writtenO, writtenA)
    ensures Reaches(acts + more, s, id) && k.c == View(acts + more, s, id) && Live(k.c)
    ensures Owes(k, writtenO, writtenA) && Measure(k) < Measure(j)
  {
    more := WorkCanBeDone(acts, s, id, j, w);
    k := AfterWork(j, w);
    WorkKeepsLive(j, w);
    WorkIsProgress(j, w);
    WorkKeepsText(j, w);
  }

  /** From every reachable state, a live connection can be finished, whatever its owners still want to
      write and whatever the other sockets of the two endpoints have sent. */
  lemma {:induction false} CanAlwaysFinish(acts: seq<Act>, s: Side, id: u32, j: Job, writtenO: Data, writtenA: Data)
      returns (more: seq<Act>)
    requires Reaches(acts, s, id) && j.c == View(acts, s, id) && Live(j.c) && Owes(j, writtenO, writtenA)
    ensures Reaches(acts + more, s, id) && Finished(View(acts + more, s, id), writtenO, writtenA)
    decreases Measure(j)
  {
    var w := SomeWork(j);
    if w.Some? {
      var first, k := OneWork(acts, s, id, j, w.value, writtenO, writtenA);
      var rest := CanAlwaysFinish(acts + first, s, id, k, writtenO, writtenA);
      more := first + rest;
      Sequences.Assoc(acts, first, rest);
    } else {
      more := [];
      Sequences.Empty(acts);
      NothingLeft(j, writtenO, writtenA);
    }
  }

  lemma SomeWork(j: Job) returns (w: Option<Work>)
    requires j.c.o.Some? && j.c.a.Some?
    ensures if w.Some? then CanWork(j, w.value) else forall v: Work :: !CanWork(j, v)
  {
    if v: Work :| CanWork(j, v) {
      w := Some(v);
    } else {
      w := None;
    }
  }

  // ---- Work in the whole ------------------------------------------------------------------------

  /** The steps of a connection that a piece of work consists of. */
  function StepsOfWork(j: Job, ws: seq<Work>): seq<Step>
    requires j.c.o.Some? && j.c.a.Some? && RunWork(j, ws).Some?
    decreases |ws|
  {
    if ws == [] then [] else [StepOfWork(j, ws[0])] + StepsOfWork(AfterWork(j, ws[0]), ws[1..])
  }

  lemma OneStepOfWork(j: Job, ws: seq<Work>)
    requires j.c.o.Some? && j.c.a.Some? && RunWork(j, ws).Some? && ws != []
    ensures CanStep(j.c, StepOfWork(j, ws[0]))
    ensures var k := AfterWork(j, ws[0]);
            && k.c == Next(j.c, StepOfWork(j, ws[0])) && k.c.o.Some? && k.c.a.Some?
            && RunWork(k, ws[1..]) == RunWork(j, ws)
            && StepsOfWork(j, ws) == [StepOfWork(j, ws[0])] + StepsOfWork(k, ws[1..])
  {
  }

  /** Work continues a run of the connection alone. */
  lemma {:induction false} WorkExtends(before: seq<Step>, j: Job, ws: seq<Work>)
    requires j.c.o.Some? && j.c.a.Some? && RunWork(j, ws).Some?
    requires LinkRun(before) == Some(j.c)
    ensures LinkRun(before + StepsOfWork(j, ws)) == Some(RunWork(j, ws).value.c)
    decreases |ws|
  {
    if ws == [] {
      Sequences.Empty(before);
    } else {
      OneStepOfWork(j, ws);
      var step, k := StepOfWork(j, ws[0]), AfterWork(j, ws[0]);
      LinkRunExtends(before, step);
      WorkExtends(before + [step], k, ws[1..]);
      Sequences.Assoc(before, [step], StepsOfWork(k, ws[1..]));
    }
  }

  lemma ViewIsRun(acts: seq<Act>, s: Side, id: u32)
    requires Reaches(acts, s, id)
    ensures LinkRun(StepsOf(acts, s, id)) == Some(View(acts, s, id))
  {
    RunHolds(acts);
    assert IsKey(Run(acts).value, s, id) by { assert Ids(At(Run(acts).value, s)); }
    RunRefines(acts, s, id);
  }

  /** The run `more` continues `acts`, where the connection is live, and what it does to the connection is the
      work `ws`; other sockets may do anything. */
  ghost predicate WorksOn(acts: seq<Act>, more: seq<Act>, s: Side, id: u32, j: Job, ws: seq<Work>) {
    && Reaches(acts, s, id) && j.c == View(acts, s, id) && Live(j.c)
    && Run(acts + more).Some? && IdsLast(Run(acts + more).value)
    && RunWork(j, ws).Some?
    && StepsOf(acts + more, s, id) == StepsOf(acts, s, id) + StepsOfWork(j, ws)
  }

  /** However a run of the whole goes on from a live connection, if what it does to that connection is work,
      then it is at most `Measure` pieces of it; and when no work is left, the connection is finished. */
  lemma WorkEndsInTheWhole(acts: seq<Act>, more: seq<Act>, s: Side, id: u32, j: Job, ws: seq<Work>)
    requires WorksOn(acts, more, s, id, j, ws)
    ensures var k := RunWork(j, ws).value;
            && Reaches(acts + more, s, id) && View(acts + more, s, id) == k.c
            && |ws| + Measure(k) <= Measure(j)
            && ((forall w: Work :: !CanWork(k, w)) ==>
                  Finished(k.c, j.c.o.value.written + j.todoO, j.c.a.value.written + j.todoA))
  {
    RunGoesOn(acts, more, s, id);
    ViewIsRun(acts, s, id);
    ViewIsRun(acts + more, s, id);
    WorkExtends(StepsOf(acts, s, id), j, ws);
    WorkFinishes(j, ws);
  }

  lemma WorkFinishes(j: Job, ws: seq<Work>)
    requires Live(j.c) && RunWork(j, ws).Some?
    ensures var k := RunWork(j, ws).value;
            && |ws| + Measure(k) <= Measure(j)
            && ((forall w: Work :: !CanWork(k, w)) ==>
                  Finished(k.c, j.c.o.value.written + j.todoO, j.c.a.value.written + j.todoA))
  {
    WorkEnds(j, ws);
    var k := RunWork(j, ws).value;
    if forall w: Work :: !CanWork(k, w) {
      NothingLeft(k, j.c.o.value.written + j.todoO, j.c.a.value.written + j.todoA);
    }
  }
}
