/** Readers and writers over one shared counter, guarded by a set of four semaphores. Any number of processes;
    each step below is one atomic action of one process, a semop() call or a single access to shared memory. */
module ReadersWriters {
  import opened Options
  import opened Semaphores

  // The semaphores of the set.
  const ACTIVE_READERS: nat := 0
  const ACTIVE_WRITERS: nat := 1
  const WAIT_READERS: nat := 2
  const WAIT_WRITERS: nat := 3

  const START_WRITE: seq<SemBuf> := [
    SemBuf(WAIT_WRITERS, 1), SemBuf(ACTIVE_READERS, 0), SemBuf(ACTIVE_WRITERS, 0),
    SemBuf(ACTIVE_WRITERS, 1), SemBuf(WAIT_WRITERS, -1)]
  const STOP_WRITE: seq<SemBuf> := [SemBuf(ACTIVE_WRITERS, -1)]
  const START_READ: seq<SemBuf> := [
    SemBuf(WAIT_READERS, 1), SemBuf(ACTIVE_WRITERS, 0), SemBuf(WAIT_WRITERS, 0),
    SemBuf(ACTIVE_READERS, 1), SemBuf(WAIT_READERS, -1)]
  const STOP_READ: seq<SemBuf> := [SemBuf(ACTIVE_READERS, -1)]

  datatype Role = Writer | Reader

  // Where a process is. The increment is a load (Loaded keeps the value) and a store.
  datatype Place = Outside | Entered | Loaded(value: int) | Stored | Leaving

  datatype Process = Process(role: Role, place: Place)

  // wrote and read are what the writers and the readers have printed, in order.
  datatype State = State(sems: seq<nat>, shm: int, procs: seq<Process>, wrote: seq<int>, read: seq<int>)

  ghost predicate Start(s: State) {
    && s.sems == [0, 0, 1, 0] && s.shm == 0 && s.wrote == [] && s.read == []
    && forall i {:trigger s.procs[i]} :: 0 <= i < |s.procs| ==> s.procs[i].place == Outside
  }

  function Move(s: State, i: nat, place: Place): State
    requires i < |s.procs|
  {
    s.(procs := s.procs[i := s.procs[i].(place := place)])
  }

  function Call(s: State, i: nat, ops: seq<SemBuf>, place: Place): Option<State>
    requires i < |s.procs| && Fit(ops, |s.sems|)
  {
    match Semop(s.sems, ops)
    case None => None
    case Some(sems) => Some(Move(s, i, place).(sems := sems))
  }

  // The next atomic action of process i; None while semop() makes it sleep.
  function Advance(s: State, i: nat): Option<State>
    requires |s.sems| == 4 && i < |s.procs|
  {
    var p := s.procs[i];
    match p.role
    case Writer =>
      (match p.place
       case Outside => Call(s, i, START_WRITE, Entered)
       case Entered => Some(Move(s, i, Loaded(s.shm)))
       case Loaded(v) => Some(Move(s, i, Stored).(shm := v + 1))
       case Stored => Some(Move(s, i, Leaving).(wrote := s.wrote + [s.shm]))
       case Leaving => Call(s, i, STOP_WRITE, Outside))
    case Reader =>
      (match p.place
       case Outside => Call(s, i, START_READ, Entered)
       case Leaving => Call(s, i, STOP_READ, Outside)
       case _ => Some(Move(s, i, Leaving).(read := s.read + [s.shm])))
  }

  function WriterIn(p: Process): nat {
    if p.role == Writer && p.place != Outside then 1 else 0
  }

  function ReaderIn(p: Process): nat {
    if p.role == Reader && p.place != Outside then 1 else 0
  }

  // A writer that has stored its increment and not printed it yet.
  function Unprinted(p: Process): nat {
    if p.role == Writer && p.place == Stored then 1 else 0
  }

  ghost predicate PlaceOk(p: Process, shm: int) {
    && (p.place.Loaded? ==> p.role == Writer && p.place.value == shm)
    && (p.place.Stored? ==> p.role == Writer)
  }

  ghost predicate Inv(s: State) {
    && |s.sems| == 4
    && s.sems[ACTIVE_WRITERS] == Sum(s.procs, WriterIn) <= 1
    && s.sems[ACTIVE_READERS] == Sum(s.procs, ReaderIn)
    && (s.sems[ACTIVE_WRITERS] > 0 ==> s.sems[ACTIVE_READERS] == 0)
    && s.sems[WAIT_READERS] == 1 && s.sems[WAIT_WRITERS] == 0
    && (forall i {:trigger s.procs[i]} :: 0 <= i < |s.procs| ==> PlaceOk(s.procs[i], s.shm))
    && s.shm == |s.wrote| + Sum(s.procs, Unprinted)
    && (forall k {:trigger s.wrote[k]} :: 0 <= k < |s.wrote| ==> s.wrote[k] == k + 1)
    && (forall k {:trigger s.read[k]} :: 0 <= k < |s.read| ==> s.read[k] <= s.shm)
    && (forall k, l {:trigger s.read[k], s.read[l]} :: 0 <= k <= l < |s.read| ==> s.read[k] <= s.read[l])
  }

  // ---------- the four semaphore calls ----------

  // Raising and lowering a waiting semaphore within one call is never seen from outside.
  lemma StartCall(sems: seq<nat>, ops: seq<SemBuf>, wait: nat, first: nat, second: nat, active: nat)
    requires |sems| == 4 && wait < 4 && first < 4 && second < 4 && active < 4
    requires wait != first && wait != second && wait != active
    requires ops == [SemBuf(wait, 1), SemBuf(first, 0), SemBuf(second, 0), SemBuf(active, 1), SemBuf(wait, -1)]
    ensures Semop(sems, ops) ==
              if sems[first] == 0 && sems[second] == 0 then Some(sems[active := sems[active] + 1]) else None
  {
    var up, down := sems[wait := sems[wait] + 1], SemBuf(wait, -1);
    var inside := up[active := up[active] + 1];
    FirstOperation(inside, down, []);
    assert [down] + [] == [down];
    FirstOperation(up, SemBuf(active, 1), [down]);
    FirstOperation(up, SemBuf(second, 0), [SemBuf(active, 1)] + [down]);
    FirstOperation(up, SemBuf(first, 0), [SemBuf(second, 0)] + ([SemBuf(active, 1)] + [down]));
    FirstOperation(sems, SemBuf(wait, 1), [SemBuf(first, 0)] + ([SemBuf(second, 0)] + ([SemBuf(active, 1)] + [down])));
    assert up[first := up[first]] == up && up[second := up[second]] == up;
    assert inside[wait := sems[wait]] == sems[active := sems[active] + 1];
    assert ops == [SemBuf(wait, 1)] + ([SemBuf(first, 0)] + ([SemBuf(second, 0)] + ([SemBuf(active, 1)] + [down])));
  }

  // When each of the four calls goes through, and what it changes.
  lemma StartWrite(s: State)
    requires Inv(s)
    ensures Semop(s.sems, START_WRITE) ==
              if s.sems[ACTIVE_READERS] == 0 && s.sems[ACTIVE_WRITERS] == 0 then Some(s.sems[ACTIVE_WRITERS := 1])
              else None
  {
    StartCall(s.sems, START_WRITE, WAIT_WRITERS, ACTIVE_READERS, ACTIVE_WRITERS, ACTIVE_WRITERS);
  }

  lemma StartRead(s: State)
    requires Inv(s)
    ensures Semop(s.sems, START_READ) ==
              if s.sems[ACTIVE_WRITERS] == 0
              then Some(s.sems[ACTIVE_READERS := s.sems[ACTIVE_READERS] + 1]) else None
  {
    StartCall(s.sems, START_READ, WAIT_READERS, ACTIVE_WRITERS, WAIT_WRITERS, ACTIVE_READERS);
  }

  lemma StopCall(sems: seq<nat>, active: nat)
    requires active < |sems|
    ensures Semop(sems, [SemBuf(active, -1)]) ==
              if sems[active] > 0 then Some(sems[active := sems[active] - 1]) else None
  {
    FirstOperation(sems, SemBuf(active, -1), []);
    assert [SemBuf(active, -1)] + [] == [SemBuf(active, -1)];
  }

  // ---------- exclusion ----------

  /** A writer inside is alone: no other writer and no reader is inside with it. */
  lemma Exclusion(s: State, i: nat, j: nat)
    requires Inv(s) && i < |s.procs| && j < |s.procs| && i != j
    requires s.procs[i].role == Writer && s.procs[i].place != Outside
    ensures s.procs[j].place == Outside
  {
    if s.procs[j].role == Writer {
      SumPair(s.procs, if i < j then i else j, if i < j then j else i, WriterIn);
    } else {
      SumUpdate(s.procs, i, s.procs[i], WriterIn);
      SumUpdate(s.procs, j, s.procs[j], ReaderIn);
    }
  }

  lemma MoveSums(s: State, i: nat, place: Place)
    requires i < |s.procs|
    ensures var p, q := s.procs[i], s.procs[i].(place := place);
            && Sum(Move(s, i, place).procs, WriterIn) == Sum(s.procs, WriterIn) - WriterIn(p) + WriterIn(q)
            && Sum(Move(s, i, place).procs, ReaderIn) == Sum(s.procs, ReaderIn) - ReaderIn(p) + ReaderIn(q)
            && Sum(Move(s, i, place).procs, Unprinted) == Sum(s.procs, Unprinted) - Unprinted(p) + Unprinted(q)
            && WriterIn(p) <= Sum(s.procs, WriterIn) && ReaderIn(p) <= Sum(s.procs, ReaderIn)
            && Unprinted(p) <= Sum(s.procs, Unprinted)
  {
    var q := s.procs[i].(place := place);
    SumUpdate(s.procs, i, q, WriterIn);
    SumUpdate(s.procs, i, q, ReaderIn);
    SumUpdate(s.procs, i, q, Unprinted);
  }

  lemma CallKeeps(s: State, i: nat, place: Place, sems: seq<nat>)
    requires Inv(s) && i < |s.procs| && !place.Loaded? && !place.Stored? && !s.procs[i].place.Stored?
    requires |sems| == 4 && sems[WAIT_READERS] == 1 && sems[WAIT_WRITERS] == 0
    requires var p, q := s.procs[i], s.procs[i].(place := place);
             && sems[ACTIVE_WRITERS] == s.sems[ACTIVE_WRITERS] - WriterIn(p) + WriterIn(q) <= 1
             && sems[ACTIVE_READERS] == s.sems[ACTIVE_READERS] - ReaderIn(p) + ReaderIn(q)
    requires sems[ACTIVE_WRITERS] > 0 ==> sems[ACTIVE_READERS] == 0
    ensures Inv(Move(s, i, place).(sems := sems))
  {
    MoveSums(s, i, place);
  }

  // A writer alone inside loads, stores and prints the counter.
  lemma WriterWorks(s: State, i: nat)
    requires Inv(s) && i < |s.procs| && s.procs[i].role == Writer
    requires s.procs[i].place.Entered? || s.procs[i].place.Loaded? || s.procs[i].place.Stored?
    ensures Inv(Advance(s, i).value)
  {
    MoveSums(s, i, Advance(s, i).value.procs[i].place);
    SumAtMost(s.procs, Unprinted, WriterIn);
    forall j | 0 <= j < |s.procs| && j != i
      ensures s.procs[j].place == Outside
    {
      Exclusion(s, i, j);
    }
    hide Sum;
  }

  /** Every atomic action of every process keeps the invariant. */
  lemma StepKeepsInv(s: State, i: nat)
    requires Inv(s) && i < |s.procs| && Advance(s, i).Some?
    ensures Inv(Advance(s, i).value)
  {
    var p := s.procs[i];
    StartWrite(s);
    StartRead(s);
    StopCall(s.sems, ACTIVE_WRITERS);
    StopCall(s.sems, ACTIVE_READERS);
    SumUpdate(s.procs, i, p, WriterIn);
    SumUpdate(s.procs, i, p, ReaderIn);
    hide Semop, Sum;
    if p.place.Outside? || p.place.Leaving? {
      CallKeeps(s, i, Advance(s, i).value.procs[i].place, Advance(s, i).value.sems);
    } else if p.role == Writer {
      WriterWorks(s, i);
    } else {
      MoveSums(s, i, Leaving);
    }
  }

  // ---------- whole runs ----------

  // actors[k] is the process that acts in step k.
  ghost predicate IsRun(run: seq<State>, actors: seq<nat>) {
    && |run| == |actors| + 1 && Start(run[0])
    && forall k {:trigger actors[k]} :: 0 <= k < |actors| ==> StepOf(run[k], actors[k], run[k + 1])
  }

  ghost predicate StepOf(s: State, i: nat, s': State) {
    |s.sems| == 4 && i < |s.procs| && Advance(s, i) == Some(s')
  }

  /** Every state of every run satisfies the invariant. */
  lemma {:induction false} RunKeepsInv(run: seq<State>, actors: seq<nat>, n: nat)
    requires IsRun(run, actors) && n < |run|
    ensures Inv(run[n])
    decreases n
  {
    if n == 0 {
      SumZero(run[0].procs, WriterIn);
      SumZero(run[0].procs, ReaderIn);
      SumZero(run[0].procs, Unprinted);
    } else {
      RunKeepsInv(run, actors, n - 1);
      assert StepOf(run[n - 1], actors[n - 1], run[n]);
      hide Inv, Advance;
      StepKeepsInv(run[n - 1], actors[n - 1]);
    }
  }

  // ---------- who is inside, who sleeps ----------

  ghost predicate SomeoneInside(s: State, role: Role) {
    exists i :: 0 <= i < |s.procs| && s.procs[i].role == role && s.procs[i].place != Outside
  }

  /** The active semaphores tell who is inside. */
  lemma ActiveMeansInside(s: State)
    requires Inv(s)
    ensures s.sems[ACTIVE_WRITERS] > 0 <==> SomeoneInside(s, Writer)
    ensures s.sems[ACTIVE_READERS] > 0 <==> SomeoneInside(s, Reader)
  {
    if Sum(s.procs, WriterIn) > 0 { var i := SumPositive(s.procs, WriterIn); }
    if Sum(s.procs, ReaderIn) > 0 { var i := SumPositive(s.procs, ReaderIn); }
    if i :| 0 <= i < |s.procs| && s.procs[i].role == Writer && s.procs[i].place != Outside {
      SumUpdate(s.procs, i, s.procs[i], WriterIn);
    }
    if i :| 0 <= i < |s.procs| && s.procs[i].role == Reader && s.procs[i].place != Outside {
      SumUpdate(s.procs, i, s.procs[i], ReaderIn);
    }
  }

  /** A process sleeps only on entering: a writer while anybody is inside, a reader while a writer is. */
  lemma SleepsExactlyWhen(s: State, i: nat)
    requires Inv(s) && i < |s.procs|
    ensures Advance(s, i).None? <==>
              && s.procs[i].place == Outside
              && (SomeoneInside(s, Writer) || (s.procs[i].role == Writer && SomeoneInside(s, Reader)))
  {
    StartWrite(s);
    StartRead(s);
    StopCall(s.sems, ACTIVE_WRITERS);
    StopCall(s.sems, ACTIVE_READERS);
    ActiveMeansInside(s);
    SumUpdate(s.procs, i, s.procs[i], WriterIn);
    SumUpdate(s.procs, i, s.procs[i], ReaderIn);
    hide Semop, Sum;
  }

  /** No deadlock: some process can always act. */
  lemma SomeStepEnabled(s: State) returns (i: nat)
    requires Inv(s) && s.procs != []
    ensures i < |s.procs| && Advance(s, i).Some?
  {
    i := 0;
    if SomeoneInside(s, Writer) {
      i :| 0 <= i < |s.procs| && s.procs[i].role == Writer && s.procs[i].place != Outside;
    } else if SomeoneInside(s, Reader) {
      i :| 0 <= i < |s.procs| && s.procs[i].role == Reader && s.procs[i].place != Outside;
    }
    SleepsExactlyWhen(s, i);
  }

  lemma {:induction false} ExtendRun(run: seq<State>, actors: seq<nat>, i: nat, s: State)
    requires IsRun(run, actors) && StepOf(run[|run| - 1], i, s)
    ensures IsRun(run + [s], actors + [i])
  {
    var longer, order := run + [s], actors + [i];
    forall k | 0 <= k < |order|
      ensures StepOf(longer[k], order[k], longer[k + 1])
    {
      if k < |actors| { assert StepOf(run[k], actors[k], run[k + 1]); }
    }
  }

  // The own steps a process inside takes until it is outside again.
  function Remaining(p: Process): nat {
    match p.place
    case Outside => 0
    case Entered => if p.role == Writer then 4 else 2
    case Loaded(_) => 3
    case Stored => 2
    case Leaving => 1
  }

  lemma ComesCloser(s: State, i: nat)
    requires Inv(s) && i < |s.procs| && s.procs[i].place != Outside
    ensures Advance(s, i).Some?
    ensures var s' := Advance(s, i).value;
            |s'.procs| == |s.procs| && Remaining(s'.procs[i]) == Remaining(s.procs[i]) - 1
  {
    SleepsExactlyWhen(s, i);
    assert PlaceOk(s.procs[i], s.shm);
    hide Inv, Semop, Sum, SomeoneInside;
  }

  /** Nobody holds a process inside: whatever the others are doing, its own next steps, four at most for a writer and
      two for a reader, take it out again. */
  lemma {:induction false} VisitEnds(run: seq<State>, actors: seq<nat>, i: nat)
    returns (longer: seq<State>, order: seq<nat>)
    requires IsRun(run, actors) && i < |run[|run| - 1].procs|
    ensures IsRun(longer, order) && run <= longer && actors <= order
    ensures |longer| == |run| + Remaining(run[|run| - 1].procs[i])
    ensures forall k :: |actors| <= k < |order| ==> order[k] == i
    ensures i < |longer[|longer| - 1].procs| && longer[|longer| - 1].procs[i].place == Outside
    decreases Remaining(run[|run| - 1].procs[i])
  {
    longer, order := run, actors;
    var s := run[|run| - 1];
    if s.procs[i].place != Outside {
      RunKeepsInv(run, actors, |run| - 1);
      ComesCloser(s, i);
      var s' := Advance(s, i).value;
      assert StepOf(s, i, s');
      hide Inv, Advance, StepOf;
      ExtendRun(run, actors, i, s');
      longer, order := VisitEnds(run + [s'], actors + [i], i);
    }
  }

  // ---------- the counter ----------

  lemma StableStep(s: State, j: nat)
    requires Inv(s) && j < |s.procs| && Advance(s, j).Some? && SomeoneInside(s, Reader)
    ensures Advance(s, j).value.shm == s.shm
  {
    var i :| 0 <= i < |s.procs| && s.procs[i].role == Reader && s.procs[i].place != Outside;
    if s.procs[j].role == Writer && s.procs[j].place != Outside { Exclusion(s, j, i); }
  }

  /** The counter does not change while there is always some reader inside, readers relieving one another included. */
  lemma {:induction false} StableWhileReading(run: seq<State>, actors: seq<nat>, first: nat, last: nat)
    requires IsRun(run, actors) && first <= last < |run|
    requires forall k {:trigger run[k]} :: first <= k < last ==> SomeoneInside(run[k], Reader)
    ensures run[last].shm == run[first].shm
    decreases last
  {
    if first < last {
      StableWhileReading(run, actors, first, last - 1);
      RunKeepsInv(run, actors, last - 1);
      assert StepOf(run[last - 1], actors[last - 1], run[last]);
      hide Inv, Advance;
      StableStep(run[last - 1], actors[last - 1]);
    }
  }

  /** No increment is lost: the writers print 1, 2, 3 and so on, and whenever no writer is inside the counter is the
      number of values printed; what the readers see never goes back. */
  lemma {:induction false} NoLostIncrement(run: seq<State>, actors: seq<nat>, n: nat)
    requires IsRun(run, actors) && n < |run|
    ensures forall k :: 0 <= k < |run[n].wrote| ==> run[n].wrote[k] == k + 1
    ensures !SomeoneInside(run[n], Writer) ==> run[n].shm == |run[n].wrote|
    ensures forall k, l :: 0 <= k <= l < |run[n].read| ==> run[n].read[k] <= run[n].read[l] <= run[n].shm
  {
    RunKeepsInv(run, actors, n);
    if Sum(run[n].procs, Unprinted) > 0 { var i := SumPositive(run[n].procs, Unprinted); }
  }

  // A process inside that has still to print.
  function WriterDue(p: Process): nat {
    if p.role == Writer && (p.place.Entered? || p.place.Loaded? || p.place.Stored?) then 1 else 0
  }

  function ReaderDue(p: Process): nat {
    if p.role == Reader && p.place.Entered? then 1 else 0
  }

  // The process goes in: this is what its next step, when it has one, does from outside.
  function Enters(p: Process, role: Role): nat {
    if p.role == role && p.place == Outside then 1 else 0
  }

  lemma NobodyWrites(s: State, i: nat)
    requires Inv(s) && i < |s.procs| && s.procs[i].role == Reader && s.procs[i].place != Outside
    ensures s.shm == |s.wrote|
  {
    SumUpdate(s.procs, i, s.procs[i], ReaderIn);
    SumAtMost(s.procs, Unprinted, WriterIn);
  }

  lemma OneWrites(s: State, i: nat)
    requires Inv(s) && i < |s.procs| && s.procs[i].role == Writer && s.procs[i].place == Stored
    ensures s.shm == |s.wrote| + 1
  {
    SumUpdate(s.procs, i, s.procs[i], Unprinted);
    SumAtMost(s.procs, Unprinted, WriterIn);
  }

  lemma StepPrints(s: State, i: nat)
    requires Inv(s) && i < |s.procs| && Advance(s, i).Some?
    ensures var p, s' := s.procs[i], Advance(s, i).value;
            && |s'.procs| == |s.procs| && s'.procs == s.procs[i := s'.procs[i]]
            && s'.wrote == s.wrote + (if p.role == Writer && p.place == Stored then [|s.wrote| + 1] else [])
            && s'.read == s.read + (if p.role == Reader && p.place == Entered then [|s.wrote|] else [])
            && WriterDue(s'.procs[i]) + |s'.wrote| == WriterDue(p) + |s.wrote| + Enters(p, Writer)
            && ReaderDue(s'.procs[i]) + |s'.read| == ReaderDue(p) + |s.read| + Enters(p, Reader)
  {
    var p := s.procs[i];
    assert PlaceOk(p, s.shm);
    if p.role == Writer && p.place == Stored { OneWrites(s, i); }
    if p.role == Reader && p.place != Outside { NobodyWrites(s, i); }
    hide Inv, Semop, Sum;
  }

  /** What each step prints: a writer that has stored its increment prints one more than has been printed, a reader that
      has entered prints how many values the writers have printed, and no other step prints anything. */
  lemma {:induction false} WhatStepsPrint(run: seq<State>, actors: seq<nat>, k: nat)
    requires IsRun(run, actors) && k < |actors|
    ensures actors[k] < |run[k].procs|
    ensures var p, s := run[k].procs[actors[k]], run[k];
            && run[k + 1].wrote == s.wrote + (if p.role == Writer && p.place == Stored then [|s.wrote| + 1] else [])
            && run[k + 1].read == s.read + (if p.role == Reader && p.place == Entered then [|s.wrote|] else [])
  {
    RunKeepsInv(run, actors, k);
    assert StepOf(run[k], actors[k], run[k + 1]);
    hide Inv, Advance;
    StepPrints(run[k], actors[k]);
  }

  // How often processes of a role have gone in during the first n steps.
  ghost function Visits(run: seq<State>, actors: seq<nat>, role: Role, n: nat): nat
    requires IsRun(run, actors) && n <= |actors|
  {
    if n == 0 then 0
    else
      assert StepOf(run[n - 1], actors[n - 1], run[n]);
      Enters(run[n - 1].procs[actors[n - 1]], role) + Visits(run, actors, role, n - 1)
  }

  /** Every visit prints exactly once: the values printed by a role are as many as its visits, those inside that have
      still to print left out. */
  lemma {:induction false} VisitsPrintOnce(run: seq<State>, actors: seq<nat>, n: nat)
    requires IsRun(run, actors) && n < |run|
    ensures |run[n].wrote| + Sum(run[n].procs, WriterDue) == Visits(run, actors, Writer, n)
    ensures |run[n].read| + Sum(run[n].procs, ReaderDue) == Visits(run, actors, Reader, n)
    decreases n
  {
    if n == 0 {
      SumZero(run[0].procs, WriterDue);
      SumZero(run[0].procs, ReaderDue);
    } else {
      VisitsPrintOnce(run, actors, n - 1);
      RunKeepsInv(run, actors, n - 1);
      var s, i := run[n - 1], actors[n - 1];
      assert StepOf(s, i, run[n]);
      hide Inv, Advance, Sum;
      StepPrints(s, i);
      SumUpdate(s.procs, i, run[n].procs[i], WriterDue);
      SumUpdate(s.procs, i, run[n].procs[i], ReaderDue);
    }
  }

  /** Between two calls nobody ever sees a waiting semaphore change, and the active ones count the insiders. */
  lemma {:induction false} SemaphoresCountInsiders(run: seq<State>, actors: seq<nat>, n: nat)
    requires IsRun(run, actors) && n < |run|
    ensures run[n].sems == [Sum(run[n].procs, ReaderIn), Sum(run[n].procs, WriterIn), 1, 0]
    ensures Sum(run[n].procs, WriterIn) + (if Sum(run[n].procs, ReaderIn) > 0 then 1 else 0) <= 1
  {
    RunKeepsInv(run, actors, n);
  }

  // ---------- waiting gives no priority ----------

  // One writer and two readers; reader x is inside, the writer and the other reader are outside.
  ghost predicate OneReaderIn(s: State, x: nat) {
    && s.sems == [1, 0, 1, 0] && |s.procs| == 3 && 1 <= x <= 2
    && s.procs[0] == Process(Writer, Outside)
    && s.procs[x] == Process(Reader, Entered)
    && s.procs[3 - x] == Process(Reader, Outside)
  }

  ghost predicate WriterSleeps(s: State) {
    |s.sems| == 4 && |s.procs| == 3 && s.procs[0].role == Writer && Advance(s, 0).None?
  }

  lemma ReadersBlockWriter(s: State)
    requires |s.sems| == 4 && s.sems[ACTIVE_READERS] > 0 && |s.procs| == 3 && s.procs[0] == Process(Writer, Outside)
    ensures WriterSleeps(s)
  {
    StartCall(s.sems, START_WRITE, WAIT_WRITERS, ACTIVE_READERS, ACTIVE_WRITERS, ACTIVE_WRITERS);
  }

  // The other reader enters before reader x leaves.
  lemma Relay(s: State, x: nat) returns (s1: State, s2: State, s3: State)
    requires OneReaderIn(s, x)
    ensures StepOf(s, 3 - x, s1) && StepOf(s1, x, s2) && StepOf(s2, x, s3)
    ensures OneReaderIn(s3, 3 - x)
    ensures WriterSleeps(s1) && WriterSleeps(s2) && WriterSleeps(s3)
  {
    var y := 3 - x;
    StartCall(s.sems, START_READ, WAIT_READERS, ACTIVE_WRITERS, WAIT_WRITERS, ACTIVE_READERS);
    hide Semop;
    s1 := Move(s, y, Entered).(sems := [2, 0, 1, 0]);
    assert s.sems[ACTIVE_READERS := 2] == s1.sems;
    assert Advance(s, y) == Some(s1);
    s2 := Move(s1, x, Leaving).(read := s1.read + [s1.shm]);
    assert Advance(s1, x) == Some(s2);
    StopCall(s2.sems, ACTIVE_READERS);
    s3 := Move(s2, x, Outside).(sems := [1, 0, 1, 0]);
    assert s2.sems[ACTIVE_READERS := 1] == s3.sems;
    assert Advance(s2, x) == Some(s3);
    ReadersBlockWriter(s1);
    ReadersBlockWriter(s2);
    ReadersBlockWriter(s3);
  }

  /** Two readers that overlap keep a writer asleep for as long as one likes: a waiting writer holds no reader back. */
  lemma {:induction false} WriterMayStarve(rounds: nat) returns (run: seq<State>, actors: seq<nat>, x: nat)
    ensures IsRun(run, actors) && |run| == 3 * rounds + 2
    ensures forall k {:trigger run[k]} :: 0 < k < |run| ==> WriterSleeps(run[k])
    ensures OneReaderIn(run[|run| - 1], x)
    decreases rounds
  {
    if rounds == 0 {
      var procs := [Process(Writer, Outside), Process(Reader, Outside), Process(Reader, Outside)];
      var s0 := State([0, 0, 1, 0], 0, procs, [], []);
      StartCall(s0.sems, START_READ, WAIT_READERS, ACTIVE_WRITERS, WAIT_WRITERS, ACTIVE_READERS);
      hide Semop;
      var s1 := Move(s0, 1, Entered).(sems := [1, 0, 1, 0]);
      assert s0.sems[ACTIVE_READERS := 1] == s1.sems;
      assert Advance(s0, 1) == Some(s1);
      ReadersBlockWriter(s1);
      run, actors, x := [s0, s1], [1], 1;
    } else {
      run, actors, x := WriterMayStarve(rounds - 1);
      hide IsRun, StepOf, WriterSleeps, OneReaderIn;
      var s1, s2, s3 := Relay(run[|run| - 1], x);
      ExtendRun(run, actors, 3 - x, s1);
      ExtendRun(run + [s1], actors + [3 - x], x, s2);
      ExtendRun(run + [s1] + [s2], actors + [3 - x] + [x], x, s3);
      run, actors, x := run + [s1] + [s2] + [s3], actors + [3 - x] + [x] + [x], 3 - x;
    }
  }
}
