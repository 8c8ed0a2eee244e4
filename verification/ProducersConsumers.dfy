/** Producers and consumers sharing a buffer that is filled once, guarded by a set of three semaphores. Any number of
    processes, each with its own number of items; each step is one atomic action of one process. */
module ProducersConsumers {
  import opened Options
  import opened Semaphores

  const SEM_BIN: nat := 0
  const SEM_E: nat := 1
  const SEM_F: nat := 2
  const EMPTY_NUM: nat := 20

  const PROD_START: seq<SemBuf> := [SemBuf(SEM_E, -1), SemBuf(SEM_BIN, -1)]
  const PROD_END: seq<SemBuf> := [SemBuf(SEM_BIN, 1), SemBuf(SEM_F, 1)]
  const READ_START: seq<SemBuf> := [SemBuf(SEM_F, -1), SemBuf(SEM_BIN, -1)]
  const READ_END: seq<SemBuf> := [SemBuf(SEM_BIN, 1), SemBuf(SEM_E, 1)]

  datatype Role = Producer | Consumer

  // Where a process is. Loaded keeps the index read from shared memory, Bumping the index about to be incremented.
  datatype Place = Outside | Entered | Loaded(pos: nat) | Stored(pos: nat) | Printed | Bumping(pos: nat) | Leaving

  // left: the items still to be handled, the one in hand included.
  datatype Process = Process(role: Role, left: nat, place: Place)

  // written and read are what the producers and the consumers have printed, in order.
  // overrun: data was indexed at or beyond EMPTY_NUM; nothing is said of what follows.
  datatype State = State(sems: seq<nat>, rpos: nat, wpos: nat, data: seq<char>, procs: seq<Process>,
                         written: seq<char>, read: seq<char>, overrun: bool)

  function Letter(k: nat): char
    requires k < EMPTY_NUM
  {
    'a' + k as char
  }

  function StartState(procs: seq<Process>): State {
    State([1, EMPTY_NUM, 0], 0, 0, seq(EMPTY_NUM, _ => 0 as char), procs, [], [], false)
  }

  // The processes as forked: nobody has entered yet.
  ghost predicate Fresh(procs: seq<Process>) {
    forall i {:trigger procs[i]} :: 0 <= i < |procs| ==> procs[i].place == Outside
  }

  function Move(s: State, i: nat, place: Place): State
    requires i < |s.procs|
  {
    s.(procs := s.procs[i := s.procs[i].(place := place)])
  }

  // The semop() on entering, and the one on leaving, which ends an item.
  function Enter(s: State, i: nat, ops: seq<SemBuf>): Option<State>
    requires i < |s.procs| && Fit(ops, |s.sems|)
  {
    if s.procs[i].left == 0 then None
    else
      match Semop(s.sems, ops)
      case None => None
      case Some(sems) => Some(Move(s, i, Entered).(sems := sems))
  }

  function Leave(s: State, i: nat, ops: seq<SemBuf>): Option<State>
    requires i < |s.procs| && Fit(ops, |s.sems|)
  {
    match Semop(s.sems, ops)
    case None => None
    case Some(sems) =>
      var p := s.procs[i];
      Some(s.(sems := sems, procs := s.procs[i := p.(place := Outside, left := if p.left == 0 then 0 else p.left - 1)]))
  }

  // The next atomic action of process i; None when it sleeps in semop(), has finished, or the buffer was overrun.
  function Advance(s: State, i: nat): Option<State>
    requires |s.sems| == 3 && |s.data| == EMPTY_NUM && i < |s.procs|
  {
    if s.overrun then None
    else if s.procs[i].role == Producer then Produce(s, i)
    else Consume(s, i)
  }

  function Produce(s: State, i: nat): Option<State>
    requires |s.sems| == 3 && |s.data| == EMPTY_NUM && i < |s.procs|
  {
    match s.procs[i].place
    case Outside => Enter(s, i, PROD_START)
    case Entered => Some(Move(s, i, Loaded(s.wpos)))
    case Loaded(pos) =>
      if pos < EMPTY_NUM then Some(Move(s, i, Stored(pos)).(data := s.data[pos := Letter(pos)]))
      else Some(s.(overrun := true))
    case Stored(pos) =>
      if pos < EMPTY_NUM then Some(Move(s, i, Printed).(written := s.written + [s.data[pos]]))
      else Some(s.(overrun := true))
    case Printed => Some(Move(s, i, Bumping(s.wpos)))
    case Bumping(pos) => Some(Move(s, i, Leaving).(wpos := pos + 1))
    case Leaving => Leave(s, i, PROD_END)
  }

  function Consume(s: State, i: nat): Option<State>
    requires |s.sems| == 3 && |s.data| == EMPTY_NUM && i < |s.procs|
  {
    match s.procs[i].place
    case Outside => Enter(s, i, READ_START)
    case Entered => Some(Move(s, i, Loaded(s.rpos)))
    case Bumping(pos) => Some(Move(s, i, Leaving).(rpos := pos + 1))
    case Leaving => Leave(s, i, READ_END)
    case Printed => Some(Move(s, i, Bumping(s.rpos)))
    case _ =>
      var pos := s.procs[i].place.pos;
      if pos < EMPTY_NUM then Some(Move(s, i, Printed).(read := s.read + [s.data[pos]]))
      else Some(s.(overrun := true))
  }

  // ---------- what the processes add up to ----------

  function One(b: bool): nat {
    if b then 1 else 0
  }

  function ProducerIn(p: Process): nat { One(p.role == Producer && p.place != Outside) }
  function ConsumerIn(p: Process): nat { One(p.role == Consumer && p.place != Outside) }
  function Past(place: Place): bool { place.Printed? || place.Bumping? || place.Leaving? }
  function Wrote(p: Process): nat { One(p.role == Producer && Past(p.place)) }
  function Read(p: Process): nat { One(p.role == Consumer && Past(p.place)) }
  function WposMoved(p: Process): nat { One(p.role == Producer && p.place.Leaving?) }
  function RposMoved(p: Process): nat { One(p.role == Consumer && p.place.Leaving?) }
  function ToProduce(p: Process): nat { if p.role == Producer then p.left else 0 }
  function ToConsume(p: Process): nat { if p.role == Consumer then p.left else 0 }

  // The insiders, by how far they have got.
  datatype Tally = Tally(producers: nat, consumers: nat, wrote: nat, read: nat, wpos: nat, rpos: nat)

  ghost function Insiders(procs: seq<Process>): Tally {
    Tally(Sum(procs, ProducerIn), Sum(procs, ConsumerIn), Sum(procs, Wrote), Sum(procs, Read),
          Sum(procs, WposMoved), Sum(procs, RposMoved))
  }

  ghost function TallyOf(p: Process): Tally {
    Tally(ProducerIn(p), ConsumerIn(p), Wrote(p), Read(p), WposMoved(p), RposMoved(p))
  }

  ghost predicate PlaceOk(s: State, p: Process) {
    && (p.place != Outside ==> p.left > 0)
    && match p.role
       case Producer =>
         (match p.place
          case Loaded(pos) => pos == s.wpos
          case Stored(pos) => pos == s.wpos < EMPTY_NUM && |s.data| == EMPTY_NUM && s.data[pos] == Letter(pos)
          case Printed => s.wpos < EMPTY_NUM
          case Bumping(pos) => pos == s.wpos < EMPTY_NUM
          case _ => true)
       case Consumer =>
         (match p.place
          case Loaded(pos) => pos == s.rpos
          case Bumping(pos) => pos == s.rpos
          case Stored(_) => false
          case _ => true)
  }

  // Items whose last semop() is done.
  ghost function Produced(s: State): int {
    |s.written| - Insiders(s.procs).wrote
  }

  ghost function Consumed(s: State): int {
    |s.read| - Insiders(s.procs).read
  }

  /** The conservation law: the binary semaphore and the insiders make one; empty places, full places and insiders
      make the whole buffer. Full places are what has been produced and is not yet taken. */
  ghost predicate Conserved(s: State)
    requires |s.sems| == 3
  {
    var t := Insiders(s.procs);
    && s.sems[SEM_BIN] + t.producers + t.consumers == 1
    && s.sems[SEM_E] + s.sems[SEM_F] + t.producers + t.consumers == EMPTY_NUM
    && s.sems[SEM_F] + t.consumers == Produced(s) - Consumed(s)
  }

  ghost predicate ContentsOk(s: State) {
    && |s.data| == EMPTY_NUM && |s.written| <= EMPTY_NUM && |s.read| <= |s.written|
    && (forall k {:trigger s.data[k]} {:trigger s.written[k]} :: 0 <= k < |s.written| ==>
          s.written[k] == s.data[k] == Letter(k))
    && (forall k {:trigger s.read[k]} :: 0 <= k < |s.read| ==> s.read[k] == Letter(k))
  }

  // produce and consume are the totals the run started with.
  ghost predicate Inv(s: State, produce: nat, consume: nat) {
    && |s.sems| == 3 && Conserved(s) && ContentsOk(s)
    && Produced(s) >= 0 && Consumed(s) >= 0
    && s.wpos == Produced(s) + Insiders(s.procs).wpos
    && s.rpos == Consumed(s) + Insiders(s.procs).rpos
    && Produced(s) + Sum(s.procs, ToProduce) == produce
    && Consumed(s) + Sum(s.procs, ToConsume) == consume
    && (forall i {:trigger s.procs[i]} :: 0 <= i < |s.procs| ==> PlaceOk(s, s.procs[i]))
    && (s.overrun ==> exists i {:trigger s.procs[i]} ::
          0 <= i < |s.procs| && s.procs[i].role == Producer && s.procs[i].place == Loaded(EMPTY_NUM))
  }

  lemma {:induction false} InsidersOne(procs: seq<Process>, i: nat)
    requires i < |procs|
    requires forall j {:trigger procs[j]} :: 0 <= j < |procs| && j != i ==> procs[j].place == Outside
    ensures Insiders(procs) == TallyOf(procs[i])
  {
    SumAlone(procs, i, ProducerIn);
    SumAlone(procs, i, ConsumerIn);
    SumAlone(procs, i, Wrote);
    SumAlone(procs, i, Read);
    SumAlone(procs, i, WposMoved);
    SumAlone(procs, i, RposMoved);
  }

  /** At most one process is in the buffer. */
  lemma MutualExclusion(s: State, i: nat, j: nat)
    requires |s.sems| == 3 && Conserved(s) && i < j < |s.procs|
    ensures s.procs[i].place == Outside || s.procs[j].place == Outside
  {
    SumPair(s.procs, i, j, ProducerIn);
    SumPair(s.procs, i, j, ConsumerIn);
    SumUpdate(s.procs, i, s.procs[i], ProducerIn);
    SumUpdate(s.procs, j, s.procs[j], ProducerIn);
    SumUpdate(s.procs, i, s.procs[i], ConsumerIn);
    SumUpdate(s.procs, j, s.procs[j], ConsumerIn);
    hide Sum;
  }

  // ---------- the four semaphore calls ----------

  lemma TwoOperations(sems: seq<nat>, first: SemBuf, second: SemBuf)
    requires first.num < |sems| && second.num < |sems| && first.num != second.num
    ensures Semop(sems, [first, second]) ==
              if Passes(sems[first.num], first.op) && Passes(sems[second.num], second.op)
              then Some(sems[first.num := sems[first.num] + first.op][second.num := sems[second.num] + second.op])
              else None
  {
    assert [first, second][1..] == [second] && [second][1..] == [];
    if Passes(sems[first.num], first.op) {
      var mid := sems[first.num := sems[first.num] + first.op];
      assert Semop(mid, [second]) ==
             if Passes(mid[second.num], second.op) then Semop(mid[second.num := mid[second.num] + second.op], [])
             else None;
    }
  }

  lemma TakeTwo(sems: seq<nat>, a: nat, b: nat)
    requires a < |sems| && b < |sems| && a != b
    ensures Semop(sems, [SemBuf(a, -1), SemBuf(b, -1)]) ==
              if sems[a] > 0 && sems[b] > 0 then Some(sems[a := sems[a] - 1][b := sems[b] - 1]) else None
  {
    hide Semop;
    TwoOperations(sems, SemBuf(a, -1), SemBuf(b, -1));
  }

  lemma GiveTwo(sems: seq<nat>, a: nat, b: nat)
    requires a < |sems| && b < |sems| && a != b
    ensures Semop(sems, [SemBuf(a, 1), SemBuf(b, 1)]) == Some(sems[a := sems[a] + 1][b := sems[b] + 1])
  {
    hide Semop;
    TwoOperations(sems, SemBuf(a, 1), SemBuf(b, 1));
  }

  // ---------- every step ----------

  lemma OthersOutside(s: State, i: nat)
    requires |s.sems| == 3 && Conserved(s) && i < |s.procs| && s.procs[i].place != Outside
    ensures forall j {:trigger s.procs[j]} :: 0 <= j < |s.procs| && j != i ==> s.procs[j].place == Outside
    ensures Insiders(s.procs) == TallyOf(s.procs[i])
  {
    forall j | 0 <= j < |s.procs| && j != i
      ensures s.procs[j].place == Outside
    {
      MutualExclusion(s, if i < j then i else j, if i < j then j else i);
    }
    InsidersOne(s.procs, i);
  }

  lemma AllOutside(s: State)
    requires |s.sems| == 3 && Conserved(s) && s.sems[SEM_BIN] > 0
    ensures forall j {:trigger s.procs[j]} :: 0 <= j < |s.procs| ==> s.procs[j].place == Outside
    ensures Insiders(s.procs) == Tally(0, 0, 0, 0, 0, 0)
  {
    forall j | 0 <= j < |s.procs|
      ensures s.procs[j].place == Outside
    {
      SumUpdate(s.procs, j, s.procs[j], ProducerIn);
      SumUpdate(s.procs, j, s.procs[j], ConsumerIn);
    }
    SumZero(s.procs, Wrote);
    SumZero(s.procs, Read);
    SumZero(s.procs, WposMoved);
    SumZero(s.procs, RposMoved);
  }

  // What changing process i does to the totals when every other process is outside.
  lemma Replace(s: State, i: nat, q: Process)
    requires i < |s.procs|
    requires forall j {:trigger s.procs[j]} :: 0 <= j < |s.procs| && j != i ==> s.procs[j].place == Outside
    ensures Insiders(s.procs[i := q]) == TallyOf(q)
    ensures Sum(s.procs[i := q], ToProduce) == Sum(s.procs, ToProduce) - ToProduce(s.procs[i]) + ToProduce(q)
    ensures Sum(s.procs[i := q], ToConsume) == Sum(s.procs, ToConsume) - ToConsume(s.procs[i]) + ToConsume(q)
    ensures ToProduce(s.procs[i]) <= Sum(s.procs, ToProduce) && ToConsume(s.procs[i]) <= Sum(s.procs, ToConsume)
  {
    InsidersOne(s.procs[i := q], i);
    SumUpdate(s.procs, i, q, ToProduce);
    SumUpdate(s.procs, i, q, ToConsume);
  }

  // A step of the process inside that makes no call: what it must establish about its own part of the state.
  lemma InsideKeeps(s: State, i: nat, s': State, q: Process, produce: nat, consume: nat)
    requires Inv(s, produce, consume) && i < |s.procs| && s.procs[i].place != Outside
    requires q.role == s.procs[i].role && q.left == s.procs[i].left && q.place != Outside
    requires s'.procs == s.procs[i := q] && s'.sems == s.sems && !s'.overrun
    requires |s'.written| - Wrote(q) == |s.written| - Wrote(s.procs[i])
    requires |s'.read| - Read(q) == |s.read| - Read(s.procs[i])
    requires s'.wpos - WposMoved(q) == s.wpos - WposMoved(s.procs[i])
    requires s'.rpos - RposMoved(q) == s.rpos - RposMoved(s.procs[i])
    requires ContentsOk(s') && PlaceOk(s', q)
    ensures Inv(s', produce, consume)
  {
    OthersOutside(s, i);
    Replace(s, i, q);
    hide Sum, Insiders, ContentsOk;
    forall j | 0 <= j < |s'.procs|
      ensures PlaceOk(s', s'.procs[j])
    {
    }
  }

  // The numbers a process inside can rely on.
  lemma NumbersInside(s: State, i: nat, produce: nat, consume: nat)
    requires Inv(s, produce, consume) && i < |s.procs| && s.procs[i].place != Outside
    ensures var p := s.procs[i];
            && s.wpos == |s.written| - Wrote(p) + WposMoved(p)
            && s.rpos == |s.read| - Read(p) + RposMoved(p)
            && s.sems[SEM_F] + ConsumerIn(p) == |s.written| - Wrote(p) - |s.read| + Read(p)
            && PlaceOk(s, p) && ContentsOk(s)
  {
    OthersOutside(s, i);
    hide Sum, Insiders;
  }

  lemma ProducerInside(s: State, i: nat, produce: nat, consume: nat)
    requires Inv(s, produce, consume) && !s.overrun && i < |s.procs| && s.procs[i].role == Producer
    requires s.procs[i].place != Outside && s.procs[i].place != Leaving
    ensures Inv(Produce(s, i).value, produce, consume)
  {
    NumbersInside(s, i, produce, consume);
    var s' := Produce(s, i).value;
    if s'.overrun {
      OverrunKeeps(s, i, produce, consume);
    } else {
      hide Inv;
      InsideKeeps(s, i, s', s'.procs[i], produce, consume);
    }
  }

  lemma OverrunKeeps(s: State, i: nat, produce: nat, consume: nat)
    requires Inv(s, produce, consume) && i < |s.procs|
    requires s.procs[i].role == Producer && s.procs[i].place == Loaded(EMPTY_NUM)
    ensures Inv(s.(overrun := true), produce, consume)
  {
    hide Sum;
    forall j | 0 <= j < |s.procs|
      ensures PlaceOk(s.(overrun := true), s.procs[j])
    {
      assert PlaceOk(s, s.procs[j]);
    }
  }

  lemma ConsumerInside(s: State, i: nat, produce: nat, consume: nat)
    requires Inv(s, produce, consume) && !s.overrun && i < |s.procs| && s.procs[i].role == Consumer
    requires s.procs[i].place != Outside && s.procs[i].place != Leaving
    ensures Inv(Consume(s, i).value, produce, consume) && !Consume(s, i).value.overrun
  {
    NumbersInside(s, i, produce, consume);
    var s' := Consume(s, i).value;
    hide Inv;
    InsideKeeps(s, i, s', s'.procs[i], produce, consume);
  }

  lemma SameContents(s: State, s': State)
    requires ContentsOk(s) && s'.data == s.data && s'.written == s.written && s'.read == s.read
    ensures ContentsOk(s')
  {
  }

  lemma EnterKeeps(s: State, i: nat, taken: nat, produce: nat, consume: nat)
    requires Inv(s, produce, consume) && !s.overrun && i < |s.procs| && s.procs[i].place == Outside
    requires taken == if s.procs[i].role == Producer then SEM_E else SEM_F
    requires Enter(s, i, [SemBuf(taken, -1), SemBuf(SEM_BIN, -1)]).Some?
    ensures Inv(Enter(s, i, [SemBuf(taken, -1), SemBuf(SEM_BIN, -1)]).value, produce, consume)
  {
    TakeTwo(s.sems, taken, SEM_BIN);
    AllOutside(s);
    Replace(s, i, s.procs[i].(place := Entered));
    SameContents(s, Enter(s, i, [SemBuf(taken, -1), SemBuf(SEM_BIN, -1)]).value);
    hide Sum, Insiders, Semop, ContentsOk;
  }

  lemma LeaveKeeps(s: State, i: nat, given: nat, produce: nat, consume: nat)
    requires Inv(s, produce, consume) && !s.overrun && i < |s.procs| && s.procs[i].place == Leaving
    requires given == if s.procs[i].role == Producer then SEM_F else SEM_E
    ensures Leave(s, i, [SemBuf(SEM_BIN, 1), SemBuf(given, 1)]).Some?
    ensures Inv(Leave(s, i, [SemBuf(SEM_BIN, 1), SemBuf(given, 1)]).value, produce, consume)
  {
    hide Inv, Semop;
    InvShape(s, produce, consume);
    GiveTwo(s.sems, SEM_BIN, given);
    OutKeeps(s, i, given, produce, consume);
  }

  lemma OutKeeps(s: State, i: nat, given: nat, produce: nat, consume: nat)
    requires Inv(s, produce, consume) && !s.overrun && i < |s.procs| && s.procs[i].place == Leaving
    requires given == if s.procs[i].role == Producer then SEM_F else SEM_E
    ensures |s.sems| == 3 && s.procs[i].left > 0
    ensures Inv(s.(sems := s.sems[SEM_BIN := s.sems[SEM_BIN] + 1][given := s.sems[given] + 1],
                   procs := s.procs[i := s.procs[i].(place := Outside, left := s.procs[i].left - 1)]), produce, consume)
  {
    assert PlaceOk(s, s.procs[i]);
    OthersOutside(s, i);
    Replace(s, i, s.procs[i].(place := Outside, left := s.procs[i].left - 1));
    SameContents(s, s.(sems := s.sems[SEM_BIN := s.sems[SEM_BIN] + 1][given := s.sems[given] + 1],
                   procs := s.procs[i := s.procs[i].(place := Outside, left := s.procs[i].left - 1)]));
    hide Sum, Insiders, ContentsOk;
  }

  /** Every atomic action of every process keeps the invariant; only a producer can overrun the buffer. */
  lemma StepKeepsInv(s: State, i: nat, produce: nat, consume: nat)
    requires Inv(s, produce, consume) && i < |s.procs| && Advance(s, i).Some?
    ensures Inv(Advance(s, i).value, produce, consume)
  {
    hide Inv, Enter, Leave;
    InvShape(s, produce, consume);
    var producer := s.procs[i].role == Producer;
    match s.procs[i].place {
      case Outside => EnterKeeps(s, i, if producer then SEM_E else SEM_F, produce, consume);
      case Leaving => LeaveKeeps(s, i, if producer then SEM_F else SEM_E, produce, consume);
      case _ =>
        if producer {
          ProducerInside(s, i, produce, consume);
        } else {
          ConsumerInside(s, i, produce, consume);
        }
    }
  }

  lemma InvShape(s: State, produce: nat, consume: nat)
    requires Inv(s, produce, consume)
    ensures |s.sems| == 3 && |s.data| == EMPTY_NUM
  {
  }

  // ---------- whole runs ----------

  // actors[k] is the process that acts in step k.
  ghost predicate IsRun(run: seq<State>, actors: seq<nat>) {
    && |run| == |actors| + 1
    && Fresh(run[0].procs) && run[0] == StartState(run[0].procs)
    && forall k {:trigger actors[k]} :: 0 <= k < |actors| ==> StepOf(run[k], actors[k], run[k + 1])
  }

  ghost predicate StepOf(s: State, i: nat, s': State) {
    |s.sems| == 3 && |s.data| == EMPTY_NUM && i < |s.procs| && Advance(s, i) == Some(s')
  }

  lemma StartOk(procs: seq<Process>)
    requires Fresh(procs)
    ensures Inv(StartState(procs), Sum(procs, ToProduce), Sum(procs, ToConsume))
  {
    SumZero(procs, ProducerIn);
    SumZero(procs, ConsumerIn);
    SumZero(procs, Wrote);
    SumZero(procs, Read);
    SumZero(procs, WposMoved);
    SumZero(procs, RposMoved);
    hide Sum;
  }

  /** Every state of every run satisfies the invariant. */
  lemma {:induction false} RunKeepsInv(run: seq<State>, actors: seq<nat>, n: nat)
    requires IsRun(run, actors) && n < |run|
    ensures Inv(run[n], Sum(run[0].procs, ToProduce), Sum(run[0].procs, ToConsume))
    decreases n
  {
    if n == 0 {
      StartOk(run[0].procs);
    } else {
      RunKeepsInv(run, actors, n - 1);
      assert StepOf(run[n - 1], actors[n - 1], run[n]);
      hide Inv, Advance;
      StepKeepsInv(run[n - 1], actors[n - 1], Sum(run[0].procs, ToProduce), Sum(run[0].procs, ToConsume));
    }
  }

  /** In every state of every run at most one process is in the buffer, the binary semaphore is free exactly when none
      is, and empty places, full places and the process inside add up to the whole buffer; the full places are the
      items produced and not yet taken. */
  lemma {:induction false} RunsConserve(run: seq<State>, actors: seq<nat>, n: nat)
    requires IsRun(run, actors) && n < |run|
    ensures |run[n].sems| == 3
    ensures forall i, j :: 0 <= i < j < |run[n].procs| ==>
              run[n].procs[i].place == Outside || run[n].procs[j].place == Outside
    ensures var s, inside := run[n], Sum(run[n].procs, ProducerIn) + Sum(run[n].procs, ConsumerIn);
            && s.sems[SEM_BIN] + inside == 1
            && s.sems[SEM_E] + s.sems[SEM_F] + inside == 20
            && s.sems[SEM_F] + Sum(s.procs, ConsumerIn) == Produced(s) - Consumed(s)
  {
    RunKeepsInv(run, actors, n);
    hide Sum, ContentsOk, PlaceOk;
    forall i, j | 0 <= i < j < |run[n].procs|
      ensures run[n].procs[i].place == Outside || run[n].procs[j].place == Outside
    {
      MutualExclusion(run[n], i, j);
    }
  }

  /** The k-th character read is the k-th character written, 'a' + k; no character is read twice or before it is
      written. */
  lemma {:induction false} ReadsFollowWrites(run: seq<State>, actors: seq<nat>, n: nat)
    requires IsRun(run, actors) && n < |run|
    ensures |run[n].read| <= |run[n].written| <= EMPTY_NUM
    ensures run[n].read == run[n].written[..|run[n].read|]
    ensures forall k :: 0 <= k < |run[n].written| ==> run[n].written[k] as int == 'a' as int + k
  {
    RunKeepsInv(run, actors, n);
    hide Sum;
  }

  // ---------- every run ends ----------

  function Progress(place: Place): nat {
    match place
    case Outside => 0
    case Entered => 1
    case Loaded(_) => 2
    case Stored(_) => 3
    case Printed => 4
    case Bumping(_) => 5
    case Leaving => 6
  }

  // The atomic actions a process has still to do.
  function Work(p: Process): nat {
    if p.left == 0 then 0 else 7 * p.left - Progress(p.place)
  }

  ghost function WorkLeft(s: State): nat {
    Sum(s.procs, Work) + (if s.overrun then 0 else 1)
  }

  // A step overruns the buffer or brings the process that makes it closer to its end.
  lemma ProducerWorks(s: State, i: nat)
    requires |s.sems| == 3 && |s.data| == EMPTY_NUM && i < |s.procs| && PlaceOk(s, s.procs[i]) && !s.overrun
    requires s.procs[i].role == Producer && Produce(s, i).Some?
    ensures var s' := Produce(s, i).value;
            if s'.overrun then s'.procs == s.procs
            else
              && |s'.procs| == |s.procs| && s'.procs == s.procs[i := s'.procs[i]]
              && Work(s'.procs[i]) < Work(s.procs[i])
  {
    hide Semop, Letter;
  }

  lemma ConsumerWorks(s: State, i: nat)
    requires |s.sems| == 3 && |s.data| == EMPTY_NUM && i < |s.procs| && PlaceOk(s, s.procs[i]) && !s.overrun
    requires s.procs[i].role == Consumer && Consume(s, i).Some?
    ensures var s' := Consume(s, i).value;
            if s'.overrun then s'.procs == s.procs
            else
              && |s'.procs| == |s.procs| && s'.procs == s.procs[i := s'.procs[i]]
              && Work(s'.procs[i]) < Work(s.procs[i])
  {
    hide Semop;
  }

  lemma StepDoesWork(s: State, i: nat, produce: nat, consume: nat)
    requires Inv(s, produce, consume) && i < |s.procs| && Advance(s, i).Some?
    ensures WorkLeft(Advance(s, i).value) < WorkLeft(s)
  {
    assert PlaceOk(s, s.procs[i]);
    InvShape(s, produce, consume);
    hide Inv, Produce, Consume, PlaceOk, Sum, Work;
    if s.procs[i].role == Producer {
      ProducerWorks(s, i);
    } else {
      ConsumerWorks(s, i);
    }
    SumUpdate(s.procs, i, Advance(s, i).value.procs[i], Work);
  }

  /** No run is longer than the work there was at the start. */
  lemma {:induction false} RunsAreFinite(run: seq<State>, actors: seq<nat>, n: nat)
    requires IsRun(run, actors) && n < |run|
    ensures n + WorkLeft(run[n]) <= WorkLeft(run[0])
    decreases n
  {
    if n > 0 {
      RunsAreFinite(run, actors, n - 1);
      RunKeepsInv(run, actors, n - 1);
      assert StepOf(run[n - 1], actors[n - 1], run[n]);
      hide Inv, Advance, WorkLeft;
      StepDoesWork(run[n - 1], actors[n - 1], Sum(run[0].procs, ToProduce), Sum(run[0].procs, ToConsume));
    }
  }

  // ---------- how a run ends ----------

  // Nobody can act any more.
  ghost predicate Stuck(s: State)
    requires |s.sems| == 3 && |s.data| == EMPTY_NUM
  {
    forall i {:trigger s.procs[i]} :: 0 <= i < |s.procs| ==> Advance(s, i).None?
  }

  ghost predicate Finished(s: State) {
    && !s.overrun
    && forall i {:trigger s.procs[i]} :: 0 <= i < |s.procs| ==> s.procs[i].left == 0 && s.procs[i].place == Outside
  }

  lemma OverrunMeans(s: State, produce: nat, consume: nat)
    requires Inv(s, produce, consume) && s.overrun
    ensures produce > EMPTY_NUM && consume > 0
  {
    var i :| 0 <= i < |s.procs| && s.procs[i].role == Producer && s.procs[i].place == Loaded(EMPTY_NUM);
    assert PlaceOk(s, s.procs[i]);
    NumbersInside(s, i, produce, consume);
    OthersOutside(s, i);
    Replace(s, i, s.procs[i]);
    hide Sum, Insiders;
  }

  // A process inside can always act.
  lemma StuckOutside(s: State, produce: nat, consume: nat)
    requires Inv(s, produce, consume) && !s.overrun && |s.data| == EMPTY_NUM && Stuck(s)
    ensures s.sems[SEM_BIN] > 0
  {
    if s.sems[SEM_BIN] == 0 {
      var i: nat;
      if Insiders(s.procs).producers > 0 {
        i := SumPositive(s.procs, ProducerIn);
      } else {
        i := SumPositive(s.procs, ConsumerIn);
      }
      GiveTwo(s.sems, SEM_BIN, SEM_F);
      GiveTwo(s.sems, SEM_BIN, SEM_E);
    }
  }

  // Producers with items left wait for an empty place, consumers for a full one.
  lemma StuckWaits(s: State, produce: nat, consume: nat)
    requires Inv(s, produce, consume) && !s.overrun && |s.data| == EMPTY_NUM && Stuck(s)
    ensures Sum(s.procs, ToProduce) > 0 ==> s.sems[SEM_E] == 0
    ensures Sum(s.procs, ToConsume) > 0 ==> s.sems[SEM_F] == 0
  {
    StuckOutside(s, produce, consume);
    AllOutside(s);
    TakeTwo(s.sems, SEM_E, SEM_BIN);
    TakeTwo(s.sems, SEM_F, SEM_BIN);
    if Sum(s.procs, ToProduce) > 0 {
      var i := SumPositive(s.procs, ToProduce);
      assert Advance(s, i).None?;
    }
    if Sum(s.procs, ToConsume) > 0 {
      var i := SumPositive(s.procs, ToConsume);
      assert Advance(s, i).None?;
    }
  }

  lemma FinishedMeans(s: State, produce: nat, consume: nat)
    requires Inv(s, produce, consume) && !s.overrun && s.sems[SEM_BIN] > 0
    ensures Finished(s) <==> Sum(s.procs, ToProduce) == 0 && Sum(s.procs, ToConsume) == 0
  {
    AllOutside(s);
    if Sum(s.procs, ToProduce) == 0 && Sum(s.procs, ToConsume) == 0 {
      forall i | 0 <= i < |s.procs|
        ensures s.procs[i].left == 0
      {
        SumUpdate(s.procs, i, s.procs[i], ToProduce);
        SumUpdate(s.procs, i, s.procs[i], ToConsume);
      }
    }
    if Finished(s) {
      SumZero(s.procs, ToProduce);
      SumZero(s.procs, ToConsume);
    }
  }

  /** How every maximal run ends: all processes finish exactly when no more is produced than the buffer holds and no
      more is consumed than is produced, and every item has then been written and every one asked for read; the buffer
      is overrun exactly when more is produced than it holds and anything at all is consumed. */
  lemma {:induction false} HowRunsEnd(run: seq<State>, actors: seq<nat>)
    requires IsRun(run, actors)
    ensures var s := run[|run| - 1];
            var produce, consume := Sum(run[0].procs, ToProduce), Sum(run[0].procs, ToConsume);
            && |s.sems| == 3 && |s.data| == EMPTY_NUM
            && (Stuck(s) ==>
                  && (Finished(s) <==> produce <= 20 && consume <= produce)
                  && (Finished(s) ==> |s.written| == produce && |s.read| == consume)
                  && (s.overrun <==> produce > 20 && consume > 0))
  {
    RunKeepsInv(run, actors, |run| - 1);
    var s := run[|run| - 1];
    var produce, consume := Sum(run[0].procs, ToProduce), Sum(run[0].procs, ToConsume);
    InvShape(s, produce, consume);
    if Stuck(s) { EndOf(s, produce, consume); }
  }

  lemma EndOf(s: State, produce: nat, consume: nat)
    requires Inv(s, produce, consume) && |s.data| == EMPTY_NUM && Stuck(s)
    ensures Finished(s) <==> produce <= EMPTY_NUM && consume <= produce
    ensures Finished(s) ==> |s.written| == produce && |s.read| == consume
    ensures s.overrun <==> produce > EMPTY_NUM && consume > 0
  {
    if s.overrun {
      OverrunMeans(s, produce, consume);
    } else {
      StuckOutside(s, produce, consume);
      StuckWaits(s, produce, consume);
      FinishedMeans(s, produce, consume);
      AllOutside(s);
      hide Sum, Insiders, Stuck, Finished;
    }
  }

  lemma {:induction false} ExtendRun(run: seq<State>, actors: seq<nat>, i: nat, s: State)
    requires IsRun(run, actors) && StepOf(run[|run| - 1], i, s)
    ensures IsRun(run + [s], actors + [i])
  {
    var longer, order := run + [s], actors + [i];
    forall k | 0 <= k < |order|
      ensures StepOf(longer[k], order[k], longer[k + 1])
    {
      if k < |actors| { assert StepOf(run[k], actors[k], run[k + 1]); }
    }
  }

  /** Every run can be carried on until nobody can act any more. */
  lemma {:induction false} RunsReachAnEnd(run: seq<State>, actors: seq<nat>)
    returns (longer: seq<State>, order: seq<nat>)
    requires IsRun(run, actors)
    ensures IsRun(longer, order) && run <= longer && actors <= order
    ensures var s := longer[|longer| - 1]; |s.sems| == 3 && |s.data| == EMPTY_NUM && Stuck(s)
    decreases WorkLeft(run[|run| - 1])
  {
    var s := run[|run| - 1];
    var produce, consume := Sum(run[0].procs, ToProduce), Sum(run[0].procs, ToConsume);
    RunKeepsInv(run, actors, |run| - 1);
    InvShape(s, produce, consume);
    longer, order := run, actors;
    if !Stuck(s) {
      var i :| 0 <= i < |s.procs| && Advance(s, i).Some?;
      StepDoesWork(s, i, produce, consume);
      var s' := Advance(s, i).value;
      assert StepOf(s, i, s');
      ExtendRun(run, actors, i, s');
      longer, order := RunsReachAnEnd(run + [s'], actors + [i]);
    }
  }

  /** The overrun does happen: any processes that produce more than the buffer holds and consume anything have a run
      that ends in it. */
  lemma {:induction false} OverrunHappens(procs: seq<Process>) returns (run: seq<State>, actors: seq<nat>)
    requires Fresh(procs) && Sum(procs, ToProduce) > EMPTY_NUM && Sum(procs, ToConsume) > 0
    ensures IsRun(run, actors) && run[0].procs == procs && run[|run| - 1].overrun
  {
    run, actors := RunsReachAnEnd([StartState(procs)], []);
    HowRunsEnd(run, actors);
  }

  /** The program as it stands does finish: its processes have a run that ends with all of them done. */
  lemma {:induction false} MainHasAnEnd() returns (run: seq<State>, actors: seq<nat>)
    ensures IsRun(run, actors) && run[0].procs == Forked(3, 6, 6) && Finished(run[|run| - 1])
  {
    ForkedTotals(3, 6, 6);
    run, actors := RunsReachAnEnd([StartState(Forked(3, 6, 6))], []);
    HowRunsEnd(run, actors);
  }

  lemma LoadedInBounds(s: State, i: nat, produce: nat, consume: nat)
    requires Inv(s, produce, consume) && i < |s.procs| && s.procs[i].place.Loaded?
    requires produce <= EMPTY_NUM || consume == 0
    ensures s.procs[i].place.pos < EMPTY_NUM
  {
    NumbersInside(s, i, produce, consume);
    OthersOutside(s, i);
    Replace(s, i, s.procs[i]);
    hide Sum, Insiders;
  }

  /** With no more produced than the buffer holds, no run ever indexes outside it. */
  lemma {:induction false} NeverOverrun(run: seq<State>, actors: seq<nat>, n: nat)
    requires IsRun(run, actors) && n < |run|
    requires Sum(run[0].procs, ToProduce) <= EMPTY_NUM || Sum(run[0].procs, ToConsume) == 0
    ensures !run[n].overrun
    ensures forall i :: 0 <= i < |run[n].procs| && run[n].procs[i].place.Loaded? ==>
              run[n].procs[i].place.pos < EMPTY_NUM
  {
    var s, produce, consume := run[n], Sum(run[0].procs, ToProduce), Sum(run[0].procs, ToConsume);
    RunKeepsInv(run, actors, n);
    hide Inv, Sum;
    if s.overrun { OverrunMeans(s, produce, consume); }
    forall i | 0 <= i < |s.procs| && s.procs[i].place.Loaded?
      ensures s.procs[i].place.pos < EMPTY_NUM
    {
      LoadedInBounds(s, i, produce, consume);
    }
  }

  // ---------- the processes main forks ----------

  // One producer and one consumer per round of the fork loop.
  function Forked(pairs: nat, produce: nat, consume: nat): seq<Process> {
    if pairs == 0 then []
    else
      [Process(Producer, produce, Outside), Process(Consumer, consume, Outside)] + Forked(pairs - 1, produce, consume)
  }

  lemma {:induction false} ForkedTotals(pairs: nat, produce: nat, consume: nat)
    ensures Fresh(Forked(pairs, produce, consume))
    ensures Sum(Forked(pairs, produce, consume), ToProduce) == pairs * produce
    ensures Sum(Forked(pairs, produce, consume), ToConsume) == pairs * consume
    decreases pairs
  {
    if pairs > 0 {
      ForkedTotals(pairs - 1, produce, consume);
      var all, rest := Forked(pairs, produce, consume), Forked(pairs - 1, produce, consume);
      assert all[1..][1..] == rest;
    }
  }

  /** The program as it stands: three producers and three consumers of six items each always finish, and the consumers
      have then read the eighteen letters in order. */
  lemma {:induction false} MainFinishes(run: seq<State>, actors: seq<nat>)
    requires IsRun(run, actors) && run[0].procs == Forked(3, 6, 6)
    ensures var s := run[|run| - 1];
            && |s.sems| == 3 && |s.data| == EMPTY_NUM
            && (Stuck(s) ==> Finished(s) && s.read == s.written == "abcdefghijklmnopqr")
  {
    hide Stuck, Finished, StepOf;
    var s := run[|run| - 1];
    ForkedTotals(3, 6, 6);
    HowRunsEnd(run, actors);
    ReadsFollowWrites(run, actors, |run| - 1);
    if Stuck(s) { Alphabet(s.written); }
  }

  lemma Alphabet(letters: string)
    requires |letters| == 18 && forall k :: 0 <= k < 18 ==> letters[k] as int == 'a' as int + k
    ensures letters == "abcdefghijklmnopqr"
  {
    forall k | 0 <= k < 18
      ensures letters[k] == "abcdefghijklmnopqr"[k]
    {
    }
  }
}
