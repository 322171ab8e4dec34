/**
 * The institution-wide timetabler `ScheduleGenerator`
 * (`backend/src/services/scheduleGenerator.service.js`): a greedy initial
 * solution, then simulated annealing over neighbours that change a room, a
 * block, or swap two blocks.
 *
 * As in the source, an assignment is an object that the neighbour moves
 * update in place, and every solution (current, best, neighbour) holds the
 * same assignment objects: a neighbour copies only the array. `Snapshot`
 * reads the assignments' present values; the cost is a function of it.
 *
 * The personal subclass overrides `evaluateSolution` to add the student
 * term; without inheritance, the model keeps the student's preferences in
 * the field `studentPreferences`, which is `None` for the base class.
 */
module ScheduleGenerator {
  import opened Common
  import opened SchedulerData
  import opened SchedulerCost
  import opened PersonalCost
  import Sorting

  /** `{ group, classroom, block, valid }`: the neighbour moves write `classroom` and `block`. */
  class Assignment {
    const group: GroupRec
    var classroom: Option<Classroom>
    var block: Option<Block>
    const valid: bool

    constructor (group: GroupRec, classroom: Option<Classroom>, block: Option<Block>, valid: bool)
      ensures this.group == group && this.classroom == classroom && this.block == block && this.valid == valid
    {
      this.group := group;
      this.classroom := classroom;
      this.block := block;
      this.valid := valid;
    }
  }

  /** `{ assignments, score }`. */
  datatype Solution = Solution(assignments: seq<Assignment>, score: real)

  /** The present values of the assignments. */
  function Snapshot(assignments: seq<Assignment>): seq<Slot>
    reads assignments
  {
    seq(|assignments|, k requires 0 <= k < |assignments| reads assignments =>
      Slot(assignments[k].group, assignments[k].classroom, assignments[k].block, assignments[k].valid))
  }

  /** No assignment object appears twice in the array. */
  predicate Distinct(assignments: seq<Assignment>)
  {
    forall i, j :: 0 <= i < j < |assignments| ==> assignments[i] != assignments[j]
  }

  /**
   * `evaluateSolution` of the generator: the institution-wide cost, plus the
   * student term of the personal subclass when the student has preferences.
   */
  function TotalCost(data: SAData, w: Weights, student: Option<Preference>, vs: seq<Slot>): (r: Option<real>)
    ensures r.Some? <==> Scorable(vs)
    ensures student.None? ==> r == Cost(data, w, vs)
  {
    if !Scorable(vs) then None
    else Some(Cost(data, w, vs).value + (if student.Some? then StudentTerm(w, student.value, vs) else 0.0))
  }

  // ---------------------------------------------------------------------------
  // The initial solution
  // ---------------------------------------------------------------------------

  function Inscripciones(g: GroupRec): int { g.inscripciones }

  /** The groups, most enrolments first (a stable sort). */
  function SortedGroups(data: SAData): seq<GroupRec>
  {
    Sorting.SortBy(data.groups, Inscripciones, Sorting.GeInt)
  }

  /** The found (room, block) pair, or an invalid assignment with neither. */
  function InitialSlot(data: SAData, g: GroupRec): Slot
  {
    match Feasible(data, g)
    case Some((c, b)) => Slot(g, Some(c), Some(b), true)
    case None => Slot(g, None, None, false)
  }

  /** `generateInitialSolution` as values. */
  function InitialSlots(data: SAData): seq<Slot>
  {
    SlotsFor(data, SortedGroups(data))
  }

  /** The initial assignment of each of `gs`, in order. */
  function SlotsFor(data: SAData, gs: seq<GroupRec>): seq<Slot>
  {
    seq(|gs|, k requires 0 <= k < |gs| => InitialSlot(data, gs[k]))
  }

  lemma SlotsForPrefix(data: SAData, gs: seq<GroupRec>, i: nat)
    requires i < |gs|
    ensures SlotsFor(data, gs[..i + 1]) == SlotsFor(data, gs[..i]) + [InitialSlot(data, gs[i])]
  {
  }

  /** The groups of a solution, in order. */
  function Groups(vs: seq<Slot>): seq<GroupRec>
  {
    seq(|vs|, k requires 0 <= k < |vs| => vs[k].group)
  }

  /** One assignment per group, most enrolments first. */
  lemma InitialSolutionShape(data: SAData)
    ensures multiset(Groups(InitialSlots(data))) == multiset(data.groups)
    ensures forall i, j :: 0 <= i < j < |InitialSlots(data)| ==>
      InitialSlots(data)[i].group.inscripciones >= InitialSlots(data)[j].group.inscripciones
  {
    var vs := InitialSlots(data);
    assert Groups(vs) == SortedGroups(data);
    Sorting.IntOrdersAreTotalPreorders();
    Sorting.SortBySorted(data.groups, Inscripciones, Sorting.GeInt);
  }

  /**
   * An assignment of the greedy start is valid exactly when a feasible pair
   * exists for its group, and then it has no local penalty; so the start
   * can be scored.
   */
  lemma InitialSolutionClean(data: SAData, w: Weights)
    ensures forall k :: 0 <= k < |InitialSlots(data)| ==>
      (InitialSlots(data)[k].valid <==> Feasible(data, InitialSlots(data)[k].group).Some?)
    ensures forall k :: 0 <= k < |InitialSlots(data)| && InitialSlots(data)[k].valid ==>
      LocalPenalty(data, w, InitialSlots(data)[k]) == 0.0
    ensures Scorable(InitialSlots(data))
  {
    var vs := InitialSlots(data);
    forall k | 0 <= k < |vs|
      ensures (vs[k].valid <==> Feasible(data, vs[k].group).Some?)
      ensures vs[k].valid ==> Counted(vs[k]) && LocalPenalty(data, w, vs[k]) == 0.0
    {
      var g := SortedGroups(data)[k];
      assert vs[k] == InitialSlot(data, g);
      if vs[k].valid {
        FeasiblePlacementIsClean(data, w, g);
      }
    }
  }


  // ---------------------------------------------------------------------------
  // The neighbour moves, as values
  // ---------------------------------------------------------------------------

  /** One of the changes `generateNeighbor` makes to the assignment at `idx`. */
  datatype Change = NewRoom(idx: nat, room: Classroom) | NewBlock(idx: nat, block: Block) | Swap(idx: nat, other: nat) | Skip(idx: nat)

  predicate InBounds(ch: Change, n: nat)
  {
    ch.idx < n && (ch.Swap? ==> ch.other < n)
  }

  /** `[...professor.availability].map(id => blocks[id]).filter(Boolean)`, none for an unknown professor. */
  function ProfessorBlocks(data: SAData, g: GroupRec): seq<Block>
  {
    match FindProfessor(data.professors, g.profesorId)
    case None => []
    case Some(p) => LookupBlocks(BlockMap(data.blockList), Dedup(p.availability))
  }

  /**
   * What a change may be: a suitable room, a block from the professor's
   * availability, a swap with another index, or nothing (no candidate, no
   * professor, or the swap drew the same index).
   */
  predicate Allowed(data: SAData, vs: seq<Slot>, ch: Change)
  {
    InBounds(ch, |vs|) &&
    match ch
    case NewRoom(i, c) => c in Suitable(data, vs[i].group)
    case NewBlock(i, b) => b in ProfessorBlocks(data, vs[i].group)
    case Swap(i, j) => i != j
    case Skip(_) => true
  }

  /** The change applied; a swap exchanges the two blocks, whatever they are. */
  function Apply(vs: seq<Slot>, ch: Change): (r: seq<Slot>)
    requires InBounds(ch, |vs|)
    ensures |r| == |vs|
  {
    match ch
    case NewRoom(i, c) => vs[i := vs[i].(classroom := Some(c))]
    case NewBlock(i, b) => vs[i := vs[i].(block := Some(b))]
    case Swap(i, j) => vs[i := vs[i].(block := vs[j].block)][j := vs[j].(block := vs[i].block)]
    case Skip(_) => vs
  }

  predicate AllInBounds(chs: seq<Change>, n: nat)
  {
    forall k :: 0 <= k < |chs| ==> InBounds(chs[k], n)
  }

  /** The changes applied in order. */
  function ApplyAll(vs: seq<Slot>, chs: seq<Change>): (r: seq<Slot>)
    requires AllInBounds(chs, |vs|)
    ensures |r| == |vs|
  {
    if chs == [] then vs else Apply(ApplyAll(vs, chs[..|chs| - 1]), chs[|chs| - 1])
  }

  predicate AllAllowed(data: SAData, vs: seq<Slot>, chs: seq<Change>)
  {
    forall k :: 0 <= k < |chs| ==> Allowed(data, vs, chs[k])
  }

  /** A change keeps the number of assignments, their groups and their `valid` flags. */
  lemma ApplyKeepsGroups(vs: seq<Slot>, ch: Change)
    requires InBounds(ch, |vs|)
    ensures Groups(Apply(vs, ch)) == Groups(vs)
    ensures forall k :: 0 <= k < |vs| ==> Apply(vs, ch)[k].valid == vs[k].valid
  {
  }

  lemma {:induction false} ApplyAllKeepsGroups(vs: seq<Slot>, chs: seq<Change>)
    requires AllInBounds(chs, |vs|)
    ensures Groups(ApplyAll(vs, chs)) == Groups(vs)
    ensures forall k :: 0 <= k < |vs| ==> ApplyAll(vs, chs)[k].valid == vs[k].valid
  {
    if chs != [] {
      var init := chs[..|chs| - 1];
      assert AllInBounds(init, |vs|);
      ApplyAllKeepsGroups(vs, init);
      ApplyKeepsGroups(ApplyAll(vs, init), chs[|chs| - 1]);
    }
  }

  lemma ApplyAllAppend(vs: seq<Slot>, chs: seq<Change>, ch: Change)
    requires AllInBounds(chs, |vs|) && InBounds(ch, |vs|)
    ensures AllInBounds(chs + [ch], |vs|)
    ensures ApplyAll(vs, chs + [ch]) == Apply(ApplyAll(vs, chs), ch)
  {
    assert (chs + [ch])[..|chs|] == chs;
  }

  /** A new room seats the group and has the type it needs: no capacity or type penalty. */
  lemma NewRoomFits(data: SAData, w: Weights, vs: seq<Slot>, i: nat, c: Classroom)
    requires Allowed(data, vs, NewRoom(i, c))
    ensures Apply(vs, NewRoom(i, c))[i].classroom == Some(c)
    ensures CapacityTerm(w, vs[i].group, c) == 0.0 && TypeTerm(w, vs[i].group, c) == 0.0
  {
  }

  lemma {:induction false} LookupBlocksMembers(m: map<string, Block>, ids: seq<string>, b: Block)
    requires b in LookupBlocks(m, ids)
    ensures exists id :: id in ids && id in m && m[id] == b
  {
    var init := ids[..|ids| - 1];
    if b in LookupBlocks(m, init) {
      LookupBlocksMembers(m, init, b);
      var id :| id in init && id in m && m[id] == b;
      assert id in ids;
    } else {
      assert ids[|ids| - 1] in ids;
    }
  }

  /** A new block is one the group's professor is available in: no availability penalty. */
  lemma NewBlockAvailable(data: SAData, w: Weights, vs: seq<Slot>, i: nat, b: Block)
    requires Allowed(data, vs, NewBlock(i, b))
    ensures Apply(vs, NewBlock(i, b))[i].block == Some(b)
    ensures ProfessorAvailable(data, vs[i].group, b)
    ensures AvailabilityTerm(data, w, vs[i].group, b) == 0.0
  {
    var p := FindProfessor(data.professors, vs[i].group.profesorId).value;
    var m := BlockMap(data.blockList);
    LookupBlocksMembers(m, Dedup(p.availability), b);
    var id :| id in Dedup(p.availability) && id in m && m[id] == b;
    var k :| 0 <= k < |Dedup(p.availability)| && Dedup(p.availability)[k] == id;
    assert id in p.availability;
  }

  /** The blocks of a solution, in order. */
  function Blocks(vs: seq<Slot>): seq<Option<Block>>
  {
    seq(|vs|, k requires 0 <= k < |vs| => vs[k].block)
  }

  /** A swap exchanges exactly the blocks at two distinct indices; the blocks in use stay the same. */
  lemma SwapExchanges(vs: seq<Slot>, i: nat, j: nat)
    requires i < |vs| && j < |vs| && i != j
    ensures Apply(vs, Swap(i, j))[i].block == vs[j].block && Apply(vs, Swap(i, j))[j].block == vs[i].block
    ensures forall k :: 0 <= k < |vs| && k != i && k != j ==> Apply(vs, Swap(i, j))[k] == vs[k]
    ensures forall k :: 0 <= k < |vs| ==> Apply(vs, Swap(i, j))[k].classroom == vs[k].classroom
    ensures multiset(Blocks(Apply(vs, Swap(i, j)))) == multiset(Blocks(vs))
  {
    var r := Apply(vs, Swap(i, j));
    var a, b := Blocks(vs), Blocks(r);
    assert b == a[i := a[j]][j := a[i]];
  }

  /** A room or block change keeps every valid assignment placed, so the cost stays defined. */
  lemma ChangeKeepsScorable(data: SAData, vs: seq<Slot>, ch: Change)
    requires Allowed(data, vs, ch) && !ch.Swap? && Scorable(vs)
    ensures Scorable(Apply(vs, ch))
  {
  }

  /** Only the groups are read when a change is drawn, so a change allowed on one state is allowed on any with the same groups. */
  lemma AllowedOnSameGroups(data: SAData, vs: seq<Slot>, vs': seq<Slot>, ch: Change)
    requires Groups(vs) == Groups(vs') && Allowed(data, vs, ch)
    ensures Allowed(data, vs', ch)
  {
    assert |vs| == |Groups(vs)|;
    assert Groups(vs)[ch.idx] == vs[ch.idx].group;
  }

  /**
   * As written, a swap can move the missing block of an unplaced assignment
   * onto a valid one; scoring that neighbour throws at `block.id`.
   */
  lemma SwapCanBreakScoring(g: GroupRec, c: Classroom, b: Block)
    ensures var vs := [Slot(g, Some(c), Some(b), true), Slot(g, None, None, false)];
      Scorable(vs) && !Scorable(Apply(vs, Swap(0, 1)))
  {
    var vs := [Slot(g, Some(c), Some(b), true), Slot(g, None, None, false)];
    assert Apply(vs, Swap(0, 1))[0] == Slot(g, Some(c), None, true);
  }

  /** The evidently intended swap: only between two assignments that both have a block. */
  function SafeApply(vs: seq<Slot>, ch: Change): (r: seq<Slot>)
    requires InBounds(ch, |vs|)
    ensures |r| == |vs|
  {
    if ch.Swap? && (vs[ch.idx].block.None? || vs[ch.other].block.None?) then vs else Apply(vs, ch)
  }

  /** With the guarded swap every change keeps the cost defined. */
  lemma SafeApplyKeepsScorable(data: SAData, vs: seq<Slot>, ch: Change)
    requires Allowed(data, vs, ch) && Scorable(vs)
    ensures Scorable(SafeApply(vs, ch))
    ensures Groups(SafeApply(vs, ch)) == Groups(vs)
  {
    ApplyKeepsGroups(vs, ch);
    if ch.Swap? && vs[ch.idx].block.Some? && vs[ch.other].block.Some? {
      SwapExchanges(vs, ch.idx, ch.other);
    }
  }

  // ---------------------------------------------------------------------------
  // run, as values
  // ---------------------------------------------------------------------------

  /** The random outcome of one iteration: the changes drawn and whether the neighbour was accepted. */
  datatype Step = Step(changes: seq<Change>, accept: bool)

  /** What an iteration leaves behind: the assignments' values and the two stored scores. */
  datatype Walk = Walk(slots: seq<Slot>, currentScore: real, bestScore: real)

  /**
   * One iteration of `run` as written. The neighbour's changes land in the
   * assignment objects every solution shares, so the values change whether
   * or not the neighbour is accepted; only the stored scores depend on it.
   */
  function AsWrittenStep(data: SAData, w: Weights, student: Option<Preference>, st: Walk, step: Step): Walk
  {
    if !AllInBounds(step.changes, |st.slots|) then st
    else
      var next := ApplyAll(st.slots, step.changes);
      var score := if Scorable(next) then TotalCost(data, w, student, next).value else st.currentScore;
      Walk(next, if step.accept then score else st.currentScore,
           if step.accept && score < st.bestScore then score else st.bestScore)
  }

  function AsWrittenRun(data: SAData, w: Weights, student: Option<Preference>, st: Walk, trace: seq<Step>): Walk
  {
    if trace == [] then st
    else AsWrittenStep(data, w, student, AsWrittenRun(data, w, student, st, trace[..|trace| - 1]), trace[|trace| - 1])
  }

  /** The cooling `temperature *= coolingRate` at the end of every round. */
  function Cool(temperature: real, rate: real): real
  {
    temperature * rate
  }

  /** The temperature after `n` rounds of cooling from `t0`. */
  function Cooled(t0: real, rate: real, n: nat): real
  {
    if n == 0 then t0 else Cool(Cooled(t0, rate, n - 1), rate)
  }

  /** Cooling `n` times from `t0` leaves `t0 * rate^n`. */
  lemma {:induction false} CooledIsPower(t0: real, rate: real, n: nat)
    ensures Cooled(t0, rate, n) == t0 * Power(rate, n)
  {
    if n > 0 {
      CooledIsPower(t0, rate, n - 1);
      var p := Power(rate, n - 1);
      assert Cooled(t0, rate, n) == (t0 * p) * rate;
      assert Power(rate, n) == p * rate;
      assert (t0 * p) * rate == t0 * (p * rate);
    }
  }

  /** A round whose changes stay in range and leave the assignments scorable. */
  lemma StepTaken(data: SAData, w: Weights, student: Option<Preference>, st: Walk, changes: seq<Change>, next: seq<Slot>, score: real)
    requires AllInBounds(changes, |st.slots|) && next == ApplyAll(st.slots, changes)
    requires Scorable(next) && Some(score) == TotalCost(data, w, student, next)
    ensures forall accept: bool {:trigger Step(changes, accept)} ::
      AsWrittenStep(data, w, student, st, Step(changes, accept)) ==
            Walk(next, if accept then score else st.currentScore, if accept && score < st.bestScore then score else st.bestScore)
  {
  }

  lemma AsWrittenRunAppend(data: SAData, w: Weights, student: Option<Preference>, st: Walk, trace: seq<Step>, step: Step)
    ensures AsWrittenRun(data, w, student, st, trace + [step]) ==
            AsWrittenStep(data, w, student, AsWrittenRun(data, w, student, st, trace), step)
  {
    assert (trace + [step])[..|trace|] == trace;
  }

  // A one-group example: the group's room is free in its block, a second room is not.
  const ExampleGroup := GroupRec("g", "m", "p", None, 10)
  const ExampleBlock := Block("b", "LUNES", 0, 3600000, Str("TARDE"))
  const FreeRoom := Classroom("r1", "TEORIA", 30, ["b"])
  const BusyRoom := Classroom("r2", "TEORIA", 30, [])
  const ExampleData := SAData([ExampleGroup], [FreeRoom, BusyRoom], [ExampleBlock], [Professor("p", ["b"], None)], map[])
  const ExampleBefore := [Slot(ExampleGroup, Some(FreeRoom), Some(ExampleBlock), true)]
  const ExampleMoved := [Slot(ExampleGroup, Some(BusyRoom), Some(ExampleBlock), true)]

  lemma ExampleProfessor()
    ensures FindProfessor(ExampleData.professors, "p") == Some(Professor("p", ["b"], None))
    ensures MaxHours(ExampleData, "p") == 20.0
    ensures AvailabilityTerm(ExampleData, DefaultWeights, ExampleGroup, ExampleBlock) == 0.0
  {
  }

  lemma ExampleCosts(room: Classroom)
    requires room == FreeRoom || room == BusyRoom
    ensures TotalCost(ExampleData, DefaultWeights, None, [Slot(ExampleGroup, Some(room), Some(ExampleBlock), true)]) ==
            Some(if room == FreeRoom then 0.0 else 400.0)
  {
    ExampleProfessor();
    CostOfOne(ExampleData, ExampleGroup, room, ExampleBlock);
    assert AulaType(ExampleGroup) == "TEORIA";
    assert RoomTerm(DefaultWeights, room, ExampleBlock) == if room == FreeRoom then 0.0 else 400.0;
  }

  /**
   * The stored best score goes stale: a rejected change still alters the
   * shared assignments. In the example the group sits in a room free in its
   * block (cost 0); after a rejected move to the other room both stored
   * scores are still 0 while the assignments now cost 400
   * (`classroomAvailability`).
   */
  lemma StaleBestScore()
    ensures var after := AsWrittenStep(ExampleData, DefaultWeights, None, Walk(ExampleBefore, 0.0, 0.0), Step([NewRoom(0, BusyRoom)], false));
      Allowed(ExampleData, ExampleBefore, NewRoom(0, BusyRoom)) &&
      TotalCost(ExampleData, DefaultWeights, None, ExampleBefore) == Some(0.0) &&
      after.bestScore == 0.0 && TotalCost(ExampleData, DefaultWeights, None, after.slots) == Some(400.0)
  {
    ExampleMove();
    ExampleCosts(FreeRoom);
    ExampleRejectedStep();
  }

  /** The rejected move changes the assignments and neither stored score. */
  lemma ExampleRejectedStep()
    ensures AsWrittenStep(ExampleData, DefaultWeights, None, Walk(ExampleBefore, 0.0, 0.0), Step([NewRoom(0, BusyRoom)], false)) ==
            Walk(ExampleMoved, 0.0, 0.0)
    ensures TotalCost(ExampleData, DefaultWeights, None, ExampleMoved) == Some(400.0)
  {
    ExampleMove();
    ExampleCosts(BusyRoom);
    assert AllInBounds([NewRoom(0, BusyRoom)], |ExampleBefore|);
  }

  lemma ExampleMove()
    ensures Allowed(ExampleData, ExampleBefore, NewRoom(0, BusyRoom))
    ensures ApplyAll(ExampleBefore, [NewRoom(0, BusyRoom)]) == ExampleMoved
  {
    assert AulaType(ExampleGroup) == "TEORIA";
    assert BusyRoom in Suitable(ExampleData, ExampleGroup);
    assert [NewRoom(0, BusyRoom)][..0] == [];
  }

  /** The cost of a lone valid assignment of a one-hour block, for a professor without preferences, under the default weights. */
  lemma CostOfOne(data: SAData, g: GroupRec, c: Classroom, b: Block)
    requires data.blockList == [b] && data.preferences == map[]
    requires b.horaFin - b.horaInicio == 3600000 && MaxHours(data, g.profesorId) >= 1.0
    ensures Cost(data, DefaultWeights, [Slot(g, Some(c), Some(b), true)]) ==
            Some(LocalPenalty(data, DefaultWeights, Slot(g, Some(c), Some(b), true)))
  {
    var v := Slot(g, Some(c), Some(b), true);
    assert Counted(v) && Scorable([v]);
    OneLoop(data, v);
    OneMaxHours(data, v);
    OneCompactness(data, v);
    assert Cost(data, DefaultWeights, [v]) == Some(LocalPenalty(data, DefaultWeights, v) + 0.0 + 0.0 + 0.0);
  }

  lemma OneLoop(data: SAData, v: Slot)
    requires Counted(v) && data.preferences == map[]
    ensures LoopScore(data, DefaultWeights, [v]) == LocalPenalty(data, DefaultWeights, v)
    ensures ProfessorKeys([v]) == [v.group.profesorId]
    ensures PreferenceScore(data, DefaultWeights, [v]) == 0.0
  {
    assert [v][..0] == [];
  }

  lemma OneMaxHours(data: SAData, v: Slot)
    requires Counted(v) && v.block.value.horaFin - v.block.value.horaInicio == 3600000
    requires MaxHours(data, v.group.profesorId) >= 1.0
    ensures MaxHoursScore(data, DefaultWeights, [v.group.profesorId], [v]) == 0.0
  {
    assert [v][..0] == [];
    assert ProfHours([v], v.group.profesorId) == 1.0;
    assert [v.group.profesorId][..0] == [];
  }

  lemma OneCompactness(data: SAData, v: Slot)
    requires Counted(v) && data.blockList == [v.block.value]
    ensures CompactnessScore(data, DefaultWeights, [v.group.profesorId], [v]) == 0.0
  {
    var b := v.block.value;
    assert [v][..0] == [];
    assert ProfBlockIds([v], v.group.profesorId) == [b.id];
    assert [b.id][..0] == [];
    assert [b][..0] == [];
    assert BlockMap(data.blockList) == map[b.id := b];
    assert LookupBlocks(BlockMap(data.blockList), [b.id]) == [b];
    assert DaysOf([b]) == [b.dia];
    assert [b.dia][..0] == [];
    assert [b][..0] == [] && BlocksOnDay([], b.dia) == [];
    assert BlocksOnDay([b], b.dia) == [b];
    assert DaysPenalty(DefaultWeights, [b.dia], [b]) == 0.0;
    assert ProfCompactness(data, DefaultWeights, [b.id]) == 0.0;
    assert [v.group.profesorId][..0] == [];
  }

  /** The walk's start: the greedy solution, stored as current and best with its cost. */
  function InitialWalk(data: SAData, w: Weights, student: Option<Preference>): Walk
  {
    var vs := InitialSlots(data);
    var c := TotalCost(data, w, student, vs);
    var score := if c.Some? then c.value else 0.0;
    Walk(vs, score, score)
  }

  /** A solution held by value. */
  datatype Candidate = Candidate(slots: seq<Slot>, score: real)

  /** The best-so-far update of `run`: the accepted candidate replaces the best when it costs strictly less. */
  function KeepLower(best: Candidate, current: Candidate): (r: Candidate)
    ensures r == best || r == current
    ensures r.score <= best.score && r.score <= current.score
    ensures r == current <==> current.score < best.score || current == best
  {
    if current.score < best.score then current else best
  }

  /** Scores that never increase from one entry to the next. */
  predicate NonIncreasing(xs: seq<real>)
  {
    forall i, j :: 0 <= i <= j < |xs| ==> xs[j] <= xs[i]
  }

  lemma NonIncreasingAppend(xs: seq<real>, x: real)
    requires NonIncreasing(xs) && |xs| > 0 && x <= xs[|xs| - 1]
    ensures NonIncreasing(xs + [x])
  {
    var ys := xs + [x];
    forall i, j | 0 <= i <= j < |ys| ensures ys[j] <= ys[i] {
      if j == |xs| && i < |xs| {
        assert xs[|xs| - 1] <= xs[i];
      }
    }
  }

  // ---------------------------------------------------------------------------
  // Accepting a neighbour
  // ---------------------------------------------------------------------------

  /**
   * `delta < 0 || Math.random() < Math.exp(-delta / temperature)`. The
   * exponential is not computed: for a positive temperature and a positive
   * delta only its range, strictly between 0 and 1, is used; at temperature
   * 0 it is `exp(-Infinity) = 0` or `exp(NaN)`, and otherwise at least 1.
   */
  method Accept(delta: real, temperature: real) returns (accept: bool)
    ensures delta < 0.0 ==> accept
    ensures delta >= 0.0 && temperature == 0.0 ==> !accept
    ensures delta >= 0.0 && temperature < 0.0 ==> accept
    ensures delta == 0.0 && temperature > 0.0 ==> accept
  {
    if delta < 0.0 {
      return true;
    }
    if temperature == 0.0 {
      accept := false;
    } else if temperature < 0.0 || delta == 0.0 {
      accept := true;
    } else {
      // Math.random() against a bound strictly between 0 and 1: either outcome can happen.
      accept :| true;
    }
  }

  function Power(x: real, n: nat): real
  {
    if n == 0 then 1.0 else Power(x, n - 1) * x
  }

  // ---------------------------------------------------------------------------
  // Writing a change into the assignment objects
  // ---------------------------------------------------------------------------

  /** `neighbor.assignments[idx].classroom = …`, `….block = …`, or the destructuring swap. */
  method ApplyChange(assignments: seq<Assignment>, ch: Change)
    requires Distinct(assignments) && InBounds(ch, |assignments|)
    requires ch.Swap? ==> ch.idx != ch.other
    modifies assignments
    ensures Snapshot(assignments) == Apply(old(Snapshot(assignments)), ch)
  {
    ghost var before := Snapshot(assignments);
    match ch {
      case NewRoom(i, c) =>
        assignments[i].classroom := Some(c);
      case NewBlock(i, b) =>
        assignments[i].block := Some(b);
      case Swap(i, j) =>
        assignments[i].block, assignments[j].block := assignments[j].block, assignments[i].block;
      case Skip(_) =>
    }
    assert forall k :: 0 <= k < |assignments| ==> Snapshot(assignments)[k] == Apply(before, ch)[k];
  }

  /** The assignment `findFeasibleAssignment` returns for a group, or the invalid one without room and block. */
  method NewAssignment(data: SAData, group: GroupRec) returns (a: Assignment)
    ensures fresh(a) && Slot(a.group, a.classroom, a.block, a.valid) == InitialSlot(data, group)
  {
    var found := FindFeasibleAssignment(data, group);
    if found.Some? {
      a := new Assignment(group, Some(found.value.0), Some(found.value.1), true);
    } else {
      a := new Assignment(group, None, None, false);
    }
  }

  /** The values of an array with one more assignment. */
  lemma SnapshotAppend(assignments: seq<Assignment>, a: Assignment)
    ensures Snapshot(assignments + [a]) == Snapshot(assignments) + [Slot(a.group, a.classroom, a.block, a.valid)]
  {
  }

  /** The loop of `generateInitialSolution`: one fresh assignment object per group, in sorted order. */
  method NewAssignments(data: SAData) returns (assignments: seq<Assignment>)
    ensures Distinct(assignments) && forall a :: a in assignments ==> fresh(a)
    ensures Snapshot(assignments) == InitialSlots(data)
  {
    var sortedGroups := Sorting.SortBy(data.groups, Inscripciones, Sorting.GeInt);
    assignments := [];
    var i := 0;
    while i < |sortedGroups|
      invariant 0 <= i <= |sortedGroups| && |assignments| == i
      invariant Distinct(assignments) && forall a :: a in assignments ==> fresh(a)
      invariant Snapshot(assignments) == SlotsFor(data, sortedGroups[..i])
    {
      ghost var pre := Snapshot(assignments);
      var a := NewAssignment(data, sortedGroups[i]);
      assert Snapshot(assignments) == pre;
      SnapshotAppend(assignments, a);
      SlotsForPrefix(data, sortedGroups, i);
      assignments := assignments + [a];
      i := i + 1;
    }
    assert sortedGroups[..i] == sortedGroups;
  }

  // ---------------------------------------------------------------------------
  // The generator
  // ---------------------------------------------------------------------------

  class ScheduleGenerator {
    const data: SAData
    const options: Options
    /** Set only by the personal subclass, from the student's stored preferences. */
    const studentPreferences: Option<Preference>
    var currentSolution: Option<Solution>
    var bestSolution: Option<Solution>
    var temperature: real

    /** The options are the defaults overridden field by field; `data` is what `loadData` reads from the database. */
    constructor (data: SAData, overrides: Overrides, studentPreferences: Option<Preference>)
      ensures this.data == data && this.options == MakeOptions(overrides) && this.studentPreferences == studentPreferences
      ensures currentSolution.None? && bestSolution.None? && temperature == options.initialTemperature
    {
      this.data := data;
      this.options := MakeOptions(overrides);
      this.studentPreferences := studentPreferences;
      currentSolution, bestSolution := None, None;
      temperature := MakeOptions(overrides).initialTemperature;
    }

    /** `evaluateSolution`; `None` where the source throws (a valid assignment without a room or a block). */
    method EvaluateSolution(s: Solution) returns (r: Option<real>)
      ensures r == TotalCost(data, options.weights, studentPreferences, Snapshot(s.assignments))
    {
      r := EvaluateValues(Snapshot(s.assignments));
    }

    /** The base class's score, then the personal subclass's student term when there are preferences. */
    method EvaluateValues(vs: seq<Slot>) returns (r: Option<real>)
      ensures r == TotalCost(data, options.weights, studentPreferences, vs)
    {
      r := EvaluateSlots(data, options.weights, vs);
      if r.Some? && studentPreferences.Some? {
        var extra := EvaluateStudentPreferences(options.weights, studentPreferences.value, vs);
        r := Some(r.value + extra);
      }
    }

    /** `generateInitialSolution`: a new assignment object per group, most enrolments first, then its score. */
    method GenerateInitialSolution() returns (s: Solution)
      ensures Distinct(s.assignments) && forall a :: a in s.assignments ==> fresh(a)
      ensures Snapshot(s.assignments) == InitialSlots(data)
      ensures Some(s.score) == TotalCost(data, options.weights, studentPreferences, InitialSlots(data))
    {
      var assignments := NewAssignments(data);
      InitialSolutionClean(data, options.weights);
      var score := EvaluateSolution(Solution(assignments, 0.0));
      s := Solution(assignments, score.value);
    }

    /**
     * The random part of one change: an index, a kind of move, and a room,
     * a block or a second index. `Math.random() < 0.33` changes the room,
     * `< 0.66` the block, otherwise it swaps.
     */
    method PickChange(vs: seq<Slot>) returns (ch: Change)
      requires |vs| > 0
      ensures Allowed(data, vs, ch)
    {
      var idx := RandomIndex(|vs|);
      var group := vs[idx].group;
      var mutationType := Random();
      if mutationType < 0.33 {
        var suitableClassrooms := Suitable(data, group);
        if |suitableClassrooms| > 0 {
          var k := RandomIndex(|suitableClassrooms|);
          ch := NewRoom(idx, suitableClassrooms[k]);
        } else {
          ch := Skip(idx);
        }
      } else if mutationType < 0.66 {
        var professor := FindProfessor(data.professors, group.profesorId);
        if professor.None? {
          ch := Skip(idx);
        } else {
          var availableBlocks := LookupBlocks(BlockMap(data.blockList), Dedup(professor.value.availability));
          if |availableBlocks| > 0 {
            var k := RandomIndex(|availableBlocks|);
            ch := NewBlock(idx, availableBlocks[k]);
          } else {
            ch := Skip(idx);
          }
        }
      } else {
        var otherIdx := RandomIndex(|vs|);
        ch := if otherIdx != idx then Swap(idx, otherIdx) else Skip(idx);
      }
    }

    /**
     * `generateNeighbor`: copies the array, not the assignments, and makes 1
     * to 3 changes to the shared objects. It throws on an empty solution
     * (`assignment` is undefined) and when scoring the result throws.
     */
    method GenerateNeighbor(s: Solution) returns (r: Result<Solution, string>, ghost changes: seq<Change>)
      requires Distinct(s.assignments)
      modifies s.assignments
      ensures |s.assignments| == 0 ==> r.Err? && changes == []
      ensures |s.assignments| > 0 ==> 1 <= |changes| <= 3
      ensures AllInBounds(changes, |s.assignments|) && AllAllowed(data, old(Snapshot(s.assignments)), changes)
      ensures Snapshot(s.assignments) == ApplyAll(old(Snapshot(s.assignments)), changes)
      ensures r.Ok? <==> |s.assignments| > 0 && Scorable(Snapshot(s.assignments))
      ensures r.Ok? ==> r.value.assignments == s.assignments &&
                        r.value.score == TotalCost(data, options.weights, studentPreferences, Snapshot(s.assignments)).value
    {
      changes := [];
      if |s.assignments| == 0 {
        return Err("TypeError: assignment is undefined"), changes;
      }
      var assignments := s.assignments;
      ghost var before := Snapshot(assignments);
      var u := Random();
      FractionBelow(u, 3.0, u * 3.0);
      var numChanges := (u * 3.0).Floor + 1;
      var i := 0;
      while i < numChanges
        invariant 0 <= i <= numChanges <= 3 && |changes| == i
        invariant AllInBounds(changes, |assignments|) && AllAllowed(data, before, changes)
        invariant Snapshot(assignments) == ApplyAll(before, changes)
      {
        var current := Snapshot(assignments);
        ApplyAllKeepsGroups(before, changes);
        var ch := PickChange(current);
        AllowedOnSameGroups(data, current, before, ch);
        ApplyChange(assignments, ch);
        ApplyAllAppend(before, changes, ch);
        changes := changes + [ch];
        i := i + 1;
      }
      var score := EvaluateSolution(Solution(assignments, 0.0));
      if score.None? {
        return Err("TypeError: block is null"), changes;
      }
      r := Ok(Solution(assignments, score.value));
    }

    /**
     * What `run` keeps between rounds: both stored solutions hold the
     * objects `objs`, the best score is at most the current one and the
     * initial one, and the assignments' values with the two scores are the
     * walk `AsWrittenRun` computes from `start` and the rounds so far.
     */
    ghost predicate Annealing(objs: seq<Assignment>, start: Walk, trace: seq<Step>)
      reads this, objs
    {
      currentSolution.Some? && bestSolution.Some? &&
      currentSolution.value.assignments == objs && bestSolution.value.assignments == objs &&
      Distinct(objs) &&
      bestSolution.value.score <= currentSolution.value.score && bestSolution.value.score <= start.bestScore &&
      AsWrittenRun(data, options.weights, studentPreferences, start, trace) ==
        Walk(Snapshot(objs), currentSolution.value.score, bestSolution.value.score)
    }

    /**
     * One round of `run`'s loop: a neighbour of the current solution, the
     * acceptance test, the update of current and best, and the cooling.
     * The neighbour throws on an empty solution.
     */
    method Iterate(ghost objs: seq<Assignment>, ghost start: Walk, ghost trace: seq<Step>)
      returns (err: Option<string>, ghost step: Step)
      requires Annealing(objs, start, trace)
      modifies this, set a | a in objs
      ensures |objs| == 0 ==> err.Some?
      ensures err.Some? ==> temperature == old(temperature)
      ensures err.None? ==> Annealing(objs, start, trace + [step])
      ensures err.None? ==> temperature == Cool(old(temperature), options.coolingRate)
      ensures bestSolution.Some? && bestSolution.value.score <= old(bestSolution.value.score)
    {
      ghost var walk := AsWrittenRun(data, options.weights, studentPreferences, start, trace);
      var neighbor;
      ghost var changes;
      neighbor, changes := GenerateNeighbor(currentSolution.value);
      if neighbor.Err? {
        return Some(neighbor.error), Step(changes, false);
      }
      StepTaken(data, options.weights, studentPreferences, walk, changes, Snapshot(objs), neighbor.value.score);
      forall accept: bool
        ensures AsWrittenRun(data, options.weights, studentPreferences, start, trace + [Step(changes, accept)]) ==
                AsWrittenStep(data, options.weights, studentPreferences, walk, Step(changes, accept))
      {
        AsWrittenRunAppend(data, options.weights, studentPreferences, start, trace, Step(changes, accept));
      }
      step := Decide(objs, start, trace, changes, neighbor.value);
      err := None;
    }

    /**
     * The second half of a round: the acceptance test on the neighbour's
     * score, the update of current and best, and the cooling.
     */
    method Decide(ghost objs: seq<Assignment>, ghost start: Walk, ghost trace: seq<Step>, ghost changes: seq<Change>, neighbor: Solution)
      returns (ghost step: Step)
      requires currentSolution.Some? && bestSolution.Some? && neighbor.assignments == objs
      requires currentSolution.value.assignments == objs && bestSolution.value.assignments == objs && Distinct(objs)
      requires bestSolution.value.score <= currentSolution.value.score && bestSolution.value.score <= start.bestScore
      requires forall accept: bool {:trigger Step(changes, accept)} ::
        AsWrittenRun(data, options.weights, studentPreferences, start, trace + [Step(changes, accept)]) ==
          Walk(Snapshot(objs), if accept then neighbor.score else currentSolution.value.score,
               if accept && neighbor.score < bestSolution.value.score then neighbor.score else bestSolution.value.score)
      modifies this
      ensures step.changes == changes
      ensures Annealing(objs, start, trace + [step])
      ensures temperature == Cool(old(temperature), options.coolingRate)
      ensures bestSolution.value.score <= old(bestSolution.value.score)
    {
      var delta := neighbor.score - currentSolution.value.score;
      var accept := Accept(delta, temperature);
      step := Step(changes, accept);
      if accept {
        currentSolution := Some(neighbor);
        if currentSolution.value.score < bestSolution.value.score {
          bestSolution := Some(currentSolution.value);
        }
      }
      temperature := Cool(temperature, options.coolingRate);
    }

    /** `run`'s loop: `maxIterations` rounds from the stored initial solution, or the first error. */
    method Anneal(ghost objs: seq<Assignment>, ghost start: Walk) returns (r: Result<Solution, string>, ghost trace: seq<Step>)
      requires Annealing(objs, start, []) && temperature == options.initialTemperature
      modifies this, set a | a in objs
      ensures r.Ok? ==> |trace| == MaxInt(0, options.maxIterations) && Annealing(objs, start, trace)
      ensures r.Ok? ==> bestSolution == Some(r.value)
      ensures temperature == Cooled(options.initialTemperature, options.coolingRate, |trace|)
      ensures |objs| == 0 && options.maxIterations > 0 ==> r.Err?
    {
      trace := [];
      var iteration := 0;
      while iteration < options.maxIterations
        invariant 0 <= iteration <= MaxInt(0, options.maxIterations) && |trace| == iteration
        invariant Annealing(objs, start, trace) && (|objs| == 0 ==> iteration == 0)
        invariant temperature == Cooled(options.initialTemperature, options.coolingRate, iteration)
      {
        var err;
        ghost var step;
        err, step := Iterate(objs, start, trace);
        if err.Some? {
          return Err(err.value), trace;
        }
        trace := trace + [step];
        iteration := iteration + 1;
      }
      r := Ok(bestSolution.value);
    }

    /**
     * `run` after `loadData`: the greedy start stored as current and best,
     * then the annealing loop. Every stored solution holds the initial
     * assignment objects, and their values with the two stored scores are
     * `AsWrittenRun` of the random outcomes `trace`. An empty solution
     * throws on the first neighbour.
     */
    method Run() returns (r: Result<Solution, string>, ghost objs: seq<Assignment>, ghost trace: seq<Step>)
      modifies this
      ensures |objs| == |data.groups|
      ensures r.Ok? ==> |trace| == MaxInt(0, options.maxIterations) && bestSolution == Some(r.value)
      ensures r.Ok? ==> Annealing(objs, InitialWalk(data, options.weights, studentPreferences), trace)
      ensures temperature == Cooled(options.initialTemperature, options.coolingRate, |trace|)
      ensures data.groups == [] && options.maxIterations > 0 ==> r.Err?
    {
      objs := Start();
      r, trace := Anneal(objs, InitialWalk(data, options.weights, studentPreferences));
    }

    /** The first lines of `run`: the greedy solution becomes both the current and the best one. */
    method Start() returns (ghost objs: seq<Assignment>)
      modifies this
      ensures Annealing(objs, InitialWalk(data, options.weights, studentPreferences), [])
      ensures temperature == options.initialTemperature
      ensures |objs| == |data.groups| && forall a :: a in objs ==> fresh(a)
    {
      var initial := GenerateInitialSolution();
      currentSolution := Some(initial);
      bestSolution := Some(initial);
      temperature := options.initialTemperature;
      objs := initial.assignments;
      assert |objs| == |data.groups| by {
        assert |Snapshot(objs)| == |InitialSlots(data)|;
      }
    }

    /** The neighbour built on a copy of the values, with the guarded swap; an empty solution has none. */
    method GenerateNeighborCopy(vs: seq<Slot>) returns (next: seq<Slot>, ghost changes: seq<Change>)
      requires Scorable(vs)
      ensures Scorable(next) && Groups(next) == Groups(vs)
      ensures |vs| > 0 ==> 1 <= |changes| <= 3
      ensures AllAllowed(data, vs, changes)
    {
      next, changes := vs, [];
      if |vs| == 0 {
        return;
      }
      var u := Random();
      FractionBelow(u, 3.0, u * 3.0);
      var numChanges := (u * 3.0).Floor + 1;
      var i := 0;
      while i < numChanges
        invariant 0 <= i <= numChanges <= 3 && |changes| == i
        invariant Scorable(next) && Groups(next) == Groups(vs) && AllAllowed(data, vs, changes)
      {
        assert |next| == |Groups(next)|;
        var ch := PickChange(next);
        AllowedOnSameGroups(data, next, vs, ch);
        SafeApplyKeepsScorable(data, next, ch);
        next := SafeApply(next, ch);
        changes := changes + [ch];
        i := i + 1;
      }
    }

    /**
     * `run` as evidently intended: solutions are held by value, so a stored
     * score is always the cost of the stored assignments; the swap is
     * guarded, so no iteration throws; the best never costs more than the
     * greedy start.
     */
    method RunCorrected() returns (best: Candidate, ghost bests: seq<real>)
      ensures Some(best.score) == TotalCost(data, options.weights, studentPreferences, best.slots)
      ensures best.score <= InitialWalk(data, options.weights, studentPreferences).bestScore
      ensures Groups(best.slots) == Groups(InitialSlots(data))
      ensures |bests| == MaxInt(0, options.maxIterations) + 1 && NonIncreasing(bests)
      ensures bests[0] == InitialWalk(data, options.weights, studentPreferences).bestScore && bests[|bests| - 1] == best.score
    {
      InitialSolutionClean(data, options.weights);
      var start := InitialSlots(data);
      var score := EvaluateValues(start);
      var current := Candidate(start, score.value);
      best := current;
      var t := options.initialTemperature;
      var iteration := 0;
      bests := [best.score];
      while iteration < options.maxIterations
        invariant 0 <= iteration <= MaxInt(0, options.maxIterations) && |bests| == iteration + 1
        invariant NonIncreasing(bests) && bests[0] == score.value && bests[iteration] == best.score
        invariant Some(current.score) == TotalCost(data, options.weights, studentPreferences, current.slots)
        invariant Some(best.score) == TotalCost(data, options.weights, studentPreferences, best.slots)
        invariant best.score <= current.score && best.score <= score.value
        invariant Groups(current.slots) == Groups(start) && Groups(best.slots) == Groups(start)
      {
        var next, _ := GenerateNeighborCopy(current.slots);
        var nextScore := EvaluateValues(next);
        var accept := Accept(nextScore.value - current.score, t);
        if accept {
          current := Candidate(next, nextScore.value);
          best := KeepLower(best, current);
        }
        NonIncreasingAppend(bests, best.score);
        bests := bests + [best.score];
        t := Cool(t, options.coolingRate);
        iteration := iteration + 1;
      }
    }
  }
}
