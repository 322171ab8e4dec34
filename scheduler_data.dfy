/**
 * The data the institution-wide timetabler of
 * `backend/src/services/scheduleGenerator.service.js` works on, its options,
 * the indices it builds, and the greedy search for a feasible (room, block)
 * pair that seeds the annealing.
 */
module SchedulerData {
  import opened Common
  import Sorting

  // ---------------------------------------------------------------------------
  // The loaded data
  // ---------------------------------------------------------------------------

  /** A group of the period, with its professor, subject name and enrolment count. */
  datatype GroupRec = GroupRec(id: string, materiaId: string, profesorId: string, materiaNombre: Option<string>, inscripciones: nat)

  /** A room with its type and the ids of the blocks in which it is available, in record order. */
  datatype Classroom = Classroom(id: string, tipo: string, capacidad: int, availability: seq<string>)

  /** A catalogue time block: times of day in milliseconds. */
  datatype Block = Block(id: string, dia: string, horaInicio: int, horaFin: int, turno: JsStr)

  /** A professor with the blocks they are available in and `profesores.carga_max_horas`, if any. */
  datatype Professor = Professor(id: string, availability: seq<string>, cargaMaxHoras: Option<int>)

  /** A stored `preferencias_usuario` record. */
  datatype Preference = Preference(turnoPreferido: JsStr, evitarDias: Option<seq<string>>, compactacion: Option<int>)

  /** `this.data`: the catalogue keeps its query order; preferences are keyed by user id. */
  datatype SAData = SAData(groups: seq<GroupRec>, classrooms: seq<Classroom>, blockList: seq<Block>,
                           professors: seq<Professor>, preferences: map<string, Preference>)

  /** `blocks.reduce((acc, block) => { acc[block.id] = block; ... }, {})`: the last block of an id wins. */
  function BlockMap(bs: seq<Block>): (m: map<string, Block>)
    ensures forall i :: 0 <= i < |bs| ==> bs[i].id in m
    ensures forall k :: k in m ==> m[k].id == k && m[k] in bs
  {
    if bs == [] then map[] else BlockMap(bs[..|bs| - 1])[bs[|bs| - 1].id := bs[|bs| - 1]]
  }

  // ---------------------------------------------------------------------------
  // Options
  // ---------------------------------------------------------------------------

  datatype Weights = Weights(hardConstraint: real, professorConflict: real, classroomConflict: real,
                             capacityViolation: real, typeMismatch: real, professorAvailability: real,
                             classroomAvailability: real, professorMaxHours: real, compactness: real, preference: real)

  datatype Options = Options(maxIterations: int, initialTemperature: real, coolingRate: real, timeoutMs: int, weights: Weights)

  /** The `options` argument: each key that is present replaces the default (the weights as a whole). */
  datatype Overrides = Overrides(maxIterations: Option<int>, initialTemperature: Option<real>, coolingRate: Option<real>,
                                 timeoutMs: Option<int>, weights: Option<Weights>)

  const DefaultWeights := Weights(1000.0, 500.0, 500.0, 300.0, 200.0, 400.0, 400.0, 600.0, 50.0, 30.0)

  /** `{ maxIterations: 10000, initialTemperature: 1000, coolingRate: 0.995, timeoutMs: 30000, weights, ...options }`. */
  function MakeOptions(o: Overrides): (r: Options)
    ensures r.maxIterations == (if o.maxIterations.Some? then o.maxIterations.value else 10000)
    ensures r.initialTemperature == (if o.initialTemperature.Some? then o.initialTemperature.value else 1000.0)
    ensures r.coolingRate == (if o.coolingRate.Some? then o.coolingRate.value else 0.995)
    ensures r.timeoutMs == (if o.timeoutMs.Some? then o.timeoutMs.value else 30000)
    ensures r.weights == (if o.weights.Some? then o.weights.value else DefaultWeights)
  {
    Options(
      if o.maxIterations.Some? then o.maxIterations.value else 10000,
      if o.initialTemperature.Some? then o.initialTemperature.value else 1000.0,
      if o.coolingRate.Some? then o.coolingRate.value else 0.995,
      if o.timeoutMs.Some? then o.timeoutMs.value else 30000,
      if o.weights.Some? then o.weights.value else DefaultWeights)
  }

  /** Every weight is nonnegative (the defaults are). */
  predicate NonNegative(w: Weights)
  {
    w.hardConstraint >= 0.0 && w.professorConflict >= 0.0 && w.classroomConflict >= 0.0 &&
    w.capacityViolation >= 0.0 && w.typeMismatch >= 0.0 && w.professorAvailability >= 0.0 &&
    w.classroomAvailability >= 0.0 && w.professorMaxHours >= 0.0 && w.compactness >= 0.0 && w.preference >= 0.0
  }

  // ---------------------------------------------------------------------------
  // createIndices
  // ---------------------------------------------------------------------------

  /** The rooms of one type, in order: `classrooms.filter(c => c.tipo === t)`. */
  function OfType(cs: seq<Classroom>, t: string): (r: seq<Classroom>)
    ensures forall k :: 0 <= k < |r| ==> r[k] in cs && r[k].tipo == t
    ensures forall k :: 0 <= k < |cs| && cs[k].tipo == t ==> cs[k] in r
  {
    if cs == [] then [] else (if cs[0].tipo == t then [cs[0]] else []) + OfType(cs[1..], t)
  }

  /** The groups of one professor, in order. */
  function GroupsOf(gs: seq<GroupRec>, p: string): (r: seq<GroupRec>)
    ensures forall k :: 0 <= k < |r| ==> r[k] in gs && r[k].profesorId == p
    ensures forall k :: 0 <= k < |gs| && gs[k].profesorId == p ==> gs[k] in r
  {
    if gs == [] then [] else GroupsOf(gs[..|gs| - 1], p) + (if gs[|gs| - 1].profesorId == p then [gs[|gs| - 1]] else [])
  }

  /** `groupsByProfessor`: one entry per professor that has a group, listing their groups in order. */
  function GroupIndex(gs: seq<GroupRec>): (m: map<string, seq<GroupRec>>)
    ensures forall p :: p in m ==> m[p] == GroupsOf(gs, p) && m[p] != []
    ensures forall p :: p !in m ==> GroupsOf(gs, p) == []
  {
    if gs == [] then map[]
    else
      var m := GroupIndex(gs[..|gs| - 1]);
      var g := gs[|gs| - 1];
      assert GroupsOf(gs, g.profesorId) == GroupsOf(gs[..|gs| - 1], g.profesorId) + [g];
      m[g.profesorId := (if g.profesorId in m then m[g.profesorId] else []) + [g]]
  }

  /** The blocks of one day, in order. */
  function BlocksOnDay(bs: seq<Block>, d: string): (r: seq<Block>)
    ensures |r| <= |bs|
  {
    if bs == [] then [] else BlocksOnDay(bs[..|bs| - 1], d) + (if bs[|bs| - 1].dia == d then [bs[|bs| - 1]] else [])
  }

  /** `blocksByDay` over a list of blocks: one entry per day that has a block. */
  function DayIndex(bs: seq<Block>): (m: map<string, seq<Block>>)
    ensures forall d :: d in m ==> m[d] == BlocksOnDay(bs, d) && m[d] != []
    ensures forall d :: d !in m ==> BlocksOnDay(bs, d) == []
  {
    if bs == [] then map[]
    else
      var m := DayIndex(bs[..|bs| - 1]);
      var b := bs[|bs| - 1];
      assert BlocksOnDay(bs, b.dia) == BlocksOnDay(bs[..|bs| - 1], b.dia) + [b];
      m[b.dia := (if b.dia in m then m[b.dia] else []) + [b]]
  }

  /** `Object.values(this.data.blocks)`: each block id once, with its last block, in first-insertion order. */
  function CatalogValues(bs: seq<Block>): (r: seq<Block>)
    ensures forall k :: 0 <= k < |r| ==> r[k] in bs
  {
    var m := BlockMap(bs);
    var ids := Dedup(BlockIds(bs));
    seq(|ids|, i requires 0 <= i < |ids| => m[ids[i]])
  }

  function BlockIds(bs: seq<Block>): (r: seq<string>)
    ensures |r| == |bs| && forall k :: 0 <= k < |r| ==> r[k] == bs[k].id
  {
    if bs == [] then [] else BlockIds(bs[..|bs| - 1]) + [bs[|bs| - 1].id]
  }

  datatype Indices = Indices(teoria: seq<Classroom>, lab: seq<Classroom>,
                             groupsByProfessor: map<string, seq<GroupRec>>, blocksByDay: map<string, seq<Block>>)

  /** `createIndices`. */
  function CreateIndices(data: SAData): (ix: Indices)
    ensures ix.teoria == OfType(data.classrooms, "TEORIA") && ix.lab == OfType(data.classrooms, "LAB")
    ensures forall p :: p in ix.groupsByProfessor <==> exists k :: 0 <= k < |data.groups| && data.groups[k].profesorId == p
    ensures forall p :: p in ix.groupsByProfessor ==> ix.groupsByProfessor[p] == GroupsOf(data.groups, p)
    ensures forall d :: d in ix.blocksByDay ==> ix.blocksByDay[d] == BlocksOnDay(CatalogValues(data.blockList), d)
  {
    var gi := GroupIndex(data.groups);
    forall p | p in gi ensures exists k :: 0 <= k < |data.groups| && data.groups[k].profesorId == p {
      var r := gi[p];
      assert r[0] in data.groups;
    }
    forall k | 0 <= k < |data.groups| ensures data.groups[k].profesorId in gi {
      assert data.groups[k] in GroupsOf(data.groups, data.groups[k].profesorId);
    }
    Indices(OfType(data.classrooms, "TEORIA"), OfType(data.classrooms, "LAB"), gi, DayIndex(CatalogValues(data.blockList)))
  }

  // ---------------------------------------------------------------------------
  // findFeasibleAssignment
  // ---------------------------------------------------------------------------

  /** `group.materias?.nombre?.toLowerCase().includes('laboratorio')`. */
  predicate NeedsLab(g: GroupRec)
  {
    g.materiaNombre.Some? && Contains(ToLower(g.materiaNombre.value), "laboratorio")
  }

  function AulaType(g: GroupRec): string
  {
    if NeedsLab(g) then "LAB" else "TEORIA"
  }

  /** `professors.find(p => p.id === id)`: the first professor with that id. */
  function FindProfessor(ps: seq<Professor>, id: string): (r: Option<Professor>)
    ensures r.Some? ==> r.value in ps && r.value.id == id
    ensures r.None? <==> forall k :: 0 <= k < |ps| ==> ps[k].id != id
  {
    if ps == [] then None else if ps[0].id == id then Some(ps[0]) else FindProfessor(ps[1..], id)
  }

  /** The rooms of the type the group needs that seat its students, in catalogue order. */
  function Suitable(data: SAData, g: GroupRec): (r: seq<Classroom>)
    ensures forall k :: 0 <= k < |r| ==> r[k] in data.classrooms && r[k].tipo == AulaType(g) && r[k].capacidad >= g.inscripciones
    ensures forall c :: c in data.classrooms && c.tipo == AulaType(g) && c.capacidad >= g.inscripciones ==> c in r
  {
    SuitableAmong(data.classrooms, g)
  }

  function SuitableAmong(cs: seq<Classroom>, g: GroupRec): (r: seq<Classroom>)
    ensures forall k :: 0 <= k < |r| ==> r[k] in cs && r[k].tipo == AulaType(g) && r[k].capacidad >= g.inscripciones
    ensures forall c :: c in cs && c.tipo == AulaType(g) && c.capacidad >= g.inscripciones ==> c in r
  {
    if cs == [] then []
    else
      var rest := SuitableAmong(cs[1..], g);
      assert forall c :: c in cs && c != cs[0] ==> c in cs[1..];
      if cs[0].tipo == AulaType(g) && cs[0].capacidad >= g.inscripciones then [cs[0]] + rest else rest
  }

  function Capacidad(c: Classroom): int { c.capacidad }

  /** The suitable rooms, tightest first (a stable sort by capacity). */
  function SuitableByCapacity(data: SAData, g: GroupRec): seq<Classroom>
  {
    Sorting.SortBy(Suitable(data, g), Capacidad, Sorting.LeInt)
  }

  /**
   * `(turnoOrder[turno] || 3)` with `turnoOrder = { MANANA: 0, TARDE: 1, NOCHE: 2 }`:
   * MANANA's 0 is falsy, so it ranks 3 like an unset shift.
   */
  function TurnoRank(t: JsStr): int
  {
    if t == Str("TARDE") then 1 else if t == Str("NOCHE") then 2 else 3
  }

  function BlockRank(b: Block): int { TurnoRank(b.turno) }

  /** The source orders blocks TARDE, NOCHE, then MANANA together with unset shifts. */
  lemma TurnoRankOrder()
    ensures TurnoRank(Str("TARDE")) < TurnoRank(Str("NOCHE")) < TurnoRank(Str("MANANA"))
    ensures TurnoRank(Str("MANANA")) == TurnoRank(Null)
  {
  }

  /**
   * The order the comment beside `turnoOrder` intends (morning, afternoon,
   * evening, then anything else), as `turnoOrder[turno] ?? 3` would give it.
   */
  function IntendedTurnoRank(t: JsStr): int
  {
    if t == Str("MANANA") then 0 else TurnoRank(t)
  }

  function IntendedBlockRank(b: Block): int { IntendedTurnoRank(b.turno) }

  lemma IntendedTurnoRankOrder()
    ensures IntendedTurnoRank(Str("MANANA")) < IntendedTurnoRank(Str("TARDE")) < IntendedTurnoRank(Str("NOCHE")) < IntendedTurnoRank(Null)
  {
  }

  /**
   * The blocks both the room and the professor are available in: the room's
   * distinct block ids in order, those in the professor's set, looked up in
   * the catalogue (unknown ids dropped).
   */
  function CommonBlocks(data: SAData, c: Classroom, prof: Professor): (r: seq<Block>)
    ensures forall k :: 0 <= k < |r| ==>
      r[k].id in c.availability && r[k].id in prof.availability && r[k].id in BlockMap(data.blockList) &&
      BlockMap(data.blockList)[r[k].id] == r[k]
    ensures forall id :: id in c.availability && id in prof.availability && id in BlockMap(data.blockList) ==>
      BlockMap(data.blockList)[id] in r
  {
    LookupIn(BlockMap(data.blockList), Dedup(c.availability), prof.availability)
  }

  function LookupIn(m: map<string, Block>, ids: seq<string>, allowed: seq<string>): (r: seq<Block>)
    ensures forall k :: 0 <= k < |r| ==> r[k].id in ids && r[k].id in allowed && r[k].id in m && m[r[k].id] == r[k]
    ensures forall id :: id in ids && id in allowed && id in m && m[id].id == id ==> m[id] in r
  {
    if ids == [] then []
    else
      var rest := LookupIn(m, ids[1..], allowed);
      assert forall id :: id in ids && id != ids[0] ==> id in ids[1..];
      if ids[0] in allowed && ids[0] in m && m[ids[0]].id == ids[0] then [m[ids[0]]] + rest else rest
  }

  /** The common blocks, best shift rank first (stable). */
  function RankedBlocks(data: SAData, c: Classroom, prof: Professor): seq<Block>
  {
    Sorting.SortBy(CommonBlocks(data, c, prof), BlockRank, Sorting.LeInt)
  }

  /** The common blocks under the intended ranking. */
  function IntendedRankedBlocks(data: SAData, c: Classroom, prof: Professor): seq<Block>
  {
    Sorting.SortBy(CommonBlocks(data, c, prof), IntendedBlockRank, Sorting.LeInt)
  }

  /** As written: whenever an afternoon block is shared, an afternoon block comes first, even if a morning block is shared too. */
  lemma AfternoonBeforeMorning(data: SAData, c: Classroom, prof: Professor, b: Block)
    requires b in CommonBlocks(data, c, prof) && b.turno == Str("TARDE")
    ensures RankedBlocks(data, c, prof) != [] && RankedBlocks(data, c, prof)[0].turno == Str("TARDE")
  {
    FirstRanked(CommonBlocks(data, c, prof), BlockRank, b);
  }

  /** Under the intended ranking, a shared morning block is always the one chosen first. */
  lemma IntendedMorningFirst(data: SAData, c: Classroom, prof: Professor, b: Block)
    requires b in CommonBlocks(data, c, prof) && b.turno == Str("MANANA")
    ensures IntendedRankedBlocks(data, c, prof) != [] && IntendedRankedBlocks(data, c, prof)[0].turno == Str("MANANA")
  {
    var common := CommonBlocks(data, c, prof);
    FirstRanked(common, IntendedBlockRank, b);
    IntendedRankZero(Sorting.SortBy(common, IntendedBlockRank, Sorting.LeInt)[0].turno);
  }

  /** Only the morning shift ranks first under the intended order. */
  lemma IntendedRankZero(t: JsStr)
    ensures IntendedTurnoRank(t) <= 0 ==> t == Str("MANANA")
  {
  }

  /** The first block ranked by `rank` ranks no worse than any block `b` of the input. */
  lemma FirstRanked(bs: seq<Block>, rank: Block -> int, b: Block)
    requires b in bs
    ensures Sorting.SortBy(bs, rank, Sorting.LeInt) != []
    ensures rank(Sorting.SortBy(bs, rank, Sorting.LeInt)[0]) <= rank(b)
  {
    var i := IndexOf(bs, b);
    Sorting.IntOrdersAreTotalPreorders();
    Sorting.SortedEnds(bs, rank, Sorting.LeInt, i);
  }

  /** The first room of `cs` with a common block, and its best-ranked block. */
  function FirstFeasible(data: SAData, cs: seq<Classroom>, prof: Professor): Option<(Classroom, Block)>
  {
    if cs == [] then None
    else
      var bs := RankedBlocks(data, cs[0], prof);
      if |bs| > 0 then Some((cs[0], bs[0])) else FirstFeasible(data, cs[1..], prof)
  }

  /** `findFeasibleAssignment` as a value: none when the professor is unknown. */
  function Feasible(data: SAData, g: GroupRec): Option<(Classroom, Block)>
  {
    var prof := FindProfessor(data.professors, g.profesorId);
    if prof.None? then None else FirstFeasible(data, SuitableByCapacity(data, g), prof.value)
  }

  /** The room `FirstFeasible` picks is the first of `cs` that shares a block with the professor. */
  lemma {:induction false} FirstFeasibleAt(data: SAData, cs: seq<Classroom>, prof: Professor) returns (k: nat)
    requires FirstFeasible(data, cs, prof).Some?
    ensures k < |cs| && cs[k] == FirstFeasible(data, cs, prof).value.0
    ensures RankedBlocks(data, cs[k], prof) != [] && FirstFeasible(data, cs, prof).value.1 == RankedBlocks(data, cs[k], prof)[0]
    ensures forall j :: 0 <= j < k ==> CommonBlocks(data, cs[j], prof) == []
  {
    if RankedBlocks(data, cs[0], prof) != [] {
      k := 0;
    } else {
      var k' := FirstFeasibleAt(data, cs[1..], prof);
      k := k' + 1;
      forall j | 0 <= j < k ensures CommonBlocks(data, cs[j], prof) == [] {
        if j > 0 {
          assert cs[j] == cs[1..][j - 1];
        }
      }
    }
  }

  /** `FirstFeasible` finds nothing exactly when no room of `cs` shares a block with the professor. */
  lemma {:induction false} FirstFeasibleNone(data: SAData, cs: seq<Classroom>, prof: Professor)
    ensures FirstFeasible(data, cs, prof).None? <==> forall k :: 0 <= k < |cs| ==> CommonBlocks(data, cs[k], prof) == []
  {
    if cs != [] {
      FirstFeasibleNone(data, cs[1..], prof);
      assert forall k :: 1 <= k < |cs| ==> cs[k] == cs[1..][k - 1];
    }
  }

  /** Sorting by capacity keeps exactly the suitable rooms. */
  lemma SuitableByCapacityMembers(data: SAData, g: GroupRec, c: Classroom)
    ensures c in SuitableByCapacity(data, g) <==> c in Suitable(data, g)
  {
    assert multiset(SuitableByCapacity(data, g)) == multiset(Suitable(data, g));
    assert c in SuitableByCapacity(data, g) <==> c in multiset(SuitableByCapacity(data, g));
    assert c in Suitable(data, g) <==> c in multiset(Suitable(data, g));
  }

  /** A ranked block is a common block. */
  lemma RankedIsCommon(data: SAData, c: Classroom, prof: Professor, k: nat)
    requires k < |RankedBlocks(data, c, prof)|
    ensures RankedBlocks(data, c, prof)[k] in CommonBlocks(data, c, prof)
  {
    var r := RankedBlocks(data, c, prof);
    assert r[k] in multiset(r);
  }

  /**
   * What `findFeasibleAssignment` promises when it answers: a room of the
   * needed type that seats the group, and a catalogue block both the room and
   * the professor are available in. Conflicts with other groups are never
   * checked.
   */
  lemma FeasibleSound(data: SAData, g: GroupRec)
    requires Feasible(data, g).Some?
    ensures var (c, b) := Feasible(data, g).value;
      FindProfessor(data.professors, g.profesorId).Some? &&
      c in data.classrooms && c.tipo == AulaType(g) && c.capacidad >= g.inscripciones &&
      b.id in c.availability && b.id in FindProfessor(data.professors, g.profesorId).value.availability &&
      b.id in BlockMap(data.blockList) && BlockMap(data.blockList)[b.id] == b
  {
    var prof := FindProfessor(data.professors, g.profesorId).value;
    var sorted := SuitableByCapacity(data, g);
    var k := FirstFeasibleAt(data, sorted, prof);
    SuitableByCapacityMembers(data, g, sorted[k]);
    RankedIsCommon(data, sorted[k], prof, 0);
  }

  /** It answers nothing exactly when the professor is unknown or no suitable room shares a block with them. */
  lemma FeasibleNone(data: SAData, g: GroupRec)
    ensures Feasible(data, g).None? <==>
      FindProfessor(data.professors, g.profesorId).None? ||
      forall c :: c in Suitable(data, g) ==> CommonBlocks(data, c, FindProfessor(data.professors, g.profesorId).value) == []
  {
    var prof := FindProfessor(data.professors, g.profesorId);
    if prof.Some? {
      var sorted := SuitableByCapacity(data, g);
      FirstFeasibleNone(data, sorted, prof.value);
      forall c | c in Suitable(data, g) ensures c in sorted {
        SuitableByCapacityMembers(data, g, c);
      }
      forall k | 0 <= k < |sorted| ensures sorted[k] in Suitable(data, g) {
        SuitableByCapacityMembers(data, g, sorted[k]);
      }
    }
  }

  /**
   * Rooms are tried tightest first: every suitable room with less capacity
   * than the chosen one shares no block with the professor.
   */
  lemma FeasibleTightestRoom(data: SAData, g: GroupRec, c': Classroom)
    requires Feasible(data, g).Some?
    requires c' in Suitable(data, g) && c'.capacidad < Feasible(data, g).value.0.capacidad
    ensures CommonBlocks(data, c', FindProfessor(data.professors, g.profesorId).value) == []
  {
    var prof := FindProfessor(data.professors, g.profesorId).value;
    var sorted := SuitableByCapacity(data, g);
    var k := FirstFeasibleAt(data, sorted, prof);
    SuitableByCapacityMembers(data, g, c');
    var j := IndexOf(sorted, c');
    if j > k {
      Sorting.IntOrdersAreTotalPreorders();
      Sorting.SortedAt(Suitable(data, g), Capacidad, Sorting.LeInt, k, j);
      assert false;
    } else if j == k {
      assert false;
    }
  }

  /** The chosen block has the best shift rank among the blocks the room and the professor share. */
  lemma FeasibleBestShift(data: SAData, g: GroupRec, b': Block)
    requires Feasible(data, g).Some?
    requires b' in CommonBlocks(data, Feasible(data, g).value.0, FindProfessor(data.professors, g.profesorId).value)
    ensures TurnoRank(Feasible(data, g).value.1.turno) <= TurnoRank(b'.turno)
  {
    var prof := FindProfessor(data.professors, g.profesorId).value;
    var sorted := SuitableByCapacity(data, g);
    var k := FirstFeasibleAt(data, sorted, prof);
    var common := CommonBlocks(data, sorted[k], prof);
    var i := IndexOf(common, b');
    Sorting.IntOrdersAreTotalPreorders();
    Sorting.SortedEnds(common, BlockRank, Sorting.LeInt, i);
  }

  /**
   * `findFeasibleAssignment`: the rooms in capacity order, for each its
   * ranked common blocks; the first such block is returned, since the
   * source's check for conflicts with the professor's other groups always
   * answers "no conflict".
   */
  method FindFeasibleAssignment(data: SAData, g: GroupRec) returns (r: Option<(Classroom, Block)>)
    ensures r == Feasible(data, g)
  {
    var professor := FindProfessor(data.professors, g.profesorId);
    if professor.None? {
      return None;
    }
    var suitableClassrooms := SuitableByCapacity(data, g);
    var k := 0;
    while k < |suitableClassrooms|
      invariant 0 <= k <= |suitableClassrooms|
      invariant FirstFeasible(data, suitableClassrooms, professor.value) == FirstFeasible(data, suitableClassrooms[k..], professor.value)
    {
      var classroom := suitableClassrooms[k];
      var availableBlocks := RankedBlocks(data, classroom, professor.value);
      if |availableBlocks| > 0 {
        return Some((classroom, availableBlocks[0]));
      }
      assert suitableClassrooms[k..][1..] == suitableClassrooms[k + 1..];
      k := k + 1;
    }
    return None;
  }
}
