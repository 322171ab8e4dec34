/**
 * The cost `evaluateSolution` gives a solution of the institution-wide
 * timetabler (`backend/src/services/scheduleGenerator.service.js`); lower is
 * better.
 *
 * `Cost` is the specification: it walks the assignments in order and keeps,
 * like the source, the block ids used so far per professor and per room, so
 * that a repeated (professor, block) or (room, block) pair is charged once
 * per repetition. Then come the professors' maximum load, the gaps in their
 * days and their stored preferences. The methods below are the source's
 * loops, each proved to compute its part of `Cost`.
 */
module SchedulerCost {
  import opened Common
  import opened SchedulerData
  import Sorting

  /** One assignment as the scoring reads it. */
  datatype Slot = Slot(group: GroupRec, classroom: Option<Classroom>, block: Option<Block>, valid: bool)

  /** A valid assignment with both its room and its block. */
  predicate Counted(v: Slot)
  {
    v.valid && v.classroom.Some? && v.block.Some?
  }

  /** The scoring dereferences the room and the block of every valid assignment: it throws unless both are set. */
  predicate Scorable(vs: seq<Slot>)
  {
    forall k :: 0 <= k < |vs| && vs[k].valid ==> vs[k].classroom.Some? && vs[k].block.Some?
  }

  /** `set.add(k)` on a set kept as its insertion order. */
  function AddKey(s: seq<string>, k: string): (r: seq<string>)
    ensures forall x :: x in r <==> x in s || x == k
    ensures r != []
  {
    if k in s then s else s + [k]
  }

  // ---------------------------------------------------------------------------
  // What the main loop accumulates
  // ---------------------------------------------------------------------------

  /** `professorBlocks[p]`: the block ids of `p`'s scored assignments, in first-use order. */
  function ProfBlockIds(vs: seq<Slot>, p: string): seq<string>
  {
    if vs == [] then []
    else
      var v := vs[|vs| - 1];
      var prev := ProfBlockIds(vs[..|vs| - 1], p);
      if Counted(v) && v.group.profesorId == p then AddKey(prev, v.block.value.id) else prev
  }

  /** `classroomBlocks[r]`: the block ids used in room `r`, in first-use order. */
  function RoomBlockIds(vs: seq<Slot>, r: string): seq<string>
  {
    if vs == [] then []
    else
      var v := vs[|vs| - 1];
      var prev := RoomBlockIds(vs[..|vs| - 1], r);
      if Counted(v) && v.classroom.value.id == r then AddKey(prev, v.block.value.id) else prev
  }

  /** `professorHours[p]`: the summed lengths, in hours, of `p`'s scored blocks. */
  function ProfHours(vs: seq<Slot>, p: string): real
  {
    if vs == [] then 0.0
    else
      var v := vs[|vs| - 1];
      ProfHours(vs[..|vs| - 1], p) +
        (if Counted(v) && v.group.profesorId == p then Hours(v.block.value.horaFin - v.block.value.horaInicio) else 0.0)
  }

  /** The keys of `professorHours` (and of `professorBlocks`) in insertion order. */
  function ProfessorKeys(vs: seq<Slot>): seq<string>
  {
    if vs == [] then []
    else
      var v := vs[|vs| - 1];
      var prev := ProfessorKeys(vs[..|vs| - 1]);
      if Counted(v) then AddKey(prev, v.group.profesorId) else prev
  }

  /** The professor of the group is known and available in the block. */
  predicate ProfessorAvailable(data: SAData, g: GroupRec, b: Block)
  {
    var prof := FindProfessor(data.professors, g.profesorId);
    prof.Some? && b.id in prof.value.availability
  }

  /** Check 1: the professor is known and available in the block. */
  function AvailabilityTerm(data: SAData, w: Weights, g: GroupRec, b: Block): real
  {
    if !ProfessorAvailable(data, g, b) then w.professorAvailability else 0.0
  }

  /** Check 2: the room is available in the block. */
  function RoomTerm(w: Weights, c: Classroom, b: Block): real
  {
    if b.id !in c.availability then w.classroomAvailability else 0.0
  }

  /** Check 3: each student over the room's capacity costs `capacityViolation`. */
  function CapacityTerm(w: Weights, g: GroupRec, c: Classroom): real
  {
    if c.capacidad < g.inscripciones then w.capacityViolation * (g.inscripciones - c.capacidad) as real else 0.0
  }

  /** Check 4: the room has the type the subject needs. */
  function TypeTerm(w: Weights, g: GroupRec, c: Classroom): real
  {
    if c.tipo != AulaType(g) then w.typeMismatch else 0.0
  }

  /** The four checks of one scored assignment that look at it alone. */
  function LocalPenalty(data: SAData, w: Weights, v: Slot): real
    requires Counted(v)
  {
    var g, c, b := v.group, v.classroom.value, v.block.value;
    AvailabilityTerm(data, w, g, b) + RoomTerm(w, c, b) + CapacityTerm(w, g, c) + TypeTerm(w, g, c)
  }

  /** What one assignment adds in the main loop, given the assignments before it. */
  function StepPenalty(data: SAData, w: Weights, prev: seq<Slot>, v: Slot): real
  {
    if !v.valid then w.hardConstraint * 10.0
    else if !Counted(v) then 0.0
    else
      LocalPenalty(data, w, v) +
      (if v.block.value.id in ProfBlockIds(prev, v.group.profesorId) then w.professorConflict else 0.0) +
      (if v.block.value.id in RoomBlockIds(prev, v.classroom.value.id) then w.classroomConflict else 0.0)
  }

  /** The score of the main loop over the assignments. */
  function LoopScore(data: SAData, w: Weights, vs: seq<Slot>): real
  {
    if vs == [] then 0.0
    else LoopScore(data, w, vs[..|vs| - 1]) + StepPenalty(data, w, vs[..|vs| - 1], vs[|vs| - 1])
  }

  // ---------------------------------------------------------------------------
  // Maximum load
  // ---------------------------------------------------------------------------

  /** `professor?.profesores?.carga_max_horas || 20`: an unknown professor, a missing load and a load of 0 mean 20. */
  function MaxHours(data: SAData, p: string): real
  {
    var prof := FindProfessor(data.professors, p);
    if prof.Some? && prof.value.cargaMaxHoras.Some? && prof.value.cargaMaxHoras.value != 0
    then prof.value.cargaMaxHoras.value as real
    else 20.0
  }

  function HoursPenalty(w: Weights, hours: real, maxHours: real): real
  {
    if hours > maxHours then w.professorMaxHours * (hours - maxHours) else 0.0
  }

  function MaxHoursScore(data: SAData, w: Weights, ps: seq<string>, vs: seq<Slot>): real
  {
    if ps == [] then 0.0
    else
      var p := ps[|ps| - 1];
      MaxHoursScore(data, w, ps[..|ps| - 1], vs) + HoursPenalty(w, ProfHours(vs, p), MaxHours(data, p))
  }

  // ---------------------------------------------------------------------------
  // evaluateCompactness
  // ---------------------------------------------------------------------------

  /** `ids.map(id => blocks[id]).filter(Boolean)`. */
  function LookupBlocks(m: map<string, Block>, ids: seq<string>): (r: seq<Block>)
    ensures |r| <= |ids|
  {
    if ids == [] then []
    else
      var id := ids[|ids| - 1];
      LookupBlocks(m, ids[..|ids| - 1]) + (if id in m then [m[id]] else [])
  }

  /** The keys of `blocksByDay`, in insertion order. */
  function DaysOf(bs: seq<Block>): seq<string>
  {
    if bs == [] then [] else AddKey(DaysOf(bs[..|bs| - 1]), bs[|bs| - 1].dia)
  }

  function StartOf(b: Block): int { b.horaInicio }

  /** The gap between two consecutive blocks, when it is more than an hour. */
  function LongGap(prev: Block, next: Block): real
  {
    var gapHours := Hours(next.horaInicio - prev.horaFin);
    if gapHours > 1.0 then gapHours else 0.0
  }

  /** The summed long gaps between consecutive blocks. */
  function TotalGap(bs: seq<Block>): real
  {
    if |bs| <= 1 then 0.0
    else TotalGap(bs[..|bs| - 1]) + LongGap(bs[|bs| - 2], bs[|bs| - 1])
  }

  /** `dayBlocks.sort((a, b) => a.hora_inicio - b.hora_inicio)`. */
  function SortByStart(bs: seq<Block>): (r: seq<Block>)
    ensures |r| == |bs|
  {
    Sorting.SortBy(bs, StartOf, Sorting.LeInt)
  }

  /** One day of one professor: free for a single block, else the long gaps once sorted by start. */
  function DayPenalty(w: Weights, dayBlocks: seq<Block>): real
  {
    if |dayBlocks| <= 1 then 0.0
    else TotalGap(SortByStart(dayBlocks)) * w.compactness
  }

  function DaysPenalty(w: Weights, days: seq<string>, objs: seq<Block>): real
  {
    if days == [] then 0.0
    else DaysPenalty(w, days[..|days| - 1], objs) + DayPenalty(w, BlocksOnDay(objs, days[|days| - 1]))
  }

  /** The compactness penalty of one professor's set of block ids. */
  function ProfCompactness(data: SAData, w: Weights, ids: seq<string>): real
  {
    var objs := LookupBlocks(BlockMap(data.blockList), ids);
    DaysPenalty(w, DaysOf(objs), objs)
  }

  function CompactnessScore(data: SAData, w: Weights, ps: seq<string>, vs: seq<Slot>): real
  {
    if ps == [] then 0.0
    else CompactnessScore(data, w, ps[..|ps| - 1], vs) + ProfCompactness(data, w, ProfBlockIds(vs, ps[|ps| - 1]))
  }

  // ---------------------------------------------------------------------------
  // evaluatePreferences
  // ---------------------------------------------------------------------------

  /** A wrong shift costs `preference`, a day to avoid twice that; only for professors with a stored preference. */
  function PreferenceStep(data: SAData, w: Weights, v: Slot): real
  {
    if !Counted(v) || v.group.profesorId !in data.preferences then 0.0
    else
      var pref, b := data.preferences[v.group.profesorId], v.block.value;
      (if pref.turnoPreferido.Truthy() && b.turno != pref.turnoPreferido then w.preference else 0.0) +
      (if pref.evitarDias.Some? && b.dia in pref.evitarDias.value then w.preference * 2.0 else 0.0)
  }

  function PreferenceScore(data: SAData, w: Weights, vs: seq<Slot>): real
  {
    if vs == [] then 0.0 else PreferenceScore(data, w, vs[..|vs| - 1]) + PreferenceStep(data, w, vs[|vs| - 1])
  }

  /**
   * `evaluateSolution`: the main loop, the maximum-load check, compactness and
   * preferences; nothing when the scoring would throw.
   */
  function Cost(data: SAData, w: Weights, vs: seq<Slot>): (r: Option<real>)
    ensures r.Some? <==> Scorable(vs)
  {
    if !Scorable(vs) then None
    else
      var keys := ProfessorKeys(vs);
      Some(LoopScore(data, w, vs) + MaxHoursScore(data, w, keys, vs) + CompactnessScore(data, w, keys, vs) +
           PreferenceScore(data, w, vs))
  }

  // ---------------------------------------------------------------------------
  // The loops of evaluateSolution
  // ---------------------------------------------------------------------------

  lemma LoopScoreAppend(data: SAData, w: Weights, prefix: seq<Slot>, v: Slot)
    ensures LoopScore(data, w, prefix + [v]) == LoopScore(data, w, prefix) + StepPenalty(data, w, prefix, v)
  {
    assert (prefix + [v])[..|prefix|] == prefix;
  }

  lemma ScorableAppend(prefix: seq<Slot>, v: Slot)
    ensures Scorable(prefix + [v]) <==> Scorable(prefix) && (v.valid ==> v.classroom.Some? && v.block.Some?)
  {
    if Scorable(prefix + [v]) {
      assert (prefix + [v])[|prefix|] == v;
      assert forall k :: 0 <= k < |prefix| ==> (prefix + [v])[k] == prefix[k];
    }
  }

  /** `professorBlocks` has an entry for `p` exactly when `p` was seen, holding the block ids of their assignments. */
  ghost predicate ProfessorEntry(professorBlocks: map<string, seq<string>>, keys: seq<string>, prefix: seq<Slot>, p: string)
  {
    (p in professorBlocks <==> p in keys) &&
    (if p in professorBlocks then professorBlocks[p] == ProfBlockIds(prefix, p) else ProfBlockIds(prefix, p) == [])
  }

  /** `classroomBlocks` holds, for room `r`, the block ids used in it. */
  ghost predicate RoomEntry(classroomBlocks: map<string, seq<string>>, prefix: seq<Slot>, r: string)
  {
    if r in classroomBlocks then classroomBlocks[r] == RoomBlockIds(prefix, r) else RoomBlockIds(prefix, r) == []
  }

  /** `professorHours` has an entry for `p` exactly when `p` was seen, holding their hours. */
  ghost predicate HoursEntry(professorHours: map<string, real>, keys: seq<string>, prefix: seq<Slot>, p: string)
  {
    (p in professorHours <==> p in keys) &&
    (if p in professorHours then professorHours[p] == ProfHours(prefix, p) else ProfHours(prefix, p) == 0.0)
  }

  ghost predicate TracksProfessors(professorBlocks: map<string, seq<string>>, keys: seq<string>, prefix: seq<Slot>)
  {
    forall p :: ProfessorEntry(professorBlocks, keys, prefix, p)
  }

  ghost predicate TracksRooms(classroomBlocks: map<string, seq<string>>, prefix: seq<Slot>)
  {
    forall r :: RoomEntry(classroomBlocks, prefix, r)
  }

  ghost predicate TracksHours(professorHours: map<string, real>, keys: seq<string>, prefix: seq<Slot>)
  {
    forall p :: HoursEntry(professorHours, keys, prefix, p)
  }

  /** The bookkeeping of the main loop describes the assignments `prefix` seen so far. */
  ghost predicate Tracks(professorBlocks: map<string, seq<string>>, classroomBlocks: map<string, seq<string>>,
                         professorHours: map<string, real>, keys: seq<string>, prefix: seq<Slot>)
  {
    keys == ProfessorKeys(prefix) && TracksProfessors(professorBlocks, keys, prefix) &&
    TracksRooms(classroomBlocks, prefix) && TracksHours(professorHours, keys, prefix)
  }

  /** An assignment the scoring skips leaves the bookkeeping as it is. */
  lemma TracksSkip(professorBlocks: map<string, seq<string>>, classroomBlocks: map<string, seq<string>>,
                   professorHours: map<string, real>, keys: seq<string>, prefix: seq<Slot>, v: Slot)
    requires Tracks(professorBlocks, classroomBlocks, professorHours, keys, prefix) && !Counted(v)
    ensures Tracks(professorBlocks, classroomBlocks, professorHours, keys, prefix + [v])
  {
    assert (prefix + [v])[..|prefix|] == prefix;
    forall p ensures ProfessorEntry(professorBlocks, keys, prefix + [v], p) && HoursEntry(professorHours, keys, prefix + [v], p) {
      assert ProfessorEntry(professorBlocks, keys, prefix, p) && HoursEntry(professorHours, keys, prefix, p);
    }
    forall r ensures RoomEntry(classroomBlocks, prefix + [v], r) {
      assert RoomEntry(classroomBlocks, prefix, r);
    }
  }

  lemma TracksProfessorsStep(professorBlocks: map<string, seq<string>>, keys: seq<string>, prefix: seq<Slot>, v: Slot)
    requires TracksProfessors(professorBlocks, keys, prefix) && Counted(v)
    ensures var p := v.group.profesorId;
      TracksProfessors(professorBlocks[p := AddKey(if p in professorBlocks then professorBlocks[p] else [], v.block.value.id)],
                       AddKey(keys, p), prefix + [v])
  {
    assert (prefix + [v])[..|prefix|] == prefix;
    var p := v.group.profesorId;
    var m := professorBlocks[p := AddKey(if p in professorBlocks then professorBlocks[p] else [], v.block.value.id)];
    forall q ensures ProfessorEntry(m, AddKey(keys, p), prefix + [v], q) {
      assert ProfessorEntry(professorBlocks, keys, prefix, q);
    }
  }

  lemma TracksRoomsStep(classroomBlocks: map<string, seq<string>>, prefix: seq<Slot>, v: Slot)
    requires TracksRooms(classroomBlocks, prefix) && Counted(v)
    ensures var r := v.classroom.value.id;
      TracksRooms(classroomBlocks[r := AddKey(if r in classroomBlocks then classroomBlocks[r] else [], v.block.value.id)], prefix + [v])
  {
    assert (prefix + [v])[..|prefix|] == prefix;
    var r := v.classroom.value.id;
    var m := classroomBlocks[r := AddKey(if r in classroomBlocks then classroomBlocks[r] else [], v.block.value.id)];
    forall q ensures RoomEntry(m, prefix + [v], q) {
      assert RoomEntry(classroomBlocks, prefix, q);
    }
  }

  lemma TracksHoursStep(professorHours: map<string, real>, keys: seq<string>, prefix: seq<Slot>, v: Slot)
    requires TracksHours(professorHours, keys, prefix) && Counted(v)
    ensures var p, b := v.group.profesorId, v.block.value;
      TracksHours(professorHours[p := (if p in professorHours then professorHours[p] else 0.0) + Hours(b.horaFin - b.horaInicio)],
                  AddKey(keys, p), prefix + [v])
  {
    assert (prefix + [v])[..|prefix|] == prefix;
    var p, b := v.group.profesorId, v.block.value;
    var m := professorHours[p := (if p in professorHours then professorHours[p] else 0.0) + Hours(b.horaFin - b.horaInicio)];
    forall q ensures HoursEntry(m, AddKey(keys, p), prefix + [v], q) {
      assert HoursEntry(professorHours, keys, prefix, q);
    }
  }

  /** A scored assignment moves the bookkeeping on as the main loop does. */
  lemma TracksStep(professorBlocks: map<string, seq<string>>, classroomBlocks: map<string, seq<string>>,
                   professorHours: map<string, real>, keys: seq<string>, prefix: seq<Slot>, v: Slot)
    requires Tracks(professorBlocks, classroomBlocks, professorHours, keys, prefix) && Counted(v)
    ensures var p, r, b := v.group.profesorId, v.classroom.value.id, v.block.value;
      Tracks(professorBlocks[p := AddKey(if p in professorBlocks then professorBlocks[p] else [], b.id)],
             classroomBlocks[r := AddKey(if r in classroomBlocks then classroomBlocks[r] else [], b.id)],
             professorHours[p := (if p in professorHours then professorHours[p] else 0.0) + Hours(b.horaFin - b.horaInicio)],
             AddKey(keys, p), prefix + [v])
  {
    assert (prefix + [v])[..|prefix|] == prefix;
    TracksProfessorsStep(professorBlocks, keys, prefix, v);
    TracksRoomsStep(classroomBlocks, prefix, v);
    TracksHoursStep(professorHours, keys, prefix, v);
  }

  /** One scored assignment of the main loop: what it adds to the score, and the updated bookkeeping. */
  method ScoreAssignment(data: SAData, w: Weights, professorBlocks: map<string, seq<string>>, classroomBlocks: map<string, seq<string>>,
                         professorHours: map<string, real>, keys: seq<string>, ghost prefix: seq<Slot>, v: Slot)
    returns (penalty: real, professorBlocks': map<string, seq<string>>, classroomBlocks': map<string, seq<string>>,
             professorHours': map<string, real>, keys': seq<string>)
    requires Tracks(professorBlocks, classroomBlocks, professorHours, keys, prefix) && Counted(v)
    ensures penalty == StepPenalty(data, w, prefix, v)
    ensures var p, r, b := v.group.profesorId, v.classroom.value.id, v.block.value;
      professorBlocks' == professorBlocks[p := AddKey(if p in professorBlocks then professorBlocks[p] else [], b.id)] &&
      classroomBlocks' == classroomBlocks[r := AddKey(if r in classroomBlocks then classroomBlocks[r] else [], b.id)] &&
      professorHours' == professorHours[p := (if p in professorHours then professorHours[p] else 0.0) + Hours(b.horaFin - b.horaInicio)] &&
      keys' == AddKey(keys, p)
  {
    var group, classroom, block := v.group, v.classroom.value, v.block.value;
    assert v == Slot(group, Some(classroom), Some(block), true);
    var professorId := group.profesorId;
    assert ProfessorEntry(professorBlocks, keys, prefix, professorId);
    assert RoomEntry(classroomBlocks, prefix, classroom.id);
    penalty := CheckAssignment(data, w, group, classroom, block);
    var blockKey := block.id;
    var professorRepeat, classroomRepeat;
    professorRepeat, professorBlocks' := RecordUse(professorBlocks, professorId, blockKey);
    assert professorRepeat <==> blockKey in ProfBlockIds(prefix, professorId);
    if professorRepeat {
      penalty := penalty + w.professorConflict;
    }
    classroomRepeat, classroomBlocks' := RecordUse(classroomBlocks, classroom.id, blockKey);
    assert classroomRepeat <==> blockKey in RoomBlockIds(prefix, classroom.id);
    if classroomRepeat {
      penalty := penalty + w.classroomConflict;
    }
    // `if (!professorHours[p]) professorHours[p] = 0` also resets a total of 0 to 0
    var hoursSoFar := if professorId in professorHours then professorHours[professorId] else 0.0;
    var blockHours := Hours(block.horaFin - block.horaInicio);
    professorHours' := professorHours[professorId := hoursSoFar + blockHours];
    keys' := AddKey(keys, professorId);
  }

  /**
   * The main loop: the score, and the per-professor block sets and hours it
   * leaves behind, keyed by the professors in insertion order; `ok` is false
   * where the source throws on an assignment without a room or a block.
   */
  method EvaluateAssignments(data: SAData, w: Weights, vs: seq<Slot>)
    returns (ok: bool, score: real, professorBlocks: map<string, seq<string>>, professorHours: map<string, real>, keys: seq<string>)
    ensures ok <==> Scorable(vs)
    ensures ok ==> score == LoopScore(data, w, vs) && keys == ProfessorKeys(vs)
    ensures ok ==> forall p :: p in keys ==>
      p in professorBlocks && professorBlocks[p] == ProfBlockIds(vs, p) && p in professorHours && professorHours[p] == ProfHours(vs, p)
  {
    score := 0.0;
    professorBlocks, professorHours, keys := map[], map[], [];
    var classroomBlocks: map<string, seq<string>> := map[];
    var i := 0;
    while i < |vs|
      invariant 0 <= i <= |vs|
      invariant Scorable(vs[..i])
      invariant score == LoopScore(data, w, vs[..i])
      invariant Tracks(professorBlocks, classroomBlocks, professorHours, keys, vs[..i])
    {
      var a := vs[i];
      assert vs[..i + 1] == vs[..i] + [a];
      LoopScoreAppend(data, w, vs[..i], a);
      ScorableAppend(vs[..i], a);
      if !a.valid {
        score := score + w.hardConstraint * 10.0;
        TracksSkip(professorBlocks, classroomBlocks, professorHours, keys, vs[..i], a);
        i := i + 1;
        continue;
      }
      if a.classroom.None? || a.block.None? {
        // `block.id` or `classroom.availability` of null throws
        assert vs[i].valid;
        return false, 0.0, map[], map[], [];
      }
      var penalty;
      TracksStep(professorBlocks, classroomBlocks, professorHours, keys, vs[..i], a);
      penalty, professorBlocks, classroomBlocks, professorHours, keys :=
        ScoreAssignment(data, w, professorBlocks, classroomBlocks, professorHours, keys, vs[..i], a);
      score := score + penalty;
      i := i + 1;
    }
    assert vs[..|vs|] == vs;
    forall p | p in keys ensures p in professorBlocks && professorBlocks[p] == ProfBlockIds(vs, p) && p in professorHours && professorHours[p] == ProfHours(vs, p) {
      assert ProfessorEntry(professorBlocks, keys, vs, p) && HoursEntry(professorHours, keys, vs, p);
    }
    ok := true;
  }

  /** The checks 1 to 4 of one valid assignment. */
  method CheckAssignment(data: SAData, w: Weights, group: GroupRec, classroom: Classroom, block: Block) returns (penalty: real)
    ensures penalty == LocalPenalty(data, w, Slot(group, Some(classroom), Some(block), true))
  {
    penalty := 0.0;
    var professor := FindProfessor(data.professors, group.profesorId);
    if !(professor.Some? && block.id in professor.value.availability) {
      penalty := penalty + w.professorAvailability;
    }
    assert penalty == AvailabilityTerm(data, w, group, block);
    if block.id !in classroom.availability {
      penalty := penalty + w.classroomAvailability;
    }
    assert penalty == AvailabilityTerm(data, w, group, block) + RoomTerm(w, classroom, block);
    if classroom.capacidad < group.inscripciones {
      penalty := penalty + w.capacityViolation * (group.inscripciones - classroom.capacidad) as real;
    }
    assert penalty == AvailabilityTerm(data, w, group, block) + RoomTerm(w, classroom, block) + CapacityTerm(w, group, classroom);
    var needsLab := NeedsLab(group);
    if (needsLab && classroom.tipo != "LAB") || (!needsLab && classroom.tipo != "TEORIA") {
      penalty := penalty + w.typeMismatch;
    }
  }

  /**
   * `if (!m[key]) m[key] = new Set(); if (m[key].has(blockKey)) ...; m[key].add(blockKey)`:
   * whether the pair was seen before, and the updated sets.
   */
  method RecordUse(m: map<string, seq<string>>, key: string, blockKey: string) returns (seen: bool, m': map<string, seq<string>>)
    ensures seen <==> key in m && blockKey in m[key]
    ensures m' == m[key := AddKey(if key in m then m[key] else [], blockKey)]
  {
    m' := m;
    if key !in m' {
      m' := m'[key := []];
    }
    seen := blockKey in m'[key];
    m' := m'[key := AddKey(m'[key], blockKey)];
  }

  /** The maximum-load loop over `Object.entries(professorHours)`. */
  method EvaluateMaxHours(data: SAData, w: Weights, keys: seq<string>, professorHours: map<string, real>, ghost vs: seq<Slot>)
    returns (penalty: real)
    requires forall p :: p in keys ==> p in professorHours && professorHours[p] == ProfHours(vs, p)
    ensures penalty == MaxHoursScore(data, w, keys, vs)
  {
    penalty := 0.0;
    var i := 0;
    while i < |keys|
      invariant 0 <= i <= |keys|
      invariant penalty == MaxHoursScore(data, w, keys[..i], vs)
    {
      MaxHoursScorePrefix(data, w, keys, i, vs);
      var professorId := keys[i];
      var excess := ProfessorOverload(data, w, professorId, professorHours[professorId]);
      penalty := penalty + excess;
      i := i + 1;
    }
    assert keys[..|keys|] == keys;
  }

  /** One professor's term of the maximum-load loop: the weighted hours above their limit. */
  method ProfessorOverload(data: SAData, w: Weights, professorId: string, hours: real) returns (excess: real)
    ensures excess == HoursPenalty(w, hours, MaxHours(data, professorId))
  {
    var professor := FindProfessor(data.professors, professorId);
    var maxHours := 20.0;
    if professor.Some? && professor.value.cargaMaxHoras.Some? && professor.value.cargaMaxHoras.value != 0 {
      maxHours := professor.value.cargaMaxHoras.value as real;
    }
    excess := 0.0;
    if hours > maxHours {
      excess := w.professorMaxHours * (hours - maxHours);
    }
  }

  lemma MaxHoursScorePrefix(data: SAData, w: Weights, ps: seq<string>, i: nat, vs: seq<Slot>)
    requires i < |ps|
    ensures MaxHoursScore(data, w, ps[..i + 1], vs) ==
            MaxHoursScore(data, w, ps[..i], vs) + HoursPenalty(w, ProfHours(vs, ps[i]), MaxHours(data, ps[i]))
  {
    assert ps[..i + 1][..i] == ps[..i];
  }

  /** `blocksByDay` of one professor's blocks, with its keys in insertion order. */
  method GroupByDay(objs: seq<Block>) returns (byDay: map<string, seq<Block>>, days: seq<string>)
    ensures days == DaysOf(objs)
    ensures forall d :: d in days ==> d in byDay && byDay[d] == BlocksOnDay(objs, d)
  {
    byDay, days := map[], [];
    var i := 0;
    while i < |objs|
      invariant 0 <= i <= |objs|
      invariant days == DaysOf(objs[..i])
      invariant forall d :: d in byDay <==> d in days
      invariant forall d :: d in byDay ==> byDay[d] == BlocksOnDay(objs[..i], d)
      invariant forall d :: d !in byDay ==> BlocksOnDay(objs[..i], d) == []
    {
      DaysOfPrefix(objs, i);
      BlocksOfDayStep(objs, i, byDay);
      var block := objs[i];
      var dayBlocks := if block.dia in byDay then byDay[block.dia] else [];
      byDay := byDay[block.dia := dayBlocks + [block]];
      days := AddKey(days, block.dia);
      i := i + 1;
    }
    assert objs[..|objs|] == objs;
  }

  /** The day lists of `GroupByDay` after one more block. */
  lemma BlocksOfDayStep(objs: seq<Block>, i: nat, byDay: map<string, seq<Block>>)
    requires i < |objs|
    requires forall d :: d in byDay ==> byDay[d] == BlocksOnDay(objs[..i], d)
    requires forall d :: d !in byDay ==> BlocksOnDay(objs[..i], d) == []
    ensures var k := objs[i].dia;
            var byDay' := byDay[k := (if k in byDay then byDay[k] else []) + [objs[i]]];
            (forall d :: d in byDay' ==> byDay'[d] == BlocksOnDay(objs[..i + 1], d)) &&
            (forall d :: d !in byDay' ==> BlocksOnDay(objs[..i + 1], d) == [])
  {
    BlocksOnDayPrefix(objs, i);
    var k := objs[i].dia;
    var byDay' := byDay[k := (if k in byDay then byDay[k] else []) + [objs[i]]];
    forall d | d in byDay' ensures byDay'[d] == BlocksOnDay(objs[..i + 1], d) {
      if d != k {
        assert byDay'[d] == byDay[d];
      }
    }
  }

  lemma DaysOfPrefix(objs: seq<Block>, i: nat)
    requires i < |objs|
    ensures DaysOf(objs[..i + 1]) == AddKey(DaysOf(objs[..i]), objs[i].dia)
  {
    assert objs[..i + 1][..i] == objs[..i];
  }

  lemma BlocksOnDayPrefix(objs: seq<Block>, i: nat)
    requires i < |objs|
    ensures BlocksOnDay(objs[..i + 1], objs[i].dia) == BlocksOnDay(objs[..i], objs[i].dia) + [objs[i]]
    ensures forall d :: d != objs[i].dia ==> BlocksOnDay(objs[..i + 1], d) == BlocksOnDay(objs[..i], d)
  {
    assert objs[..i + 1][..i] == objs[..i];
  }

  /** The gap loop of one day, whose blocks are already sorted by start. */
  method SumGaps(dayBlocks: seq<Block>) returns (totalGap: real)
    requires |dayBlocks| > 1
    ensures totalGap == TotalGap(dayBlocks)
  {
    totalGap := 0.0;
    var i := 1;
    while i < |dayBlocks|
      invariant 1 <= i <= |dayBlocks|
      invariant totalGap == TotalGap(dayBlocks[..i])
    {
      assert dayBlocks[..i + 1][..i] == dayBlocks[..i];
      var prevEnd := dayBlocks[i - 1].horaFin;
      var currStart := dayBlocks[i].horaInicio;
      var gapHours := Hours(currStart - prevEnd);
      if gapHours > 1.0 {
        totalGap := totalGap + gapHours;
      }
      i := i + 1;
    }
    assert dayBlocks[..|dayBlocks|] == dayBlocks;
  }

  lemma DayPenaltyOfMany(w: Weights, bs: seq<Block>, totalGap: real)
    requires |bs| > 1 && totalGap == TotalGap(SortByStart(bs))
    ensures DayPenalty(w, bs) == totalGap * w.compactness
  {
  }

  lemma DaysPenaltyPrefix(w: Weights, days: seq<string>, j: nat, objs: seq<Block>)
    requires j < |days|
    ensures DaysPenalty(w, days[..j + 1], objs) == DaysPenalty(w, days[..j], objs) + DayPenalty(w, BlocksOnDay(objs, days[j]))
  {
    assert days[..j + 1][..j] == days[..j];
  }

  /** The body of `evaluateCompactness` for one professor's block ids. */
  method ProfessorCompactness(data: SAData, w: Weights, blocks: map<string, Block>, blockIds: seq<string>) returns (penalty: real)
    requires blocks == BlockMap(data.blockList)
    ensures penalty == ProfCompactness(data, w, blockIds)
  {
    penalty := 0.0;
    var blockObjects := LookupBlocks(blocks, blockIds);
    var byDay, days := GroupByDay(blockObjects);
    var j := 0;
    while j < |days|
      invariant 0 <= j <= |days|
      invariant penalty == DaysPenalty(w, days[..j], blockObjects)
    {
      DaysPenaltyPrefix(w, days, j, blockObjects);
      var dayPenalty := DayCompactness(w, byDay[days[j]]);
      penalty := penalty + dayPenalty;
      j := j + 1;
    }
    assert days[..|days|] == days;
  }

  /** One day of the professor: a single block is free, several pay their long gaps once sorted by start. */
  method DayCompactness(w: Weights, dayBlocks: seq<Block>) returns (penalty: real)
    ensures penalty == DayPenalty(w, dayBlocks)
  {
    penalty := 0.0;
    if |dayBlocks| > 1 {
      var sorted := SortByStart(dayBlocks);
      var totalGap := SumGaps(sorted);
      DayPenaltyOfMany(w, dayBlocks, totalGap);
      penalty := totalGap * w.compactness;
    }
  }

  /** `evaluateCompactness` over the professors' block sets. */
  method EvaluateCompactness(data: SAData, w: Weights, keys: seq<string>, professorBlocks: map<string, seq<string>>, ghost vs: seq<Slot>)
    returns (penalty: real)
    requires forall p :: p in keys ==> p in professorBlocks && professorBlocks[p] == ProfBlockIds(vs, p)
    ensures penalty == CompactnessScore(data, w, keys, vs)
  {
    penalty := 0.0;
    var blocks := BlockMap(data.blockList);
    var i := 0;
    while i < |keys|
      invariant 0 <= i <= |keys|
      invariant penalty == CompactnessScore(data, w, keys[..i], vs)
    {
      assert keys[..i + 1][..i] == keys[..i];
      var professorPenalty := ProfessorCompactness(data, w, blocks, professorBlocks[keys[i]]);
      penalty := penalty + professorPenalty;
      i := i + 1;
    }
    assert keys[..|keys|] == keys;
  }

  /** `evaluatePreferences`. */
  method EvaluatePreferences(data: SAData, w: Weights, vs: seq<Slot>) returns (penalty: real)
    requires Scorable(vs)
    ensures penalty == PreferenceScore(data, w, vs)
  {
    penalty := 0.0;
    var i := 0;
    while i < |vs|
      invariant 0 <= i <= |vs|
      invariant penalty == PreferenceScore(data, w, vs[..i])
    {
      assert vs[..i + 1][..i] == vs[..i];
      var a := vs[i];
      if a.valid && a.group.profesorId in data.preferences {
        var preference := data.preferences[a.group.profesorId];
        var block := a.block.value;
        if preference.turnoPreferido.Truthy() && block.turno != preference.turnoPreferido {
          penalty := penalty + w.preference;
        }
        if preference.evitarDias.Some? && block.dia in preference.evitarDias.value {
          penalty := penalty + w.preference * 2.0;
        }
      }
      i := i + 1;
    }
    assert vs[..|vs|] == vs;
  }

  /** `evaluateSolution` on the assignments: the cost, or nothing where the source throws. */
  method EvaluateSlots(data: SAData, w: Weights, vs: seq<Slot>) returns (r: Option<real>)
    ensures r == Cost(data, w, vs)
  {
    var ok, score, professorBlocks, professorHours, keys := EvaluateAssignments(data, w, vs);
    if !ok {
      return None;
    }
    var maxHours := EvaluateMaxHours(data, w, keys, professorHours, vs);
    score := score + maxHours;
    var compactness := EvaluateCompactness(data, w, keys, professorBlocks, vs);
    score := score + compactness;
    var preferences := EvaluatePreferences(data, w, vs);
    score := score + preferences;
    return Some(score);
  }

  // ---------------------------------------------------------------------------
  // What the cost means
  // ---------------------------------------------------------------------------

  /** An earlier scored assignment puts professor `p` in block `id`. */
  ghost predicate ProfessorUsed(vs: seq<Slot>, p: string, id: string)
  {
    exists j :: 0 <= j < |vs| && Counted(vs[j]) && vs[j].group.profesorId == p && vs[j].block.value.id == id
  }

  /** An earlier scored assignment puts room `r` in block `id`. */
  ghost predicate RoomUsed(vs: seq<Slot>, r: string, id: string)
  {
    exists j :: 0 <= j < |vs| && Counted(vs[j]) && vs[j].classroom.value.id == r && vs[j].block.value.id == id
  }

  lemma {:induction false} ProfBlockIdsMembers(vs: seq<Slot>, p: string, id: string)
    ensures id in ProfBlockIds(vs, p) <==> ProfessorUsed(vs, p, id)
  {
    if vs != [] {
      var init := vs[..|vs| - 1];
      ProfBlockIdsMembers(init, p, id);
      if ProfessorUsed(vs, p, id) {
        var j :| 0 <= j < |vs| && Counted(vs[j]) && vs[j].group.profesorId == p && vs[j].block.value.id == id;
        if j < |vs| - 1 {
          assert init[j] == vs[j];
        }
      }
      if ProfessorUsed(init, p, id) {
        var j :| 0 <= j < |init| && Counted(init[j]) && init[j].group.profesorId == p && init[j].block.value.id == id;
        assert vs[j] == init[j];
      }
    }
  }

  lemma {:induction false} RoomBlockIdsMembers(vs: seq<Slot>, r: string, id: string)
    ensures id in RoomBlockIds(vs, r) <==> RoomUsed(vs, r, id)
  {
    if vs != [] {
      var init := vs[..|vs| - 1];
      RoomBlockIdsMembers(init, r, id);
      if RoomUsed(vs, r, id) {
        var j :| 0 <= j < |vs| && Counted(vs[j]) && vs[j].classroom.value.id == r && vs[j].block.value.id == id;
        if j < |vs| - 1 {
          assert init[j] == vs[j];
        }
      }
      if RoomUsed(init, r, id) {
        var j :| 0 <= j < |init| && Counted(init[j]) && init[j].classroom.value.id == r && init[j].block.value.id == id;
        assert vs[j] == init[j];
      }
    }
  }

  /**
   * A scored assignment pays its four local checks, plus `professorConflict`
   * exactly when an earlier scored assignment has the same professor in the
   * same block, plus `classroomConflict` exactly when one has the same room
   * in the same block.
   */
  lemma DoubleBookingCharged(data: SAData, w: Weights, prev: seq<Slot>, v: Slot)
    requires Counted(v)
    ensures StepPenalty(data, w, prev, v) == LocalPenalty(data, w, v) +
      (if ProfessorUsed(prev, v.group.profesorId, v.block.value.id) then w.professorConflict else 0.0) +
      (if RoomUsed(prev, v.classroom.value.id, v.block.value.id) then w.classroomConflict else 0.0)
  {
    ProfBlockIdsMembers(prev, v.group.profesorId, v.block.value.id);
    RoomBlockIdsMembers(prev, v.classroom.value.id, v.block.value.id);
  }

  /** Appending an assignment the scoring skips changes neither the maximum-load nor the compactness sums. */
  lemma {:induction false} SkippedKeepsSums(data: SAData, w: Weights, ps: seq<string>, vs: seq<Slot>, v: Slot)
    requires !Counted(v)
    ensures MaxHoursScore(data, w, ps, vs + [v]) == MaxHoursScore(data, w, ps, vs)
    ensures CompactnessScore(data, w, ps, vs + [v]) == CompactnessScore(data, w, ps, vs)
  {
    assert (vs + [v])[..|vs|] == vs;
    if ps != [] {
      SkippedKeepsSums(data, w, ps[..|ps| - 1], vs, v);
    }
  }

  /**
   * An invalid assignment (a group the greedy pass could not place) adds
   * exactly `10 * hardConstraint` to the cost and nothing else.
   */
  lemma InvalidAddsHardOnly(data: SAData, w: Weights, vs: seq<Slot>, v: Slot)
    requires Scorable(vs) && !v.valid
    ensures Cost(data, w, vs + [v]) == Some(Cost(data, w, vs).value + w.hardConstraint * 10.0)
  {
    var vs' := vs + [v];
    assert vs'[..|vs|] == vs;
    ScorableAppend(vs, v);
    LoopScoreAppend(data, w, vs, v);
    SkippedKeepsSums(data, w, ProfessorKeys(vs), vs, v);
  }

  /** A greedy placement passes the four local checks: it pays nothing for availability, capacity or room type. */
  lemma FeasiblePlacementIsClean(data: SAData, w: Weights, g: GroupRec)
    requires Feasible(data, g).Some?
    ensures var (c, b) := Feasible(data, g).value;
      LocalPenalty(data, w, Slot(g, Some(c), Some(b), true)) == 0.0
  {
    FeasibleSound(data, g);
  }

  lemma {:induction false} TotalGapNonNegative(bs: seq<Block>)
    ensures TotalGap(bs) >= 0.0
  {
    if |bs| > 1 {
      TotalGapNonNegative(bs[..|bs| - 1]);
    }
  }

  /** A day costs nothing exactly when no two consecutive blocks are more than an hour apart. */
  lemma {:induction false} TotalGapZeroIff(bs: seq<Block>)
    ensures TotalGap(bs) == 0.0 <==> forall i :: 1 <= i < |bs| ==> Hours(bs[i].horaInicio - bs[i - 1].horaFin) <= 1.0
  {
    if |bs| > 1 {
      var init := bs[..|bs| - 1];
      TotalGapZeroIff(init);
      TotalGapNonNegative(init);
      assert forall i :: 0 <= i < |init| ==> init[i] == bs[i];
      assert init[|init| - 1] == bs[|bs| - 2];
    }
  }

  lemma {:induction false} LoopScoreNonNegative(data: SAData, w: Weights, vs: seq<Slot>)
    requires NonNegative(w)
    ensures LoopScore(data, w, vs) >= 0.0
  {
    if vs != [] {
      LoopScoreNonNegative(data, w, vs[..|vs| - 1]);
      var v := vs[|vs| - 1];
      if Counted(v) {
        var g, c := v.group, v.classroom.value;
        if c.capacidad < g.inscripciones {
          MulNonNegative(w.capacityViolation, (g.inscripciones - c.capacidad) as real);
        }
      }
    }
  }

  lemma {:induction false} MaxHoursScoreNonNegative(data: SAData, w: Weights, ps: seq<string>, vs: seq<Slot>)
    requires NonNegative(w)
    ensures MaxHoursScore(data, w, ps, vs) >= 0.0
  {
    if ps != [] {
      MaxHoursScoreNonNegative(data, w, ps[..|ps| - 1], vs);
      var p := ps[|ps| - 1];
      var h, m := ProfHours(vs, p), MaxHours(data, p);
      if h > m {
        MulNonNegative(w.professorMaxHours, h - m);
      }
    }
  }

  lemma {:induction false} DaysPenaltyNonNegative(w: Weights, days: seq<string>, objs: seq<Block>)
    requires NonNegative(w)
    ensures DaysPenalty(w, days, objs) >= 0.0
  {
    if days != [] {
      DaysPenaltyNonNegative(w, days[..|days| - 1], objs);
      DayPenaltyNonNegative(w, BlocksOnDay(objs, days[|days| - 1]));
    }
  }

  lemma DayPenaltyNonNegative(w: Weights, dayBlocks: seq<Block>)
    requires NonNegative(w)
    ensures DayPenalty(w, dayBlocks) >= 0.0
  {
    if |dayBlocks| > 1 {
      var sorted := SortByStart(dayBlocks);
      TotalGapNonNegative(sorted);
      MulNonNegative(TotalGap(sorted), w.compactness);
      DayPenaltyOfMany(w, dayBlocks, TotalGap(sorted));
    }
  }

  lemma {:induction false} CompactnessScoreNonNegative(data: SAData, w: Weights, ps: seq<string>, vs: seq<Slot>)
    requires NonNegative(w)
    ensures CompactnessScore(data, w, ps, vs) >= 0.0
  {
    if ps != [] {
      CompactnessScoreNonNegative(data, w, ps[..|ps| - 1], vs);
      var objs := LookupBlocks(BlockMap(data.blockList), ProfBlockIds(vs, ps[|ps| - 1]));
      DaysPenaltyNonNegative(w, DaysOf(objs), objs);
    }
  }

  lemma {:induction false} PreferenceScoreNonNegative(data: SAData, w: Weights, vs: seq<Slot>)
    requires NonNegative(w)
    ensures PreferenceScore(data, w, vs) >= 0.0
  {
    if vs != [] {
      PreferenceScoreNonNegative(data, w, vs[..|vs| - 1]);
    }
  }

  /** With nonnegative weights (the defaults are) every cost is nonnegative: zero is the best a solution can score. */
  lemma CostNonNegative(data: SAData, w: Weights, vs: seq<Slot>)
    requires NonNegative(w) && Scorable(vs)
    ensures Cost(data, w, vs).value >= 0.0
  {
    LoopScoreNonNegative(data, w, vs);
    MaxHoursScoreNonNegative(data, w, ProfessorKeys(vs), vs);
    CompactnessScoreNonNegative(data, w, ProfessorKeys(vs), vs);
    PreferenceScoreNonNegative(data, w, vs);
  }

  lemma DefaultWeightsNonNegative()
    ensures NonNegative(DefaultWeights)
  {
  }
}
