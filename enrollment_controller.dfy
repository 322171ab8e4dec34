/**
 * The enrolment rules of `backend/src/controllers/enrollment.controller.js`:
 * the capacity record of a group (the fallback of `buildCapacityMap`), the
 * schedule-conflict search by block id, the ordered checks of
 * `validateEnrollmentConstraints`, the eligibility shown by
 * `listAvailableGroupsForStudent`, the cancellation deadline, the removal
 * guards and the error-to-response mapping of `handleError`.
 *
 * Database reads are inputs: the groups and enrolment counts, the
 * prerequisites of a subject, the set of subjects the student completed
 * (already filtered by date) and the blocks the student already occupies.
 */
module EnrollmentController {
  import opened Common

  // ---------------------------------------------------------------------------
  // Records
  // ---------------------------------------------------------------------------

  /** A row of `bloques_horarios`, times in milliseconds. */
  datatype BlockInfo = BlockInfo(id: string, dia: string, horaInicio: int, horaFin: int, turno: JsStr)

  datatype SubjectRef = SubjectRef(id: string, nombre: string, codigo: string)

  /** A meeting of a group: a row of its `horario_detalle`. */
  datatype GroupBlock = GroupBlock(bloqueId: string, horario: BlockInfo)

  /** A value of `existingBlocks`: a meeting of a group the student is enrolled in during the period. */
  datatype ExistingRow = ExistingRow(grupoId: string, materia: Option<SubjectRef>, horario: BlockInfo)

  /** A prerequisite of a subject: the required subject's id and record. */
  datatype Prereq = Prereq(id: string, materia: Option<SubjectRef>)

  /** A value of the capacity map; each field is `null` when unknown. */
  datatype Capacity = Capacity(cupoMax: Option<int>, inscritos: Option<int>, disponibles: Option<int>)

  /** The group columns the capacity fallback reads; `cupo_max` is a number or null. */
  datatype GroupCupo = GroupCupo(id: string, cupoMax: Option<int>)

  // ---------------------------------------------------------------------------
  // buildCapacityMap: the fallback path
  // ---------------------------------------------------------------------------

  /** `countMap.get(group.id) || 0`. */
  function Occupied(g: GroupCupo, counts: map<string, nat>): nat
  {
    if g.id in counts then counts[g.id] else 0
  }

  /** The capacity record of one group: free seats `max(cupo_max - ocupados, 0)` when `cupo_max` is a number. */
  function FallbackEntry(g: GroupCupo, counts: map<string, nat>): (c: Capacity)
    ensures c.cupoMax == g.cupoMax && c.inscritos == Some(Occupied(g, counts))
  {
    var ocupados := Occupied(g, counts);
    var disponibles := match g.cupoMax
      case Some(cupo) => Some(MaxInt(cupo - ocupados, 0))
      case None => None;
    Capacity(g.cupoMax, Some(ocupados), disponibles)
  }

  /**
   * The free seats are never negative, known exactly when `cupo_max` is, and
   * zero exactly when the group is at or over its limit.
   */
  lemma FallbackSeats(g: GroupCupo, counts: map<string, nat>)
    ensures FallbackEntry(g, counts).disponibles.Some? <==> g.cupoMax.Some?
    ensures FallbackEntry(g, counts).disponibles.Some? ==> FallbackEntry(g, counts).disponibles.value >= 0
    ensures g.cupoMax.Some? ==>
      (FallbackEntry(g, counts).disponibles.value == 0 <==> g.cupoMax.value <= Occupied(g, counts))
    ensures g.cupoMax.Some? && g.cupoMax.value >= Occupied(g, counts) ==>
      FallbackEntry(g, counts).disponibles.value + Occupied(g, counts) == g.cupoMax.value
  {
  }

  /** The map after `groups.forEach(group => map.set(group.id, ...))`. */
  function CapacityMapOf(groups: seq<GroupCupo>, counts: map<string, nat>): map<string, Capacity>
  {
    if groups == [] then map[]
    else
      var g := groups[|groups| - 1];
      CapacityMapOf(groups[..|groups| - 1], counts)[g.id := FallbackEntry(g, counts)]
  }

  /** The map has a key for each group id, holding the record of the last group with that id. */
  lemma {:induction false} CapacityMapEntries(groups: seq<GroupCupo>, counts: map<string, nat>, i: nat)
    requires i < |groups| && forall j :: i < j < |groups| ==> groups[j].id != groups[i].id
    ensures groups[i].id in CapacityMapOf(groups, counts)
    ensures CapacityMapOf(groups, counts)[groups[i].id] == FallbackEntry(groups[i], counts)
  {
    if i < |groups| - 1 {
      CapacityMapEntries(groups[..|groups| - 1], counts, i);
    }
  }

  lemma {:induction false} CapacityMapKeys(groups: seq<GroupCupo>, counts: map<string, nat>, k: string)
    ensures k in CapacityMapOf(groups, counts) <==> exists i :: 0 <= i < |groups| && groups[i].id == k
  {
    if groups != [] {
      var init := groups[..|groups| - 1];
      CapacityMapKeys(init, counts, k);
      if exists i :: 0 <= i < |init| && init[i].id == k {
        var i :| 0 <= i < |init| && init[i].id == k;
        assert groups[i].id == k;
      }
      if exists i :: 0 <= i < |groups| && groups[i].id == k {
        var i :| 0 <= i < |groups| && groups[i].id == k;
        if i < |init| {
          assert init[i].id == k;
        }
      }
    }
  }

  // ---------------------------------------------------------------------------
  // buildCapacityMap: the view path
  // ---------------------------------------------------------------------------

  /**
   * A row of the `v_grupos_cupos` view, its columns already matched by name
   * (`grupo`, `disponible`, `inscrito` or `ocupado`, `cupo_max`); a count is
   * `None` when the view has no column for it.
   */
  datatype ViewRow = ViewRow(grupoId: string, cupoMax: Option<int>, inscritos: Option<int>, disponibles: Option<int>)

  /** The map after `rows.forEach(row => map.set(row[idKey], ...))`. */
  function ViewMapOf(rows: seq<ViewRow>): map<string, Capacity>
  {
    if rows == [] then map[]
    else
      var row := rows[|rows| - 1];
      ViewMapOf(rows[..|rows| - 1])[row.grupoId := Capacity(row.cupoMax, row.inscritos, row.disponibles)]
  }

  /** The map has a key for each row's group, holding the counts of the last row of that group. */
  lemma {:induction false} ViewMapEntries(rows: seq<ViewRow>, i: nat)
    requires i < |rows| && forall j :: i < j < |rows| ==> rows[j].grupoId != rows[i].grupoId
    ensures rows[i].grupoId in ViewMapOf(rows)
    ensures ViewMapOf(rows)[rows[i].grupoId] == Capacity(rows[i].cupoMax, rows[i].inscritos, rows[i].disponibles)
  {
    if i < |rows| - 1 {
      ViewMapEntries(rows[..|rows| - 1], i);
    }
  }

  lemma {:induction false} ViewMapKeys(rows: seq<ViewRow>, k: string)
    ensures k in ViewMapOf(rows) <==> exists i :: 0 <= i < |rows| && rows[i].grupoId == k
  {
    if rows != [] {
      var init := rows[..|rows| - 1];
      ViewMapKeys(init, k);
      if exists i :: 0 <= i < |init| && init[i].grupoId == k {
        var i :| 0 <= i < |init| && init[i].grupoId == k;
        assert rows[i].grupoId == k;
      }
      if exists i :: 0 <= i < |rows| && rows[i].grupoId == k {
        var i :| 0 <= i < |rows| && rows[i].grupoId == k;
        if i < |init| {
          assert init[i].grupoId == k;
        }
      }
    }
  }

  /**
   * `buildCapacityMap(groupIds)`: an empty list gives an empty map; when the
   * view answers (`view` holds its rows for those ids) one record per row,
   * read from the view's columns; when the view query throws (`view` is
   * `None`) one record per group returned by the fallback query, computed
   * from `cupo_max` and the enrolment counts.
   */
  method BuildCapacityMap(groupIds: seq<string>, view: Option<seq<ViewRow>>, groups: seq<GroupCupo>, counts: map<string, nat>)
    returns (m: map<string, Capacity>)
    ensures groupIds == [] ==> m == map[]
    ensures groupIds != [] && view.Some? ==> m == ViewMapOf(view.value)
    ensures groupIds != [] && view.None? ==> m == CapacityMapOf(groups, counts)
  {
    m := map[];
    if |groupIds| == 0 {
      return;
    }
    if view.Some? {
      var rows := view.value;
      var j := 0;
      while j < |rows|
        invariant 0 <= j <= |rows|
        invariant m == ViewMapOf(rows[..j])
      {
        var row := rows[j];
        assert rows[..j + 1][..j] == rows[..j];
        m := m[row.grupoId := Capacity(row.cupoMax, row.inscritos, row.disponibles)];
        j := j + 1;
      }
      assert rows[..j] == rows;
      return;
    }
    var i := 0;
    while i < |groups|
      invariant 0 <= i <= |groups|
      invariant m == CapacityMapOf(groups[..i], counts)
    {
      var group := groups[i];
      var ocupados := if group.id in counts then counts[group.id] else 0;
      var disponibles := if group.cupoMax.Some? then Some(MaxInt(group.cupoMax.value - ocupados, 0)) else None;
      assert groups[..i + 1][..i] == groups[..i];
      m := m[group.id := Capacity(group.cupoMax, Some(ocupados), disponibles)];
      i := i + 1;
    }
    assert groups[..i] == groups;
  }

  // ---------------------------------------------------------------------------
  // getPrerequisitesMap, getCompletedSubjects, getExistingBlocksForStudent
  // ---------------------------------------------------------------------------

  /** A row of `prerrequisitos`: subject `materiaId` requires subject `requiereId`. */
  datatype PrereqRow = PrereqRow(materiaId: string, requiereId: string, requiere: Option<SubjectRef>)

  function PrereqOfRow(row: PrereqRow): Prereq
  {
    Prereq(row.requiereId, row.requiere)
  }

  /** The prerequisites of subject `k`, in row order. */
  function PrereqsFor(rows: seq<PrereqRow>, k: string): (r: seq<Prereq>)
    ensures |r| <= |rows|
  {
    if rows == [] then []
    else
      var rest := PrereqsFor(rows[..|rows| - 1], k);
      if rows[|rows| - 1].materiaId == k then rest + [PrereqOfRow(rows[|rows| - 1])] else rest
  }

  /** The list of a subject holds exactly the prerequisites of its own rows. */
  lemma {:induction false} PrereqsForMembers(rows: seq<PrereqRow>, k: string, p: Prereq)
    ensures p in PrereqsFor(rows, k) <==> exists i :: 0 <= i < |rows| && rows[i].materiaId == k && PrereqOfRow(rows[i]) == p
  {
    if rows != [] {
      var init := rows[..|rows| - 1];
      PrereqsForMembers(init, k, p);
      if exists i :: 0 <= i < |rows| && rows[i].materiaId == k && PrereqOfRow(rows[i]) == p {
        var i :| 0 <= i < |rows| && rows[i].materiaId == k && PrereqOfRow(rows[i]) == p;
        if i < |init| {
          assert init[i] == rows[i];
        }
      }
      if exists i :: 0 <= i < |init| && init[i].materiaId == k && PrereqOfRow(init[i]) == p {
        var i :| 0 <= i < |init| && init[i].materiaId == k && PrereqOfRow(init[i]) == p;
        assert rows[i] == init[i];
      }
    }
  }

  /**
   * `getPrerequisitesMap(materiaIds)`: no ids gives an empty map; otherwise
   * the subjects with at least one row, each with its prerequisites in row
   * order.
   */
  method PrerequisitesMap(materiaIds: seq<string>, rows: seq<PrereqRow>) returns (m: map<string, seq<Prereq>>)
    ensures materiaIds == [] ==> m == map[]
    ensures materiaIds != [] ==>
      (forall k :: k in m <==> exists i :: 0 <= i < |rows| && rows[i].materiaId == k) &&
      forall k :: k in m ==> m[k] == PrereqsFor(rows, k)
  {
    m := map[];
    if |materiaIds| == 0 {
      return;
    }
    var i := 0;
    while i < |rows|
      invariant 0 <= i <= |rows|
      invariant forall k :: k in m <==> exists j :: 0 <= j < i && rows[j].materiaId == k
      invariant forall k :: k in m ==> m[k] == PrereqsFor(rows[..i], k)
    {
      var row := rows[i];
      PrereqsForStep(rows, i, m);
      if row.materiaId !in m {
        m := m[row.materiaId := []];
      }
      m := m[row.materiaId := m[row.materiaId] + [Prereq(row.requiereId, row.requiere)]];
      i := i + 1;
    }
    assert rows[..i] == rows;
  }

  /** One row more: only its own subject's list grows, by that row's prerequisite. */
  lemma PrereqsForStep(rows: seq<PrereqRow>, i: nat, m: map<string, seq<Prereq>>)
    requires i < |rows|
    requires forall k :: k in m <==> exists j :: 0 <= j < i && rows[j].materiaId == k
    ensures PrereqsFor(rows[..i + 1], rows[i].materiaId) == PrereqsFor(rows[..i], rows[i].materiaId) + [PrereqOfRow(rows[i])]
    ensures forall k :: k != rows[i].materiaId ==> PrereqsFor(rows[..i + 1], k) == PrereqsFor(rows[..i], k)
    ensures rows[i].materiaId !in m ==> PrereqsFor(rows[..i], rows[i].materiaId) == []
  {
    assert rows[..i + 1][..i] == rows[..i];
    var k := rows[i].materiaId;
    if k !in m {
      assert forall j :: 0 <= j < i ==> rows[..i][j] == rows[j];
      PrereqsForAbsent(rows[..i], k);
    }
  }

  /** A subject without rows has no prerequisites. */
  lemma {:induction false} PrereqsForAbsent(rows: seq<PrereqRow>, k: string)
    requires forall j :: 0 <= j < |rows| ==> rows[j].materiaId != k
    ensures PrereqsFor(rows, k) == []
  {
    if rows != [] {
      PrereqsForAbsent(rows[..|rows| - 1], k);
    }
  }

  /**
   * `getCompletedSubjects`: the subjects of the student's earlier
   * enrolments, one per row (`None` when the row has no group); empty ids
   * are skipped.
   */
  method CompletedSubjects(rows: seq<Option<string>>) returns (completed: set<string>)
    ensures forall m :: m in completed <==> m != "" && Some(m) in rows
  {
    completed := {};
    var i := 0;
    while i < |rows|
      invariant 0 <= i <= |rows|
      invariant forall m :: m in completed <==> m != "" && Some(m) in rows[..i]
    {
      var materiaId := rows[i];
      assert rows[..i + 1] == rows[..i] + [materiaId];
      if materiaId.Some? && materiaId.value != "" {
        completed := completed + {materiaId.value};
      }
      i := i + 1;
    }
    assert rows[..i] == rows;
  }

  /** A row of `horario_detalle` of a group the student is enrolled in. */
  datatype DetailRow = DetailRow(bloqueId: string, row: ExistingRow)

  /** The map after `rows.forEach(row => map.set(row.bloque_id, row))`. */
  function ExistingBlocksOf(rows: seq<DetailRow>): map<string, ExistingRow>
  {
    if rows == [] then map[]
    else ExistingBlocksOf(rows[..|rows| - 1])[rows[|rows| - 1].bloqueId := rows[|rows| - 1].row]
  }

  /** Every block id of the rows is a key, holding the last row with that id. */
  lemma {:induction false} ExistingBlocksLast(rows: seq<DetailRow>, i: nat)
    requires i < |rows| && forall j :: i < j < |rows| ==> rows[j].bloqueId != rows[i].bloqueId
    ensures rows[i].bloqueId in ExistingBlocksOf(rows) && ExistingBlocksOf(rows)[rows[i].bloqueId] == rows[i].row
  {
    if i < |rows| - 1 {
      ExistingBlocksLast(rows[..|rows| - 1], i);
    }
  }

  lemma {:induction false} ExistingBlocksKeys(rows: seq<DetailRow>, k: string)
    ensures k in ExistingBlocksOf(rows) <==> exists i :: 0 <= i < |rows| && rows[i].bloqueId == k
  {
    if rows != [] {
      var init := rows[..|rows| - 1];
      ExistingBlocksKeys(init, k);
      if exists i :: 0 <= i < |init| && init[i].bloqueId == k {
        var i :| 0 <= i < |init| && init[i].bloqueId == k;
        assert rows[i].bloqueId == k;
      }
      if exists i :: 0 <= i < |rows| && rows[i].bloqueId == k {
        var i :| 0 <= i < |rows| && rows[i].bloqueId == k;
        if i < |init| {
          assert init[i].bloqueId == k;
        }
      }
    }
  }

  /** `getExistingBlocksForStudent`: no period gives an empty map. */
  method ExistingBlocksForStudent(periodoId: JsStr, rows: seq<DetailRow>) returns (m: map<string, ExistingRow>)
    ensures !periodoId.Truthy() ==> m == map[]
    ensures periodoId.Truthy() ==> m == ExistingBlocksOf(rows)
  {
    m := map[];
    if !periodoId.Truthy() {
      return;
    }
    var i := 0;
    while i < |rows|
      invariant 0 <= i <= |rows|
      invariant m == ExistingBlocksOf(rows[..i])
    {
      assert rows[..i + 1][..i] == rows[..i];
      m := m[rows[i].bloqueId := rows[i].row];
      i := i + 1;
    }
    assert rows[..i] == rows;
  }

  // ---------------------------------------------------------------------------
  // detectScheduleConflict
  // ---------------------------------------------------------------------------

  /** The object returned for a clash: the group's block and the enrolled group that already holds that block. */
  datatype Clash = Clash(bloque: GroupBlock, conGrupo: string, materia: Option<SubjectRef>, horarioExistente: BlockInfo)

  function ClashWith(b: GroupBlock, row: ExistingRow): Clash
  {
    Clash(b, row.grupoId, row.materia, row.horario)
  }

  /** The first block of the group whose id the student already occupies. */
  function FirstClash(blocks: seq<GroupBlock>, existing: map<string, ExistingRow>): (r: Option<Clash>)
    ensures r.Some? ==> r.value.bloque in blocks && r.value.bloque.bloqueId in existing
  {
    if blocks == [] then None
    else if blocks[0].bloqueId in existing then Some(ClashWith(blocks[0], existing[blocks[0].bloqueId]))
    else FirstClash(blocks[1..], existing)
  }

  /**
   * No clash is found exactly when no block id of the group is already
   * occupied (id equality: two different blocks at overlapping times do not
   * clash).
   */
  lemma {:induction false} FirstClashNone(blocks: seq<GroupBlock>, existing: map<string, ExistingRow>)
    ensures FirstClash(blocks, existing).None? <==> forall i :: 0 <= i < |blocks| ==> blocks[i].bloqueId !in existing
  {
    if blocks != [] && blocks[0].bloqueId !in existing {
      FirstClashNone(blocks[1..], existing);
      assert forall i :: 1 <= i < |blocks| ==> blocks[i] == blocks[1..][i - 1];
    }
  }

  /** When block `i` is the first occupied one, the clash reported is the one with block `i`. */
  lemma {:induction false} FirstClashAt(blocks: seq<GroupBlock>, existing: map<string, ExistingRow>, i: nat)
    requires i < |blocks| && blocks[i].bloqueId in existing
    requires forall j :: 0 <= j < i ==> blocks[j].bloqueId !in existing
    ensures FirstClash(blocks, existing) == Some(ClashWith(blocks[i], existing[blocks[i].bloqueId]))
  {
    if i > 0 {
      assert blocks[0].bloqueId !in existing;
      assert forall j :: 0 <= j < i - 1 ==> blocks[1..][j] == blocks[j + 1];
      FirstClashAt(blocks[1..], existing, i - 1);
    }
  }

  /** `detectScheduleConflict(groupBlocks, existingBlocks)`: the loop with its early return. */
  method DetectScheduleConflict(groupBlocks: seq<GroupBlock>, existing: map<string, ExistingRow>) returns (r: Option<Clash>)
    ensures r == FirstClash(groupBlocks, existing)
  {
    var i := 0;
    while i < |groupBlocks|
      invariant 0 <= i <= |groupBlocks|
      invariant forall j :: 0 <= j < i ==> groupBlocks[j].bloqueId !in existing
    {
      var block := groupBlocks[i];
      if block.bloqueId in existing {
        var conflict := existing[block.bloqueId];
        FirstClashAt(groupBlocks, existing, i);
        return Some(Clash(block, conflict.grupoId, conflict.materia, conflict.horario));
      }
      i := i + 1;
    }
    FirstClashNone(groupBlocks, existing);
    return None;
  }

  // ---------------------------------------------------------------------------
  // Errors
  // ---------------------------------------------------------------------------

  /**
   * A thrown error: `httpError(status, message, extra)` sets `status` and the
   * extra fields; an error thrown by the runtime or the database has no
   * `status`. `code` and `details` are strings.
   */
  datatype Failure = Failure(status: Option<int>, message: string, code: JsStr, missing: Option<seq<Prereq>>,
                             conflict: Option<Clash>, capacity: Option<Capacity>, details: JsStr)

  function HttpError(status: int, message: string, code: string): Failure
  {
    Failure(Some(status), message, Str(code), None, None, None, Undefined)
  }

  /** A thrown error without a status, such as the `ReferenceError` of an undefined name. */
  function RuntimeError(message: string): Failure
  {
    Failure(None, message, Undefined, None, None, None, Undefined)
  }

  /** The JSON body `handleError` sends: absent fields are `None`. */
  datatype ErrorBody = ErrorBody(message: string, code: Option<string>, missing: Option<seq<Prereq>>,
                                 conflict: Option<Clash>, capacity: Option<Capacity>, details: Option<string>, error: Option<string>)

  datatype ErrorReply = ErrorReply(status: int, body: ErrorBody)

  function IfTruthy(s: JsStr): Option<string>
  {
    if s.Truthy() then Some(s.s) else None
  }

  /** `handleError(res, err, fallbackMessage)`. */
  function HandleError(err: Failure, fallback: string): ErrorReply
  {
    if err.status.Some? && err.status.value != 0 then
      ErrorReply(err.status.value, ErrorBody(err.message, IfTruthy(err.code), err.missing, err.conflict, err.capacity, IfTruthy(err.details), None))
    else ErrorReply(500, ErrorBody(fallback, None, None, None, None, None, Some(err.message)))
  }

  /**
   * An error with a status is echoed with its message and exactly the
   * optional fields it carries (strings only when non-empty); any other
   * error becomes a 500 with the fallback message and the error's own.
   */
  lemma HandleErrorEchoes(err: Failure, fallback: string)
    ensures err.status.Some? && err.status.value != 0 ==>
      var r := HandleError(err, fallback);
      r.status == err.status.value && r.body.message == err.message && r.body.error.None? &&
      (r.body.code.Some? <==> err.code.Str? && err.code.s != "") &&
      (r.body.code.Some? ==> r.body.code.value == err.code.s) &&
      r.body.missing == err.missing && r.body.conflict == err.conflict && r.body.capacity == err.capacity &&
      (r.body.details.Some? <==> err.details.Str? && err.details.s != "")
    ensures !(err.status.Some? && err.status.value != 0) ==>
      HandleError(err, fallback) == ErrorReply(500, ErrorBody(fallback, None, None, None, None, None, Some(err.message)))
  {
  }

  // ---------------------------------------------------------------------------
  // validateEnrollmentConstraints
  // ---------------------------------------------------------------------------

  /** `(prereqMap.get(materia_id) || []).filter(req => !completedSet.has(req.id))`. */
  function MissingPrereqs(reqs: seq<Prereq>, completed: set<string>): (r: seq<Prereq>)
    ensures |r| <= |reqs|
  {
    if reqs == [] then []
    else
      var rest := MissingPrereqs(reqs[..|reqs| - 1], completed);
      if reqs[|reqs| - 1].id in completed then rest else rest + [reqs[|reqs| - 1]]
  }

  /** The missing list is exactly the prerequisites whose id is not completed. */
  lemma {:induction false} MissingPrereqsMembers(reqs: seq<Prereq>, completed: set<string>, p: Prereq)
    ensures p in MissingPrereqs(reqs, completed) <==> p in reqs && p.id !in completed
  {
    if reqs != [] {
      var init := reqs[..|reqs| - 1];
      MissingPrereqsMembers(init, completed, p);
      assert reqs == init + [reqs[|reqs| - 1]];
    }
  }

  /** Nothing is missing exactly when every prerequisite is completed. */
  lemma MissingPrereqsEmpty(reqs: seq<Prereq>, completed: set<string>)
    ensures |MissingPrereqs(reqs, completed)| == 0 <==> forall p :: p in reqs ==> p.id in completed
  {
    var missing := MissingPrereqs(reqs, completed);
    if |missing| > 0 {
      MissingPrereqsMembers(reqs, completed, missing[0]);
    } else {
      forall p | p in reqs ensures p.id in completed {
        MissingPrereqsMembers(reqs, completed, p);
      }
    }
  }

  /** The prerequisites of the subject: `prereqMap.get(materia_id) || []`. */
  function PrereqsOf(prereqMap: map<string, seq<Prereq>>, materiaId: string): seq<Prereq>
  {
    if materiaId in prereqMap then prereqMap[materiaId] else []
  }

  /** What a successful check returns. */
  datatype Checked = Checked(capacity: Option<Capacity>, groupBlocks: seq<GroupBlock>)

  /** `capacity && capacity.disponibles !== null && capacity.disponibles <= 0`. */
  predicate GroupFull(capacity: Option<Capacity>)
  {
    capacity.Some? && capacity.value.disponibles.Some? && capacity.value.disponibles.value <= 0
  }

  /** The three checks in their order: free seats, then prerequisites, then the schedule. */
  function ValidateEnrollmentConstraints(capacity: Option<Capacity>, prereqs: seq<Prereq>, completed: set<string>,
                                         groupBlocks: seq<GroupBlock>, existing: map<string, ExistingRow>): Result<Checked, Failure>
  {
    if GroupFull(capacity) then
      Err(HttpError(409, "El grupo ya alcanzó el cupo máximo", "GROUP_FULL").(capacity := capacity))
    else
      var missing := MissingPrereqs(prereqs, completed);
      if |missing| > 0 then
        Err(HttpError(409, "Existen prerrequisitos pendientes", "PREREQ_NOT_MET").(missing := Some(missing)))
      else
        match FirstClash(groupBlocks, existing)
        case Some(c) => Err(HttpError(409, "Conflicto de horario con otra inscripción", "SCHEDULE_CONFLICT").(conflict := Some(c)))
        case None => Ok(Checked(capacity, groupBlocks))
  }

  /**
   * The first failing check decides: GROUP_FULL whenever the group is full,
   * PREREQ_NOT_MET (with the missing list) only when it is not, and
   * SCHEDULE_CONFLICT only when both pass; with no failure the student may
   * enrol.
   */
  lemma ValidateOrder(capacity: Option<Capacity>, prereqs: seq<Prereq>, completed: set<string>,
                      groupBlocks: seq<GroupBlock>, existing: map<string, ExistingRow>)
    ensures var r := ValidateEnrollmentConstraints(capacity, prereqs, completed, groupBlocks, existing);
      (r.Err? && r.error.code == Str("GROUP_FULL") <==> GroupFull(capacity)) &&
      (r.Err? && r.error.code == Str("PREREQ_NOT_MET") <==>
        !GroupFull(capacity) && exists p :: p in prereqs && p.id !in completed) &&
      (r.Err? && r.error.code == Str("SCHEDULE_CONFLICT") <==>
        !GroupFull(capacity) && (forall p :: p in prereqs ==> p.id in completed) &&
        exists i :: 0 <= i < |groupBlocks| && groupBlocks[i].bloqueId in existing) &&
      (r.Ok? <==> (!GroupFull(capacity) && (forall p :: p in prereqs ==> p.id in completed) &&
        forall i :: 0 <= i < |groupBlocks| ==> groupBlocks[i].bloqueId !in existing)) &&
      (r.Err? ==> r.error.status == Some(409))
    ensures var r := ValidateEnrollmentConstraints(capacity, prereqs, completed, groupBlocks, existing);
      r.Err? && r.error.code == Str("PREREQ_NOT_MET") ==> r.error.missing == Some(MissingPrereqs(prereqs, completed))
  {
    MissingPrereqsEmpty(prereqs, completed);
    FirstClashNone(groupBlocks, existing);
  }

  /**
   * The student's existing blocks include those of every group they are
   * enrolled in, the requested one too: asking again for a group with at
   * least one block and free seats fails with SCHEDULE_CONFLICT before the
   * insert could report ALREADY_ENROLLED.
   */
  lemma ReEnrollingReportsConflict(capacity: Option<Capacity>, prereqs: seq<Prereq>, completed: set<string>,
                                   groupBlocks: seq<GroupBlock>, rows: seq<DetailRow>, i: nat)
    requires i < |rows| && |groupBlocks| > 0 && rows[i].bloqueId == groupBlocks[0].bloqueId
    requires !GroupFull(capacity) && forall p :: p in prereqs ==> p.id in completed
    ensures var r := ValidateEnrollmentConstraints(capacity, prereqs, completed, groupBlocks, ExistingBlocksOf(rows));
      r.Err? && r.error.code == Str("SCHEDULE_CONFLICT") && r.error.conflict.Some?
  {
    ExistingBlocksKeys(rows, groupBlocks[0].bloqueId);
    MissingPrereqsEmpty(prereqs, completed);
    FirstClashNone(groupBlocks, ExistingBlocksOf(rows));
  }

  // ---------------------------------------------------------------------------
  // enrollStudent, addStudentToGroup, selfEnroll
  // ---------------------------------------------------------------------------

  /** `ensureStudentUser`: `rol` is the user's role, `None` when there is no such user. */
  function EnsureStudentUser(rol: Option<string>): Option<Failure>
  {
    match rol
    case None => Some(HttpError(404, "Estudiante no encontrado", ""))
    case Some(r) => if r != "ESTUDIANTE" then Some(HttpError(400, "Solo se pueden inscribir usuarios con rol ESTUDIANTE", "")) else None
  }

  /**
   * `enrollStudent`: the group must exist, pass the checks, and the insert
   * must not hit the unique (student, group) index, reported by Prisma as
   * `P2002`.
   */
  function EnrollStudent(groupFound: bool, checks: Result<Checked, Failure>, duplicate: bool): Result<Checked, Failure>
  {
    if !groupFound then Err(HttpError(404, "Grupo no encontrado", ""))
    else if checks.Err? then checks
    else if duplicate then Err(HttpError(409, "El estudiante ya está inscrito en este grupo", "ALREADY_ENROLLED"))
    else checks
  }

  /** The status of `addStudentToGroup` (`selfEnroll` is the same with `groupId` as the required field). */
  function AddStudentToGroup(studentId: JsStr, rol: Option<string>, groupFound: bool, checks: Result<Checked, Failure>, duplicate: bool): int
  {
    if !studentId.Truthy() then 400
    else match EnsureStudentUser(rol)
      case Some(e) => HandleError(e, "Error al inscribir al estudiante").status
      case None =>
        match EnrollStudent(groupFound, checks, duplicate)
        case Ok(_) => 201
        case Err(e) => HandleError(e, "Error al inscribir al estudiante").status
  }

  /** A student is enrolled (201) exactly when every step passes; a duplicate enrolment is a 409. */
  lemma AddStudentOutcome(studentId: JsStr, rol: Option<string>, groupFound: bool, checks: Result<Checked, Failure>, duplicate: bool)
    requires checks.Err? ==> checks.error.status.Some? && checks.error.status.value != 0 && checks.error.status.value != 201
    ensures AddStudentToGroup(studentId, rol, groupFound, checks, duplicate) == 201 <==>
      studentId.Truthy() && rol == Some("ESTUDIANTE") && groupFound && checks.Ok? && !duplicate
    ensures studentId.Truthy() && rol == Some("ESTUDIANTE") && groupFound && checks.Ok? && duplicate ==>
      AddStudentToGroup(studentId, rol, groupFound, checks, duplicate) == 409
  {
  }

  // ---------------------------------------------------------------------------
  // removeEnrollment and cancelSelfEnrollment
  // ---------------------------------------------------------------------------

  /** `removeEnrollment`: `grupoId` is the group of the enrolment, `None` when it does not exist. */
  function RemoveEnrollment(groupId: string, grupoId: Option<string>): int
  {
    match grupoId
    case None => 404
    case Some(g) => if g != groupId then 400 else 200
  }

  /** An enrolment is removed only through its own group. */
  lemma RemoveEnrollmentGuards(groupId: string, grupoId: Option<string>)
    ensures RemoveEnrollment(groupId, grupoId) == 200 <==> grupoId == Some(groupId)
    ensures RemoveEnrollment(groupId, grupoId) == 404 <==> grupoId.None?
  {
  }

  const DayMs := 86400000

  /**
   * `canCancelEnrollment(periodStart)` at instant `now` (ms):
   * `allowCancelAfterStart` and `cancelDaysBefore` are the environment
   * settings, `cancelDaysBefore` `None` when it is not a finite number.
   */
  function CanCancelEnrollment(periodStart: Option<int>, now: int, allowCancelAfterStart: bool, cancelDaysBefore: Option<int>): bool
  {
    match periodStart
    case None => true
    case Some(start) =>
      if allowCancelAfterStart then true
      else if cancelDaysBefore.Some? && cancelDaysBefore.value > 0 then now <= start - cancelDaysBefore.value * DayMs
      else now < start
  }

  /**
   * Without a start date or with cancellation after start allowed, a student
   * may always cancel; with a positive number of days, until that many days
   * before the start; otherwise until the start. A later instant never turns
   * a refusal into a permission.
   */
  lemma CancelDeadline(periodStart: Option<int>, now: int, allowCancelAfterStart: bool, cancelDaysBefore: Option<int>, later: int)
    requires now <= later
    ensures periodStart.None? || allowCancelAfterStart ==> CanCancelEnrollment(periodStart, now, allowCancelAfterStart, cancelDaysBefore)
    ensures periodStart.Some? && !allowCancelAfterStart && cancelDaysBefore.Some? && cancelDaysBefore.value > 0 ==>
      (CanCancelEnrollment(periodStart, now, allowCancelAfterStart, cancelDaysBefore) <==>
        now <= periodStart.value - cancelDaysBefore.value * DayMs)
    ensures periodStart.Some? && !allowCancelAfterStart && !(cancelDaysBefore.Some? && cancelDaysBefore.value > 0) ==>
      (CanCancelEnrollment(periodStart, now, allowCancelAfterStart, cancelDaysBefore) <==> now < periodStart.value)
    ensures CanCancelEnrollment(periodStart, later, allowCancelAfterStart, cancelDaysBefore) ==>
      CanCancelEnrollment(periodStart, now, allowCancelAfterStart, cancelDaysBefore)
  {
  }

  /** An enrolment as `cancelSelfEnrollment` loads it. */
  datatype OwnEnrollment = OwnEnrollment(usuarioId: string, periodStart: Option<int>)

  /** `cancelSelfEnrollment`: someone else's enrolment looks missing (404); past the deadline it is a 409. */
  function CancelSelfEnrollment(studentId: string, enrollment: Option<OwnEnrollment>, now: int,
                                allowCancelAfterStart: bool, cancelDaysBefore: Option<int>): int
  {
    match enrollment
    case None => 404
    case Some(e) =>
      if e.usuarioId != studentId then 404
      else if !CanCancelEnrollment(e.periodStart, now, allowCancelAfterStart, cancelDaysBefore) then 409
      else 200
  }

  lemma CancelSelfOutcome(studentId: string, enrollment: Option<OwnEnrollment>, now: int,
                          allowCancelAfterStart: bool, cancelDaysBefore: Option<int>)
    ensures CancelSelfEnrollment(studentId, enrollment, now, allowCancelAfterStart, cancelDaysBefore) == 200 <==>
      enrollment.Some? && enrollment.value.usuarioId == studentId &&
      CanCancelEnrollment(enrollment.value.periodStart, now, allowCancelAfterStart, cancelDaysBefore)
    ensures enrollment.Some? && enrollment.value.usuarioId != studentId ==>
      CancelSelfEnrollment(studentId, enrollment, now, allowCancelAfterStart, cancelDaysBefore) == 404
  {
  }

  // ---------------------------------------------------------------------------
  // listAvailableGroupsForStudent
  // ---------------------------------------------------------------------------

  datatype Period = Period(id: string, fechaInicio: Option<int>)

  /** `getActiveOrSelectedPeriod`: `selected` is the lookup of the given id, `active` the active period. */
  function ActiveOrSelectedPeriod(periodoId: JsStr, selected: Option<Period>, active: Option<Period>): Result<Period, Failure>
  {
    if periodoId.Truthy() then
      match selected
      case Some(p) => Ok(p)
      case None => Err(HttpError(404, "Período no encontrado", ""))
    else
      match active
      case Some(p) => Ok(p)
      case None => Err(HttpError(404, "No existe un período activo", ""))
  }

  /** A group of the listing: `count` is `_count.inscripciones`. */
  datatype Offer = Offer(id: string, materiaId: string, cupoMax: Option<int>, count: Option<nat>, horarioDetalle: seq<GroupBlock>)

  /**
   * `capacity?.disponibles ?? (typeof cupo_max === 'number' ? Math.max(cupo_max
   * - (capacity?.inscritos ?? _count?.inscripciones ?? 0), 0) : null)`.
   */
  function Disponibles(g: Offer, capacity: Option<Capacity>): Option<int>
  {
    if capacity.Some? && capacity.value.disponibles.Some? then capacity.value.disponibles
    else match g.cupoMax
      case None => None
      case Some(cupo) =>
        var used := if capacity.Some? && capacity.value.inscritos.Some? then capacity.value.inscritos.value
                    else if g.count.Some? then g.count.value else 0;
        Some(MaxInt(cupo - used, 0))
  }

  /** `(disponibles === null || disponibles > 0) && missing.length === 0 && !conflict`. */
  predicate Elegible(disponibles: Option<int>, missing: seq<Prereq>, clash: Option<Clash>)
  {
    (disponibles.None? || disponibles.value > 0) && |missing| == 0 && clash.None?
  }

  datatype Restrictions = Restrictions(prerequisitos: seq<Prereq>, conflicto: Option<Clash>, cupo: bool)

  datatype Item = Item(id: string, capacidad: Option<Capacity>, horarios: seq<GroupBlock>, elegible: bool, restricciones: Restrictions)

  /** The inputs of the listing besides the groups. */
  datatype Lookups = Lookups(capacityMap: map<string, Capacity>, prereqMap: map<string, seq<Prereq>>,
                             completed: set<string>, existing: map<string, ExistingRow>)

  function CapacityOf(l: Lookups, id: string): Option<Capacity>
  {
    if id in l.capacityMap then Some(l.capacityMap[id]) else None
  }

  /** The item of one group, with `restricciones.conflicto` the conflict found for it. */
  function ItemFor(g: Offer, l: Lookups): (it: Item)
  {
    var capacity := CapacityOf(l, g.id);
    var disponibles := Disponibles(g, capacity);
    var missing := MissingPrereqs(PrereqsOf(l.prereqMap, g.materiaId), l.completed);
    var clash := FirstClash(g.horarioDetalle, l.existing);
    Item(g.id, capacity, g.horarioDetalle, Elegible(disponibles, missing, clash), Restrictions(missing, clash, disponibles == Some(0)))
  }

  /**
   * A group is eligible exactly when it has free seats or no known limit,
   * every prerequisite is completed, and none of its block ids is already
   * occupied; `cupo` flags exactly a group with no free seats.
   */
  lemma ItemEligibility(g: Offer, l: Lookups)
    ensures ItemFor(g, l).elegible <==>
      (Disponibles(g, CapacityOf(l, g.id)).None? || Disponibles(g, CapacityOf(l, g.id)).value > 0) &&
      (forall p :: p in PrereqsOf(l.prereqMap, g.materiaId) ==> p.id in l.completed) &&
      (forall i :: 0 <= i < |g.horarioDetalle| ==> g.horarioDetalle[i].bloqueId !in l.existing)
    ensures ItemFor(g, l).restricciones.cupo <==> Disponibles(g, CapacityOf(l, g.id)) == Some(0)
  {
    MissingPrereqsEmpty(PrereqsOf(l.prereqMap, g.materiaId), l.completed);
    FirstClashNone(g.horarioDetalle, l.existing);
  }

  /** Without a capacity record, the free seats come from `cupo_max` and the group's own count, clamped at 0. */
  lemma DisponiblesFallback(g: Offer)
    ensures g.cupoMax.None? ==> Disponibles(g, None).None?
    ensures g.cupoMax.Some? ==> Disponibles(g, None) == Some(MaxInt(g.cupoMax.value - (if g.count.Some? then g.count.value else 0), 0))
    ensures Disponibles(g, None).Some? ==> Disponibles(g, None).value >= 0
  {
  }

  function ItemsFor(groups: seq<Offer>, l: Lookups): (items: seq<Item>)
    ensures |items| == |groups| && forall k :: 0 <= k < |groups| ==> items[k] == ItemFor(groups[k], l)
  {
    seq(|groups|, k requires 0 <= k < |groups| => ItemFor(groups[k], l))
  }

  /** What evaluating the undefined name `conflicto` throws. */
  const ConflictoUndefined := "conflicto is not defined"

  /** The status and items of `listAvailableGroupsForStudent`. */
  datatype Listing = Listing(status: int, items: seq<Item>)

  /**
   * `listAvailableGroupsForStudent` as written: the item object names an
   * undefined variable `conflicto`, so building the first item throws a
   * `ReferenceError`, which `handleError` turns into a 500.
   */
  function ListAvailableGroupsForStudent(period: Result<Period, Failure>, groups: seq<Offer>, l: Lookups): Listing
  {
    match period
    case Err(e) => Listing(HandleError(e, "Error al obtener los grupos disponibles").status, [])
    case Ok(_) =>
      if |groups| > 0 then Listing(HandleError(RuntimeError(ConflictoUndefined), "Error al obtener los grupos disponibles").status, [])
      else Listing(200, [])
  }

  /** As written, any period with at least one group gets a 500 and no items. */
  lemma ListingFailsWithGroups(p: Period, groups: seq<Offer>, l: Lookups)
    requires |groups| > 0
    ensures ListAvailableGroupsForStudent(Ok(p), groups, l) == Listing(500, [])
  {
  }

  /** The listing with `conflicto: conflict`, the value computed just before for the group. */
  function ListAvailableGroupsCorrected(period: Result<Period, Failure>, groups: seq<Offer>, l: Lookups): Listing
  {
    match period
    case Err(e) => Listing(HandleError(e, "Error al obtener los grupos disponibles").status, [])
    case Ok(_) => Listing(200, ItemsFor(groups, l))
  }

  /** With the name fixed, every group of the period is listed in order with its eligibility and its clash. */
  lemma CorrectedListing(p: Period, groups: seq<Offer>, l: Lookups, k: nat)
    requires k < |groups|
    ensures ListAvailableGroupsCorrected(Ok(p), groups, l).status == 200
    ensures ListAvailableGroupsCorrected(Ok(p), groups, l).items[k].id == groups[k].id
    ensures ListAvailableGroupsCorrected(Ok(p), groups, l).items[k].restricciones.conflicto == FirstClash(groups[k].horarioDetalle, l.existing)
    ensures ListAvailableGroupsCorrected(Ok(p), groups, l).items[k].elegible ==>
      forall i :: 0 <= i < |groups[k].horarioDetalle| ==> groups[k].horarioDetalle[i].bloqueId !in l.existing
  {
    ItemEligibility(groups[k], l);
  }
}
