/**
 * The enrolment service of `backend/src/services/real-enrollment.service.js`
 * and the availability check of
 * `backend/src/controllers/real-enrollment.controller.js`: seat counting,
 * the time-overlap search over the student's enrolled groups, occupancy
 * figures and the order in which the checks reject a request.
 *
 * Records are the results of the service's queries; times of day are
 * milliseconds (the `Time` columns as JavaScript dates).
 */
module RealEnrollment {
  import opened Common

  // ---------------------------------------------------------------------------
  // Time overlap
  // ---------------------------------------------------------------------------

  /** The `bloques_horarios` of a `horario_detalle` row. */
  datatype Slot = Slot(dia: string, horaInicio: int, horaFin: int)

  /** Same day, and each starts before the other ends. */
  predicate Overlaps(a: Slot, b: Slot)
  {
    a.dia == b.dia && a.horaInicio < b.horaFin && a.horaFin > b.horaInicio
  }

  /** Overlap does not depend on which block is the new one; a block of positive length overlaps itself. */
  lemma OverlapsSymmetric(a: Slot, b: Slot)
    ensures Overlaps(a, b) <==> Overlaps(b, a)
    ensures a.horaInicio < a.horaFin ==> Overlaps(a, a)
    ensures a.horaFin <= b.horaInicio ==> !Overlaps(a, b)
  {
  }

  /** An enrolment of the student in the period: its group's blocks and, when loaded, its subject's name. */
  datatype Enrolled = Enrolled(horario: seq<Slot>, materiaNombre: JsStr)

  /** Some block of the group overlaps some block of some enrolled group. */
  predicate AnyOverlap(gs: seq<Slot>, es: seq<Enrolled>)
  {
    exists i, j, k :: 0 <= i < |gs| && 0 <= j < |es| && 0 <= k < |es[j].horario| && Overlaps(gs[i], es[j].horario[k])
  }

  predicate OverlapsRow(b: Slot, row: seq<Slot>)
  {
    exists k :: 0 <= k < |row| && Overlaps(b, row[k])
  }

  predicate OverlapsEnrolled(b: Slot, es: seq<Enrolled>)
  {
    exists j, k :: 0 <= j < |es| && 0 <= k < |es[j].horario| && Overlaps(b, es[j].horario[k])
  }

  method RowHasOverlap(b: Slot, row: seq<Slot>) returns (found: bool)
    ensures found == OverlapsRow(b, row)
  {
    var k := 0;
    while k < |row|
      invariant 0 <= k <= |row|
      invariant forall t :: 0 <= t < k ==> !Overlaps(b, row[t])
    {
      if Overlaps(b, row[k]) {
        return true;
      }
      k := k + 1;
    }
    return false;
  }

  method EnrolledHasOverlap(b: Slot, es: seq<Enrolled>) returns (found: bool)
    ensures found == OverlapsEnrolled(b, es)
  {
    var j := 0;
    while j < |es|
      invariant 0 <= j <= |es|
      invariant forall t, k :: 0 <= t < j && 0 <= k < |es[t].horario| ==> !Overlaps(b, es[t].horario[k])
    {
      found := RowHasOverlap(b, es[j].horario);
      if found {
        return;
      }
      j := j + 1;
    }
    return false;
  }

  /** The triple loop of `enrollStudentInGroup` that throws on the first overlap. */
  method HasScheduleConflict(gs: seq<Slot>, es: seq<Enrolled>) returns (conflict: bool)
    ensures conflict == AnyOverlap(gs, es)
  {
    var i := 0;
    while i < |gs|
      invariant 0 <= i <= |gs|
      invariant forall t :: 0 <= t < i ==> !OverlapsEnrolled(gs[t], es)
    {
      conflict := EnrolledHasOverlap(gs[i], es);
      if conflict {
        return;
      }
      i := i + 1;
    }
    return false;
  }

  // ---------------------------------------------------------------------------
  // Occupancy
  // ---------------------------------------------------------------------------

  /** A group with its `_count.inscripciones`. */
  datatype GroupStat = GroupStat(id: string, seccion: string, cupoMax: int, count: nat)

  /**
   * `Math.round((inscritos / cupo_max) * 100)`; a `cupo_max` of 0 yields
   * `Infinity` or `NaN`, here `None`.
   */
  function Percent(inscritos: int, cupoMax: int): Option<int>
  {
    if cupoMax == 0 then None else Some(Round((inscritos as real / cupoMax as real) * 100.0))
  }

  /** The occupancy of a group within its limit is a whole percentage from 0 to 100: 0 when empty, 100 when full. */
  lemma PercentBounds(inscritos: int, cupoMax: int)
    requires 0 <= inscritos <= cupoMax && cupoMax > 0
    ensures Percent(inscritos, cupoMax).Some?
    ensures 0 <= Percent(inscritos, cupoMax).value <= 100
    ensures inscritos == 0 ==> Percent(inscritos, cupoMax).value == 0
    ensures inscritos == cupoMax ==> Percent(inscritos, cupoMax).value == 100
  {
    RatioInUnit(inscritos, cupoMax);
    var x := (inscritos as real / cupoMax as real) * 100.0;
    assert 0.0 <= x <= 100.0;
  }

  /** The group figures returned after an enrolment or a cancellation. */
  datatype Stats = Stats(id: string, seccion: string, cupoMax: int, inscritos: int, disponibles: int, porcentaje: Option<int>)

  /** The figures of `g` once it has `inscritos` enrolments: free seats clamped at 0. */
  function StatsWith(g: GroupStat, inscritos: int): (s: Stats)
    ensures s.inscritos == inscritos && s.disponibles >= 0
    ensures s.disponibles == 0 <==> g.cupoMax <= inscritos
    ensures g.cupoMax >= inscritos ==> s.disponibles == g.cupoMax - inscritos
  {
    Stats(g.id, g.seccion, g.cupoMax, inscritos, MaxInt(g.cupoMax - inscritos, 0), Percent(inscritos, g.cupoMax))
  }

  // ---------------------------------------------------------------------------
  // enrollStudentInGroup and cancelEnrollment
  // ---------------------------------------------------------------------------

  const GroupNotFound := "Grupo no encontrado"
  const GroupFull := "El grupo ya alcanzó el cupo máximo"
  const AlreadyEnrolled := "El estudiante ya está inscrito en este grupo"
  const TimeConflict := "Conflicto de horario con otra materia inscrita"

  /** The outcome of `enrollStudentInGroup` once the overlap search has answered `conflict`. */
  function EnrollOutcome(grupo: Option<GroupStat>, alreadyEnrolled: bool, conflict: bool): Result<Stats, string>
  {
    match grupo
    case None => Err(GroupNotFound)
    case Some(g) =>
      if g.cupoMax - g.count <= 0 then Err(GroupFull)
      else if alreadyEnrolled then Err(AlreadyEnrolled)
      else if conflict then Err(TimeConflict)
      else Ok(StatsWith(g, g.count + 1))
  }

  /**
   * `enrollStudentInGroup(userId, grupoId)`: `grupo` is the group lookup,
   * `alreadyEnrolled` whether an enrolment of the student in it exists, `gs`
   * its blocks and `es` the student's enrolments in the group's period.
   */
  method EnrollStudentInGroup(grupo: Option<GroupStat>, alreadyEnrolled: bool, gs: seq<Slot>, es: seq<Enrolled>)
    returns (r: Result<Stats, string>)
    ensures r == EnrollOutcome(grupo, alreadyEnrolled, AnyOverlap(gs, es))
  {
    if grupo.None? {
      return Err(GroupNotFound);
    }
    var g := grupo.value;
    var cupoDisponible := g.cupoMax - g.count;
    if cupoDisponible <= 0 {
      return Err(GroupFull);
    }
    if alreadyEnrolled {
      return Err(AlreadyEnrolled);
    }
    var conflict := HasScheduleConflict(gs, es);
    if conflict {
      return Err(TimeConflict);
    }
    var nuevosInscritos := g.count + 1;
    return Ok(Stats(g.id, g.seccion, g.cupoMax, nuevosInscritos, MaxInt(g.cupoMax - nuevosInscritos, 0), Percent(nuevosInscritos, g.cupoMax)));
  }

  /**
   * The first failing check decides (missing group, no seat, duplicate,
   * overlap); a successful enrolment counts one more student, leaves
   * `cupo_max - inscritos` seats (never negative, since a seat was free) and
   * an occupancy from 0 to 100.
   */
  lemma EnrollOrder(grupo: Option<GroupStat>, alreadyEnrolled: bool, gs: seq<Slot>, es: seq<Enrolled>)
    ensures var r := EnrollOutcome(grupo, alreadyEnrolled, AnyOverlap(gs, es));
      (r == Err(GroupFull) <==> grupo.Some? && grupo.value.cupoMax - grupo.value.count <= 0) &&
      (r == Err(AlreadyEnrolled) <==> grupo.Some? && grupo.value.cupoMax - grupo.value.count > 0 && alreadyEnrolled) &&
      (r == Err(TimeConflict) <==>
        grupo.Some? && grupo.value.cupoMax - grupo.value.count > 0 && !alreadyEnrolled && AnyOverlap(gs, es)) &&
      (r.Ok? <==> grupo.Some? && grupo.value.cupoMax - grupo.value.count > 0 && !alreadyEnrolled && !AnyOverlap(gs, es))
    ensures var r := EnrollOutcome(grupo, alreadyEnrolled, AnyOverlap(gs, es));
      r.Ok? ==>
        r.value.inscritos == grupo.value.count + 1 && r.value.disponibles == grupo.value.cupoMax - r.value.inscritos &&
        r.value.porcentaje.Some? && 0 <= r.value.porcentaje.value <= 100
  {
    if grupo.Some? && grupo.value.cupoMax - grupo.value.count > 0 {
      PercentBounds(grupo.value.count + 1, grupo.value.cupoMax);
    }
  }

  /** An enrolment as `cancelEnrollment` loads it, with its group. */
  datatype Enrollment = Enrollment(usuarioId: string, grupo: GroupStat)

  const EnrollmentNotFound := "Inscripción no encontrada"
  const NotOwner := "No tienes permisos para cancelar esta inscripción"

  /** `cancelEnrollment(inscripcionId, userId)`: the figures are those before the delete, minus one. */
  function CancelEnrollment(inscripcion: Option<Enrollment>, userId: string): Result<Stats, string>
  {
    match inscripcion
    case None => Err(EnrollmentNotFound)
    case Some(e) =>
      if e.usuarioId != userId then Err(NotOwner)
      else Ok(StatsWith(e.grupo, e.grupo.count - 1))
  }

  /** Only the owner can cancel; a cancellation counts one student less and frees one seat when the group was within its limit. */
  lemma CancelOutcome(inscripcion: Option<Enrollment>, userId: string)
    ensures CancelEnrollment(inscripcion, userId).Ok? <==> inscripcion.Some? && inscripcion.value.usuarioId == userId
    ensures inscripcion.Some? && inscripcion.value.usuarioId != userId ==> CancelEnrollment(inscripcion, userId) == Err(NotOwner)
    ensures CancelEnrollment(inscripcion, userId).Ok? ==>
      var g := inscripcion.value.grupo;
      var s := CancelEnrollment(inscripcion, userId).value;
      s.inscritos == g.count - 1 && (g.count <= g.cupoMax ==> s.disponibles == MaxInt(g.cupoMax - g.count, 0) + 1)
  {
  }

  /** Enrolling and then cancelling the same enrolment gives back the figures of the group before both. */
  lemma EnrollThenCancel(g: GroupStat, userId: string)
    requires g.cupoMax - g.count > 0
    ensures CancelEnrollment(Some(Enrollment(userId, g.(count := g.count + 1))), userId) == Ok(StatsWith(g, g.count))
  {
  }

  // ---------------------------------------------------------------------------
  // validateGroupCapacity, getGroupEnrollments, getStudentEnrollments
  // ---------------------------------------------------------------------------

  datatype CapacityReport = CapacityReport(id: string, seccion: string, cupoMax: int, inscritos: nat, disponibles: int,
                                           porcentajeOcupado: Option<int>, tieneCupo: bool, estaLleno: bool)

  function ValidateGroupCapacity(grupo: Option<GroupStat>): Result<CapacityReport, string>
  {
    match grupo
    case None => Err(GroupNotFound)
    case Some(g) =>
      var disponibles := MaxInt(g.cupoMax - g.count, 0);
      Ok(CapacityReport(g.id, g.seccion, g.cupoMax, g.count, disponibles, Percent(g.count, g.cupoMax), disponibles > 0, disponibles == 0))
  }

  /**
   * The seats are never negative, a group either has a seat or is full and
   * never both, and it is full exactly when its enrolments reach `cupo_max`.
   */
  lemma CapacityReportConsistent(g: GroupStat)
    ensures var r := ValidateGroupCapacity(Some(g)).value;
      r.disponibles >= 0 && (r.tieneCupo <==> r.disponibles > 0) && (r.estaLleno <==> r.disponibles == 0) &&
      (r.tieneCupo != r.estaLleno) && (r.estaLleno <==> g.count >= g.cupoMax) &&
      (g.count <= g.cupoMax ==> r.disponibles + r.inscritos == g.cupoMax)
    ensures ValidateGroupCapacity(Some(g)).value.porcentajeOcupado == Percent(g.count, g.cupoMax)
  {
  }

  /** `getGroupEnrollments`: the group's figures and its enrolments, newest first as loaded. */
  datatype GroupEnrollments = GroupEnrollments(stats: Stats, inscripciones: seq<string>, total: nat)

  function GetGroupEnrollments(grupo: Option<GroupStat>, inscripciones: seq<string>): (r: Result<GroupEnrollments, string>)
    ensures r.Ok? <==> grupo.Some?
    ensures r.Ok? ==> (r.value.total == |inscripciones| && r.value.stats.inscritos == grupo.value.count &&
      r.value.stats.disponibles >= 0 && r.value.inscripciones == inscripciones)
  {
    match grupo
    case None => Err(GroupNotFound)
    case Some(g) => Ok(GroupEnrollments(StatsWith(g, g.count), inscripciones, |inscripciones|))
  }

  /** `formatted.reduce((sum, i) => sum + i.grupo.materia.creditos, 0)`. */
  function TotalCreditos(creditos: seq<int>): int
  {
    if creditos == [] then 0 else TotalCreditos(creditos[..|creditos| - 1]) + creditos[|creditos| - 1]
  }

  /** The credit total is additive over the list of enrolments. */
  lemma {:induction false} TotalCreditosAppend(a: seq<int>, b: seq<int>)
    ensures TotalCreditos(a + b) == TotalCreditos(a) + TotalCreditos(b)
  {
    if b != [] {
      assert (a + b)[..|a + b| - 1] == a + b[..|b| - 1];
      TotalCreditosAppend(a, b[..|b| - 1]);
    } else {
      assert a + b == a;
    }
  }

  lemma {:induction false} TotalCreditosNonNegative(creditos: seq<int>)
    requires forall k :: 0 <= k < |creditos| ==> creditos[k] >= 0
    ensures TotalCreditos(creditos) >= 0
  {
    if creditos != [] {
      TotalCreditosNonNegative(creditos[..|creditos| - 1]);
    }
  }

  // ---------------------------------------------------------------------------
  // The controller: status codes
  // ---------------------------------------------------------------------------

  /**
   * `enrollInGroup`: 400 without `grupoId`; the service throws plain errors
   * without a status, so each of its rejections answers
   * `error.status || 500`, a 500.
   */
  function EnrollInGroupStatus(grupoId: JsStr, outcome: Result<Stats, string>): int
  {
    if !grupoId.Truthy() then 400
    else if outcome.Ok? then 201
    else 500
  }

  lemma EnrollInGroupStatuses(grupoId: JsStr, grupo: Option<GroupStat>, alreadyEnrolled: bool, gs: seq<Slot>, es: seq<Enrolled>)
    ensures !grupoId.Truthy() ==> EnrollInGroupStatus(grupoId, EnrollOutcome(grupo, alreadyEnrolled, AnyOverlap(gs, es))) == 400
    ensures grupoId.Truthy() && (grupo.None? || alreadyEnrolled) ==>
      EnrollInGroupStatus(grupoId, EnrollOutcome(grupo, alreadyEnrolled, AnyOverlap(gs, es))) == 500
    ensures grupoId.Truthy() ==>
      (EnrollInGroupStatus(grupoId, EnrollOutcome(grupo, alreadyEnrolled, AnyOverlap(gs, es))) == 201 <==>
        EnrollOutcome(grupo, alreadyEnrolled, AnyOverlap(gs, es)).Ok?)
  {
  }

  // ---------------------------------------------------------------------------
  // checkAvailabilityForStudent
  // ---------------------------------------------------------------------------

  /** A pushed conflict: the day, the group's block times and the other subject's name. */
  datatype ConflictEntry = ConflictEntry(dia: string, horaInicio: int, horaFin: int, materiaConflicto: string)

  /** `inscripcion.grupos.materias?.nombre || 'Materia sin nombre'`. */
  function SubjectLabel(nombre: JsStr): string
  {
    if nombre.Truthy() then nombre.s else "Materia sin nombre"
  }

  function EntryOf(b: Slot, e: Enrolled): ConflictEntry
  {
    ConflictEntry(b.dia, b.horaInicio, b.horaFin, SubjectLabel(e.materiaNombre))
  }

  /** The entries pushed for block `b` against the blocks `row` of enrolment `e`. */
  function RowConflicts(b: Slot, row: seq<Slot>, e: Enrolled): seq<ConflictEntry>
  {
    if row == [] then []
    else RowConflicts(b, row[..|row| - 1], e) + (if Overlaps(b, row[|row| - 1]) then [EntryOf(b, e)] else [])
  }

  /** The entries pushed for block `b` against every enrolment. */
  function BlockConflicts(b: Slot, es: seq<Enrolled>): seq<ConflictEntry>
  {
    if es == [] then []
    else BlockConflicts(b, es[..|es| - 1]) + RowConflicts(b, es[|es| - 1].horario, es[|es| - 1])
  }

  /** `conflictos` after the triple loop: one entry per overlapping (group block, enrolled block) pair, in loop order. */
  function ConflictList(gs: seq<Slot>, es: seq<Enrolled>): seq<ConflictEntry>
  {
    if gs == [] then []
    else ConflictList(gs[..|gs| - 1], es) + BlockConflicts(gs[|gs| - 1], es)
  }

  lemma {:induction false} RowConflictsEmpty(b: Slot, row: seq<Slot>, e: Enrolled)
    ensures RowConflicts(b, row, e) == [] <==> !OverlapsRow(b, row)
  {
    if row != [] {
      var init := row[..|row| - 1];
      RowConflictsEmpty(b, init, e);
      if OverlapsRow(b, init) {
        var k :| 0 <= k < |init| && Overlaps(b, init[k]);
        assert row[k] == init[k];
      }
      if OverlapsRow(b, row) {
        var k :| 0 <= k < |row| && Overlaps(b, row[k]);
        if k < |init| {
          assert init[k] == row[k];
        }
      }
    }
  }

  /** The enrolled overlap of a block, split at the last enrolment. */
  lemma OverlapsEnrolledSplit(b: Slot, es: seq<Enrolled>)
    requires es != []
    ensures OverlapsEnrolled(b, es) <==> OverlapsEnrolled(b, es[..|es| - 1]) || OverlapsRow(b, es[|es| - 1].horario)
  {
    var init := es[..|es| - 1];
    var last := es[|es| - 1];
    if OverlapsEnrolled(b, init) {
      var j, k :| 0 <= j < |init| && 0 <= k < |init[j].horario| && Overlaps(b, init[j].horario[k]);
      assert es[j] == init[j];
    }
    if OverlapsRow(b, last.horario) {
      var k :| 0 <= k < |last.horario| && Overlaps(b, last.horario[k]);
      assert Overlaps(b, es[|es| - 1].horario[k]);
    }
    if OverlapsEnrolled(b, es) {
      var j, k :| 0 <= j < |es| && 0 <= k < |es[j].horario| && Overlaps(b, es[j].horario[k]);
      if j < |init| {
        assert init[j] == es[j];
      }
    }
  }

  lemma {:induction false} BlockConflictsEmpty(b: Slot, es: seq<Enrolled>)
    ensures BlockConflicts(b, es) == [] <==> !OverlapsEnrolled(b, es)
  {
    if es != [] {
      var last := es[|es| - 1];
      BlockConflictsEmpty(b, es[..|es| - 1]);
      RowConflictsEmpty(b, last.horario, last);
      OverlapsEnrolledSplit(b, es);
    }
  }

  /** The overlap of a group, split at its last block. */
  lemma AnyOverlapSplit(gs: seq<Slot>, es: seq<Enrolled>)
    requires gs != []
    ensures AnyOverlap(gs, es) <==> AnyOverlap(gs[..|gs| - 1], es) || OverlapsEnrolled(gs[|gs| - 1], es)
  {
    var init := gs[..|gs| - 1];
    if AnyOverlap(init, es) {
      var i, j, k :| 0 <= i < |init| && 0 <= j < |es| && 0 <= k < |es[j].horario| && Overlaps(init[i], es[j].horario[k]);
      assert gs[i] == init[i];
    }
    if OverlapsEnrolled(gs[|gs| - 1], es) {
      var j, k :| 0 <= j < |es| && 0 <= k < |es[j].horario| && Overlaps(gs[|gs| - 1], es[j].horario[k]);
    }
    if AnyOverlap(gs, es) {
      var i, j, k :| 0 <= i < |gs| && 0 <= j < |es| && 0 <= k < |es[j].horario| && Overlaps(gs[i], es[j].horario[k]);
      if i < |init| {
        assert init[i] == gs[i];
      }
    }
  }

  /**
   * The list is empty exactly when no pair overlaps: the controller reports
   * CONFLICTO_HORARIO exactly when the service would refuse the enrolment
   * for an overlap.
   */
  lemma {:induction false} ConflictListEmpty(gs: seq<Slot>, es: seq<Enrolled>)
    ensures ConflictList(gs, es) == [] <==> !AnyOverlap(gs, es)
  {
    if gs != [] {
      ConflictListEmpty(gs[..|gs| - 1], es);
      BlockConflictsEmpty(gs[|gs| - 1], es);
      AnyOverlapSplit(gs, es);
    }
  }

  /** Every entry names a block of the group that overlaps some enrolled block. */
  lemma {:induction false} ConflictListSound(gs: seq<Slot>, es: seq<Enrolled>, c: ConflictEntry)
    requires c in ConflictList(gs, es)
    ensures exists i :: (0 <= i < |gs| && c.dia == gs[i].dia && c.horaInicio == gs[i].horaInicio && c.horaFin == gs[i].horaFin &&
      OverlapsEnrolled(gs[i], es))
  {
    var init := gs[..|gs| - 1];
    var b := gs[|gs| - 1];
    if c in ConflictList(init, es) {
      ConflictListSound(init, es, c);
      var i :| 0 <= i < |init| && c.dia == init[i].dia && c.horaInicio == init[i].horaInicio && c.horaFin == init[i].horaFin &&
        OverlapsEnrolled(init[i], es);
      assert gs[i] == init[i];
    } else {
      assert c in BlockConflicts(b, es);
      BlockConflictsEntry(b, es, c);
      assert gs[|gs| - 1] == b;
    }
  }

  lemma {:induction false} BlockConflictsEntry(b: Slot, es: seq<Enrolled>, c: ConflictEntry)
    requires c in BlockConflicts(b, es)
    ensures c.dia == b.dia && c.horaInicio == b.horaInicio && c.horaFin == b.horaFin && OverlapsEnrolled(b, es)
  {
    var init := es[..|es| - 1];
    var last := es[|es| - 1];
    if c in BlockConflicts(b, init) {
      BlockConflictsEntry(b, init, c);
      var j, k :| 0 <= j < |init| && 0 <= k < |init[j].horario| && Overlaps(b, init[j].horario[k]);
      assert es[j] == init[j];
    } else {
      RowConflictsEntry(b, last.horario, last, c);
      var k :| 0 <= k < |last.horario| && Overlaps(b, last.horario[k]);
      assert Overlaps(b, es[|es| - 1].horario[k]);
    }
  }

  lemma {:induction false} RowConflictsEntry(b: Slot, row: seq<Slot>, e: Enrolled, c: ConflictEntry)
    requires c in RowConflicts(b, row, e)
    ensures c == EntryOf(b, e) && OverlapsRow(b, row)
  {
    var init := row[..|row| - 1];
    if c in RowConflicts(b, init, e) {
      RowConflictsEntry(b, init, e, c);
      var k :| 0 <= k < |init| && Overlaps(b, init[k]);
      assert row[k] == init[k];
    } else {
      assert Overlaps(b, row[|row| - 1]);
    }
  }

  method CollectRow(b: Slot, row: seq<Slot>, e: Enrolled, acc: seq<ConflictEntry>) returns (acc': seq<ConflictEntry>)
    ensures acc' == acc + RowConflicts(b, row, e)
  {
    acc' := acc;
    var k := 0;
    while k < |row|
      invariant 0 <= k <= |row|
      invariant acc' == acc + RowConflicts(b, row[..k], e)
    {
      assert row[..k + 1][..k] == row[..k];
      if Overlaps(b, row[k]) {
        acc' := acc' + [ConflictEntry(b.dia, b.horaInicio, b.horaFin, SubjectLabel(e.materiaNombre))];
      }
      k := k + 1;
    }
    assert row[..k] == row;
  }

  method CollectBlock(b: Slot, es: seq<Enrolled>, acc: seq<ConflictEntry>) returns (acc': seq<ConflictEntry>)
    ensures acc' == acc + BlockConflicts(b, es)
  {
    acc' := acc;
    var j := 0;
    while j < |es|
      invariant 0 <= j <= |es|
      invariant acc' == acc + BlockConflicts(b, es[..j])
    {
      assert es[..j + 1][..j] == es[..j];
      acc' := CollectRow(b, es[j].horario, es[j], acc');
      j := j + 1;
    }
    assert es[..j] == es;
  }

  /** The triple loop of `checkAvailabilityForStudent` that pushes into `conflictos`. */
  method CollectConflicts(gs: seq<Slot>, es: seq<Enrolled>) returns (conflictos: seq<ConflictEntry>)
    ensures conflictos == ConflictList(gs, es)
  {
    conflictos := [];
    var i := 0;
    while i < |gs|
      invariant 0 <= i <= |gs|
      invariant conflictos == ConflictList(gs[..i], es)
    {
      assert gs[..i + 1][..i] == gs[..i];
      conflictos := CollectBlock(gs[i], es, conflictos);
      i := i + 1;
    }
    assert gs[..i] == gs;
  }

  /** A prerequisite row with the code and name of the required subject. */
  datatype PrereqRow = PrereqRow(requiereId: string, codigo: string, nombre: string)

  datatype Pending = Pending(materia: string, nombre: string)

  /** The prerequisites whose `requiere_id` is not among the finished subjects, in row order. */
  function PendingOf(prereqs: seq<PrereqRow>, cursadas: seq<string>): (r: seq<Pending>)
    ensures |r| <= |prereqs|
  {
    if prereqs == [] then []
    else
      var p := prereqs[|prereqs| - 1];
      PendingOf(prereqs[..|prereqs| - 1], cursadas) + (if p.requiereId in cursadas then [] else [Pending(p.codigo, p.nombre)])
  }

  /** A pending entry is exactly a prerequisite not yet finished. */
  lemma {:induction false} PendingMembers(prereqs: seq<PrereqRow>, cursadas: seq<string>, q: Pending)
    ensures q in PendingOf(prereqs, cursadas) <==>
      exists p :: p in prereqs && p.requiereId !in cursadas && q == Pending(p.codigo, p.nombre)
  {
    if prereqs != [] {
      var init := prereqs[..|prereqs| - 1];
      PendingMembers(init, cursadas, q);
      assert prereqs == init + [prereqs[|prereqs| - 1]];
    }
  }

  /** Nothing is pending exactly when every required subject is finished. */
  lemma {:induction false} PendingEmpty(prereqs: seq<PrereqRow>, cursadas: seq<string>)
    ensures PendingOf(prereqs, cursadas) == [] <==> forall k :: 0 <= k < |prereqs| ==> prereqs[k].requiereId in cursadas
  {
    if prereqs != [] {
      PendingEmpty(prereqs[..|prereqs| - 1], cursadas);
      assert forall k :: 0 <= k < |prereqs| - 1 ==> prereqs[..|prereqs| - 1][k] == prereqs[k];
    }
  }

  method CollectPending(prereqs: seq<PrereqRow>, cursadas: seq<string>) returns (pendientes: seq<Pending>)
    ensures pendientes == PendingOf(prereqs, cursadas)
  {
    pendientes := [];
    var k := 0;
    while k < |prereqs|
      invariant 0 <= k <= |prereqs|
      invariant pendientes == PendingOf(prereqs[..k], cursadas)
    {
      assert prereqs[..k + 1][..k] == prereqs[..k];
      var prereq := prereqs[k];
      if prereq.requiereId !in cursadas {
        pendientes := pendientes + [Pending(prereq.codigo, prereq.nombre)];
      }
      k := k + 1;
    }
    assert prereqs[..k] == prereqs;
  }

  /** The JSON of `checkAvailabilityForStudent`. */
  datatype Availability =
    | NotFound
    | CupoLleno
    | YaInscrito
    | ConflictoHorario(conflictos: seq<ConflictEntry>)
    | PrerrequisitosPendientes(pendientes: seq<Pending>)
    | Disponible(inscritos: nat, disponibles: int, porcentaje: Option<int>)
  {
    function Status(): int { if NotFound? then 404 else 200 }
  }

  /** The decision once the conflict and pending lists are collected. */
  function Decide(grupo: Option<GroupStat>, alreadyEnrolled: bool, conflictos: seq<ConflictEntry>, pendientes: seq<Pending>): Availability
  {
    match grupo
    case None => NotFound
    case Some(g) =>
      if g.cupoMax - g.count <= 0 then CupoLleno
      else if alreadyEnrolled then YaInscrito
      else if |conflictos| > 0 then ConflictoHorario(conflictos)
      else if |pendientes| > 0 then PrerrequisitosPendientes(pendientes)
      else Disponible(g.count, g.cupoMax - g.count, Percent(g.count, g.cupoMax))
  }

  /**
   * The enrolments as the query of `checkAvailabilityForStudent` loads them:
   * its include brings each group's `horario_detalle` but not `materias`.
   */
  function AsLoaded(es: seq<Enrolled>): (r: seq<Enrolled>)
    ensures |r| == |es| && forall j :: 0 <= j < |es| ==> r[j] == Enrolled(es[j].horario, Undefined)
  {
    seq(|es|, j requires 0 <= j < |es| => Enrolled(es[j].horario, Undefined))
  }

  /** `AnyOverlap` reads only the blocks, which the query loads. */
  lemma AsLoadedOverlaps(gs: seq<Slot>, es: seq<Enrolled>)
    ensures AnyOverlap(gs, AsLoaded(es)) <==> AnyOverlap(gs, es)
  {
    var ls := AsLoaded(es);
    if AnyOverlap(gs, es) {
      var i, j, k :| 0 <= i < |gs| && 0 <= j < |es| && 0 <= k < |es[j].horario| && Overlaps(gs[i], es[j].horario[k]);
      assert Overlaps(gs[i], ls[j].horario[k]);
    }
  }

  /**
   * `checkAvailabilityForStudent` as written: `es` are the student's
   * enrolments in the period with their subjects, `cursadas` the subject
   * ids of the finished ones.
   */
  method CheckAvailabilityForStudent(grupo: Option<GroupStat>, alreadyEnrolled: bool, gs: seq<Slot>, es: seq<Enrolled>,
                                     prereqs: seq<PrereqRow>, cursadas: seq<string>) returns (r: Availability)
    ensures r == Decide(grupo, alreadyEnrolled, ConflictList(gs, AsLoaded(es)), PendingOf(prereqs, cursadas))
  {
    if grupo.None? {
      return NotFound;
    }
    var g := grupo.value;
    var cupoDisponible := g.cupoMax - g.count;
    if cupoDisponible <= 0 {
      return CupoLleno;
    }
    if alreadyEnrolled {
      return YaInscrito;
    }
    var conflictos := CollectConflicts(gs, AsLoaded(es));
    if |conflictos| > 0 {
      return ConflictoHorario(conflictos);
    }
    var pendientes := CollectPending(prereqs, cursadas);
    if |pendientes| > 0 {
      return PrerrequisitosPendientes(pendientes);
    }
    return Disponible(g.count, cupoDisponible, Percent(g.count, g.cupoMax));
  }

  /**
   * The first failing reason is reported, in the order CUPO_LLENO,
   * YA_INSCRITO, CONFLICTO_HORARIO, PRERREQUISITOS_PENDIENTES; the
   * overlap condition is the service's, so the check and the enrolment
   * agree on every request except the prerequisites the service does not
   * check.
   */
  lemma AvailabilityOrder(grupo: Option<GroupStat>, alreadyEnrolled: bool, gs: seq<Slot>, es: seq<Enrolled>,
                          prereqs: seq<PrereqRow>, cursadas: seq<string>)
    ensures var r := Decide(grupo, alreadyEnrolled, ConflictList(gs, AsLoaded(es)), PendingOf(prereqs, cursadas));
      (r.Status() == 404 <==> grupo.None?) &&
      (r.CupoLleno? <==> grupo.Some? && grupo.value.cupoMax - grupo.value.count <= 0) &&
      (r.YaInscrito? <==> grupo.Some? && grupo.value.cupoMax - grupo.value.count > 0 && alreadyEnrolled) &&
      (r.ConflictoHorario? <==> grupo.Some? && grupo.value.cupoMax - grupo.value.count > 0 && !alreadyEnrolled && AnyOverlap(gs, es)) &&
      (r.PrerrequisitosPendientes? <==> (grupo.Some? && grupo.value.cupoMax - grupo.value.count > 0 && !alreadyEnrolled &&
        !AnyOverlap(gs, es) && exists k :: 0 <= k < |prereqs| && prereqs[k].requiereId !in cursadas))
    ensures var r := Decide(grupo, alreadyEnrolled, ConflictList(gs, AsLoaded(es)), PendingOf(prereqs, cursadas));
      (r.Disponible? <==> (EnrollOutcome(grupo, alreadyEnrolled, AnyOverlap(gs, es)).Ok? &&
        forall k :: 0 <= k < |prereqs| ==> prereqs[k].requiereId in cursadas)) &&
      (r.Disponible? ==> r.disponibles > 0)
  {
    ConflictListEmpty(gs, AsLoaded(es));
    AsLoadedOverlaps(gs, es);
    PendingEmpty(prereqs, cursadas);
  }

  /** As written, every reported conflict names no subject: the query leaves `materias` out. */
  lemma ConflictsNeverNamed(gs: seq<Slot>, es: seq<Enrolled>, c: ConflictEntry)
    requires c in ConflictList(gs, AsLoaded(es))
    ensures c.materiaConflicto == "Materia sin nombre"
  {
    ConflictListNames(gs, AsLoaded(es), c);
  }

  lemma {:induction false} ConflictListNames(gs: seq<Slot>, es: seq<Enrolled>, c: ConflictEntry)
    requires c in ConflictList(gs, es)
    ensures exists j :: 0 <= j < |es| && c.materiaConflicto == SubjectLabel(es[j].materiaNombre)
  {
    var init := gs[..|gs| - 1];
    if c in ConflictList(init, es) {
      ConflictListNames(init, es, c);
    } else {
      BlockConflictsNames(gs[|gs| - 1], es, c);
    }
  }

  lemma {:induction false} BlockConflictsNames(b: Slot, es: seq<Enrolled>, c: ConflictEntry)
    requires c in BlockConflicts(b, es)
    ensures exists j :: (0 <= j < |es| && c.materiaConflicto == SubjectLabel(es[j].materiaNombre) &&
      OverlapsRow(b, es[j].horario))
  {
    var init := es[..|es| - 1];
    if c in BlockConflicts(b, init) {
      BlockConflictsNames(b, init, c);
      var j :| 0 <= j < |init| && c.materiaConflicto == SubjectLabel(init[j].materiaNombre) && OverlapsRow(b, init[j].horario);
      assert es[j] == init[j];
    } else {
      RowConflictsEntry(b, es[|es| - 1].horario, es[|es| - 1], c);
    }
  }

  /** `checkAvailabilityForStudent` with `materias: true` in the include of the enrolled groups. */
  method CheckAvailabilityNamed(grupo: Option<GroupStat>, alreadyEnrolled: bool, gs: seq<Slot>, es: seq<Enrolled>,
                                prereqs: seq<PrereqRow>, cursadas: seq<string>) returns (r: Availability)
    ensures r == Decide(grupo, alreadyEnrolled, ConflictList(gs, es), PendingOf(prereqs, cursadas))
  {
    if grupo.None? {
      return NotFound;
    }
    var g := grupo.value;
    var cupoDisponible := g.cupoMax - g.count;
    if cupoDisponible <= 0 {
      return CupoLleno;
    }
    if alreadyEnrolled {
      return YaInscrito;
    }
    var conflictos := CollectConflicts(gs, es);
    if |conflictos| > 0 {
      return ConflictoHorario(conflictos);
    }
    var pendientes := CollectPending(prereqs, cursadas);
    if |pendientes| > 0 {
      return PrerrequisitosPendientes(pendientes);
    }
    return Disponible(g.count, cupoDisponible, Percent(g.count, g.cupoMax));
  }

  /**
   * With the subjects loaded, each conflict names the subject of an
   * enrolment that holds an overlapping block, whenever that subject has a
   * name.
   */
  lemma ConflictsNamed(gs: seq<Slot>, es: seq<Enrolled>, c: ConflictEntry)
    requires c in ConflictList(gs, es)
    requires forall j :: 0 <= j < |es| ==> es[j].materiaNombre.Truthy()
    ensures exists j :: 0 <= j < |es| && es[j].materiaNombre == Str(c.materiaConflicto)
  {
    ConflictListNames(gs, es, c);
  }
}
