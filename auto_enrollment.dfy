/**
 * Enrolment from a generated schedule
 * (`backend/src/services/auto-enrollment.service.js`): the schedule's
 * groups are deduplicated by id, each is classified by the first rule that
 * applies (subject not selected, group full, already enrolled, enrolled
 * now), and the counts and score of the run are reported.
 * `validateAutoEnrollment` predicts from the same groups whether every one
 * still has a seat.
 */
module AutoEnrollment {
  import opened Common

  /** A row's group with its subject and `_count.inscripciones`. */
  datatype SGroup = SGroup(id: string, materiaId: string, materiaNombre: string, seccion: string, cupoMax: int, count: nat)

  /** A stored schedule: its owner and the group of each `horario_detalle` row. */
  datatype Schedule = Schedule(creadoPor: string, grupos: seq<SGroup>)

  datatype Failure = Failure(status: int, message: string)

  /** The owner check both operations start with. */
  function OwnedSchedule(horario: Option<Schedule>, userId: string, notOwned: string): (r: Result<Schedule, Failure>)
    ensures r.Ok? <==> horario.Some? && horario.value.creadoPor == userId
    ensures r.Err? && horario.Some? ==> r.error.status == 403
  {
    match horario
    case None => Err(Failure(404, "Horario no encontrado"))
    case Some(h) => if h.creadoPor != userId then Err(Failure(403, notOwned)) else Ok(h)
  }

  // ---------------------------------------------------------------------------
  // Deduplication by id
  // ---------------------------------------------------------------------------

  function Ids(gs: seq<SGroup>): (r: seq<string>)
    ensures |r| == |gs| && forall k :: 0 <= k < |gs| ==> r[k] == gs[k].id
  {
    seq(|gs|, k requires 0 <= k < |gs| => gs[k].id)
  }

  /** The last group of `gs` with id `id`: `Map.set` keeps the latest value. */
  function LastWithId(gs: seq<SGroup>, id: string): (g: SGroup)
    requires id in Ids(gs)
    ensures g in gs && g.id == id
  {
    var last := gs[|gs| - 1];
    if last.id == id then last
    else
      assert Ids(gs[..|gs| - 1]) == Ids(gs)[..|gs| - 1];
      LastWithId(gs[..|gs| - 1], id)
  }

  /**
   * `[...new Map(grupos.map(g => [g.id, g])).values()]`: one group per
   * distinct id, in the order in which the ids first appear.
   */
  function UniqueGroups(gs: seq<SGroup>): (r: seq<SGroup>)
    ensures Ids(r) == Dedup(Ids(gs))
    ensures forall t :: 0 <= t < |r| ==> r[t] in gs
  {
    var ids := Dedup(Ids(gs));
    var r := seq(|ids|, t requires 0 <= t < |ids| => LastWithId(gs, ids[t]));
    assert Ids(r) == ids;
    r
  }

  /** The deduplicated groups have pairwise distinct ids and cover every id of the schedule. */
  lemma UniqueGroupsCover(gs: seq<SGroup>)
    ensures forall s, t :: 0 <= s < t < |UniqueGroups(gs)| ==> UniqueGroups(gs)[s].id != UniqueGroups(gs)[t].id
    ensures forall k :: 0 <= k < |gs| ==> exists t :: 0 <= t < |UniqueGroups(gs)| && UniqueGroups(gs)[t].id == gs[k].id
    ensures |UniqueGroups(gs)| <= |gs|
  {
    var r := UniqueGroups(gs);
    forall s, t | 0 <= s < t < |r| ensures r[s].id != r[t].id {
      assert Ids(r)[s] == r[s].id && Ids(r)[t] == r[t].id;
    }
    forall k | 0 <= k < |gs| ensures exists t :: 0 <= t < |r| && r[t].id == gs[k].id {
      assert Ids(gs)[k] == gs[k].id;
      var t := IndexOf(Ids(r), gs[k].id);
      assert r[t].id == gs[k].id;
    }
  }

  /** A schedule whose rows name distinct groups keeps all of them, in order. */
  lemma UniqueGroupsOfDistinct(gs: seq<SGroup>)
    requires forall s, t :: 0 <= s < t < |gs| ==> gs[s].id != gs[t].id
    ensures UniqueGroups(gs) == gs
  {
    DedupOfDistinct(Ids(gs));
    var r := UniqueGroups(gs);
    forall t | 0 <= t < |gs| ensures r[t] == gs[t] {
      assert Ids(r)[t] == gs[t].id;
      LastIsOnly(gs, t);
    }
  }

  lemma {:induction false} LastIsOnly(gs: seq<SGroup>, t: nat)
    requires t < |gs| && forall s, u :: 0 <= s < u < |gs| ==> gs[s].id != gs[u].id
    ensures LastWithId(gs, gs[t].id) == gs[t]
  {
    assert Ids(gs)[t] == gs[t].id;
    if t < |gs| - 1 {
      var init := gs[..|gs| - 1];
      assert init[t] == gs[t];
      LastIsOnly(init, t);
    }
  }

  // ---------------------------------------------------------------------------
  // enrollFromSchedule
  // ---------------------------------------------------------------------------

  /** How one group ended. */
  datatype Outcome =
    | NotSelected
    | Full
    | AlreadyEnrolled(inscripcionId: string)
    | Enrolled(inscripcionId: string)
    | Failed(message: string)
  {
    /** The entries pushed into `resultados`; the other outcomes go to `errores`. */
    predicate Succeeded() { AlreadyEnrolled? || Enrolled? }
  }

  /**
   * What the run reads besides the groups: the selected subject ids, the
   * student's existing enrolment per group id, and the outcome of
   * `inscripciones.create` for a group id (its new id, or the message of
   * what it threw).
   */
  datatype Context = Context(selected: seq<string>, existing: map<string, string>, create: string -> Result<string, string>)

  /**
   * The first rule that applies to the group, in order: a group is only
   * enrolled when its subject is selected, it has a seat and the student is
   * not in it yet.
   */
  function Classify(g: SGroup, ctx: Context): (o: Outcome)
    ensures o.NotSelected? <==> g.materiaId !in ctx.selected
    ensures o.Full? <==> g.materiaId in ctx.selected && g.count >= g.cupoMax
    ensures o.AlreadyEnrolled? <==> g.materiaId in ctx.selected && g.count < g.cupoMax && g.id in ctx.existing
    ensures o.Enrolled? ==> (g.materiaId in ctx.selected && g.count < g.cupoMax && g.id !in ctx.existing &&
      ctx.create(g.id) == Ok(o.inscripcionId))
    ensures o.Succeeded() ==> g.materiaId in ctx.selected && g.count < g.cupoMax
  {
    if g.materiaId !in ctx.selected then NotSelected
    else if g.count >= g.cupoMax then Full
    else if g.id in ctx.existing then AlreadyEnrolled(ctx.existing[g.id])
    else match ctx.create(g.id)
      case Ok(id) => Enrolled(id)
      case Err(m) => Failed(m)
  }

  /** An entry of `resultados` or `errores`. */
  datatype Entry = Entry(grupoId: string, materia: string, seccion: string, outcome: Outcome)

  function EntryOf(g: SGroup, ctx: Context): Entry
  {
    Entry(g.id, g.materiaNombre, g.seccion, Classify(g, ctx))
  }

  /** `resultados` after the loop over `gs`. */
  function Results(gs: seq<SGroup>, ctx: Context): (r: seq<Entry>)
    ensures |r| <= |gs|
    ensures forall t :: 0 <= t < |r| ==> r[t].outcome.Succeeded()
  {
    if gs == [] then []
    else
      var last := gs[|gs| - 1];
      Results(gs[..|gs| - 1], ctx) + (if Classify(last, ctx).Succeeded() then [EntryOf(last, ctx)] else [])
  }

  /** `errores` after the loop over `gs`. */
  function Errors(gs: seq<SGroup>, ctx: Context): (r: seq<Entry>)
    ensures forall t :: 0 <= t < |r| ==> !r[t].outcome.Succeeded()
  {
    if gs == [] then []
    else
      var last := gs[|gs| - 1];
      Errors(gs[..|gs| - 1], ctx) + (if Classify(last, ctx).Succeeded() then [] else [EntryOf(last, ctx)])
  }

  /** The number of entries enrolled now (`newly`) or already enrolled (`!newly`). */
  function CountEstado(rs: seq<Entry>, newly: bool): (n: nat)
    ensures n <= |rs|
  {
    if rs == [] then 0
    else
      var o := rs[|rs| - 1].outcome;
      CountEstado(rs[..|rs| - 1], newly) + (if (newly && o.Enrolled?) || (!newly && o.AlreadyEnrolled?) then 1 else 0)
  }

  /** Every group ends in exactly one list, and every result is either INSCRITO or YA_INSCRITO. */
  lemma {:induction false} CountsAddUp(gs: seq<SGroup>, ctx: Context)
    ensures |Results(gs, ctx)| + |Errors(gs, ctx)| == |gs|
    ensures CountEstado(Results(gs, ctx), true) + CountEstado(Results(gs, ctx), false) == |Results(gs, ctx)|
  {
    if gs != [] {
      var init := gs[..|gs| - 1];
      CountsAddUp(init, ctx);
      var rs := Results(gs, ctx);
      if Classify(gs[|gs| - 1], ctx).Succeeded() {
        assert rs[..|rs| - 1] == Results(init, ctx);
      } else {
        assert rs == Results(init, ctx);
      }
    }
  }

  /** Each result is the entry of a group of the run that passed every check. */
  lemma {:induction false} ResultsSound(gs: seq<SGroup>, ctx: Context, e: Entry)
    requires e in Results(gs, ctx)
    ensures exists k :: 0 <= k < |gs| && e == EntryOf(gs[k], ctx) && gs[k].materiaId in ctx.selected && gs[k].count < gs[k].cupoMax
  {
    var init := gs[..|gs| - 1];
    if e in Results(init, ctx) {
      ResultsSound(init, ctx, e);
      var k :| 0 <= k < |init| && e == EntryOf(init[k], ctx) && init[k].materiaId in ctx.selected && init[k].count < init[k].cupoMax;
      assert gs[k] == init[k];
    }
  }

  /** The loop of `enrollFromSchedule`, with its `continue` branches and the `catch` of a failed insert. */
  method EnrollGroups(gruposUnicos: seq<SGroup>, ctx: Context) returns (resultados: seq<Entry>, errores: seq<Entry>)
    ensures resultados == Results(gruposUnicos, ctx) && errores == Errors(gruposUnicos, ctx)
  {
    resultados := [];
    errores := [];
    var i := 0;
    while i < |gruposUnicos|
      invariant 0 <= i <= |gruposUnicos|
      invariant resultados == Results(gruposUnicos[..i], ctx) && errores == Errors(gruposUnicos[..i], ctx)
    {
      assert gruposUnicos[..i + 1][..i] == gruposUnicos[..i];
      var grupo := gruposUnicos[i];
      if grupo.materiaId !in ctx.selected {
        errores := errores + [Entry(grupo.id, grupo.materiaNombre, grupo.seccion, NotSelected)];
      } else if grupo.count >= grupo.cupoMax {
        errores := errores + [Entry(grupo.id, grupo.materiaNombre, grupo.seccion, Full)];
      } else if grupo.id in ctx.existing {
        resultados := resultados + [Entry(grupo.id, grupo.materiaNombre, grupo.seccion, AlreadyEnrolled(ctx.existing[grupo.id]))];
      } else {
        var created := ctx.create(grupo.id);
        if created.Ok? {
          resultados := resultados + [Entry(grupo.id, grupo.materiaNombre, grupo.seccion, Enrolled(created.value))];
        } else {
          errores := errores + [Entry(grupo.id, grupo.materiaNombre, grupo.seccion, Failed(created.error))];
        }
      }
      i := i + 1;
    }
    assert gruposUnicos[..i] == gruposUnicos;
  }

  /** The `score` written back to the schedule: the share of groups with a result. */
  function Score(resultados: nat, totalGrupos: nat): real
    requires resultados <= totalGrupos
  {
    if resultados > 0 then resultados as real / totalGrupos as real else 0.0
  }

  datatype Summary = Summary(totalGrupos: nat, inscripcionesExitosas: nat, yaInscritos: nat, errores: nat,
                             exitosas: seq<Entry>, detallesErrores: seq<Entry>, score: real)

  /** `enrollFromSchedule(userId, horarioId)`. */
  method EnrollFromSchedule(horario: Option<Schedule>, userId: string, ctx: Context) returns (r: Result<Summary, Failure>)
    ensures horario.None? ==> r == Err(Failure(404, "Horario no encontrado"))
    ensures horario.Some? && horario.value.creadoPor != userId ==> r == Err(Failure(403, "No tienes permiso para usar este horario"))
    ensures r.Ok? <==> horario.Some? && horario.value.creadoPor == userId
    ensures r.Ok? ==>
      var u := UniqueGroups(horario.value.grupos);
      r.value == Summary(|u|, CountEstado(Results(u, ctx), true), CountEstado(Results(u, ctx), false), |Errors(u, ctx)|,
                         Results(u, ctx), Errors(u, ctx), Score(|Results(u, ctx)|, |u|))
  {
    var owned := OwnedSchedule(horario, userId, "No tienes permiso para usar este horario");
    if owned.Err? {
      return Err(owned.error);
    }
    var gruposUnicos := UniqueGroups(owned.value.grupos);
    var resultados, errores := EnrollGroups(gruposUnicos, ctx);
    CountsAddUp(gruposUnicos, ctx);
    var score := if |resultados| > 0 then |resultados| as real / |gruposUnicos| as real else 0.0;
    return Ok(Summary(|gruposUnicos|, CountEstado(resultados, true), CountEstado(resultados, false), |errores|,
                      resultados, errores, score));
  }

  /** The score is a share between 0 and 1, 0 exactly when nothing succeeded and 1 when nothing failed. */
  lemma ScoreInUnit(resultados: nat, errores: nat, totalGrupos: nat)
    requires resultados + errores == totalGrupos
    ensures 0.0 <= Score(resultados, totalGrupos) <= 1.0
    ensures Score(resultados, totalGrupos) == 0.0 <==> resultados == 0
    ensures errores == 0 && totalGrupos > 0 ==> Score(resultados, totalGrupos) == 1.0
  {
    if resultados > 0 {
      RatioInUnit(resultados, totalGrupos);
      var q := resultados as real / totalGrupos as real;
      assert q * totalGrupos as real == resultados as real;
    }
  }

  /**
   * The totals of a run add up to the number of distinct groups, each
   * counted once, and its score is a share between 0 and 1.
   */
  lemma SummaryConsistent(gs: seq<SGroup>, ctx: Context)
    ensures var u := UniqueGroups(gs);
      var rs := Results(u, ctx);
      CountEstado(rs, true) + CountEstado(rs, false) + |Errors(u, ctx)| == |u| &&
      0.0 <= Score(|rs|, |u|) <= 1.0 && (Score(|rs|, |u|) == 0.0 <==> |rs| == 0)
  {
    var u := UniqueGroups(gs);
    CountsAddUp(u, ctx);
    ScoreInUnit(|Results(u, ctx)|, |Errors(u, ctx)|, |u|);
  }

  // ---------------------------------------------------------------------------
  // validateAutoEnrollment
  // ---------------------------------------------------------------------------

  datatype Check = Check(grupoId: string, materia: string, seccion: string, cupoDisponible: int, disponible: bool,
                         inscritosActuales: nat, cupoMax: int)

  function CheckOf(g: SGroup): Check
  {
    var cupoDisponible := g.cupoMax - g.count;
    Check(g.id, g.materiaNombre, g.seccion, cupoDisponible, cupoDisponible > 0, g.count, g.cupoMax)
  }

  function CountAvailable(vs: seq<Check>): (n: nat)
    ensures n <= |vs|
  {
    if vs == [] then 0 else CountAvailable(vs[..|vs| - 1]) + (if vs[|vs| - 1].disponible then 1 else 0)
  }

  datatype Validation = Validation(canEnroll: bool, totalGrupos: nat, gruposConCupo: nat, validaciones: seq<Check>, recomendacion: string)

  function Checks(u: seq<SGroup>): (vs: seq<Check>)
    ensures |vs| == |u| && forall t :: 0 <= t < |u| ==> vs[t] == CheckOf(u[t])
  {
    seq(|u|, t requires 0 <= t < |u| => CheckOf(u[t]))
  }

  /** The report over the distinct groups of the schedule. */
  function ValidateGroups(u: seq<SGroup>): Validation
  {
    var validaciones := Checks(u);
    var todos := forall t :: 0 <= t < |validaciones| ==> validaciones[t].disponible;
    Validation(todos, |u|, CountAvailable(validaciones), validaciones,
               if todos then "Todos los grupos tienen cupo disponible" else "Algunos grupos no tienen cupo disponible")
  }

  /** `validateAutoEnrollment(userId, horarioId)`. */
  function ValidateAutoEnrollment(horario: Option<Schedule>, userId: string): (r: Result<Validation, Failure>)
    ensures horario.None? ==> r == Err(Failure(404, "Horario no encontrado"))
    ensures horario.Some? && horario.value.creadoPor != userId ==> r == Err(Failure(403, "Horario no pertenece al usuario"))
    ensures r.Ok? ==> horario.Some? && r.value == ValidateGroups(UniqueGroups(horario.value.grupos))
  {
    match OwnedSchedule(horario, userId, "Horario no pertenece al usuario")
    case Err(e) => Err(e)
    case Ok(h) => Ok(ValidateGroups(UniqueGroups(h.grupos)))
  }

  lemma {:induction false} CountAvailableAll(vs: seq<Check>)
    ensures CountAvailable(vs) == |vs| <==> forall t :: 0 <= t < |vs| ==> vs[t].disponible
  {
    if vs != [] {
      CountAvailableAll(vs[..|vs| - 1]);
      assert forall t :: 0 <= t < |vs| - 1 ==> vs[..|vs| - 1][t] == vs[t];
    }
  }

  /**
   * `canEnroll` holds exactly when every distinct group has a free seat,
   * which is exactly when all of them are counted in `gruposConCupo`.
   */
  lemma ValidationAgrees(u: seq<SGroup>)
    ensures var v := ValidateGroups(u);
      (v.canEnroll <==> forall t :: 0 <= t < |u| ==> u[t].cupoMax - u[t].count > 0) &&
      v.gruposConCupo <= v.totalGrupos && v.totalGrupos == |u| &&
      (v.canEnroll <==> v.gruposConCupo == v.totalGrupos)
  {
    CountAvailableAll(Checks(u));
  }

  /** When the validation says every group has a seat, no group of a run on the same groups ends as "Cupo lleno". */
  lemma ValidationPredictsNoFull(u: seq<SGroup>, ctx: Context, t: nat)
    requires ValidateGroups(u).canEnroll && t < |u|
    ensures !Classify(u[t], ctx).Full?
  {
    assert Checks(u)[t].disponible;
  }
}
