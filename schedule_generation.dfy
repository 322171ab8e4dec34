/**
 * The generation service of `backend/src/services/scheduleGeneration.service.js`:
 * it turns the records fetched for a student into the data of the genetic
 * search, checks that every selected subject is offered, runs the search
 * (population 50, 100 generations, mutation rate 0.1) and expands the best
 * schedule into one stored row per meeting.
 *
 * The fetched records are inputs; the identifier of the stored schedule,
 * which the database assigns, is a parameter.
 */
module ScheduleGeneration {
  import opened Common
  import opened GeneticAlgorithm

  // ---------------------------------------------------------------------------
  // Fetched records and their mapping (`loadData`)
  // ---------------------------------------------------------------------------

  datatype BloqueRecord = BloqueRecord(id: string, dia: string, horaInicio: int, horaFin: int, turno: JsStr)

  /** A `horario_detalle` entry: its block and, when it has one, its room's id. */
  datatype DetalleRecord = DetalleRecord(bloque: BloqueRecord, aulaId: Option<string>)

  /** A group with its enrolment count (`_count.inscripciones`). */
  datatype GrupoRecord = GrupoRecord(id: string, materiaId: string, cupoMax: nat, inscripciones: nat, detalles: seq<DetalleRecord>)

  datatype SeleccionRecord = SeleccionRecord(id: string, materiaId: string, prioridad: int)

  function MapDetalle(hd: DetalleRecord): (p: Placement)
    ensures p.bloqueId == hd.bloque.id && p.dia == hd.bloque.dia && p.turno == hd.bloque.turno
    ensures p.inicio == hd.bloque.horaInicio && p.fin == hd.bloque.horaFin && p.aulaId == hd.aulaId
  {
    Placement(hd.bloque.id, hd.bloque.dia, hd.bloque.horaInicio, hd.bloque.horaFin, hd.bloque.turno, hd.aulaId)
  }

  /** The group mapping of `loadData`: its free seats are `max(cupo_max - inscritos, 0)`. */
  function MapGrupo(g: GrupoRecord): (r: Group)
    ensures r.id == g.id && r.materiaId == g.materiaId
    ensures r.cupoMax == g.cupoMax && r.inscritos == g.inscripciones
    ensures r.disponibilidad as int >= g.cupoMax - g.inscripciones
    ensures r.disponibilidad == 0 || r.disponibilidad == g.cupoMax - g.inscripciones
    ensures |r.horario| == |g.detalles| && forall k :: 0 <= k < |r.horario| ==> r.horario[k] == MapDetalle(g.detalles[k])
  {
    var libres := if g.cupoMax > g.inscripciones then g.cupoMax - g.inscripciones else 0;
    Group(g.id, g.materiaId, g.inscripciones, g.cupoMax, libres, MapDetalles(g.detalles))
  }

  function MapDetalles(ds: seq<DetalleRecord>): (r: seq<Placement>)
    ensures |r| == |ds| && forall k :: 0 <= k < |r| ==> r[k] == MapDetalle(ds[k])
  {
    if ds == [] then [] else [MapDetalle(ds[0])] + MapDetalles(ds[1..])
  }

  function MapGrupos(gs: seq<GrupoRecord>): (r: seq<Group>)
    ensures |r| == |gs| && forall k :: 0 <= k < |r| ==> r[k] == MapGrupo(gs[k])
  {
    if gs == [] then [] else [MapGrupo(gs[0])] + MapGrupos(gs[1..])
  }

  function SelectedIds(ss: seq<SeleccionRecord>): (r: seq<string>)
    ensures |r| == |ss| && forall k :: 0 <= k < |r| ==> r[k] == ss[k].materiaId
  {
    if ss == [] then [] else [ss[0].materiaId] + SelectedIds(ss[1..])
  }

  function MapBloques(bs: seq<BloqueRecord>): (r: seq<Bloque>)
    ensures |r| == |bs| && forall k :: 0 <= k < |r| ==> r[k] == Bloque(bs[k].id, bs[k].dia)
  {
    if bs == [] then [] else [Bloque(bs[0].id, bs[0].dia)] + MapBloques(bs[1..])
  }

  /** The preferences to use: the stored ones, or no shift, compaction 5 and no avoided days. */
  function MapPreferencias(p: Option<Preferencias>): (r: Preferencias)
    ensures p.Some? ==> r == p.value
    ensures p.None? ==> r.turnoPreferido == Null && r.compactacion == Some(5) && r.evitarDias == []
  {
    if p.Some? then p.value else Preferencias(Null, Some(5), [])
  }

  /** The data object `loadData` returns, from the fetched records (selections already in priority order). */
  function LoadData(selecciones: seq<SeleccionRecord>, grupos: seq<GrupoRecord>,
                    preferencias: Option<Preferencias>, bloques: seq<BloqueRecord>): (d: Data)
    ensures d.selecciones == SelectedIds(selecciones)
    ensures d.grupos == MapGrupos(grupos) && d.bloques == MapBloques(bloques)
    ensures d.preferencias == MapPreferencias(preferencias)
  {
    Data(MapGrupos(grupos), SelectedIds(selecciones), MapBloques(bloques), MapPreferencias(preferencias))
  }

  // ---------------------------------------------------------------------------
  // validateData
  // ---------------------------------------------------------------------------

  /** `data.selecciones.every(s => materiasConGrupos.has(s.materia_id))`. */
  function Every(ids: seq<string>, has: set<string>): bool
  {
    ids == [] || (ids[0] in has && Every(ids[1..], has))
  }

  /** `validateData`: every selected subject has a group, and there is at least one group. */
  function ValidateData(data: Data): bool
  {
    var materiasConGrupos := set k | 0 <= k < |data.grupos| :: data.grupos[k].materiaId;
    Every(data.selecciones, materiasConGrupos) && |data.grupos| > 0
  }

  lemma {:induction false} EveryIff(ids: seq<string>, has: set<string>)
    ensures Every(ids, has) <==> forall k :: 0 <= k < |ids| ==> ids[k] in has
  {
    if ids != [] {
      EveryIff(ids[1..], has);
      assert forall k :: 1 <= k < |ids| ==> ids[k] == ids[1..][k - 1];
    }
  }

  /** The subject of a selection is offered: some candidate group belongs to it. */
  ghost predicate Offered(data: Data, m: string)
  {
    exists j :: 0 <= j < |data.grupos| && data.grupos[j].materiaId == m
  }

  /** `validateData` holds exactly when there are groups and every selected subject is offered. */
  lemma ValidateDataIff(data: Data)
    ensures ValidateData(data) <==>
      |data.grupos| > 0 && forall k :: 0 <= k < |data.selecciones| ==> Offered(data, data.selecciones[k])
  {
    var has := set k | 0 <= k < |data.grupos| :: data.grupos[k].materiaId;
    EveryIff(data.selecciones, has);
    forall m ensures m in has <==> Offered(data, m) {
      if Offered(data, m) {
        var j :| 0 <= j < |data.grupos| && data.grupos[j].materiaId == m;
        assert data.grupos[j].materiaId in has;
      }
    }
  }

  /** With the data valid and a subject selected, some selected subject has a group to choose. */
  lemma ValidDataHasChoice(data: Data)
    requires ValidateData(data) && |data.selecciones| > 0
    ensures exists k :: 0 <= k < |data.selecciones| && GruposDeMateria(data.grupos, data.selecciones[k]) != []
  {
    ValidateDataIff(data);
    var j :| 0 <= j < |data.grupos| && data.grupos[j].materiaId == data.selecciones[0];
    assert data.grupos[j] in GruposDeMateria(data.grupos, data.selecciones[0]);
  }

  // ---------------------------------------------------------------------------
  // saveSchedule
  // ---------------------------------------------------------------------------

  /** One stored `horario_detalle` row. */
  datatype DetalleRow = DetalleRow(horarioId: string, grupoId: string, aulaId: Option<string>, bloqueId: string)

  /** The row of one meeting: `aula_id || null` makes an absent or empty room id null. */
  function RowOf(horarioId: string, g: Group, p: Placement): (row: DetalleRow)
    ensures row.horarioId == horarioId && row.grupoId == g.id && row.bloqueId == p.bloqueId
    ensures row.aulaId.Some? <==> p.aulaId.Some? && p.aulaId.value != ""
    ensures row.aulaId.Some? ==> row.aulaId == p.aulaId
  {
    DetalleRow(horarioId, g.id, if p.aulaId.Some? && p.aulaId.value != "" then p.aulaId else None, p.bloqueId)
  }

  /** The rows of one group: one per meeting, in order. */
  function GroupRows(horarioId: string, g: Group): (rows: seq<DetalleRow>)
    ensures |rows| == |g.horario|
    ensures forall k :: 0 <= k < |rows| ==> rows[k] == RowOf(horarioId, g, g.horario[k])
  {
    seq(|g.horario|, k requires 0 <= k < |g.horario| => RowOf(horarioId, g, g.horario[k]))
  }

  /** The rows of a schedule: each group's rows, the groups in order. */
  function DetailRows(horarioId: string, gs: seq<Group>): seq<DetalleRow>
  {
    if gs == [] then [] else DetailRows(horarioId, gs[..|gs| - 1]) + GroupRows(horarioId, gs[|gs| - 1])
  }

  /** The rows of two lists of groups are the rows of the first, then those of the second. */
  lemma {:induction false} DetailRowsConcat(horarioId: string, a: seq<Group>, b: seq<Group>)
    ensures DetailRows(horarioId, a + b) == DetailRows(horarioId, a) + DetailRows(horarioId, b)
  {
    if b != [] {
      var init := b[..|b| - 1];
      assert (a + b)[..|a + b| - 1] == a + init;
      DetailRowsConcat(horarioId, a, init);
    } else {
      assert a + b == a;
    }
  }

  /** There is exactly one row per meeting of a selected group. */
  lemma {:induction false} DetailRowsCount(horarioId: string, gs: seq<Group>)
    ensures |DetailRows(horarioId, gs)| == |AllPlacements(gs)|
  {
    if gs != [] {
      DetailRowsCount(horarioId, gs[..|gs| - 1]);
    }
  }

  /** Every row is the row of some meeting of some selected group. */
  lemma {:induction false} DetailRowsFromMeetings(horarioId: string, gs: seq<Group>, j: nat)
    requires j < |DetailRows(horarioId, gs)|
    ensures exists i, a ::
      0 <= i < |gs| && 0 <= a < |gs[i].horario| && DetailRows(horarioId, gs)[j] == RowOf(horarioId, gs[i], gs[i].horario[a])
  {
    var init := gs[..|gs| - 1];
    var head := DetailRows(horarioId, init);
    if j < |head| {
      DetailRowsFromMeetings(horarioId, init, j);
      var i, a :| 0 <= i < |init| && 0 <= a < |init[i].horario| && head[j] == RowOf(horarioId, init[i], init[i].horario[a]);
      assert gs[i] == init[i];
    } else {
      assert GroupRows(horarioId, gs[|gs| - 1])[j - |head|] == DetailRows(horarioId, gs)[j];
    }
  }

  /** What `saveSchedule` returns: the stored schedule and the number of selected groups. */
  datatype Saved = Saved(id: string, periodoId: string, estado: string, score: real, creadoPor: string, gruposSeleccionados: nat)

  /**
   * The row expansion of `saveSchedule`. `createMany` is whether the rows
   * are written: it is skipped when there are none.
   */
  method SaveSchedule(horarioId: string, userId: string, periodoId: string, grupos: seq<Group>, score: real)
    returns (saved: Saved, detalles: seq<DetalleRow>, createMany: bool)
    ensures detalles == DetailRows(horarioId, grupos)
    ensures createMany <==> |detalles| > 0
    ensures saved == Saved(horarioId, periodoId, "DONE", score, userId, |grupos|)
  {
    detalles := [];
    var i := 0;
    while i < |grupos|
      invariant 0 <= i <= |grupos|
      invariant detalles == DetailRows(horarioId, grupos[..i])
    {
      var grupo := grupos[i];
      if |grupo.horario| > 0 {
        var k := 0;
        while k < |grupo.horario|
          invariant 0 <= k <= |grupo.horario|
          invariant detalles == DetailRows(horarioId, grupos[..i]) + GroupRows(horarioId, grupo)[..k]
        {
          detalles := detalles + [RowOf(horarioId, grupo, grupo.horario[k])];
          k := k + 1;
        }
      }
      assert grupos[..i + 1][..i] == grupos[..i];
      i := i + 1;
    }
    assert grupos[..i] == grupos;
    createMany := |detalles| > 0;
    saved := Saved(horarioId, periodoId, "DONE", score, userId, |grupos|);
  }

  // ---------------------------------------------------------------------------
  // generate
  // ---------------------------------------------------------------------------

  const PopulationSize := 50
  const Generations := 100
  const MutationRate := 0.1

  datatype GenerateError =
    | NotEnoughGroups   // "No hay suficientes grupos disponibles para las materias seleccionadas"
    | NoValidSchedule   // "No se pudo generar un horario válido"

  /** `runGeneticAlgorithm`: the search with the service's settings. */
  method RunGeneticAlgorithm(data: Data) returns (res: RunResult)
    ensures res.NoSolution? == false
    ensures res.EmptySchedule? <==>
      !exists k :: 0 <= k < |data.selecciones| && GruposDeMateria(data.grupos, data.selecciones[k]) != []
    ensures res.Solution? ==>
      |res.grupos| > 0 && res.score == Fitness(res.grupos, res.horario, data) && res.score >= 0.0 &&
      (forall k :: 0 <= k < |res.grupos| ==> res.grupos[k] in data.grupos && res.grupos[k].materiaId in data.selecciones) &&
      res.generaciones == Generations && res.poblacion == PopulationSize
  {
    var ga := new GeneticAlgorithm(Config(Some(PopulationSize), Some(Generations), Some(MutationRate), data));
    res := ga.Run();
  }

  /**
   * `generate` on fetched records: invalid data and a search without groups
   * are errors; otherwise the best schedule is stored.
   */
  method Generate(horarioId: string, userId: string, periodoId: string, data: Data)
    returns (r: Result<(Saved, seq<DetalleRow>), GenerateError>)
    ensures r == Err(NotEnoughGroups) <==> !ValidateData(data)
    ensures r == Err(NoValidSchedule) <==> ValidateData(data) && |data.selecciones| == 0
    ensures r.Ok? ==> r.value.0.gruposSeleccionados > 0 && r.value.0.estado == "DONE" && r.value.0.score >= 0.0
  {
    if !ValidateData(data) {
      return Err(NotEnoughGroups);
    }
    var best := RunGeneticAlgorithm(data);
    if |data.selecciones| > 0 {
      ValidDataHasChoice(data);
    }
    if !best.Solution? || |best.grupos| == 0 {
      return Err(NoValidSchedule);
    }
    var saved, detalles, _ := SaveSchedule(horarioId, userId, periodoId, best.grupos, best.score);
    r := Ok((saved, detalles));
  }
}
