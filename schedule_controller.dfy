/**
 * The logic of `backend/src/controllers/schedule.controller.js`: the
 * conflict analysis of a stored timetable (`findConflicts` and the summary
 * of `analyzeConflicts`), the grouping of its rows for display
 * (`formatScheduleDetails`), the pagination of `listSchedules` and the
 * guards of `generateSchedule` and `deleteSchedule`. The database rows are
 * inputs; the responses are returned as data.
 */
module ScheduleController {
  import opened Common
  import Sorting

  // ---------------------------------------------------------------------------
  // The rows of `horario_detalle` with their relations
  // ---------------------------------------------------------------------------

  /** `detalle.grupos`: `inscripciones` is `_count.inscripciones`, `None` when the query does not load `_count`. */
  datatype GroupRef = GroupRef(id: string, profesorId: string, materia: string, seccion: string, inscripciones: Option<int>)

  /** `detalle.bloques_horarios`, with its times of day in milliseconds. */
  datatype TimeBlock = TimeBlock(dia: string, horaInicio: int, horaFin: int, turno: JsStr)

  /** `detalle.aulas`. */
  datatype Room = Room(id: string, capacidad: int)

  /** A row of `horario_detalle`; `aula` is the related room, `None` when `aula_id` is null. */
  datatype Detail = Detail(bloqueId: string, aulaId: Option<string>, grupo: GroupRef, aula: Option<Room>, bloque: TimeBlock)

  // ---------------------------------------------------------------------------
  // findConflicts
  // ---------------------------------------------------------------------------

  /** An entry of `grupos_involucrados`. */
  datatype Involved = Involved(grupoId: string, materia: string, seccion: string)

  datatype Conflict =
    | ProfesorConflicto(bloqueId: string, profesorId: string, grupos: seq<Involved>)
    | AulaConflicto(bloqueId: string, aulaId: Option<string>, grupos: seq<Involved>)
    | CapacidadExcedida(grupoId: string, aulaId: Option<string>, capacidad: int, inscritos: int, diferencia: int)
  {
    function Tipo(): string
    {
      match this
      case ProfesorConflicto(_, _, _) => "PROFESOR_CONFLICTO"
      case AulaConflicto(_, _, _) => "AULA_CONFLICTO"
      case CapacidadExcedida(_, _, _, _, _) => "CAPACIDAD_EXCEDIDA"
    }

    function Severidad(): string
    {
      if CapacidadExcedida? then "MEDIA" else "ALTA"
    }
  }

  /** The two dictionaries of the first pass are both keyed by `bloque_id`; they differ in the id the entry reports. */
  datatype Kind = ByProfessor | ByRoom

  /** The keys of `profesorBloques` (and of `aulaBloques`): the block ids in first-occurrence order. */
  function BlockIds(ds: seq<Detail>): (r: seq<string>)
    ensures forall i, j :: 0 <= i < j < |r| ==> r[i] != r[j]
  {
    if ds == [] then []
    else
      var rest := BlockIds(ds[..|ds| - 1]);
      if ds[|ds| - 1].bloqueId in rest then rest else rest + [ds[|ds| - 1].bloqueId]
  }

  /** `profesorBloques[b]` and `aulaBloques[b]`: the indices (`detalleIndex`) of the rows on block `b`, in order. */
  function OnBlock(ds: seq<Detail>, b: string): (r: seq<nat>)
    ensures |r| <= |ds|
    ensures forall j :: 0 <= j < |r| ==> r[j] < |ds| && ds[r[j]].bloqueId == b
    ensures forall i, j :: 0 <= i < j < |r| ==> r[i] < r[j]
  {
    if ds == [] then []
    else
      var rest := OnBlock(ds[..|ds| - 1], b);
      if ds[|ds| - 1].bloqueId == b then rest + [|ds| - 1] else rest
  }

  /** `asignaciones.map(a => ({ grupo_id, materia, seccion }))`. */
  function InvolvedOf(ds: seq<Detail>, idxs: seq<nat>): (r: seq<Involved>)
    requires forall j :: 0 <= j < |idxs| ==> idxs[j] < |ds|
    ensures |r| == |idxs|
  {
    seq(|idxs|, j requires 0 <= j < |idxs| => Involved(ds[idxs[j]].grupo.id, ds[idxs[j]].grupo.materia, ds[idxs[j]].grupo.seccion))
  }

  /** The object the second pass pushes for block `b` with the rows `idxs`: the id reported is the first row's. */
  function BlockConflict(ds: seq<Detail>, b: string, idxs: seq<nat>, kind: Kind): (c: Conflict)
    requires 0 < |idxs| && forall j :: 0 <= j < |idxs| ==> idxs[j] < |ds|
    ensures ReportsBlock(c, b) && c.grupos == InvolvedOf(ds, idxs) && (c.ProfesorConflicto? <==> kind == ByProfessor)
  {
    match kind
    case ByProfessor => ProfesorConflicto(b, ds[idxs[0]].grupo.profesorId, InvolvedOf(ds, idxs))
    case ByRoom => AulaConflicto(b, ds[idxs[0]].aulaId, InvolvedOf(ds, idxs))
  }

  /** The entry of a block in the second pass: one when at least two rows use it. */
  function BlockEntry(ds: seq<Detail>, b: string, kind: Kind): seq<Conflict>
  {
    var idxs := OnBlock(ds, b);
    if |idxs| > 1 then [BlockConflict(ds, b, idxs, kind)] else []
  }

  /** `c` is a block conflict (of either kind) about block `b`. */
  predicate ReportsBlock(c: Conflict, b: string)
  {
    (c.ProfesorConflicto? || c.AulaConflicto?) && c.bloqueId == b
  }

  /** `Object.entries(profesorBloques).forEach(...)` (and the same over `aulaBloques`), for the keys `ks`. */
  function BlockEntries(ds: seq<Detail>, ks: seq<string>, kind: Kind): seq<Conflict>
  {
    if ks == [] then [] else BlockEntries(ds, ks[..|ks| - 1], kind) + BlockEntry(ds, ks[|ks| - 1], kind)
  }

  /** `detalle.grupos._count?.inscripciones || 0`. */
  function Inscritos(d: Detail): int
  {
    match d.grupo.inscripciones
    case Some(n) => n
    case None => 0
  }

  function CapacityEntry(d: Detail): Conflict
    requires d.aula.Some?
  {
    CapacidadExcedida(d.grupo.id, d.aulaId, d.aula.value.capacidad, Inscritos(d), Inscritos(d) - d.aula.value.capacidad)
  }

  predicate Exceeds(d: Detail)
    requires d.aula.Some?
  {
    Inscritos(d) > d.aula.value.capacidad
  }

  predicate AllRooms(ds: seq<Detail>)
  {
    forall k :: 0 <= k < |ds| ==> ds[k].aula.Some?
  }

  /** The third pass: one CAPACIDAD_EXCEDIDA per row whose group outnumbers its room. */
  function CapacityEntries(ds: seq<Detail>): seq<Conflict>
    requires AllRooms(ds)
  {
    if ds == [] then []
    else
      var d := ds[|ds| - 1];
      CapacityEntries(ds[..|ds| - 1]) + (if Exceeds(d) then [CapacityEntry(d)] else [])
  }

  /** What reading `detalle.aulas.capacidad` of a row without a room throws. */
  const NullRoom := "TypeError: Cannot read properties of null (reading 'capacidad')"

  /** `findConflicts(detalles)`: block conflicts by professor, then by room, then capacity; it throws on a row without a room. */
  function Conflicts(ds: seq<Detail>): Result<seq<Conflict>, string>
  {
    if AllRooms(ds) then
      Ok(BlockEntries(ds, BlockIds(ds), ByProfessor) + BlockEntries(ds, BlockIds(ds), ByRoom) + CapacityEntries(ds))
    else Err(NullRoom)
  }

  // ---------------------------------------------------------------------------
  // What the conflict list means
  // ---------------------------------------------------------------------------

  lemma {:induction false} BlockIdsMembers(ds: seq<Detail>, b: string)
    ensures b in BlockIds(ds) <==> OnBlock(ds, b) != []
  {
    if ds != [] {
      BlockIdsMembers(ds[..|ds| - 1], b);
    }
  }

  /** Every row on block `b` is listed by `OnBlock`. */
  lemma {:induction false} OnBlockComplete(ds: seq<Detail>, b: string, k: nat)
    requires k < |ds| && ds[k].bloqueId == b
    ensures k in OnBlock(ds, b)
  {
    if k < |ds| - 1 {
      OnBlockComplete(ds[..|ds| - 1], b, k);
    }
  }

  /** Each entry of the second pass over the keys `ks` is of the pass's kind, for a key with at least two rows, and lists every group on that block. */
  lemma {:induction false} BlockEntriesSound(ds: seq<Detail>, ks: seq<string>, kind: Kind, c: Conflict)
    requires c in BlockEntries(ds, ks, kind)
    ensures exists b :: b in ks && ReportsBlock(c, b) && |OnBlock(ds, b)| > 1 && c == BlockConflict(ds, b, OnBlock(ds, b), kind)
  {
    var init := ks[..|ks| - 1];
    var b := ks[|ks| - 1];
    if c in BlockEntries(ds, init, kind) {
      BlockEntriesSound(ds, init, kind, c);
      var b' :| b' in init && ReportsBlock(c, b') && |OnBlock(ds, b')| > 1 && c == BlockConflict(ds, b', OnBlock(ds, b'), kind);
      assert b' in ks;
    } else {
      assert c in BlockEntry(ds, b, kind);
    }
  }

  /** A key with at least two rows has an entry. */
  lemma {:induction false} BlockEntriesComplete(ds: seq<Detail>, ks: seq<string>, kind: Kind, b: string)
    requires b in ks && |OnBlock(ds, b)| > 1
    ensures BlockConflict(ds, b, OnBlock(ds, b), kind) in BlockEntries(ds, ks, kind)
  {
    var init := ks[..|ks| - 1];
    if b in init {
      BlockEntriesComplete(ds, init, kind, b);
    }
  }

  /** Over distinct keys, no block has two entries. */
  lemma {:induction false} BlockEntriesDistinct(ds: seq<Detail>, ks: seq<string>, kind: Kind)
    requires forall i, j :: 0 <= i < j < |ks| ==> ks[i] != ks[j]
    ensures forall i, j, b :: 0 <= i < j < |BlockEntries(ds, ks, kind)| && ReportsBlock(BlockEntries(ds, ks, kind)[i], b) ==>
      !ReportsBlock(BlockEntries(ds, ks, kind)[j], b)
  {
    if ks != [] {
      var init := ks[..|ks| - 1];
      var b := ks[|ks| - 1];
      BlockEntriesDistinct(ds, init, kind);
      var prev := BlockEntries(ds, init, kind);
      forall i | 0 <= i < |prev| ensures !ReportsBlock(prev[i], b) {
        BlockEntriesSound(ds, init, kind, prev[i]);
      }
    }
  }

  /**
   * A PROFESOR_CONFLICTO (and equally an AULA_CONFLICTO) is reported for a
   * block exactly when at least two rows use it, whatever their professors
   * and rooms, since the dictionaries are keyed by the block alone; the
   * entry lists every group on the block, and no block is reported twice.
   */
  lemma BlockConflictIff(ds: seq<Detail>, kind: Kind, b: string)
    ensures (exists c :: c in BlockEntries(ds, BlockIds(ds), kind) && ReportsBlock(c, b)) <==> |OnBlock(ds, b)| >= 2
    ensures forall c :: c in BlockEntries(ds, BlockIds(ds), kind) && ReportsBlock(c, b) ==>
      c.grupos == InvolvedOf(ds, OnBlock(ds, b))
    ensures forall i, j :: 0 <= i < j < |BlockEntries(ds, BlockIds(ds), kind)| && ReportsBlock(BlockEntries(ds, BlockIds(ds), kind)[i], b) ==>
      !ReportsBlock(BlockEntries(ds, BlockIds(ds), kind)[j], b)
  {
    var ks := BlockIds(ds);
    BlockIdsMembers(ds, b);
    if |OnBlock(ds, b)| >= 2 {
      BlockEntriesComplete(ds, ks, kind, b);
    }
    forall c | c in BlockEntries(ds, ks, kind) && ReportsBlock(c, b)
      ensures |OnBlock(ds, b)| >= 2 && c.grupos == InvolvedOf(ds, OnBlock(ds, b))
    {
      BlockEntriesSound(ds, ks, kind, c);
    }
    BlockEntriesDistinct(ds, ks, kind);
  }

  /** Two rows on the same block are reported as a professor conflict even when their professors differ. */
  lemma KeyedByBlockOnly(d1: Detail, d2: Detail)
    requires d1.bloqueId == d2.bloqueId && d1.grupo.profesorId != d2.grupo.profesorId
    ensures BlockEntries([d1, d2], BlockIds([d1, d2]), ByProfessor) ==
            [ProfesorConflicto(d1.bloqueId, d1.grupo.profesorId, InvolvedOf([d1, d2], [0, 1]))]
  {
    var ds := [d1, d2];
    assert ds[..1] == [d1] && ds[..1][..0] == [];
    assert BlockIds(ds[..1]) == [d1.bloqueId];
    assert BlockIds(ds) == [d1.bloqueId];
    assert OnBlock(ds[..1], d1.bloqueId) == [0];
    assert OnBlock(ds, d1.bloqueId) == [0, 1];
    assert [d1.bloqueId][..0] == [];
  }

  /** A CAPACIDAD_EXCEDIDA entry is exactly a row whose group outnumbers its room, with the difference. */
  lemma {:induction false} CapacityEntriesIff(ds: seq<Detail>, c: Conflict)
    requires AllRooms(ds)
    ensures c in CapacityEntries(ds) <==> exists k :: 0 <= k < |ds| && Exceeds(ds[k]) && c == CapacityEntry(ds[k])
  {
    if ds != [] {
      var init := ds[..|ds| - 1];
      CapacityEntriesIff(init, c);
      assert forall k :: 0 <= k < |init| ==> init[k] == ds[k];
      if c in CapacityEntries(ds) && c !in CapacityEntries(init) {
        assert c == CapacityEntry(ds[|ds| - 1]);
      }
    }
  }

  // ---------------------------------------------------------------------------
  // findConflicts, step by step
  // ---------------------------------------------------------------------------

  /** `if (!m[key]) m[key] = []; m[key].push(index)`. */
  function Register(m: map<string, seq<nat>>, key: string, index: nat): map<string, seq<nat>>
  {
    m[key := (if key in m then m[key] else []) + [index]]
  }

  /** `m` holds, for every block id of `ds`, the indices of its rows. */
  ghost predicate Indexes(m: map<string, seq<nat>>, ds: seq<Detail>)
  {
    (forall b :: b in m ==> m[b] == OnBlock(ds, b)) && (forall b :: b !in m ==> OnBlock(ds, b) == [])
  }

  lemma OnBlockPrefix(ds: seq<Detail>, i: nat, b: string)
    requires i < |ds|
    ensures OnBlock(ds[..i + 1], b) == OnBlock(ds[..i], b) + (if ds[i].bloqueId == b then [i] else [])
  {
    assert ds[..i + 1][..i] == ds[..i];
  }

  lemma BlockIdsPrefix(ds: seq<Detail>, i: nat)
    requires i < |ds|
    ensures BlockIds(ds[..i + 1]) == (if ds[i].bloqueId in BlockIds(ds[..i]) then BlockIds(ds[..i]) else BlockIds(ds[..i]) + [ds[i].bloqueId])
  {
    assert ds[..i + 1][..i] == ds[..i];
  }

  lemma RegisterStep(m: map<string, seq<nat>>, ds: seq<Detail>, i: nat)
    requires i < |ds| && Indexes(m, ds[..i])
    ensures Indexes(Register(m, ds[i].bloqueId, i), ds[..i + 1])
  {
    var m' := Register(m, ds[i].bloqueId, i);
    forall b ensures b in m' ==> m'[b] == OnBlock(ds[..i + 1], b) {
      OnBlockPrefix(ds, i, b);
    }
    forall b ensures b !in m' ==> OnBlock(ds[..i + 1], b) == [] {
      OnBlockPrefix(ds, i, b);
    }
  }

  /** The first pass: `profesorBloques` and `aulaBloques`, and their keys in insertion order. */
  method RecordAssignments(details: seq<Detail>)
    returns (profesorBloques: map<string, seq<nat>>, aulaBloques: map<string, seq<nat>>, keys: seq<string>)
    ensures keys == BlockIds(details)
    ensures Indexes(profesorBloques, details) && Indexes(aulaBloques, details)
    ensures forall b :: b in profesorBloques <==> b in keys
    ensures forall b :: b in aulaBloques <==> b in keys
  {
    profesorBloques, aulaBloques, keys := map[], map[], [];
    var i := 0;
    while i < |details|
      invariant 0 <= i <= |details|
      invariant keys == BlockIds(details[..i])
      invariant Indexes(profesorBloques, details[..i]) && Indexes(aulaBloques, details[..i])
      invariant forall b :: b in profesorBloques <==> b in keys
      invariant forall b :: b in aulaBloques <==> b in keys
    {
      var claveBloque := details[i].bloqueId;
      BlockIdsPrefix(details, i);
      RegisterStep(profesorBloques, details, i);
      RegisterStep(aulaBloques, details, i);
      if claveBloque !in keys {
        keys := keys + [claveBloque];
      }
      profesorBloques := Register(profesorBloques, claveBloque, i);
      aulaBloques := Register(aulaBloques, claveBloque, i);
      i := i + 1;
    }
    assert details[..i] == details;
  }

  lemma BlockEntriesPrefix(ds: seq<Detail>, ks: seq<string>, j: nat, kind: Kind, init: seq<Conflict>, prev: seq<Conflict>, next: seq<Conflict>)
    requires j < |ks|
    requires prev == init + BlockEntries(ds, ks[..j], kind) && next == prev + BlockEntry(ds, ks[j], kind)
    ensures next == init + BlockEntries(ds, ks[..j + 1], kind)
  {
    assert ks[..j + 1][..j] == ks[..j];
  }

  /** The body of the second pass for one key: push an entry when the block has more than one row. */
  method ReportBlock(details: seq<Detail>, bloqueId: string, asignaciones: seq<nat>, kind: Kind, conflicts: seq<Conflict>)
    returns (conflicts': seq<Conflict>)
    requires asignaciones == OnBlock(details, bloqueId)
    ensures conflicts' == conflicts + BlockEntry(details, bloqueId, kind)
  {
    conflicts' := conflicts;
    if |asignaciones| > 1 {
      conflicts' := conflicts' + [BlockConflict(details, bloqueId, asignaciones, kind)];
    }
  }

  /** The second pass over one dictionary, pushing onto `conflicts`. */
  method BlockPass(details: seq<Detail>, keys: seq<string>, m: map<string, seq<nat>>, kind: Kind, conflicts: seq<Conflict>)
    returns (conflicts': seq<Conflict>)
    requires forall j :: 0 <= j < |keys| ==> keys[j] in m && m[keys[j]] == OnBlock(details, keys[j])
    ensures conflicts' == conflicts + BlockEntries(details, keys, kind)
  {
    conflicts' := conflicts;
    var j := 0;
    while j < |keys|
      invariant 0 <= j <= |keys|
      invariant conflicts' == conflicts + BlockEntries(details, keys[..j], kind)
    {
      ghost var prev := conflicts';
      conflicts' := ReportBlock(details, keys[j], m[keys[j]], kind, conflicts');
      BlockEntriesPrefix(details, keys, j, kind, conflicts, prev, conflicts');
      j := j + 1;
    }
    assert keys[..j] == keys;
  }

  lemma CapacityEntriesPrefix(ds: seq<Detail>, i: nat)
    requires i < |ds| && AllRooms(ds[..i + 1])
    ensures AllRooms(ds[..i]) && ds[i].aula.Some?
    ensures CapacityEntries(ds[..i + 1]) == CapacityEntries(ds[..i]) + (if Exceeds(ds[i]) then [CapacityEntry(ds[i])] else [])
  {
    assert ds[..i + 1][..i] == ds[..i];
    assert ds[..i + 1][i] == ds[i];
  }

  /** The third pass; reading the capacity of a row without a room throws. */
  method CapacityPass(details: seq<Detail>, conflicts: seq<Conflict>) returns (r: Result<seq<Conflict>, string>)
    ensures AllRooms(details) ==> r == Ok(conflicts + CapacityEntries(details))
    ensures !AllRooms(details) ==> r == Err(NullRoom)
  {
    var acc := conflicts;
    var i := 0;
    while i < |details|
      invariant 0 <= i <= |details| && AllRooms(details[..i])
      invariant acc == conflicts + CapacityEntries(details[..i])
    {
      if details[i].aula.None? {
        assert !AllRooms(details);
        return Err(NullRoom);
      }
      assert AllRooms(details[..i + 1]) by {
        assert forall k :: 0 <= k < i ==> details[..i + 1][k] == details[..i][k];
      }
      CapacityEntriesPrefix(details, i);
      var capacidad := details[i].aula.value.capacidad;
      var inscritos := Inscritos(details[i]);
      if inscritos > capacidad {
        acc := acc + [CapacidadExcedida(details[i].grupo.id, details[i].aulaId, capacidad, inscritos, inscritos - capacidad)];
      }
      i := i + 1;
    }
    assert details[..i] == details;
    r := Ok(acc);
  }

  /** `findConflicts(detalles)`. */
  method FindConflicts(details: seq<Detail>) returns (r: Result<seq<Conflict>, string>)
    ensures r == Conflicts(details)
  {
    var profesorBloques, aulaBloques, keys := RecordAssignments(details);
    assert forall j :: 0 <= j < |keys| ==> keys[j] in profesorBloques && profesorBloques[keys[j]] == OnBlock(details, keys[j]);
    assert forall j :: 0 <= j < |keys| ==> keys[j] in aulaBloques && aulaBloques[keys[j]] == OnBlock(details, keys[j]);
    var conflicts := BlockPass(details, keys, profesorBloques, ByProfessor, []);
    assert conflicts == BlockEntries(details, keys, ByProfessor);
    conflicts := BlockPass(details, keys, aulaBloques, ByRoom, conflicts);
    r := CapacityPass(details, conflicts);
  }

  // ---------------------------------------------------------------------------
  // analyzeConflicts: the summary
  // ---------------------------------------------------------------------------

  /** The number of conflicts of type `t`. */
  function CountOf(cs: seq<Conflict>, t: string): (n: nat)
    ensures n <= |cs|
  {
    if cs == [] then 0 else CountOf(cs[..|cs| - 1], t) + (if cs[|cs| - 1].Tipo() == t then 1 else 0)
  }

  /** `conflicts.reduce((acc, conf) => { acc[conf.tipo] = (acc[conf.tipo] || 0) + 1; return acc; }, {})`. */
  function PorTipo(cs: seq<Conflict>): map<string, nat>
  {
    if cs == [] then map[]
    else
      var acc := PorTipo(cs[..|cs| - 1]);
      var t := cs[|cs| - 1].Tipo();
      acc[t := (if t in acc then acc[t] else 0) + 1]
  }

  /** `por_tipo[t] || 0`. */
  function Tally(m: map<string, nat>, t: string): nat
  {
    if t in m then m[t] else 0
  }

  /** `por_tipo` has a key exactly for the types that occur, holding how often each occurs. */
  lemma {:induction false} PorTipoCounts(cs: seq<Conflict>, t: string)
    ensures t in PorTipo(cs) <==> CountOf(cs, t) > 0
    ensures Tally(PorTipo(cs), t) == CountOf(cs, t)
  {
    if cs != [] {
      PorTipoCounts(cs[..|cs| - 1], t);
    }
  }

  /** Every conflict has one of the three types, so the three counts add up to `total_conflictos`. */
  lemma {:induction false} PorTipoSum(cs: seq<Conflict>)
    ensures Tally(PorTipo(cs), "PROFESOR_CONFLICTO") + Tally(PorTipo(cs), "AULA_CONFLICTO")
            + Tally(PorTipo(cs), "CAPACIDAD_EXCEDIDA") == |cs|
    ensures forall t :: t in PorTipo(cs) ==> t in {"PROFESOR_CONFLICTO", "AULA_CONFLICTO", "CAPACIDAD_EXCEDIDA"}
  {
    PorTipoCounts(cs, "PROFESOR_CONFLICTO");
    PorTipoCounts(cs, "AULA_CONFLICTO");
    PorTipoCounts(cs, "CAPACIDAD_EXCEDIDA");
    CountsSum(cs);
    forall t | t in PorTipo(cs) ensures t in {"PROFESOR_CONFLICTO", "AULA_CONFLICTO", "CAPACIDAD_EXCEDIDA"} {
      PorTipoKeys(cs, t);
    }
  }

  lemma {:induction false} CountsSum(cs: seq<Conflict>)
    ensures CountOf(cs, "PROFESOR_CONFLICTO") + CountOf(cs, "AULA_CONFLICTO") + CountOf(cs, "CAPACIDAD_EXCEDIDA") == |cs|
  {
    if cs != [] {
      CountsSum(cs[..|cs| - 1]);
    }
  }

  lemma {:induction false} PorTipoKeys(cs: seq<Conflict>, t: string)
    requires t in PorTipo(cs)
    ensures t in {"PROFESOR_CONFLICTO", "AULA_CONFLICTO", "CAPACIDAD_EXCEDIDA"}
  {
    var init := cs[..|cs| - 1];
    if t != cs[|cs| - 1].Tipo() {
      PorTipoKeys(init, t);
    }
  }

  /** The response of `GET /schedules/:id/conflicts`. */
  datatype Analysis =
    | HorarioNoEncontrado
    | AnalysisError(error: string)
    | Analysis(horarioId: string, totalAsignaciones: nat, conflictos: seq<Conflict>, totalConflictos: nat, porTipo: map<string, nat>)

  /** The response built from the rows (or from the exception) of `findConflicts`. */
  function Summarize(id: string, rows: seq<Detail>, found: Result<seq<Conflict>, string>): Analysis
  {
    match found
    case Ok(cs) => Analysis(id, |rows|, cs, |cs|, PorTipo(cs))
    case Err(e) => AnalysisError(e)
  }

  /**
   * The rows as the query of `analyzeConflicts` loads them: it includes the
   * group with `usuarios` and `materias` but not `_count`, so no row carries
   * the number of enrolments of its group.
   */
  function AsLoaded(ds: seq<Detail>): (r: seq<Detail>)
    ensures |r| == |ds|
    ensures forall k :: 0 <= k < |r| ==> r[k].grupo.inscripciones.None? && r[k].aula == ds[k].aula
  {
    seq(|ds|, k requires 0 <= k < |ds| => ds[k].(grupo := ds[k].grupo.(inscripciones := None)))
  }

  /** `analyzeConflicts` as written: `horario` is the stored schedule's rows, `None` when there is no such schedule. */
  function AnalyzeConflicts(id: string, horario: Option<seq<Detail>>): Analysis
  {
    match horario
    case None => HorarioNoEncontrado
    case Some(ds) => Summarize(id, ds, Conflicts(AsLoaded(ds)))
  }

  /** `analyzeConflicts` with `_count: { select: { inscripciones: true } }` in the query, as `getSchedule` loads it. */
  function AnalyzeConflictsCounted(id: string, horario: Option<seq<Detail>>): Analysis
  {
    match horario
    case None => HorarioNoEncontrado
    case Some(ds) => Summarize(id, ds, Conflicts(ds))
  }

  lemma {:induction false} NoCapacityEntryWithoutCounts(ds: seq<Detail>)
    requires AllRooms(ds) && forall k :: 0 <= k < |ds| ==> ds[k].grupo.inscripciones.None? && ds[k].aula.value.capacidad >= 0
    ensures CapacityEntries(ds) == []
  {
    if ds != [] {
      NoCapacityEntryWithoutCounts(ds[..|ds| - 1]);
    }
  }

  /**
   * As written, a stored schedule whose rooms all have a non-negative
   * capacity never gets a CAPACIDAD_EXCEDIDA entry, however many students
   * its groups have.
   */
  lemma AnalyzeNeverReportsCapacity(id: string, ds: seq<Detail>)
    requires AllRooms(ds) && forall k :: 0 <= k < |ds| ==> ds[k].aula.value.capacidad >= 0
    ensures AnalyzeConflicts(id, Some(ds)).Analysis?
    ensures forall c :: c in AnalyzeConflicts(id, Some(ds)).conflictos ==> !c.CapacidadExcedida?
  {
    var loaded := AsLoaded(ds);
    NoCapacityEntryWithoutCounts(loaded);
    var cs := Conflicts(loaded).value;
    forall c | c in cs ensures !c.CapacidadExcedida? {
      var e1 := BlockEntries(loaded, BlockIds(loaded), ByProfessor);
      var e2 := BlockEntries(loaded, BlockIds(loaded), ByRoom);
      assert cs == e1 + e2;
      if c in e1 {
        BlockEntriesSound(loaded, BlockIds(loaded), ByProfessor, c);
      } else {
        BlockEntriesSound(loaded, BlockIds(loaded), ByRoom, c);
      }
    }
  }

  /** A group of 40 students in a room for 30. */
  function CrowdedRow(): Detail
  {
    Detail("b1", Some("a1"), GroupRef("g1", "p1", "Calculo", "01", Some(40)), Some(Room("a1", 30)), TimeBlock("LUN", 0, 3600000, Str("MANANA")))
  }

  /** With a single row no block is shared, so neither block pass reports anything. */
  lemma {:induction false} BlockEntriesOneRow(ds: seq<Detail>, ks: seq<string>, kind: Kind)
    requires |ds| <= 1
    ensures BlockEntries(ds, ks, kind) == []
  {
    if ks != [] {
      BlockEntriesOneRow(ds, ks[..|ks| - 1], kind);
      assert |OnBlock(ds, ks[|ks| - 1])| <= 1;
    }
  }

  /** As written, the crowded row is missed: the query drops the enrolment counts. */
  lemma CrowdedRoomMissed()
    ensures AnalyzeConflicts("h1", Some([CrowdedRow()])) == Analysis("h1", 1, [], 0, map[])
  {
    var loaded := AsLoaded([CrowdedRow()]);
    assert AllRooms(loaded);
    NoCapacityEntryWithoutCounts(loaded);
    BlockEntriesOneRow(loaded, BlockIds(loaded), ByProfessor);
    BlockEntriesOneRow(loaded, BlockIds(loaded), ByRoom);
    assert Conflicts(loaded) == Ok([]);
  }

  /** With the counts loaded, the crowded row is reported with its overflow. */
  lemma CrowdedRoomCounted()
    ensures AnalyzeConflictsCounted("h1", Some([CrowdedRow()])).conflictos == [CapacidadExcedida("g1", Some("a1"), 30, 40, 10)]
  {
    var ds := [CrowdedRow()];
    BlockEntriesOneRow(ds, BlockIds(ds), ByProfessor);
    BlockEntriesOneRow(ds, BlockIds(ds), ByRoom);
    assert ds[..0] == [];
    assert CapacityEntries(ds) == [CapacityEntry(CrowdedRow())];
  }

  /** With the counts loaded, the report lists exactly the overfull rows, and its summary adds up. */
  lemma AnalyzeCountedReportsCapacity(id: string, ds: seq<Detail>, c: Conflict)
    requires AllRooms(ds)
    ensures AnalyzeConflictsCounted(id, Some(ds)).Analysis?
    ensures c.CapacidadExcedida? ==>
      (c in AnalyzeConflictsCounted(id, Some(ds)).conflictos <==> exists k :: 0 <= k < |ds| && Exceeds(ds[k]) && c == CapacityEntry(ds[k]))
    ensures var a := AnalyzeConflictsCounted(id, Some(ds));
      a.totalAsignaciones == |ds| && a.totalConflictos == |a.conflictos| &&
      Tally(a.porTipo, "PROFESOR_CONFLICTO") + Tally(a.porTipo, "AULA_CONFLICTO") + Tally(a.porTipo, "CAPACIDAD_EXCEDIDA") == a.totalConflictos
  {
    var e1 := BlockEntries(ds, BlockIds(ds), ByProfessor);
    var e2 := BlockEntries(ds, BlockIds(ds), ByRoom);
    var cs := Conflicts(ds).value;
    assert cs == e1 + e2 + CapacityEntries(ds);
    CapacityEntriesIff(ds, c);
    if c.CapacidadExcedida? {
      if c in e1 {
        BlockEntriesSound(ds, BlockIds(ds), ByProfessor, c);
      } else if c in e2 {
        BlockEntriesSound(ds, BlockIds(ds), ByRoom, c);
      }
    }
    PorTipoSum(cs);
  }

  // ---------------------------------------------------------------------------
  // formatScheduleDetails
  // ---------------------------------------------------------------------------

  /** An element of `bloques`. */
  datatype Slot = Slot(horaInicio: int, horaFin: int, grupo: GroupRef, turno: JsStr)

  /** A value of `agrupado`: the rows of one day in one room. */
  datatype DayRoom = DayRoom(dia: string, aula: Option<Room>, bloques: seq<Slot>)

  /** `${detalle.aula_id}`: a null id prints as "null". */
  function AulaText(aulaId: Option<string>): string
  {
    match aulaId
    case None => "null"
    case Some(id) => id
  }

  /** `clave`. */
  function GroupKey(d: Detail): string
  {
    d.bloque.dia + "_" + AulaText(d.aulaId)
  }

  function KeyList(ds: seq<Detail>): (r: seq<string>)
    ensures |r| == |ds| && forall k :: 0 <= k < |ds| ==> r[k] == GroupKey(ds[k])
  {
    seq(|ds|, k requires 0 <= k < |ds| => GroupKey(ds[k]))
  }

  /** The keys of `agrupado` in insertion order, which is the order of `Object.values` for keys that are not array indices. */
  function GroupKeys(ds: seq<Detail>): seq<string>
  {
    Dedup(KeyList(ds))
  }

  function SlotOf(d: Detail): Slot
  {
    Slot(d.bloque.horaInicio, d.bloque.horaFin, d.grupo, d.bloque.turno)
  }

  function StartOfSlot(s: Slot): int { s.horaInicio }

  /** The blocks pushed under `key`, in row order. */
  function RowsWithKey(ds: seq<Detail>, key: string): (r: seq<Slot>)
    ensures |r| <= |ds|
  {
    if ds == [] then []
    else
      var d := ds[|ds| - 1];
      RowsWithKey(ds[..|ds| - 1], key) + (if GroupKey(d) == key then [SlotOf(d)] else [])
  }

  /** The row that created the entry of `key`. */
  function FirstIndex(ds: seq<Detail>, key: string): (i: nat)
    requires key in KeyList(ds)
    ensures i < |ds| && GroupKey(ds[i]) == key
    ensures forall j :: 0 <= j < i ==> GroupKey(ds[j]) != key
  {
    var init := ds[..|ds| - 1];
    if key in KeyList(init) then
      assert forall j :: 0 <= j < |init| ==> KeyList(init)[j] == KeyList(ds)[j];
      FirstIndex(init, key)
    else
      assert forall j :: 0 <= j < |init| ==> KeyList(ds)[j] == KeyList(init)[j];
      |ds| - 1
  }

  /** The entry of `key` after the first pass, before sorting. */
  function Unsorted(ds: seq<Detail>, key: string): DayRoom
    requires key in KeyList(ds)
  {
    var first := ds[FirstIndex(ds, key)];
    DayRoom(first.bloque.dia, first.aula, RowsWithKey(ds, key))
  }

  /** The entry of `key` once its blocks are sorted by `hora_inicio`. */
  function Entry(ds: seq<Detail>, key: string): (e: DayRoom)
    requires key in KeyList(ds)
  {
    var u := Unsorted(ds, key);
    u.(bloques := Sorting.SortBy(u.bloques, StartOfSlot, Sorting.LeInt))
  }

  function EntriesFor(ds: seq<Detail>, ks: seq<string>): (r: seq<DayRoom>)
    requires forall i :: 0 <= i < |ks| ==> ks[i] in KeyList(ds)
    ensures |r| == |ks|
  {
    seq(|ks|, i requires 0 <= i < |ks| => Entry(ds, ks[i]))
  }

  /** `formatScheduleDetails(detalles)`. */
  function Formatted(ds: seq<Detail>): (r: seq<DayRoom>)
  {
    EntriesFor(ds, GroupKeys(ds))
  }

  // What the formatted list means

  /** Each entry's blocks are in ascending `hora_inicio` order and are exactly the blocks of its rows. */
  lemma FormattedEntries(ds: seq<Detail>, i: nat)
    requires i < |Formatted(ds)|
    ensures Sorting.SortedBy(Formatted(ds)[i].bloques, StartOfSlot, Sorting.LeInt)
    ensures multiset(Formatted(ds)[i].bloques) == multiset(RowsWithKey(ds, GroupKeys(ds)[i]))
  {
    Sorting.IntOrdersAreTotalPreorders();
    var key := GroupKeys(ds)[i];
    assert Formatted(ds)[i] == Entry(ds, key);
    Sorting.SortBySorted(RowsWithKey(ds, key), StartOfSlot, Sorting.LeInt);
  }

  lemma {:induction false} RowInRowsWithKey(ds: seq<Detail>, k: nat)
    requires k < |ds|
    ensures SlotOf(ds[k]) in RowsWithKey(ds, GroupKey(ds[k]))
  {
    if k < |ds| - 1 {
      RowInRowsWithKey(ds[..|ds| - 1], k);
    }
  }

  /** Every row's block is in the entry of its key, whose `dia` and `aula` come from the first row with that key. */
  lemma RowIsFormatted(ds: seq<Detail>, k: nat)
    requires k < |ds|
    ensures exists i :: (0 <= i < |GroupKeys(ds)| && GroupKeys(ds)[i] == GroupKey(ds[k]) &&
      SlotOf(ds[k]) in Formatted(ds)[i].bloques &&
      Formatted(ds)[i].dia == ds[FirstIndex(ds, GroupKey(ds[k]))].bloque.dia)
  {
    var key := GroupKey(ds[k]);
    assert KeyList(ds)[k] == key;
    var i :| 0 <= i < |GroupKeys(ds)| && GroupKeys(ds)[i] == key;
    assert Formatted(ds)[i] == Entry(ds, key);
    RowInRowsWithKey(ds, k);
    assert SlotOf(ds[k]) in multiset(RowsWithKey(ds, key));
  }

  /** Two keys built from days without `_` are equal only for the same day and the same room. */
  lemma KeyInjective(d1: Detail, d2: Detail)
    requires '_' !in d1.bloque.dia && '_' !in d2.bloque.dia
    requires GroupKey(d1) == GroupKey(d2)
    ensures d1.bloque.dia == d2.bloque.dia && AulaText(d1.aulaId) == AulaText(d2.aulaId)
  {
    var a, c := d1.bloque.dia, d2.bloque.dia;
    var key := GroupKey(d1);
    assert key[|a|] == '_' && key[|c|] == '_';
    assert |a| == |c|;
    assert a == key[..|a|] == c;
    assert AulaText(d1.aulaId) == key[|a| + 1..] == AulaText(d2.aulaId);
  }

  /** The blocks of `[a row of k0, ...]` summed over distinct keys. */
  function SumRows(ds: seq<Detail>, ks: seq<string>): nat
  {
    if ks == [] then 0 else SumRows(ds, ks[..|ks| - 1]) + |RowsWithKey(ds, ks[|ks| - 1])|
  }

  lemma {:induction false} SumRowsStep(ds: seq<Detail>, ks: seq<string>)
    requires ds != []
    requires forall i, j :: 0 <= i < j < |ks| ==> ks[i] != ks[j]
    ensures SumRows(ds, ks) == SumRows(ds[..|ds| - 1], ks) + (if GroupKey(ds[|ds| - 1]) in ks then 1 else 0)
  {
    if ks != [] {
      var init := ks[..|ks| - 1];
      SumRowsStep(ds, init);
      assert GroupKey(ds[|ds| - 1]) in ks <==> GroupKey(ds[|ds| - 1]) in init || GroupKey(ds[|ds| - 1]) == ks[|ks| - 1];
    }
  }

  /** Summed over distinct keys that cover every row, the rows per key count every row once. */
  lemma {:induction false} SumRowsCovers(ds: seq<Detail>, ks: seq<string>)
    requires forall i, j :: 0 <= i < j < |ks| ==> ks[i] != ks[j]
    requires forall k :: 0 <= k < |ds| ==> GroupKey(ds[k]) in ks
    ensures SumRows(ds, ks) == |ds|
  {
    if ds == [] {
      SumRowsEmpty(ks);
    } else {
      SumRowsCovers(ds[..|ds| - 1], ks);
      SumRowsStep(ds, ks);
    }
  }

  lemma {:induction false} SumRowsEmpty(ks: seq<string>)
    ensures SumRows([], ks) == 0
  {
    if ks != [] {
      SumRowsEmpty(ks[..|ks| - 1]);
    }
  }

  /** The number of blocks over all entries. */
  function TotalBlocks(gs: seq<DayRoom>): nat
  {
    if gs == [] then 0 else TotalBlocks(gs[..|gs| - 1]) + |gs[|gs| - 1].bloques|
  }

  lemma {:induction false} TotalOfEntries(ds: seq<Detail>, ks: seq<string>)
    requires forall i :: 0 <= i < |ks| ==> ks[i] in KeyList(ds)
    ensures TotalBlocks(EntriesFor(ds, ks)) == SumRows(ds, ks)
  {
    if ks != [] {
      var init := ks[..|ks| - 1];
      assert EntriesFor(ds, ks)[..|ks| - 1] == EntriesFor(ds, init);
      TotalOfEntries(ds, init);
    }
  }

  /** Formatting neither loses nor duplicates a row: the entries hold `detalles.length` blocks in all. */
  lemma FormattedTotal(ds: seq<Detail>)
    ensures TotalBlocks(Formatted(ds)) == |ds|
  {
    var ks := GroupKeys(ds);
    TotalOfEntries(ds, ks);
    forall k | 0 <= k < |ds| ensures GroupKey(ds[k]) in ks {
      assert KeyList(ds)[k] == GroupKey(ds[k]);
    }
    SumRowsCovers(ds, ks);
  }

  // formatScheduleDetails, step by step

  lemma KeyListPrefix(ds: seq<Detail>, i: nat)
    requires i < |ds|
    ensures KeyList(ds[..i + 1])[..i] == KeyList(ds[..i])
    ensures KeyList(ds[..i + 1])[i] == GroupKey(ds[i])
  {
  }

  lemma UnsortedStep(ds: seq<Detail>, i: nat, key: string)
    requires i < |ds|
    requires key in KeyList(ds[..i + 1])
    ensures key in KeyList(ds[..i]) ==> (Unsorted(ds[..i + 1], key) ==
      Unsorted(ds[..i], key).(bloques := Unsorted(ds[..i], key).bloques + (if GroupKey(ds[i]) == key then [SlotOf(ds[i])] else [])))
    ensures key !in KeyList(ds[..i]) ==> key == GroupKey(ds[i]) && Unsorted(ds[..i + 1], key) == DayRoom(ds[i].bloque.dia, ds[i].aula, [SlotOf(ds[i])])
  {
    var p := ds[..i + 1];
    assert p[..i] == ds[..i];
    assert p[i] == ds[i];
    if key !in KeyList(ds[..i]) {
      KeyListPrefix(ds, i);
      RowsWithKeyAbsent(ds[..i], key);
    }
  }

  lemma {:induction false} RowsWithKeyAbsent(ds: seq<Detail>, key: string)
    requires key !in KeyList(ds)
    ensures RowsWithKey(ds, key) == []
  {
    if ds != [] {
      var init := ds[..|ds| - 1];
      assert forall j :: 0 <= j < |init| ==> KeyList(init)[j] == KeyList(ds)[j];
      RowsWithKeyAbsent(init, key);
      assert KeyList(ds)[|ds| - 1] == GroupKey(ds[|ds| - 1]);
    }
  }

  /** One step of the first `forEach`: create the entry of the row's key if absent, then push the row's block. */
  function Put(m: map<string, DayRoom>, d: Detail): map<string, DayRoom>
  {
    var k := GroupKey(d);
    var e := if k in m then m[k] else DayRoom(d.bloque.dia, d.aula, []);
    m[k := e.(bloques := e.bloques + [SlotOf(d)])]
  }

  /** After the rows `ds[..i]`, `m` holds the unsorted entry of each key seen so far. */
  ghost predicate GroupedUpTo(m: map<string, DayRoom>, ds: seq<Detail>, i: nat)
    requires i <= |ds|
  {
    forall k :: k in m ==> k in KeyList(ds[..i]) && m[k] == Unsorted(ds[..i], k)
  }

  lemma GroupedStep(m: map<string, DayRoom>, ds: seq<Detail>, i: nat)
    requires i < |ds|
    requires forall k :: k in m <==> k in KeyList(ds[..i])
    requires GroupedUpTo(m, ds, i)
    ensures forall k :: k in Put(m, ds[i]) <==> k in KeyList(ds[..i + 1])
    ensures GroupedUpTo(Put(m, ds[i]), ds, i + 1)
  {
    forall k | k in Put(m, ds[i]) ensures k in KeyList(ds[..i + 1]) && Put(m, ds[i])[k] == Unsorted(ds[..i + 1], k) {
      GroupedValueAt(m, ds, i, k);
    }
    forall k | k in KeyList(ds[..i + 1]) ensures k in Put(m, ds[i]) {
      GroupedKeyAt(m, ds, i, k);
    }
  }

  lemma GroupedValueAt(m: map<string, DayRoom>, ds: seq<Detail>, i: nat, k: string)
    requires i < |ds|
    requires forall k :: k in m <==> k in KeyList(ds[..i])
    requires GroupedUpTo(m, ds, i)
    requires k in Put(m, ds[i])
    ensures k in KeyList(ds[..i + 1]) && Put(m, ds[i])[k] == Unsorted(ds[..i + 1], k)
  {
    KeyListPrefix(ds, i);
    assert KeyList(ds[..i + 1])[i] == GroupKey(ds[i]);
    if k in m {
      assert KeyList(ds[..i]) == KeyList(ds[..i + 1])[..i];
    }
    UnsortedStep(ds, i, k);
  }

  lemma GroupedKeyAt(m: map<string, DayRoom>, ds: seq<Detail>, i: nat, k: string)
    requires i < |ds|
    requires forall k :: k in m <==> k in KeyList(ds[..i])
    requires k in KeyList(ds[..i + 1])
    ensures k in Put(m, ds[i])
  {
    KeyListPrefix(ds, i);
    var j :| 0 <= j < i + 1 && KeyList(ds[..i + 1])[j] == k;
    if j < i {
      assert KeyList(ds[..i])[j] == k;
    }
  }

  lemma KeysStep(ds: seq<Detail>, i: nat, keys: seq<string>, m: map<string, DayRoom>)
    requires i < |ds|
    requires keys == Dedup(KeyList(ds[..i])) && forall k :: k in m <==> k in KeyList(ds[..i])
    ensures Dedup(KeyList(ds[..i + 1])) == if GroupKey(ds[i]) in m then keys else keys + [GroupKey(ds[i])]
  {
    KeyListPrefix(ds, i);
  }

  /** The first `forEach`: `agrupado` and its keys in insertion order. */
  method GroupRows(details: seq<Detail>) returns (agrupado: map<string, DayRoom>, keys: seq<string>)
    ensures keys == GroupKeys(details)
    ensures forall k :: k in agrupado <==> k in keys
    ensures forall j :: 0 <= j < |keys| ==> keys[j] in KeyList(details) && agrupado[keys[j]] == Unsorted(details, keys[j])
  {
    agrupado, keys := map[], [];
    var i := 0;
    while i < |details|
      invariant 0 <= i <= |details|
      invariant keys == Dedup(KeyList(details[..i]))
      invariant forall k :: k in agrupado <==> k in KeyList(details[..i])
      invariant GroupedUpTo(agrupado, details, i)
    {
      GroupedStep(agrupado, details, i);
      KeysStep(details, i, keys, agrupado);
      var detalle := details[i];
      var clave := GroupKey(detalle);
      var entry;
      if clave !in agrupado {
        entry := DayRoom(detalle.bloque.dia, detalle.aula, []);
        keys := keys + [clave];
      } else {
        entry := agrupado[clave];
      }
      agrupado := agrupado[clave := entry.(bloques := entry.bloques + [SlotOf(detalle)])];
      i := i + 1;
    }
    assert details[..i] == details;
  }

  /** `item.bloques.sort((a, b) => new Date(a.hora_inicio) - new Date(b.hora_inicio))`. */
  function SortEntry(item: DayRoom): DayRoom
  {
    item.(bloques := Sorting.SortBy(item.bloques, StartOfSlot, Sorting.LeInt))
  }

  /** The second `forEach`, over `Object.values(agrupado)`: every entry gets its blocks sorted in place. */
  method SortEntries(items: seq<DayRoom>) returns (sorted: seq<DayRoom>)
    ensures |sorted| == |items| && forall t :: 0 <= t < |items| ==> sorted[t] == SortEntry(items[t])
  {
    sorted := items;
    var j := 0;
    while j < |items|
      invariant 0 <= j <= |items| && |sorted| == |items|
      invariant forall t :: 0 <= t < j ==> sorted[t] == SortEntry(items[t])
      invariant forall t :: j <= t < |items| ==> sorted[t] == items[t]
    {
      sorted := sorted[j := SortEntry(sorted[j])];
      j := j + 1;
    }
  }

  /**
   * `formatScheduleDetails(detalles)`: group the rows, sort the blocks of
   * every value of `agrupado`, and return those values, which are the
   * objects the sort worked on.
   */
  method FormatScheduleDetails(details: seq<Detail>) returns (r: seq<DayRoom>)
    ensures r == Formatted(details)
  {
    var agrupado, keys := GroupRows(details);
    var values := seq(|keys|, t requires 0 <= t < |keys| => agrupado[keys[t]]);
    r := SortEntries(values);
    ValuesAreFormatted(details, keys, values, r);
  }

  lemma ValuesAreFormatted(details: seq<Detail>, keys: seq<string>, values: seq<DayRoom>, r: seq<DayRoom>)
    requires keys == GroupKeys(details)
    requires forall t :: 0 <= t < |keys| ==> keys[t] in KeyList(details)
    requires |values| == |keys| && forall t :: 0 <= t < |keys| ==> values[t] == Unsorted(details, keys[t])
    requires |r| == |keys| && forall t :: 0 <= t < |keys| ==> r[t] == SortEntry(values[t])
    ensures r == Formatted(details)
  {
    assert forall t :: 0 <= t < |keys| ==> r[t] == Entry(details, keys[t]);
  }

  // ---------------------------------------------------------------------------
  // listSchedules: pagination
  // ---------------------------------------------------------------------------

  /** `skip`: the number of schedules before page `page` (both already `parseInt`-ed). */
  function Skip(page: int, limit: int): int
  {
    (page - 1) * limit
  }

  /** `Math.ceil(total / limit)`: `None` for a zero limit, where the division gives `Infinity` or `NaN`. */
  function Pages(total: nat, limit: int): Option<int>
  {
    if limit == 0 then None else Some(Ceil(total as real / limit as real))
  }

  /** The first page starts at the first schedule, and each page starts `limit` schedules after the previous one. */
  lemma SkipTiles(page: int, limit: int)
    ensures Skip(1, limit) == 0
    ensures Skip(page + 1, limit) == Skip(page, limit) + limit
  {
  }

  /**
   * For a positive limit, `pages` is the number of pages needed: the last
   * page starts before the end and every schedule falls on a page no later
   * than it; with no schedules there are no pages.
   */
  lemma PagesCover(total: nat, limit: int)
    requires limit > 0
    ensures Pages(total, limit) == Some(CeilDiv(total, limit))
    ensures total > 0 ==> Skip(Pages(total, limit).value, limit) < total <= Skip(Pages(total, limit).value + 1, limit)
    ensures total == 0 ==> Pages(total, limit) == Some(0)
  {
    var c := CeilDiv(total, limit);
    var x := total as real / limit as real;
    assert (c - 1) * limit < total <= c * limit;
    assert ((c - 1) * limit) as real == (c - 1) as real * limit as real;
    assert (c * limit) as real == c as real * limit as real;
    assert (c - 1) as real < x <= c as real by {
      assert x * limit as real == total as real;
      RealBetween(c, limit, x, total);
    }
    assert Ceil(x) == c;
  }

  lemma RealBetween(c: int, limit: int, x: real, total: nat)
    requires limit > 0 && x * limit as real == total as real
    requires ((c - 1) * limit) as real < total as real <= (c * limit) as real
    ensures (c - 1) as real < x <= c as real
  {
    ProductAsReal(c - 1, limit);
    ProductAsReal(c, limit);
    BelowByFactor((c - 1) as real, x, limit as real);
    AtMostByFactor(x, c as real, limit as real);
  }

  lemma ProductAsReal(a: int, b: int)
    ensures (a * b) as real == a as real * b as real
  {
  }

  // ---------------------------------------------------------------------------
  // generateSchedule and deleteSchedule: the guards
  // ---------------------------------------------------------------------------

  /** A response: its status code and message. */
  datatype Reply = Reply(status: int, message: string)

  /**
   * The checks of `generateSchedule` before the job starts: `periodo` is
   * whether the period exists, `gruposCount` how many groups it has.
   */
  function GenerateSchedule(periodoId: JsStr, periodo: bool, gruposCount: nat): Reply
  {
    if !periodoId.Truthy() then Reply(400, "El periodo_id es obligatorio")
    else if !periodo then Reply(404, "Periodo no encontrado")
    else if gruposCount == 0 then Reply(400, "No hay grupos asignados para este periodo")
    else Reply(202, "Generación de horario iniciada")
  }

  /** Generation starts exactly for a given, existing period with groups; a missing id or an empty period is a 400. */
  lemma GenerateScheduleGuards(periodoId: JsStr, periodo: bool, gruposCount: nat)
    ensures GenerateSchedule(periodoId, periodo, gruposCount).status == 202 <==> periodoId.Truthy() && periodo && gruposCount > 0
    ensures !periodoId.Truthy() || (periodo && gruposCount == 0) ==> GenerateSchedule(periodoId, periodo, gruposCount).status == 400
    ensures periodoId.Truthy() && !periodo ==> GenerateSchedule(periodoId, periodo, gruposCount).status == 404
  {
  }

  /** The checks of `deleteSchedule`: `estado` is the schedule's state, `None` when there is no such schedule. */
  function DeleteSchedule(estado: Option<string>): Reply
  {
    match estado
    case None => Reply(404, "Horario no encontrado")
    case Some(e) =>
      if e == "RUNNING" then Reply(400, "No se puede eliminar un horario en proceso de generación")
      else Reply(200, "Horario eliminado correctamente")
  }

  /** A schedule is deleted exactly when it exists and is not being generated. */
  lemma DeleteScheduleGuards(estado: Option<string>)
    ensures DeleteSchedule(estado).status == 200 <==> estado.Some? && estado.value != "RUNNING"
    ensures estado == Some("RUNNING") ==> DeleteSchedule(estado).status == 400
  {
  }
}
