/**
 * The subject-enrollment handlers
 * (`backend/src/controllers/subjectEnrollment.controller.js`): which subjects
 * of the student's career are offered in a period, the replacement of the
 * student's selection set by a new one, the stored selections' credits, the
 * priority bound and the clearing of selections.
 */
module SubjectEnrollmentController {
  import opened Common
  import Sorting

  // ---------------------------------------------------------------------------
  // getCompletedSubjects
  // ---------------------------------------------------------------------------

  /** One of the student's enrolments: its group's subject (when the group was loaded) and its period's end (ms). */
  datatype PastEnrollment = PastEnrollment(materiaId: Option<string>, fechaFin: int)

  /** The enrolment is counted: before the date when one is given, with a group and a non-empty subject id. */
  predicate Completes(e: PastEnrollment, beforeDate: Option<int>)
  {
    (beforeDate.None? || e.fechaFin < beforeDate.value) && e.materiaId.Some? && e.materiaId.value != ""
  }

  /** The subjects of the counted enrolments among `ins`. */
  function CompletedOf(ins: seq<PastEnrollment>, beforeDate: Option<int>): (r: set<string>)
    ensures forall m :: m in r <==> exists e :: e in ins && Completes(e, beforeDate) && e.materiaId.value == m
  {
    if ins == [] then {}
    else
      var init := ins[..|ins| - 1];
      var last := ins[|ins| - 1];
      assert ins == init + [last];
      CompletedOf(init, beforeDate) + (if Completes(last, beforeDate) then {last.materiaId.value} else {})
  }

  /**
   * `getCompletedSubjects(studentId, beforeDate)`: the `forEach` that adds
   * the subject of every counted enrolment to a set. A `null` date filters
   * nothing.
   */
  method GetCompletedSubjects(ins: seq<PastEnrollment>, beforeDate: Option<int>) returns (completed: set<string>)
    ensures completed == CompletedOf(ins, beforeDate)
  {
    completed := {};
    var i := 0;
    while i < |ins|
      invariant 0 <= i <= |ins|
      invariant completed == CompletedOf(ins[..i], beforeDate)
    {
      assert ins[..i + 1][..i] == ins[..i];
      var e := ins[i];
      if e.materiaId.Some? && e.materiaId.value != "" && (beforeDate.None? || e.fechaFin < beforeDate.value) {
        completed := completed + {e.materiaId.value};
      }
      i := i + 1;
    }
    assert ins[..i] == ins;
  }

  // ---------------------------------------------------------------------------
  // getAvailableSubjects
  // ---------------------------------------------------------------------------

  /** A block of a group's schedule, with its `dia` as loaded. */
  datatype BlockRef = BlockRef(id: string, dia: JsStr, horaInicio: int, horaFin: int, turno: JsStr)

  /** A group of the subject in the period; `horario` holds the block of each `horario_detalle` row (`None` when missing). */
  datatype GroupRow = GroupRow(id: string, seccion: JsStr, cupoMax: Option<int>, inscritos: Option<nat>, horario: seq<Option<BlockRef>>)

  /** The required subject of a prerequisite row, `None` when its relation is missing. */
  datatype PrereqSubject = PrereqSubject(id: string, codigo: JsStr, nombre: JsStr)

  datatype SubjectRow = SubjectRow(id: string, codigo: JsStr, nombre: JsStr, creditos: Option<int>, grupos: seq<GroupRow>,
                                   prerrequisitos: seq<Option<PrereqSubject>>)

  /** `value || fallback` for strings. */
  function OrElse(v: JsStr, fallback: string): string
  {
    if v.Truthy() then v.s else fallback
  }

  function Inscritos(g: GroupRow): nat
  {
    match g.inscritos
    case Some(n) => n
    case None => 0
  }

  /** `grupo.cupo_max || 0`. */
  function CupoMax(g: GroupRow): int
  {
    match g.cupoMax
    case Some(c) => c
    case None => 0
  }

  predicate HasSeat(g: GroupRow)
  {
    CupoMax(g) > Inscritos(g)
  }

  /** `subject.grupos.filter(...)`: the groups with a free seat. */
  function SeatGroups(gs: seq<GroupRow>): (r: seq<GroupRow>)
    ensures |r| <= |gs| && forall k :: 0 <= k < |r| ==> HasSeat(r[k])
  {
    if gs == [] then []
    else SeatGroups(gs[..|gs| - 1]) + (if HasSeat(gs[|gs| - 1]) then [gs[|gs| - 1]] else [])
  }

  lemma {:induction false} SeatGroupsMember(gs: seq<GroupRow>, g: GroupRow)
    ensures g in SeatGroups(gs) <==> g in gs && HasSeat(g)
  {
    if gs != [] {
      var init := gs[..|gs| - 1];
      SeatGroupsMember(init, g);
      assert gs == init + [gs[|gs| - 1]];
    }
  }

  /** `.map(p => p.materias_…).filter(Boolean)`: the prerequisites whose subject was loaded. */
  function Present(ps: seq<Option<PrereqSubject>>): (r: seq<PrereqSubject>)
    ensures |r| <= |ps|
  {
    if ps == [] then []
    else Present(ps[..|ps| - 1]) + (match ps[|ps| - 1] case Some(p) => [p] case None => [])
  }

  lemma {:induction false} PresentMember(ps: seq<Option<PrereqSubject>>, p: PrereqSubject)
    ensures p in Present(ps) <==> Some(p) in ps
  {
    if ps != [] {
      var init := ps[..|ps| - 1];
      PresentMember(init, p);
      assert ps == init + [ps[|ps| - 1]];
    }
  }

  /** A block entry of `horarios`. */
  datatype Slot = Slot(bloqueId: string, dia: string, horaInicio: int, horaFin: int, turno: JsStr)

  /** `horario_detalle.map(...).filter(h => h.dia)`: the blocks that were loaded with a day. */
  function Slots(hs: seq<Option<BlockRef>>): (r: seq<Slot>)
    ensures |r| <= |hs| && forall k :: 0 <= k < |r| ==> r[k].dia != ""
  {
    if hs == [] then []
    else
      var rest := Slots(hs[..|hs| - 1]);
      match hs[|hs| - 1]
      case Some(b) => if b.dia.Truthy() then rest + [SlotOf(b)] else rest
      case None => rest
  }

  function SlotOf(b: BlockRef): Slot
    requires b.dia.Truthy()
  {
    Slot(b.id, b.dia.s, b.horaInicio, b.horaFin, b.turno)
  }

  /** The kept blocks of a concatenation are those of each part, in order: filtering keeps the rows' order. */
  lemma {:induction false} SlotsAppend(a: seq<Option<BlockRef>>, b: seq<Option<BlockRef>>)
    ensures Slots(a + b) == Slots(a) + Slots(b)
  {
    if b != [] {
      var init := b[..|b| - 1];
      SlotsAppend(a, init);
      assert (a + b)[..|a + b| - 1] == a + init;
      assert (a + b)[|a + b| - 1] == b[|b| - 1];
    } else {
      assert a + b == a;
    }
  }

  /** One row contributes its block exactly when the block was loaded with a day. */
  lemma SlotsOfOne(h: Option<BlockRef>)
    ensures Slots([h]) == if h.Some? && h.value.dia.Truthy() then [SlotOf(h.value)] else []
  {
    assert [h][..0] == [];
  }

  /** A block is kept exactly when some row loaded it with a day. */
  lemma {:induction false} SlotsMember(hs: seq<Option<BlockRef>>, s: Slot)
    ensures s in Slots(hs) <==> exists k :: 0 <= k < |hs| && hs[k].Some? && hs[k].value.dia.Truthy() && s == SlotOf(hs[k].value)
  {
    if hs != [] {
      var init := hs[..|hs| - 1];
      SlotsMember(init, s);
      assert hs == init + [hs[|hs| - 1]];
      assert forall k :: 0 <= k < |init| ==> hs[k] == init[k];
      if s in Slots(hs) && s !in Slots(init) {
        var k := |hs| - 1;
        assert hs[k].Some? && hs[k].value.dia.Truthy() && s == SlotOf(hs[k].value);
      }
    }
  }

  /** An entry of `detalles_grupos`. */
  datatype GroupDetail = GroupDetail(id: string, seccion: string, cupoMax: int, inscritos: nat, disponibles: int, horarios: seq<Slot>)

  /** The displayed free seats are clamped at 0, and for a group with a seat they are its positive free count. */
  function DetailOf(g: GroupRow): (d: GroupDetail)
    ensures d.disponibles >= 0
    ensures HasSeat(g) ==> d.disponibles == CupoMax(g) - Inscritos(g) > 0
  {
    GroupDetail(g.id, OrElse(g.seccion, "N/A"), CupoMax(g), Inscritos(g), MaxInt(CupoMax(g) - Inscritos(g), 0), Slots(g.horario))
  }

  datatype PrereqInfo = PrereqInfo(id: string, codigo: string, nombre: string, cumplido: bool)

  datatype Restrictions = Restrictions(sinCupo: bool, prerrequisitosPendientes: bool, conflictos: bool)

  datatype SubjectInfo = SubjectInfo(id: string, codigo: string, nombre: string, creditos: int, seleccionada: bool,
                                     disponible: bool, prerrequisitos: seq<PrereqInfo>, gruposDisponibles: nat,
                                     detallesGrupos: seq<GroupDetail>, restricciones: Restrictions)

  /** `prerrequisitos.length === 0 || prerrequisitos.every(req => completed.has(req.id))`. */
  predicate PrereqsMet(ps: seq<PrereqSubject>, completed: set<string>)
  {
    |ps| == 0 || forall k :: 0 <= k < |ps| ==> ps[k].id in completed
  }

  /** Only groups with a free seat are counted and detailed, each with a positive number of free seats. */
  function Evaluate(m: SubjectRow, completed: set<string>, selected: set<string>): (s: SubjectInfo)
    ensures |s.detallesGrupos| == s.gruposDisponibles <= |m.grupos|
    ensures forall k :: 0 <= k < |s.detallesGrupos| ==> s.detallesGrupos[k].disponibles > 0
  {
    var grupos := SeatGroups(m.grupos);
    var ps := Present(m.prerrequisitos);
    var met := PrereqsMet(ps, completed);
    SubjectInfo(m.id, OrElse(m.codigo, "N/A"), OrElse(m.nombre, "Sin nombre"),
                match m.creditos case Some(c) => c case None => 0,
                m.id in selected, |grupos| > 0 && met,
                seq(|ps|, k requires 0 <= k < |ps| => PrereqInfo(ps[k].id, OrElse(ps[k].codigo, "N/A"), OrElse(ps[k].nombre, "Sin nombre"), ps[k].id in completed)),
                |grupos|, seq(|grupos|, k requires 0 <= k < |grupos| => DetailOf(grupos[k])),
                Restrictions(|grupos| == 0, !met, false))
  }

  /**
   * A subject is offered exactly when one of its groups has a free seat and
   * every loaded prerequisite was completed (none at all counts as met); the
   * restrictions name exactly the missing condition.
   */
  lemma DisponibleIff(m: SubjectRow, completed: set<string>, selected: set<string>)
    ensures var s := Evaluate(m, completed, selected);
      (s.disponible <==> (exists g :: g in m.grupos && HasSeat(g)) &&
                         forall p :: Some(p) in m.prerrequisitos ==> p.id in completed) &&
      (s.restricciones.sinCupo <==> forall g :: g in m.grupos ==> !HasSeat(g)) &&
      (s.disponible <==> !s.restricciones.sinCupo && !s.restricciones.prerrequisitosPendientes) &&
      !s.restricciones.conflictos
  {
    var grupos := SeatGroups(m.grupos);
    var ps := Present(m.prerrequisitos);
    forall g | g in m.grupos ensures HasSeat(g) ==> g in grupos {
      SeatGroupsMember(m.grupos, g);
    }
    if |grupos| > 0 {
      SeatGroupsMember(m.grupos, grupos[0]);
    }
    forall p | Some(p) in m.prerrequisitos ensures PrereqsMet(ps, completed) ==> p.id in completed {
      PresentMember(m.prerrequisitos, p);
    }
    forall k | 0 <= k < |ps| ensures (forall p :: Some(p) in m.prerrequisitos ==> p.id in completed) ==> ps[k].id in completed {
      PresentMember(m.prerrequisitos, ps[k]);
    }
  }

  function EvaluateAll(ms: seq<SubjectRow>, completed: set<string>, selected: set<string>): (r: seq<SubjectInfo>)
    ensures |r| == |ms| && forall k :: 0 <= k < |ms| ==> r[k] == Evaluate(ms[k], completed, selected)
  {
    seq(|ms|, k requires 0 <= k < |ms| => Evaluate(ms[k], completed, selected))
  }

  /** `evaluatedSubjects.filter(m => m.disponible)`: the available subjects, in order. */
  function Offered(ss: seq<SubjectInfo>): (r: seq<SubjectInfo>)
    ensures |r| <= |ss| && forall k :: 0 <= k < |r| ==> r[k].disponible
  {
    if ss == [] then [] else Offered(ss[..|ss| - 1]) + (if ss[|ss| - 1].disponible then [ss[|ss| - 1]] else [])
  }

  lemma {:induction false} OfferedMember(ss: seq<SubjectInfo>, s: SubjectInfo)
    ensures s in Offered(ss) <==> s in ss && s.disponible
  {
    if ss != [] {
      var init := ss[..|ss| - 1];
      OfferedMember(init, s);
      assert ss == init + [ss[|ss| - 1]];
    }
  }

  /** The `disponibles` count of the listing: the number of available subjects. */
  function CountOffered(ss: seq<SubjectInfo>): (n: nat)
    ensures n == |Offered(ss)| <= |ss|
  {
    if ss == [] then 0 else CountOffered(ss[..|ss| - 1]) + (if ss[|ss| - 1].disponible then 1 else 0)
  }

  datatype Student = Student(id: string, carreraId: JsStr)

  datatype Period = Period(id: string, nombre: string, activo: bool, fechaInicio: Option<int>)

  datatype Listing = Listing(periodo: Period, materias: seq<SubjectInfo>, totalMaterias: nat, disponibles: nat, seleccionadas: nat)

  datatype HttpError = HttpError(status: int, message: string)

  /**
   * `getAvailableSubjects`: the student (404 when unknown, 400 without a
   * career), then the period named by `periodoId` or else the active one
   * (404 when there is none), then the evaluation of the career's subjects
   * against the subjects completed before the period starts and the
   * student's selections in it.
   */
  function GetAvailableSubjects(student: Option<Student>, periodoId: JsStr, periodById: Option<Period>, activePeriod: Option<Period>,
                                catalog: seq<SubjectRow>, ins: seq<PastEnrollment>, selections: seq<string>): (r: Result<Listing, HttpError>)
    ensures student.None? ==> r == Err(HttpError(404, "Estudiante no encontrado"))
    ensures student.Some? && !student.value.carreraId.Truthy() ==> r == Err(HttpError(400, "Estudiante no tiene carrera asignada"))
    ensures r.Ok? <==> (student.Some? && student.value.carreraId.Truthy() &&
      if periodoId.Truthy() then periodById.Some? else activePeriod.Some?)
    ensures r.Ok? ==> (r.value.periodo == (if periodoId.Truthy() then periodById.value else activePeriod.value) &&
      r.value.materias == EvaluateAll(catalog, CompletedOf(ins, r.value.periodo.fechaInicio), set m | m in selections) &&
      r.value.disponibles == |Offered(r.value.materias)| <= r.value.totalMaterias == |catalog| == |r.value.materias| &&
      r.value.seleccionadas == |set m | m in selections|)
  {
    if student.None? then Err(HttpError(404, "Estudiante no encontrado"))
    else if !student.value.carreraId.Truthy() then Err(HttpError(400, "Estudiante no tiene carrera asignada"))
    else
      var period := if periodoId.Truthy() then periodById else activePeriod;
      if period.None? then Err(HttpError(404, "No hay periodo activo disponible"))
      else
        var completed := CompletedOf(ins, period.value.fechaInicio);
        var selected := set m | m in selections;
        var ms := EvaluateAll(catalog, completed, selected);
        Ok(Listing(period.value, ms, |ms|, CountOffered(ms), |selected|))
  }

  // ---------------------------------------------------------------------------
  // selectSubjects
  // ---------------------------------------------------------------------------

  /** An element of the request's `materias`: a plain string, or an object with its `id` field. */
  datatype MateriaItem = Text(s: string) | Object(id: JsStr)

  /** `String(m.id || m)`. */
  function KeyOf(m: MateriaItem): string
  {
    match m
    case Text(s) => s
    case Object(id) => if id.Truthy() then id.s else "[object Object]"
  }

  function Keys(ms: seq<MateriaItem>): (r: seq<string>)
    ensures |r| == |ms| && forall k :: 0 <= k < |ms| ==> r[k] == KeyOf(ms[k])
  {
    seq(|ms|, k requires 0 <= k < |ms| => KeyOf(ms[k]))
  }

  /** A stored row of `selecciones_materia`. */
  datatype Stored = Stored(id: string, materiaId: string)

  /** An operation of the transaction. */
  datatype Op = Delete(seleccionId: string) | Create(materiaId: string)

  /** The deletions: each stored selection whose subject is not in the new set. */
  function Deletions(existing: seq<Stored>, nuevas: seq<string>): seq<Op>
  {
    if existing == [] then []
    else
      var last := existing[|existing| - 1];
      Deletions(existing[..|existing| - 1], nuevas) + (if last.materiaId !in nuevas then [Delete(last.id)] else [])
  }

  /** `existingSelections.find(s => s.materia_id === materiaId)` found something. */
  predicate Exists(existing: seq<Stored>, materiaId: string)
  {
    exists k :: 0 <= k < |existing| && existing[k].materiaId == materiaId
  }

  /** The creations: each new subject with no stored selection, in the set's iteration order. */
  function Creations(nuevas: seq<string>, existing: seq<Stored>): seq<Op>
  {
    if nuevas == [] then []
    else
      var last := nuevas[|nuevas| - 1];
      Creations(nuevas[..|nuevas| - 1], existing) + (if !Exists(existing, last) then [Create(last)] else [])
  }

  /** The stored subjects after running `ops`: deletions remove rows by id, creations add subjects. */
  function StoredAfter(existing: seq<Stored>, ops: seq<Op>): set<string>
  {
    (set s | s in existing && Delete(s.id) !in ops :: s.materiaId) + (set o | o in ops && o.Create? :: o.materiaId)
  }

  lemma {:induction false} DeletionsMember(existing: seq<Stored>, nuevas: seq<string>, o: Op)
    ensures o in Deletions(existing, nuevas) <==> exists s :: s in existing && s.materiaId !in nuevas && o == Delete(s.id)
  {
    if existing != [] {
      var init := existing[..|existing| - 1];
      DeletionsMember(init, nuevas, o);
      assert existing == init + [existing[|existing| - 1]];
    }
  }

  lemma {:induction false} CreationsMember(nuevas: seq<string>, existing: seq<Stored>, o: Op)
    ensures o in Creations(nuevas, existing) <==> o.Create? && o.materiaId in nuevas && !Exists(existing, o.materiaId)
  {
    if nuevas != [] {
      var init := nuevas[..|nuevas| - 1];
      CreationsMember(init, existing, o);
      assert nuevas == init + [nuevas[|nuevas| - 1]];
    }
  }

  /** What `StoredAfter` contains, element by element. */
  lemma StoredAfterMember(existing: seq<Stored>, ops: seq<Op>, m: string)
    ensures m in StoredAfter(existing, ops) <==>
      (exists s :: s in existing && Delete(s.id) !in ops && s.materiaId == m) || Create(m) in ops
  {
    if Create(m) in ops {
      assert Create(m).materiaId == m;
    }
  }

  /** Every subject stored after the operations is in the request. */
  lemma StoredAfterSound(existing: seq<Stored>, nuevas: seq<string>, m: string)
    requires m in StoredAfter(existing, Deletions(existing, nuevas) + Creations(nuevas, existing))
    ensures m in nuevas
  {
    var ops := Deletions(existing, nuevas) + Creations(nuevas, existing);
    StoredAfterMember(existing, ops, m);
    if Create(m) in ops {
      DeletionsMember(existing, nuevas, Create(m));
      CreationsMember(nuevas, existing, Create(m));
    } else {
      var s :| s in existing && Delete(s.id) !in ops && s.materiaId == m;
      DeletionsMember(existing, nuevas, Delete(s.id));
    }
  }

  /** Every requested subject is stored after the operations, when stored ids are distinct. */
  lemma StoredAfterComplete(existing: seq<Stored>, nuevas: seq<string>, m: string)
    requires forall a, b :: 0 <= a < b < |existing| ==> existing[a].id != existing[b].id
    requires m in nuevas
    ensures m in StoredAfter(existing, Deletions(existing, nuevas) + Creations(nuevas, existing))
  {
    var ops := Deletions(existing, nuevas) + Creations(nuevas, existing);
    StoredAfterMember(existing, ops, m);
    if Exists(existing, m) {
      var k :| 0 <= k < |existing| && existing[k].materiaId == m;
      var s := existing[k];
      assert Delete(s.id) !in Creations(nuevas, existing) by {
        CreationsMember(nuevas, existing, Delete(s.id));
      }
      assert Delete(s.id) !in Deletions(existing, nuevas) by {
        DeletionsMember(existing, nuevas, Delete(s.id));
        forall t | t in existing && t.id == s.id
          ensures t.materiaId in nuevas
        {
          var j :| 0 <= j < |existing| && existing[j] == t;
          assert j == k;
        }
      }
      assert s in existing && Delete(s.id) !in ops && s.materiaId == m;
    } else {
      CreationsMember(nuevas, existing, Create(m));
    }
  }

  /**
   * When stored selections have distinct ids, running the operations leaves
   * exactly the new subject set stored: only selections outside it are
   * deleted, and only subjects not stored yet are created.
   */
  lemma SelectionReplaced(existing: seq<Stored>, materias: seq<MateriaItem>)
    requires forall a, b :: 0 <= a < b < |existing| ==> existing[a].id != existing[b].id
    ensures var nuevas := Dedup(Keys(materias));
      StoredAfter(existing, Deletions(existing, nuevas) + Creations(nuevas, existing)) == set m | m in Keys(materias)
  {
    var nuevas := Dedup(Keys(materias));
    var after := StoredAfter(existing, Deletions(existing, nuevas) + Creations(nuevas, existing));
    var wanted := set m | m in Keys(materias);
    forall m ensures m in after <==> m in wanted {
      if m in after {
        StoredAfterSound(existing, nuevas, m);
        var i := IndexOf(nuevas, m);
      }
      if m in wanted {
        var i := IndexOf(Keys(materias), m);
        StoredAfterComplete(existing, nuevas, m);
      }
    }
  }

  datatype Selected = Selected(operations: seq<Op>, seleccionadas: nat, periodo: string)

  /**
   * `selectSubjects`: 400 without `periodoId` or an array of subjects (an
   * empty array is accepted), 404 for an unknown period, otherwise the
   * deletions followed by the creations that turn the stored selections
   * into the new set; `seleccionadas` is the length of the request's list.
   */
  method SelectSubjects(periodoId: JsStr, materias: Option<seq<MateriaItem>>, period: Option<Period>, existing: seq<Stored>)
    returns (r: Result<Selected, HttpError>)
    ensures (!periodoId.Truthy() || materias.None?) ==> r == Err(HttpError(400, "Periodo y lista de materias son requeridos"))
    ensures periodoId.Truthy() && materias.Some? && period.None? ==> r == Err(HttpError(404, "Periodo no encontrado"))
    ensures r.Ok? <==> periodoId.Truthy() && materias.Some? && period.Some?
    ensures r.Ok? ==>
      var nuevas := Dedup(Keys(materias.value));
      r.value == Selected(Deletions(existing, nuevas) + Creations(nuevas, existing), |materias.value|, period.value.nombre)
  {
    if !periodoId.Truthy() || materias.None? {
      return Err(HttpError(400, "Periodo y lista de materias son requeridos"));
    }
    if period.None? {
      return Err(HttpError(404, "Periodo no encontrado"));
    }
    var nuevas := Dedup(Keys(materias.value));
    var eliminar := CollectDeletions(existing, nuevas);
    var crear := CollectCreations(nuevas, existing);
    var operations := eliminar + crear;
    return Ok(Selected(operations, |materias.value|, period.value.nombre));
  }

  /** `eliminar.forEach(sel => operations.push(delete))`. */
  method CollectDeletions(existing: seq<Stored>, nuevas: seq<string>) returns (ops: seq<Op>)
    ensures ops == Deletions(existing, nuevas)
  {
    ops := [];
    var i := 0;
    while i < |existing|
      invariant 0 <= i <= |existing|
      invariant ops == Deletions(existing[..i], nuevas)
    {
      assert existing[..i + 1][..i] == existing[..i];
      if existing[i].materiaId !in nuevas {
        ops := ops + [Delete(existing[i].id)];
      }
      i := i + 1;
    }
    assert existing[..i] == existing;
  }

  /** `for (const materiaId of nuevasMateriasIds)`: a creation for each subject not stored yet. */
  method CollectCreations(nuevas: seq<string>, existing: seq<Stored>) returns (ops: seq<Op>)
    ensures ops == Creations(nuevas, existing)
  {
    ops := [];
    var j := 0;
    while j < |nuevas|
      invariant 0 <= j <= |nuevas|
      invariant ops == Creations(nuevas[..j], existing)
    {
      assert nuevas[..j + 1][..j] == nuevas[..j];
      var existe := FindStored(existing, nuevas[j]);
      if existe.None? {
        ops := ops + [Create(nuevas[j])];
      }
      j := j + 1;
    }
    assert nuevas[..j] == nuevas;
  }

  /** `existingSelections.find(s => s.materia_id === materiaId)`. */
  function FindStored(existing: seq<Stored>, materiaId: string): (r: Option<Stored>)
    ensures r.None? <==> !Exists(existing, materiaId)
    ensures r.Some? ==> r.value in existing && r.value.materiaId == materiaId
  {
    if existing == [] then None
    else if existing[0].materiaId == materiaId then Some(existing[0])
    else
      assert forall k :: 1 <= k < |existing| ==> existing[k] == existing[1..][k - 1];
      FindStored(existing[1..], materiaId)
  }

  /** A request naming a subject twice reports it twice in `seleccionadas`, though it is stored once. */
  lemma RepeatedItemCountedTwice(s: string)
    ensures |[Text(s), Text(s)]| == 2
    ensures (set m | m in Keys([Text(s), Text(s)])) == {s}
  {
    assert Keys([Text(s), Text(s)]) == [s, s];
  }

  // ---------------------------------------------------------------------------
  // getMySelections, updateSelectionPriority, clearSelections
  // ---------------------------------------------------------------------------

  /** A stored selection with its subject's credits (`None` when the subject or its credits are missing). */
  datatype SelectionRow = SelectionRow(id: string, materiaId: string, periodoId: string, prioridad: int, creditos: Option<int>)

  function CreditsOf(s: SelectionRow): int
  {
    match s.creditos
    case Some(c) => c
    case None => 0
  }

  /** `selections.reduce((sum, sel) => sum + (sel.materias?.creditos || 0), 0)`. */
  function TotalCreditos(rows: seq<SelectionRow>): int
  {
    if rows == [] then 0 else TotalCreditos(rows[..|rows| - 1]) + CreditsOf(rows[|rows| - 1])
  }

  function PriorityOf(s: SelectionRow): int { s.prioridad }

  lemma {:induction false} TotalOfInsert(t: seq<SelectionRow>, x: SelectionRow)
    ensures TotalCreditos(Sorting.Insert(t, x, PriorityOf, Sorting.LeInt)) == TotalCreditos(t) + CreditsOf(x)
  {
    if t != [] && !Sorting.LeInt(PriorityOf(t[|t| - 1]), PriorityOf(x)) {
      var init := t[..|t| - 1];
      TotalOfInsert(init, x);
      var ins := Sorting.Insert(init, x, PriorityOf, Sorting.LeInt);
      assert (ins + [t[|t| - 1]])[..|ins|] == ins;
    } else if t != [] {
      assert (t + [x])[..|t|] == t;
    }
  }

  lemma {:induction false} TotalOfSort(rows: seq<SelectionRow>)
    ensures TotalCreditos(Sorting.SortBy(rows, PriorityOf, Sorting.LeInt)) == TotalCreditos(rows)
  {
    if rows != [] {
      TotalOfSort(rows[..|rows| - 1]);
      TotalOfInsert(Sorting.SortBy(rows[..|rows| - 1], PriorityOf, Sorting.LeInt), rows[|rows| - 1]);
    }
  }

  /** The student's selections in `periodoId`, or else in the active period, or all of them when there is none. */
  function InScope(rows: seq<SelectionRow>, periodoId: Option<string>): (r: seq<SelectionRow>)
    ensures |r| <= |rows|
    ensures periodoId.None? ==> r == rows
  {
    if rows == [] then []
    else
      var last := rows[|rows| - 1];
      InScope(rows[..|rows| - 1], periodoId) + (if periodoId.None? || last.periodoId == periodoId.value then [last] else [])
  }

  lemma {:induction false} InScopeMember(rows: seq<SelectionRow>, periodoId: Option<string>, s: SelectionRow)
    ensures s in InScope(rows, periodoId) <==> s in rows && (periodoId.None? || s.periodoId == periodoId.value)
  {
    if rows != [] {
      var init := rows[..|rows| - 1];
      InScopeMember(init, periodoId, s);
      assert rows == init + [rows[|rows| - 1]];
    }
  }

  datatype MySelections = MySelections(selecciones: seq<SelectionRow>, totalCreditos: int)

  /**
   * `getMySelections`: the student's selections in the requested period (or
   * the active one, or all when neither exists) by ascending priority, and
   * their credits, with a missing subject counted as 0.
   */
  function GetMySelections(rows: seq<SelectionRow>, periodoId: JsStr, activePeriodId: Option<string>): (r: MySelections)
    ensures var scope := if periodoId.Truthy() then Some(periodoId.s) else activePeriodId;
      multiset(r.selecciones) == multiset(InScope(rows, scope)) &&
      Sorting.SortedBy(r.selecciones, PriorityOf, Sorting.LeInt) &&
      r.totalCreditos == TotalCreditos(InScope(rows, scope))
  {
    var scope := if periodoId.Truthy() then Some(periodoId.s) else activePeriodId;
    var picked := InScope(rows, scope);
    Sorting.IntOrdersAreTotalPreorders();
    Sorting.SortBySorted(picked, PriorityOf, Sorting.LeInt);
    TotalOfSort(picked);
    var sorted := Sorting.SortBy(picked, PriorityOf, Sorting.LeInt);
    MySelections(sorted, TotalCreditos(sorted))
  }

  /**
   * `updateSelectionPriority`: a priority outside 1..3 is refused before
   * anything is looked up; an absent one passes the comparison (it is
   * `undefined`) and leaves the row as it was; a selection the student does
   * not own is 404.
   */
  function UpdateSelectionPriority(rows: seq<SelectionRow>, usuarioOwns: string -> bool, seleccionId: string,
                                   prioridad: Option<int>): (r: Result<SelectionRow, HttpError>)
    ensures prioridad.Some? && (prioridad.value < 1 || prioridad.value > 3) ==>
      r == Err(HttpError(400, "La prioridad debe estar entre 1 y 3"))
    ensures r.Ok? ==> ((prioridad.None? || 1 <= prioridad.value <= 3) && usuarioOwns(seleccionId) &&
      FindSelection(rows, seleccionId).Some? &&
      r.value == FindSelection(rows, seleccionId).value.(prioridad := if prioridad.Some? then prioridad.value
                                                                     else FindSelection(rows, seleccionId).value.prioridad))
    ensures r.Err? && r.error.status == 404 <==> ((prioridad.None? || 1 <= prioridad.value <= 3) &&
      (!usuarioOwns(seleccionId) || FindSelection(rows, seleccionId).None?))
    ensures ((prioridad.None? || 1 <= prioridad.value <= 3) && usuarioOwns(seleccionId) &&
             FindSelection(rows, seleccionId).Some?) ==> r.Ok?
  {
    if prioridad.Some? && (prioridad.value < 1 || prioridad.value > 3) then Err(HttpError(400, "La prioridad debe estar entre 1 y 3"))
    else
      var found := FindSelection(rows, seleccionId);
      if !usuarioOwns(seleccionId) || found.None? then Err(HttpError(404, "Selección no encontrada"))
      else if prioridad.Some? then Ok(found.value.(prioridad := prioridad.value))
      else Ok(found.value)
  }

  function FindSelection(rows: seq<SelectionRow>, id: string): (r: Option<SelectionRow>)
    ensures r.Some? ==> r.value in rows && r.value.id == id
    ensures r.None? ==> forall k :: 0 <= k < |rows| ==> rows[k].id != id
  {
    if rows == [] then None
    else if rows[0].id == id then Some(rows[0])
    else
      assert forall k :: 1 <= k < |rows| ==> rows[k] == rows[1..][k - 1];
      FindSelection(rows[1..], id)
  }

  /**
   * `clearSelections`: the number of the student's selections removed, in
   * the given period or in every period when none is given.
   */
  function ClearSelections(rows: seq<SelectionRow>, periodoId: JsStr): (eliminadas: nat)
    ensures eliminadas <= |rows|
    ensures !periodoId.Truthy() ==> eliminadas == |rows|
    ensures eliminadas == |InScope(rows, if periodoId.Truthy() then Some(periodoId.s) else None)|
  {
    |InScope(rows, if periodoId.Truthy() then Some(periodoId.s) else None)|
  }
}
