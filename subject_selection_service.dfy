/**
 * Subject selection (`backend/src/services/subject-selection.service.js`):
 * which subjects of a student's career can be chosen for a period (their
 * prerequisite level, their availability and the order in which they are
 * listed), the checks a new selection must pass before it replaces the old
 * one, and the top-5 recommendations.
 */
module SubjectSelectionService {
  import opened Common
  import Sorting

  /** The credit cap `MAX_CREDITOS` of a period. */
  const MaxCreditos := 24

  /** A group of the subject in the period, with `_count.inscripciones` when it was loaded. */
  datatype GroupRow = GroupRow(id: string, seccion: string, cupoMax: int, inscritos: Option<nat>)

  /** A row of `prerrequisitos` of a subject, with the required subject's code and name. */
  datatype PrereqRow = PrereqRow(requiereId: string, codigo: string, nombre: string)

  /** A subject of the catalogue, with its groups in the period and its direct prerequisites. */
  datatype SubjectRow = SubjectRow(id: string, carreraId: Option<string>, codigo: string, nombre: string, creditos: int,
                                   grupos: seq<GroupRow>, prerrequisitos: seq<PrereqRow>)

  /** One of the student's enrolments: the group's subject and the end of its period (ms). */
  datatype PastEnrollment = PastEnrollment(materiaId: string, fechaFin: int)

  datatype Student = Student(id: string, carreraId: Option<string>, inscripciones: seq<PastEnrollment>)

  datatype Period = Period(id: string, nombre: string, activo: bool)

  /** A row of `selecciones_materia`. */
  datatype Selection = Selection(materiaId: string, prioridad: int)

  // ---------------------------------------------------------------------------
  // The rules for one subject
  // ---------------------------------------------------------------------------

  /** `grupo._count?.inscripciones || 0`. */
  function Inscritos(g: GroupRow): nat
  {
    match g.inscritos
    case Some(n) => n
    case None => 0
  }

  /** The subjects of enrolments whose period has ended before `now`. */
  function Cursadas(ins: seq<PastEnrollment>, now: int): (r: seq<string>)
    ensures forall m :: m in r <==> exists p :: p in ins && p.fechaFin < now && p.materiaId == m
  {
    if ins == [] then []
    else
      var init := ins[..|ins| - 1];
      var last := ins[|ins| - 1];
      assert ins == init + [last];
      Cursadas(init, now) + (if last.fechaFin < now then [last.materiaId] else [])
  }

  /** The groups the catalogue query keeps: those with `cupo_max > 0`. */
  function OpenGroups(gs: seq<GroupRow>): (r: seq<GroupRow>)
    ensures forall g :: g in r <==> g in gs && g.cupoMax > 0
  {
    if gs == [] then []
    else
      var init := gs[..|gs| - 1];
      var last := gs[|gs| - 1];
      assert gs == init + [last];
      OpenGroups(init) + (if last.cupoMax > 0 then [last] else [])
  }

  datatype PrereqInfo = PrereqInfo(id: string, codigo: string, nombre: string, cumplido: bool)

  function PrereqInfos(ps: seq<PrereqRow>, cursadas: seq<string>): (r: seq<PrereqInfo>)
    ensures |r| == |ps|
    ensures forall k :: 0 <= k < |ps| ==> r[k] == PrereqInfo(ps[k].requiereId, ps[k].codigo, ps[k].nombre, ps[k].requiereId in cursadas)
  {
    seq(|ps|, k requires 0 <= k < |ps| => PrereqInfo(ps[k].requiereId, ps[k].codigo, ps[k].nombre, ps[k].requiereId in cursadas))
  }

  /** `prerrequisitosInfo.filter(p => !p.cumplido)`. */
  function Unmet(ps: seq<PrereqInfo>): (r: seq<PrereqInfo>)
    ensures |r| <= |ps|
  {
    if ps == [] then []
    else Unmet(ps[..|ps| - 1]) + (if ps[|ps| - 1].cumplido then [] else [ps[|ps| - 1]])
  }

  lemma {:induction false} UnmetEmpty(ps: seq<PrereqInfo>)
    ensures Unmet(ps) == [] <==> forall k :: 0 <= k < |ps| ==> ps[k].cumplido
  {
    if ps != [] {
      var init := ps[..|ps| - 1];
      UnmetEmpty(init);
      assert forall k :: 0 <= k < |init| ==> init[k] == ps[k];
    }
  }

  /** 0 without prerequisites, 1 when they are all met, 2 when some is pending. */
  function Nivel(ps: seq<PrereqInfo>): int
  {
    if |ps| > 0 then (if |Unmet(ps)| == 0 then 1 else 2) else 0
  }

  /** The three levels in terms of the prerequisites and the subjects already taken. */
  lemma NivelCases(ps: seq<PrereqRow>, cursadas: seq<string>)
    ensures Nivel(PrereqInfos(ps, cursadas)) == 0 <==> ps == []
    ensures Nivel(PrereqInfos(ps, cursadas)) == 1 <==> ps != [] && forall k :: 0 <= k < |ps| ==> ps[k].requiereId in cursadas
    ensures Nivel(PrereqInfos(ps, cursadas)) == 2 <==> exists k :: 0 <= k < |ps| && ps[k].requiereId !in cursadas
    ensures Nivel(PrereqInfos(ps, cursadas)) in {0, 1, 2}
  {
    var infos := PrereqInfos(ps, cursadas);
    UnmetEmpty(infos);
  }

  /** The number of groups with `cupo_max > inscritos`. */
  function GruposDisponibles(gs: seq<GroupRow>): (n: nat)
    ensures n <= |gs|
    ensures n > 0 <==> exists g :: g in gs && g.cupoMax > Inscritos(g)
  {
    if gs == [] then 0
    else
      var init := gs[..|gs| - 1];
      var last := gs[|gs| - 1];
      assert gs == init + [last];
      GruposDisponibles(init) + (if last.cupoMax > Inscritos(last) then 1 else 0)
  }

  /** An entry of `detalles_grupos`. */
  datatype GroupDetail = GroupDetail(id: string, seccion: string, cupoMax: int, disponibles: int, inscritos: nat)

  function DetailsOf(gs: seq<GroupRow>): (r: seq<GroupDetail>)
    ensures |r| == |gs|
    ensures forall k :: 0 <= k < |gs| ==> r[k] == GroupDetail(gs[k].id, gs[k].seccion, gs[k].cupoMax, gs[k].cupoMax - Inscritos(gs[k]), Inscritos(gs[k]))
  {
    seq(|gs|, k requires 0 <= k < |gs| => GroupDetail(gs[k].id, gs[k].seccion, gs[k].cupoMax, gs[k].cupoMax - Inscritos(gs[k]), Inscritos(gs[k])))
  }

  datatype SubjectInfo = SubjectInfo(id: string, codigo: string, nombre: string, creditos: int, disponible: bool,
                                     seleccionada: bool, nivel: int, gruposDisponibles: nat,
                                     prerrequisitos: seq<PrereqInfo>, detallesGrupos: seq<GroupDetail>)

  /** The entry computed for one subject of the career. */
  function Evaluate(m: SubjectRow, cursadas: seq<string>, seleccionadas: seq<string>): SubjectInfo
  {
    var infos := PrereqInfos(m.prerrequisitos, cursadas);
    var nivel := Nivel(infos);
    var grupos := OpenGroups(m.grupos);
    var disponible := m.id !in cursadas && nivel != 2 && |grupos| > 0;
    SubjectInfo(m.id, m.codigo, m.nombre, m.creditos, disponible, m.id in seleccionadas, nivel,
                GruposDisponibles(grupos), infos, DetailsOf(grupos))
  }

  /**
   * A subject can be chosen exactly when it was not taken yet, every
   * prerequisite was taken, and it has a group with seats in the period.
   */
  lemma DisponibleIff(m: SubjectRow, cursadas: seq<string>, seleccionadas: seq<string>)
    ensures Evaluate(m, cursadas, seleccionadas).disponible <==>
      m.id !in cursadas && (forall k :: 0 <= k < |m.prerrequisitos| ==> m.prerrequisitos[k].requiereId in cursadas) &&
      exists g :: g in m.grupos && g.cupoMax > 0
    ensures Evaluate(m, cursadas, seleccionadas).disponible ==> Evaluate(m, cursadas, seleccionadas).nivel in {0, 1}
  {
    NivelCases(m.prerrequisitos, cursadas);
    var grupos := OpenGroups(m.grupos);
    if |grupos| > 0 {
      assert grupos[0] in grupos;
    }
  }

  /**
   * Availability does not look at the seats taken: a subject whose only
   * group is full is still offered, with no available group.
   */
  lemma FullSubjectStillOffered(m: SubjectRow, cursadas: seq<string>, seleccionadas: seq<string>)
    requires m.id !in cursadas && m.prerrequisitos == []
    requires m.grupos == [GroupRow("g", "01", 30, Some(30))]
    ensures Evaluate(m, cursadas, seleccionadas).disponible
    ensures Evaluate(m, cursadas, seleccionadas).gruposDisponibles == 0
  {
    assert OpenGroups(m.grupos) == m.grupos by {
      assert m.grupos[..0] == [];
    }
  }

  // ---------------------------------------------------------------------------
  // The listing order
  // ---------------------------------------------------------------------------

  /** The comparator's key: available first, then lower `nivel`, then fewer credits. */
  datatype Rank = Rank(unavailable: bool, nivel: int, creditos: int)

  function RankOf(s: SubjectInfo): Rank
  {
    Rank(!s.disponible, s.nivel, s.creditos)
  }

  /** `comparator(a, b) <= 0` on the keys. */
  function RankLe(a: Rank, b: Rank): bool
  {
    if a.unavailable != b.unavailable then !a.unavailable
    else if a.nivel != b.nivel then a.nivel - b.nivel <= 0
    else a.creditos - b.creditos <= 0
  }

  lemma RankLeIsTotalPreorder()
    ensures Sorting.TotalPreorder(RankLe)
  {
  }

  function OrderSubjects(ms: seq<SubjectInfo>): seq<SubjectInfo>
  {
    Sorting.SortBy(ms, RankOf, RankLe)
  }

  /**
   * The listing is a permutation of the subjects in which every available
   * subject precedes every unavailable one, and among equally available
   * ones `nivel` and then credits do not decrease.
   */
  lemma OrderSubjectsSorted(ms: seq<SubjectInfo>)
    ensures multiset(OrderSubjects(ms)) == multiset(ms)
    ensures forall i, j :: 0 <= i < j < |OrderSubjects(ms)| ==>
      var a, b := OrderSubjects(ms)[i], OrderSubjects(ms)[j];
      (b.disponible ==> a.disponible) &&
      (a.disponible == b.disponible ==> a.nivel <= b.nivel) &&
      (a.disponible == b.disponible && a.nivel == b.nivel ==> a.creditos <= b.creditos)
  {
    RankLeIsTotalPreorder();
    Sorting.SortBySorted(ms, RankOf, RankLe);
  }

  // ---------------------------------------------------------------------------
  // getAvailableSubjects
  // ---------------------------------------------------------------------------

  /** `Array.prototype.find` by id. */
  function FindSubject(ms: seq<SubjectInfo>, id: string): (r: Option<SubjectInfo>)
    ensures r.Some? ==> r.value in ms && r.value.id == id
    ensures r.None? <==> forall k :: 0 <= k < |ms| ==> ms[k].id != id
  {
    if ms == [] then None
    else if ms[0].id == id then Some(ms[0])
    else
      var r := FindSubject(ms[1..], id);
      assert forall k :: 1 <= k < |ms| ==> ms[k] == ms[1..][k - 1];
      r
  }

  /** `materia?.creditos || 0`. */
  function CreditsOf(m: Option<SubjectInfo>): int
  {
    match m
    case Some(s) => s.creditos
    case None => 0
  }

  /** `seleccionesActuales.reduce(...)`: the credits of the selected subjects found in the listing. */
  function SelectedCredits(sel: seq<Selection>, ms: seq<SubjectInfo>): int
  {
    if sel == [] then 0 else SelectedCredits(sel[..|sel| - 1], ms) + CreditsOf(FindSubject(ms, sel[|sel| - 1].materiaId))
  }

  /** The `disponibles` count: the number of available subjects of the listing. */
  function CountAvailable(ms: seq<SubjectInfo>): (n: nat)
    ensures n == |Available(ms)| <= |ms|
  {
    if ms == [] then 0 else CountAvailable(ms[..|ms| - 1]) + (if ms[|ms| - 1].disponible then 1 else 0)
  }

  datatype Stats = Stats(total: nat, disponibles: nat, seleccionadas: nat, creditosSeleccionados: int)

  datatype Availability = Availability(periodo: Period, materias: seq<SubjectInfo>, estadisticas: Stats)

  /** The subjects of the student's career, evaluated. */
  function EvaluateCareer(catalog: seq<SubjectRow>, carreraId: Option<string>, cursadas: seq<string>, seleccionadas: seq<string>): seq<SubjectInfo>
  {
    if catalog == [] then []
    else
      var last := catalog[|catalog| - 1];
      EvaluateCareer(catalog[..|catalog| - 1], carreraId, cursadas, seleccionadas) +
        (if last.carreraId == carreraId then [Evaluate(last, cursadas, seleccionadas)] else [])
  }

  lemma EvaluateCareerMembers(catalog: seq<SubjectRow>, carreraId: Option<string>, cursadas: seq<string>,
                              seleccionadas: seq<string>, s: SubjectInfo)
    ensures s in EvaluateCareer(catalog, carreraId, cursadas, seleccionadas) <==>
      exists m :: m in catalog && m.carreraId == carreraId && s == Evaluate(m, cursadas, seleccionadas)
  {
    if s in EvaluateCareer(catalog, carreraId, cursadas, seleccionadas) {
      var m := CareerEntrySource(catalog, carreraId, cursadas, seleccionadas, s);
    }
    if exists m :: m in catalog && m.carreraId == carreraId && s == Evaluate(m, cursadas, seleccionadas) {
      var m :| m in catalog && m.carreraId == carreraId && s == Evaluate(m, cursadas, seleccionadas);
      CareerEntryOf(catalog, carreraId, cursadas, seleccionadas, m);
    }
  }

  /** Each entry of the career's listing comes from one of its catalogue rows. */
  lemma {:induction false} CareerEntrySource(catalog: seq<SubjectRow>, carreraId: Option<string>, cursadas: seq<string>,
                                             seleccionadas: seq<string>, s: SubjectInfo) returns (m: SubjectRow)
    requires s in EvaluateCareer(catalog, carreraId, cursadas, seleccionadas)
    ensures m in catalog && m.carreraId == carreraId && s == Evaluate(m, cursadas, seleccionadas)
  {
    var init := catalog[..|catalog| - 1];
    var last := catalog[|catalog| - 1];
    assert catalog == init + [last];
    if s in EvaluateCareer(init, carreraId, cursadas, seleccionadas) {
      m := CareerEntrySource(init, carreraId, cursadas, seleccionadas, s);
    } else {
      m := last;
    }
  }

  /** Each catalogue row of the career is evaluated into its listing. */
  lemma {:induction false} CareerEntryOf(catalog: seq<SubjectRow>, carreraId: Option<string>, cursadas: seq<string>,
                                         seleccionadas: seq<string>, m: SubjectRow)
    requires m in catalog && m.carreraId == carreraId
    ensures Evaluate(m, cursadas, seleccionadas) in EvaluateCareer(catalog, carreraId, cursadas, seleccionadas)
  {
    var init := catalog[..|catalog| - 1];
    var last := catalog[|catalog| - 1];
    assert catalog == init + [last];
    if m != last {
      CareerEntryOf(init, carreraId, cursadas, seleccionadas, m);
    }
  }

  function SelectedIds(sel: seq<Selection>): (r: seq<string>)
    ensures |r| == |sel| && forall k :: 0 <= k < |sel| ==> r[k] == sel[k].materiaId
  {
    seq(|sel|, k requires 0 <= k < |sel| => sel[k].materiaId)
  }

  /** `getAvailableSubjects(userId, periodoId)`, with the records its queries return and the current time. */
  function GetAvailableSubjects(estudiante: Option<Student>, periodo: Option<Period>, catalog: seq<SubjectRow>,
                                selecciones: seq<Selection>, now: int): (r: Result<Availability, string>)
    ensures estudiante.None? ==> r == Err("Estudiante no encontrado")
    ensures estudiante.Some? && periodo.None? ==> r == Err("Periodo no encontrado")
    ensures r.Ok? <==> estudiante.Some? && periodo.Some?
  {
    if estudiante.None? then Err("Estudiante no encontrado")
    else if periodo.None? then Err("Periodo no encontrado")
    else
      var e := estudiante.value;
      var cursadas := Cursadas(e.inscripciones, now);
      var ms := OrderSubjects(EvaluateCareer(catalog, e.carreraId, cursadas, SelectedIds(selecciones)));
      Ok(Availability(periodo.value, ms, Stats(|ms|, CountAvailable(ms), |selecciones|, SelectedCredits(selecciones, ms))))
  }

  /**
   * The listing holds one entry per subject of the student's career and no
   * other, and its counts are bounded by its length.
   */
  lemma ListingCoversCareer(estudiante: Student, periodo: Period, catalog: seq<SubjectRow>, selecciones: seq<Selection>, now: int, s: SubjectInfo)
    ensures var a := GetAvailableSubjects(Some(estudiante), Some(periodo), catalog, selecciones, now).value;
      (s in a.materias <==> exists m :: m in catalog && m.carreraId == estudiante.carreraId &&
                                        s == Evaluate(m, Cursadas(estudiante.inscripciones, now), SelectedIds(selecciones))) &&
      a.estadisticas.disponibles <= a.estadisticas.total == |a.materias| &&
      a.estadisticas.seleccionadas == |selecciones|
  {
    var cursadas := Cursadas(estudiante.inscripciones, now);
    var ev := EvaluateCareer(catalog, estudiante.carreraId, cursadas, SelectedIds(selecciones));
    EvaluateCareerMembers(catalog, estudiante.carreraId, cursadas, SelectedIds(selecciones), s);
    OrderSubjectsSorted(ev);
    assert s in OrderSubjects(ev) <==> s in multiset(ev);
  }

  // ---------------------------------------------------------------------------
  // saveSubjectSelections
  // ---------------------------------------------------------------------------

  /** The catalogue query `{ id: { in: materiaIds }, carrera_id }`. */
  function Requested(catalog: seq<SubjectRow>, carreraId: Option<string>, materiaIds: seq<string>): (r: seq<SubjectRow>)
    ensures |r| <= |catalog|
  {
    if catalog == [] then []
    else
      var last := catalog[|catalog| - 1];
      Requested(catalog[..|catalog| - 1], carreraId, materiaIds) + (if last.carreraId == carreraId && last.id in materiaIds then [last] else [])
  }

  lemma {:induction false} RequestedMember(catalog: seq<SubjectRow>, carreraId: Option<string>, materiaIds: seq<string>, m: SubjectRow)
    ensures m in Requested(catalog, carreraId, materiaIds) <==> m in catalog && m.carreraId == carreraId && m.id in materiaIds
  {
    if catalog != [] {
      var init := catalog[..|catalog| - 1];
      RequestedMember(init, carreraId, materiaIds, m);
      assert catalog == init + [catalog[|catalog| - 1]];
    }
  }

  /** `materias.reduce((sum, materia) => sum + materia.creditos, 0)`. */
  function TotalCreditos(ms: seq<SubjectRow>): int
  {
    if ms == [] then 0 else TotalCreditos(ms[..|ms| - 1]) + ms[|ms| - 1].creditos
  }

  /** `!materiaInfo?.disponible`. */
  predicate Unavailable(ms: seq<SubjectInfo>, id: string)
  {
    var info := FindSubject(ms, id);
    info.None? || !info.value.disponible
  }

  /** `materiaIds.filter(...)`: the requested subjects that cannot be chosen. */
  function NotAvailable(ms: seq<SubjectInfo>, ids: seq<string>): (r: seq<string>)
    ensures r == [] <==> forall k :: 0 <= k < |ids| ==> !Unavailable(ms, ids[k])
  {
    if ids == [] then []
    else
      var rest := NotAvailable(ms, ids[..|ids| - 1]);
      assert forall k :: 0 <= k < |ids| - 1 ==> ids[..|ids| - 1][k] == ids[k];
      rest + (if Unavailable(ms, ids[|ids| - 1]) then [ids[|ids| - 1]] else [])
  }

  /** The new selections, with priority `index + 1` in the order in which they were given. */
  function Prioritized(ids: seq<string>): (r: seq<Selection>)
    ensures |r| == |ids| && forall k :: 0 <= k < |ids| ==> r[k] == Selection(ids[k], k + 1)
  {
    seq(|ids|, k requires 0 <= k < |ids| => Selection(ids[k], k + 1))
  }

  datatype Saved = Saved(selecciones: seq<Selection>, totalCreditos: int)

  /**
   * `saveSubjectSelections(userId, periodoId, materiaIds)`: the new
   * selections that replace the student's old ones in the period, or the
   * message of the error it throws. A selection is saved exactly when the
   * student and the period exist, every requested id names a distinct
   * subject of the career, each of them can be chosen, and their credits
   * stay within the cap; the saved rows keep the given order as priorities
   * 1, 2, ….
   */
  function SaveSubjectSelections(usuario: Option<Student>, periodo: Option<Period>, catalog: seq<SubjectRow>,
                                 current: seq<Selection>, materiaIds: seq<string>, now: int): (r: Result<Saved, string>)
    ensures r.Ok? <==> (usuario.Some? && periodo.Some? &&
      |Requested(catalog, usuario.value.carreraId, materiaIds)| == |materiaIds| &&
      (forall k :: 0 <= k < |materiaIds| ==>
        !Unavailable(GetAvailableSubjects(usuario, periodo, catalog, current, now).value.materias, materiaIds[k])) &&
      TotalCreditos(Requested(catalog, usuario.value.carreraId, materiaIds)) <= MaxCreditos)
    ensures r.Ok? ==> (r.value.totalCreditos <= MaxCreditos && |r.value.selecciones| == |materiaIds| &&
      forall k :: 0 <= k < |materiaIds| ==> r.value.selecciones[k] == Selection(materiaIds[k], k + 1))
  {
    if usuario.None? then Err("Usuario no encontrado")
    else if periodo.None? then Err("Periodo no encontrado")
    else
      var materias := Requested(catalog, usuario.value.carreraId, materiaIds);
      if |materias| != |materiaIds| then Err("Algunas materias no existen o no corresponden a tu carrera")
      else
        var info := GetAvailableSubjects(usuario, periodo, catalog, current, now).value;
        if |NotAvailable(info.materias, materiaIds)| > 0 then Err("Algunas materias seleccionadas no están disponibles")
        else
          var total := TotalCreditos(materias);
          if total > MaxCreditos then Err("Excedes el límite de 24 créditos por periodo")
          else Ok(Saved(Prioritized(materiaIds), total))
  }

  /** Every subject of a saved selection is offered to the student, available. */
  lemma SavedAreAvailable(usuario: Option<Student>, periodo: Option<Period>, catalog: seq<SubjectRow>,
                          current: seq<Selection>, materiaIds: seq<string>, now: int, k: nat)
    requires SaveSubjectSelections(usuario, periodo, catalog, current, materiaIds, now).Ok? && k < |materiaIds|
    ensures exists s :: (s in GetAvailableSubjects(usuario, periodo, catalog, current, now).value.materias &&
      s.id == materiaIds[k] && s.disponible)
  {
    var ms := GetAvailableSubjects(usuario, periodo, catalog, current, now).value.materias;
    var info := FindSubject(ms, materiaIds[k]);
    assert info.Some?;
  }

  lemma {:induction false} CardAtMost<T>(s: seq<T>)
    ensures |set x | x in s| <= |s|
  {
    if s != [] {
      var init := s[..|s| - 1];
      CardAtMost(init);
      assert (set x | x in s) == (set x | x in init) + {s[|s| - 1]};
    }
  }

  /** A sequence with a repeated element has fewer distinct elements than entries. */
  lemma {:induction false} CardWithRepeat<T>(s: seq<T>, i: nat, j: nat)
    requires i < j < |s| && s[i] == s[j]
    ensures |set x | x in s| < |s|
  {
    var init := s[..|s| - 1];
    assert (set x | x in s) == (set x | x in init) + {s[|s| - 1]};
    if j == |s| - 1 {
      assert s[j] in init;
      assert (set x | x in s) == (set x | x in init);
      CardAtMost(init);
    } else {
      assert init[i] == init[j];
      CardWithRepeat(init, i, j);
    }
  }

  lemma SubsetCard<T>(a: set<T>, b: set<T>)
    requires a <= b
    ensures |a| <= |b|
    decreases a
  {
    if a != {} {
      var x :| x in a;
      SubsetCard(a - {x}, b - {x});
    }
  }

  lemma {:induction false} RequestedDistinct(catalog: seq<SubjectRow>, carreraId: Option<string>, materiaIds: seq<string>)
    requires forall a, b :: 0 <= a < b < |catalog| ==> catalog[a].id != catalog[b].id
    ensures forall a, b :: 0 <= a < b < |Requested(catalog, carreraId, materiaIds)| ==>
      Requested(catalog, carreraId, materiaIds)[a].id != Requested(catalog, carreraId, materiaIds)[b].id
  {
    if catalog != [] {
      var init := catalog[..|catalog| - 1];
      var last := catalog[|catalog| - 1];
      assert forall a, b :: 0 <= a < b < |init| ==> init[a].id != init[b].id by {
        assert forall a :: 0 <= a < |init| ==> init[a] == catalog[a];
      }
      RequestedDistinct(init, carreraId, materiaIds);
      var rest := Requested(init, carreraId, materiaIds);
      var r := Requested(catalog, carreraId, materiaIds);
      if last.carreraId == carreraId && last.id in materiaIds {
        assert r == rest + [last];
        forall a, b | 0 <= a < b < |r| ensures r[a].id != r[b].id {
          if b == |r| - 1 {
            assert r[a] == rest[a] && r[b] == last;
            assert rest[a] in rest;
            RequestedMember(init, carreraId, materiaIds, rest[a]);
            var c := IndexOf(init, rest[a]);
            assert catalog[c] == rest[a];
          } else {
            assert r[a] == rest[a] && r[b] == rest[b];
          }
        }
      } else {
        assert r == rest;
      }
    }
  }

  /** With a catalogue of distinct ids, the query returns at most one subject per distinct requested id. */
  lemma RequestedCount(catalog: seq<SubjectRow>, carreraId: Option<string>, materiaIds: seq<string>)
    requires forall a, b :: 0 <= a < b < |catalog| ==> catalog[a].id != catalog[b].id
    ensures |Requested(catalog, carreraId, materiaIds)| <= |set x | x in materiaIds|
  {
    var r := Requested(catalog, carreraId, materiaIds);
    RequestedDistinct(catalog, carreraId, materiaIds);
    var ids := seq(|r|, a requires 0 <= a < |r| => r[a].id);
    forall a, b | 0 <= a < b < |ids| ensures ids[a] != ids[b] {
      assert ids[a] == r[a].id && ids[b] == r[b].id;
    }
    DistinctCard(ids);
    forall x | x in ids ensures x in materiaIds {
      var a := IndexOf(ids, x);
      assert r[a] in r;
      RequestedMember(catalog, carreraId, materiaIds, r[a]);
    }
    SubsetCard(set x | x in ids, set x | x in materiaIds);
  }

  /**
   * With a catalogue of distinct ids, a request that names a subject twice
   * is rejected by the count check.
   */
  lemma RepeatedSubjectRejected(usuario: Student, periodo: Period, catalog: seq<SubjectRow>,
                                current: seq<Selection>, materiaIds: seq<string>, now: int, i: nat, j: nat)
    requires forall a, b :: 0 <= a < b < |catalog| ==> catalog[a].id != catalog[b].id
    requires i < j < |materiaIds| && materiaIds[i] == materiaIds[j]
    ensures SaveSubjectSelections(Some(usuario), Some(periodo), catalog, current, materiaIds, now) ==
      Err("Algunas materias no existen o no corresponden a tu carrera")
  {
    RequestedCount(catalog, usuario.carreraId, materiaIds);
    CardWithRepeat(materiaIds, i, j);
  }

  // ---------------------------------------------------------------------------
  // getCurrentSelections
  // ---------------------------------------------------------------------------

  /** A stored selection with its subject's code, name and credits. */
  datatype SelectionRow = SelectionRow(id: string, materiaId: string, prioridad: int, codigo: string, nombre: string, creditos: int)

  datatype Current = Current(selecciones: seq<SelectionRow>, total: nat, totalCreditos: int)

  function PriorityOf(s: SelectionRow): int { s.prioridad }

  /** `selecciones.reduce((sum, s) => sum + s.materias.creditos, 0)`. */
  function SelectionCredits(rows: seq<SelectionRow>): int
  {
    if rows == [] then 0 else SelectionCredits(rows[..|rows| - 1]) + rows[|rows| - 1].creditos
  }

  lemma {:induction false} CreditsOfInsert(t: seq<SelectionRow>, x: SelectionRow)
    ensures SelectionCredits(Sorting.Insert(t, x, PriorityOf, Sorting.LeInt)) == SelectionCredits(t) + x.creditos
  {
    if t != [] && !Sorting.LeInt(PriorityOf(t[|t| - 1]), PriorityOf(x)) {
      var init := t[..|t| - 1];
      CreditsOfInsert(init, x);
      var ins := Sorting.Insert(init, x, PriorityOf, Sorting.LeInt);
      assert (ins + [t[|t| - 1]])[..|ins|] == ins;
    } else if t != [] {
      assert (t + [x])[..|t|] == t;
    }
  }

  /** Ordering the selections by priority does not change their credit total. */
  lemma {:induction false} CreditsOfSort(rows: seq<SelectionRow>)
    ensures SelectionCredits(Sorting.SortBy(rows, PriorityOf, Sorting.LeInt)) == SelectionCredits(rows)
  {
    if rows != [] {
      CreditsOfSort(rows[..|rows| - 1]);
      CreditsOfInsert(Sorting.SortBy(rows[..|rows| - 1], PriorityOf, Sorting.LeInt), rows[|rows| - 1]);
    }
  }

  /**
   * `getCurrentSelections(userId, periodoId)`: the student's selections in
   * the period by ascending priority (`orderBy: { prioridad: 'asc' }`), their
   * number and their credits.
   */
  function GetCurrentSelections(rows: seq<SelectionRow>): (r: Current)
    ensures multiset(r.selecciones) == multiset(rows) && r.total == |rows|
    ensures Sorting.SortedBy(r.selecciones, PriorityOf, Sorting.LeInt)
    ensures r.totalCreditos == SelectionCredits(rows)
  {
    Sorting.IntOrdersAreTotalPreorders();
    Sorting.SortBySorted(rows, PriorityOf, Sorting.LeInt);
    CreditsOfSort(rows);
    var sorted := Sorting.SortBy(rows, PriorityOf, Sorting.LeInt);
    Current(sorted, |rows|, SelectionCredits(sorted))
  }

  // ---------------------------------------------------------------------------
  // getSubjectRecommendations
  // ---------------------------------------------------------------------------

  /** `materias.filter(m => m.disponible)`. */
  function Available(ms: seq<SubjectInfo>): (r: seq<SubjectInfo>)
    ensures |r| <= |ms|
  {
    if ms == [] then [] else Available(ms[..|ms| - 1]) + (if ms[|ms| - 1].disponible then [ms[|ms| - 1]] else [])
  }

  lemma {:induction false} AvailableMember(ms: seq<SubjectInfo>, s: SubjectInfo)
    ensures s in Available(ms) <==> s in ms && s.disponible
  {
    if ms != [] {
      var init := ms[..|ms| - 1];
      AvailableMember(init, s);
      assert ms == init + [ms[|ms| - 1]];
    }
  }

  /** `.filter(m => m.nivel === 0 || m.nivel === 1)`. */
  function LevelZeroOrOne(ms: seq<SubjectInfo>): (r: seq<SubjectInfo>)
    ensures |r| <= |ms|
  {
    if ms == [] then []
    else
      var last := ms[|ms| - 1];
      LevelZeroOrOne(ms[..|ms| - 1]) + (if last.nivel == 0 || last.nivel == 1 then [last] else [])
  }

  lemma {:induction false} LevelMember(ms: seq<SubjectInfo>, s: SubjectInfo)
    ensures s in LevelZeroOrOne(ms) <==> s in ms && (s.nivel == 0 || s.nivel == 1)
  {
    if ms != [] {
      var init := ms[..|ms| - 1];
      LevelMember(init, s);
      assert ms == init + [ms[|ms| - 1]];
    }
  }

  /** The recommendation order: fewer credits first, then lower `nivel`. */
  datatype Weight = Weight(creditos: int, nivel: int)

  function WeightOf(s: SubjectInfo): Weight { Weight(s.creditos, s.nivel) }

  function WeightLe(a: Weight, b: Weight): bool
  {
    if a.creditos != b.creditos then a.creditos - b.creditos <= 0 else a.nivel - b.nivel <= 0
  }

  lemma WeightLeIsTotalPreorder()
    ensures Sorting.TotalPreorder(WeightLe)
  {
  }

  function Recommend(ms: seq<SubjectInfo>): seq<SubjectInfo>
  {
    var sorted := Sorting.SortBy(LevelZeroOrOne(Available(ms)), WeightOf, WeightLe);
    if |sorted| <= 5 then sorted else sorted[..5]
  }

  /**
   * At most five recommendations, each an available subject of level 0 or
   * 1 from the listing, with credits (then level) not decreasing; when the
   * listing has at most five available subjects of those levels, all of
   * them are recommended.
   */
  lemma RecommendProperties(ms: seq<SubjectInfo>)
    ensures |Recommend(ms)| <= 5
    ensures forall s :: s in Recommend(ms) ==> s in ms && s.disponible && s.nivel in {0, 1}
    ensures forall i, j :: 0 <= i < j < |Recommend(ms)| ==> WeightLe(WeightOf(Recommend(ms)[i]), WeightOf(Recommend(ms)[j]))
    ensures |LevelZeroOrOne(Available(ms))| <= 5 ==> multiset(Recommend(ms)) == multiset(LevelZeroOrOne(Available(ms)))
  {
    var pool := LevelZeroOrOne(Available(ms));
    WeightLeIsTotalPreorder();
    Sorting.SortBySorted(pool, WeightOf, WeightLe);
    var sorted := Sorting.SortBy(pool, WeightOf, WeightLe);
    forall s | s in Recommend(ms) ensures s in ms && s.disponible && s.nivel in {0, 1} {
      assert s in sorted;
      assert s in multiset(pool);
      LevelMember(Available(ms), s);
      AvailableMember(ms, s);
    }
  }

  /**
   * The recommendations are the first five of the ordered pool (all of it
   * when it is shorter): none of the pool left out is lighter than any
   * subject recommended.
   */
  lemma RecommendLightest(ms: seq<SubjectInfo>)
    ensures var pool := LevelZeroOrOne(Available(ms));
      |Recommend(ms)| == if |pool| <= 5 then |pool| else 5
    ensures var pool := LevelZeroOrOne(Available(ms));
      forall s, r :: s in pool && s !in Recommend(ms) && r in Recommend(ms) ==> WeightLe(WeightOf(r), WeightOf(s))
  {
    var pool := LevelZeroOrOne(Available(ms));
    var sorted := Sorting.SortBy(pool, WeightOf, WeightLe);
    WeightLeIsTotalPreorder();
    Sorting.SortBySorted(pool, WeightOf, WeightLe);
    forall s, r | s in pool && s !in Recommend(ms) && r in Recommend(ms) ensures WeightLe(WeightOf(r), WeightOf(s)) {
      assert s in multiset(pool);
      var k :| 0 <= k < |sorted| && sorted[k] == s;
      var i :| 0 <= i < |Recommend(ms)| && Recommend(ms)[i] == r;
      assert 5 <= k && sorted[i] == r;
    }
  }

  /** `getSubjectRecommendations(userId, periodoId)`: the recommendations drawn from the student's listing. */
  function GetSubjectRecommendations(estudiante: Option<Student>, periodo: Option<Period>, catalog: seq<SubjectRow>,
                                     selecciones: seq<Selection>, now: int): (r: Result<seq<SubjectInfo>, string>)
    ensures r.Ok? <==> estudiante.Some? && periodo.Some?
    ensures r.Ok? ==> r.value == Recommend(GetAvailableSubjects(estudiante, periodo, catalog, selecciones, now).value.materias)
  {
    match GetAvailableSubjects(estudiante, periodo, catalog, selecciones, now)
    case Err(e) => Err(e)
    case Ok(a) => Ok(Recommend(a.materias))
  }

  /**
   * The level filter removes nothing from a listing the service computed:
   * an available subject never has pending prerequisites.
   */
  lemma LevelFilterRedundant(catalog: seq<SubjectRow>, carreraId: Option<string>, cursadas: seq<string>, seleccionadas: seq<string>)
    ensures var ms := EvaluateCareer(catalog, carreraId, cursadas, seleccionadas);
      LevelZeroOrOne(Available(ms)) == Available(ms)
  {
    var ms := EvaluateCareer(catalog, carreraId, cursadas, seleccionadas);
    forall s | s in ms ensures s.disponible ==> s.nivel == 0 || s.nivel == 1 {
      EvaluateCareerMembers(catalog, carreraId, cursadas, seleccionadas, s);
      var m :| m in catalog && m.carreraId == carreraId && s == Evaluate(m, cursadas, seleccionadas);
      DisponibleIff(m, cursadas, seleccionadas);
    }
    var av := Available(ms);
    forall k | 0 <= k < |av| ensures av[k].nivel == 0 || av[k].nivel == 1 {
      AvailableMember(ms, av[k]);
    }
    LevelsKept(av);
  }

  lemma {:induction false} LevelsKept(ms: seq<SubjectInfo>)
    requires forall k :: 0 <= k < |ms| ==> ms[k].nivel == 0 || ms[k].nivel == 1
    ensures LevelZeroOrOne(ms) == ms
  {
    if ms != [] {
      var init, last := ms[..|ms| - 1], ms[|ms| - 1];
      assert forall k :: 0 <= k < |init| ==> init[k] == ms[k];
      LevelsKept(init);
      assert LevelZeroOrOne(ms) == init + [last];
      assert ms == init + [last];
    }
  }
}
