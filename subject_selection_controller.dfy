/**
 * The subject-selection handlers
 * (`backend/src/controllers/subject-selection.controller.js`): the input
 * guards every handler applies before calling the service, the status of a
 * service error, and the verdicts of `validateSelections`.
 */
module SubjectSelectionController {
  import opened Common
  import opened SubjectSelectionService

  /** An error reply: its status and the `message` of its body. */
  datatype HttpError = HttpError(status: int, message: string)

  /**
   * `error.status || 500` and `error.message || fallback` for an error the
   * service threw: those errors carry no status.
   */
  function ServiceError(message: string, fallback: string): (e: HttpError)
    ensures e.status == 500
    ensures e.message == (if message == "" then fallback else message)
  {
    HttpError(500, if message == "" then fallback else message)
  }

  /** `materias` of the request body: missing or `null`, some value that is not an array, or an array. */
  datatype ArrayField = Missing | NotArray | Array(items: seq<string>)

  /** `getAvailableSubjects`: 400 without `periodoId`, otherwise the service's listing or its error. */
  function GetAvailable(periodoId: JsStr, estudiante: Option<Student>, periodo: Option<Period>, catalog: seq<SubjectRow>,
                        selecciones: seq<Selection>, now: int): (r: Result<Availability, HttpError>)
    ensures !periodoId.Truthy() ==> r == Err(HttpError(400, "El parámetro periodoId es requerido"))
    ensures periodoId.Truthy() && r.Err? ==> r.error.status == 500
    ensures r.Ok? <==> periodoId.Truthy() && estudiante.Some? && periodo.Some?
  {
    if !periodoId.Truthy() then Err(HttpError(400, "El parámetro periodoId es requerido"))
    else match GetAvailableSubjects(estudiante, periodo, catalog, selecciones, now)
      case Err(m) => Err(ServiceError(m, "Error al obtener materias disponibles"))
      case Ok(a) => Ok(a)
  }

  /** `saveSelections`: 400 without `periodoId` or without a non-empty array of subjects. */
  function SaveSelections(periodoId: JsStr, materias: ArrayField, usuario: Option<Student>, periodo: Option<Period>,
                          catalog: seq<SubjectRow>, current: seq<Selection>, now: int): (r: Result<Saved, HttpError>)
    ensures !periodoId.Truthy() ==> r == Err(HttpError(400, "El campo periodoId es requerido"))
    ensures periodoId.Truthy() && (materias.Missing? || materias.NotArray? || materias.items == []) ==>
      r == Err(HttpError(400, "Debe proporcionar un array de materias"))
    ensures r.Ok? ==> (materias.Array? && materias.items != [] &&
      SaveSubjectSelections(usuario, periodo, catalog, current, materias.items, now) == Ok(r.value))
    ensures r.Err? && r.error.status != 400 ==> r.error.status == 500
  {
    if !periodoId.Truthy() then Err(HttpError(400, "El campo periodoId es requerido"))
    else if materias.Missing? || materias.NotArray? || |materias.items| == 0 then Err(HttpError(400, "Debe proporcionar un array de materias"))
    else match SaveSubjectSelections(usuario, periodo, catalog, current, materias.items, now)
      case Err(m) => Err(ServiceError(m, "Error al guardar selecciones"))
      case Ok(s) => Ok(s)
  }

  /** `getCurrentSelections`: 400 without `periodoId`. */
  function GetCurrent(periodoId: JsStr, rows: seq<SelectionRow>): (r: Result<Current, HttpError>)
    ensures r.Err? <==> !periodoId.Truthy()
    ensures r.Err? ==> r.error == HttpError(400, "El parámetro periodoId es requerido")
  {
    if !periodoId.Truthy() then Err(HttpError(400, "El parámetro periodoId es requerido"))
    else Ok(GetCurrentSelections(rows))
  }

  /** `clearSelections`: 400 without `periodoId` in the body; otherwise the number of selections removed. */
  function Clear(periodoId: JsStr, rows: seq<SelectionRow>): (r: Result<nat, HttpError>)
    ensures r.Err? <==> !periodoId.Truthy()
    ensures r.Ok? ==> r.value == |rows|
  {
    if !periodoId.Truthy() then Err(HttpError(400, "El campo periodoId es requerido"))
    else Ok(|rows|)
  }

  /** `getRecommendations`: 400 without `periodoId`, otherwise the service's recommendations. */
  function GetRecommendations(periodoId: JsStr, estudiante: Option<Student>, periodo: Option<Period>, catalog: seq<SubjectRow>,
                              selecciones: seq<Selection>, now: int): (r: Result<seq<SubjectInfo>, HttpError>)
    ensures !periodoId.Truthy() ==> r == Err(HttpError(400, "El parámetro periodoId es requerido"))
    ensures r.Ok? ==> |r.value| <= 5 && forall s :: s in r.value ==> s.disponible
  {
    if !periodoId.Truthy() then Err(HttpError(400, "El parámetro periodoId es requerido"))
    else match GetSubjectRecommendations(estudiante, periodo, catalog, selecciones, now)
      case Err(m) => Err(ServiceError(m, "Error al obtener recomendaciones"))
      case Ok(rs) =>
        RecommendProperties(GetAvailableSubjects(estudiante, periodo, catalog, selecciones, now).value.materias);
        Ok(rs)
  }

  // ---------------------------------------------------------------------------
  // validateSelections
  // ---------------------------------------------------------------------------

  /** The verdict on one stored selection. */
  datatype Verdict = Verdict(materiaId: string, codigo: string, nombre: string, valida: bool, razon: string)

  /**
   * A selection is valid exactly when its subject is listed as available;
   * an invalid one is explained by pending prerequisites exactly when its
   * listed level is 2, and by "already taken or no groups" otherwise,
   * including a subject missing from the listing.
   */
  function VerdictOf(sel: SelectionRow, ms: seq<SubjectInfo>): (v: Verdict)
    ensures v.valida <==> exists s :: s in ms && s.id == sel.materiaId && s.disponible && FindSubject(ms, sel.materiaId) == Some(s)
    ensures v.valida <==> v.razon == "Disponible"
    ensures (forall k :: 0 <= k < |ms| ==> ms[k].id != sel.materiaId) ==>
      !v.valida && v.razon == "Ya cursada o sin grupos"
    ensures v.razon == "Prerrequisitos pendientes" <==>
      !v.valida && FindSubject(ms, sel.materiaId).Some? && FindSubject(ms, sel.materiaId).value.nivel == 2
  {
    var info := FindSubject(ms, sel.materiaId);
    var valida := info.Some? && info.value.disponible;
    Verdict(sel.materiaId, sel.codigo, sel.nombre, valida,
            if valida then "Disponible"
            else if info.Some? && info.value.nivel == 2 then "Prerrequisitos pendientes"
            else "Ya cursada o sin grupos")
  }

  function Verdicts(rows: seq<SelectionRow>, ms: seq<SubjectInfo>): (vs: seq<Verdict>)
    ensures |vs| == |rows| && forall k :: 0 <= k < |rows| ==> vs[k] == VerdictOf(rows[k], ms)
  {
    seq(|rows|, k requires 0 <= k < |rows| => VerdictOf(rows[k], ms))
  }

  datatype Validation = Validation(todasValidas: bool, totalSelecciones: nat, totalCreditos: int,
                                   validaciones: seq<Verdict>, recomendacion: string)

  /** The report over the current selections and the listing. */
  function Report(current: Current, ms: seq<SubjectInfo>): Validation
  {
    var vs := Verdicts(current.selecciones, ms);
    Validation(forall k :: 0 <= k < |vs| ==> vs[k].valida, current.total, current.totalCreditos, vs,
               if current.totalCreditos > MaxCreditos then "Excedes el límite recomendado de 24 créditos"
               else "Carga académica adecuada")
  }

  /** `validateSelections`: 400 without `periodoId`, a service error as 500, otherwise the report. */
  function ValidateSelections(periodoId: JsStr, rows: seq<SelectionRow>, estudiante: Option<Student>, periodo: Option<Period>,
                              catalog: seq<SubjectRow>, selecciones: seq<Selection>, now: int): (r: Result<Validation, HttpError>)
    ensures !periodoId.Truthy() ==> r == Err(HttpError(400, "El parámetro periodoId es requerido"))
    ensures r.Ok? <==> periodoId.Truthy() && estudiante.Some? && periodo.Some?
    ensures r.Ok? ==> r.value == Report(GetCurrentSelections(rows), GetAvailableSubjects(estudiante, periodo, catalog, selecciones, now).value.materias)
  {
    if !periodoId.Truthy() then Err(HttpError(400, "El parámetro periodoId es requerido"))
    else
      var current := GetCurrentSelections(rows);
      match GetAvailableSubjects(estudiante, periodo, catalog, selecciones, now)
      case Err(m) => Err(ServiceError(m, "Error al validar selecciones"))
      case Ok(a) => Ok(Report(current, a.materias))
  }

  /**
   * The report is all-valid exactly when every stored selection names an
   * available subject of the listing, holds one verdict per selection, and
   * warns exactly when the stored credits exceed the cap.
   */
  lemma ReportMeaning(rows: seq<SelectionRow>, ms: seq<SubjectInfo>)
    ensures var v := Report(GetCurrentSelections(rows), ms);
      (v.todasValidas <==> forall k :: 0 <= k < |rows| ==> VerdictOf(rows[k], ms).valida) &&
      |v.validaciones| == v.totalSelecciones == |rows| &&
      (v.recomendacion == "Excedes el límite recomendado de 24 créditos" <==> SelectionCredits(rows) > MaxCreditos)
  {
    var c := GetCurrentSelections(rows);
    var vs := Verdicts(c.selecciones, ms);
    if forall k :: 0 <= k < |vs| ==> vs[k].valida {
      forall k | 0 <= k < |rows| ensures VerdictOf(rows[k], ms).valida {
        var j := SameIndex(rows, c.selecciones, k);
        assert vs[j] == VerdictOf(rows[k], ms);
      }
    } else {
      var k :| 0 <= k < |vs| && !vs[k].valida;
      var j := SameIndex(c.selecciones, rows, k);
      assert VerdictOf(rows[j], ms) == vs[k];
    }
  }

  /** A position of `b` holding `a[i]`, for `b` a permutation of `a`. */
  lemma SameIndex<T>(a: seq<T>, b: seq<T>, i: nat) returns (j: nat)
    requires multiset(a) == multiset(b) && i < |a|
    ensures j < |b| && b[j] == a[i]
  {
    SameElement(a, b, i);
    j :| 0 <= j < |b| && b[j] == a[i];
  }
}
