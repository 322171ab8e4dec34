/**
 * The students service (`backend/src/services/students.service.js`): the
 * e-mail, day, shift and compaction validators, the paged listing, the
 * creation and profile-update rules, and the patch of the preferences
 * row. The `usuarios` table is a sequence of rows and the careers a set of
 * ids.
 */
module Students {
  import opened Common
  import opened JsText
  import TimeBlocks
  import Sorting

  const EmailError := "Formato de email inválido"
  const EmailInUse := "El email ya está en uso"
  const CareerNotFound := "Carrera no encontrada"
  const CompactionError := "La compactación debe ser un número entre 0 y 10"

  /** The outcome of a validator: it passes or throws with a message. */
  datatype Check = Pass | Fail(message: string)

  /** `validateEmail`. */
  function ValidateEmail(email: string): (c: Check)
    ensures c.Pass? <==> EmailPattern(email)
    ensures c.Fail? ==> c.message == EmailError
  {
    EmailIff(email);
    if IsEmail(email) then Pass else Fail(EmailError)
  }

  // ---------------------------------------------------------------------------
  // Days, shift and compaction
  // ---------------------------------------------------------------------------

  /**
   * A request field holding days: absent, falsy (`null`, `""`, `0`,
   * `false`), some other non-array value (its text), or an array.
   */
  datatype DaysField = Absent | Falsy | Scalar(text: string) | Array(items: seq<string>)

  /** The entries that are not day names, in order. */
  function InvalidDays(items: seq<string>): (r: seq<string>)
    ensures |r| <= |items|
  {
    if items == [] then []
    else
      var rest := InvalidDays(items[..|items| - 1]);
      var last := items[|items| - 1];
      if last in TimeBlocks.ValidDays then rest else rest + [last]
  }

  lemma {:induction false} InvalidDaysEmpty(items: seq<string>)
    ensures InvalidDays(items) == [] <==> forall i :: 0 <= i < |items| ==> items[i] in TimeBlocks.ValidDays
  {
    if items != [] {
      var init := items[..|items| - 1];
      InvalidDaysEmpty(init);
      assert forall i :: 0 <= i < |init| ==> init[i] == items[i];
    }
  }

  /** `Array.prototype.join`. */
  function Join(parts: seq<string>, sep: string): string
  {
    if parts == [] then ""
    else if |parts| == 1 then parts[0]
    else Join(parts[..|parts| - 1], sep) + sep + parts[|parts| - 1]
  }

  /**
   * `validateDays`: anything but an array passes; an array passes when
   * every entry is a day name, and otherwise the message lists the others.
   */
  function ValidateDays(dias: DaysField): (c: Check)
    ensures c.Pass? <==> !dias.Array? || forall i :: 0 <= i < |dias.items| ==> dias.items[i] in TimeBlocks.ValidDays
    ensures c.Fail? ==> (c.message ==
      "Días inválidos: " + Join(InvalidDays(dias.items), ", ") + ". Valores permitidos: LUN, MAR, MIE, JUE, VIE, SAB, DOM")
  {
    if !dias.Array? then Pass
    else
      InvalidDaysEmpty(dias.items);
      var bad := InvalidDays(dias.items);
      if bad == [] then Pass
      else Fail("Días inválidos: " + Join(bad, ", ") + ". Valores permitidos: LUN, MAR, MIE, JUE, VIE, SAB, DOM")
  }

  /**
   * A request field: absent (`undefined`), a falsy value, or a truthy value
   * (for a shift, its text).
   */
  datatype Field<T> = Missing | Empty | Given(value: T)

  /** `validateTurno`: a falsy shift passes, a truthy one must be one of the three names. */
  function ValidateTurno(turno: Field<string>): (c: Check)
    ensures c.Pass? <==> !turno.Given? || turno.value in TimeBlocks.ValidTurnos
  {
    if turno.Given? && turno.value !in TimeBlocks.ValidTurnos then Fail(TimeBlocks.TurnoError) else Pass
  }

  /**
   * The compaction check: when given (as the text `String(value)`), it must
   * parse to an integer between 0 and 10.
   */
  function ValidateCompaction(text: Option<string>): (c: Check)
    ensures c.Pass? <==> text.None? || (ParseInt(text.value).Some? && 0 <= ParseInt(text.value).value <= 10)
    ensures c.Fail? ==> c.message == CompactionError
  {
    if text.None? then Pass
    else match ParseInt(text.value)
      case None => Fail(CompactionError)
      case Some(n) => if n < 0 || n > 10 then Fail(CompactionError) else Pass
  }

  /** An integer passes the compaction check exactly when it lies in [0, 10]. */
  lemma CompactionOfInteger(n: int)
    ensures ValidateCompaction(Some(IntText(n))).Pass? <==> 0 <= n <= 10
  {
    ParseIntOfIntText(n, "");
    assert IntText(n) + "" == IntText(n);
  }

  // ---------------------------------------------------------------------------
  // updateMyPreferences
  // ---------------------------------------------------------------------------

  /** A stored list of avoided days: an array, or the text of the non-array value that was sent. */
  datatype DaysValue = Days(items: seq<string>) | Other(text: string)

  /** A `preferencias_usuario` row. */
  datatype Preferences = Preferences(turnoPreferido: Option<string>, compactacion: Option<int>,
                                     evitarDias: DaysValue, pesos: Option<string>)

  /** `preferenceData`: only the fields the request supplied. */
  datatype PreferencePatch = PreferencePatch(turnoPreferido: Option<Option<string>>, compactacion: Option<int>,
                                             evitarDias: Option<DaysValue>, pesos: Option<Option<string>>)

  function FieldValue(f: Field<string>): Option<Option<string>>
  {
    match f
    case Missing => None
    case Empty => Some(None)
    case Given(v) => Some(Some(v))
  }

  /** The patch: a falsy shift or weights becomes null, falsy days become `[]`. */
  function PatchOf(turno: Field<string>, compactacion: Option<string>, dias: DaysField, pesos: Field<string>): PreferencePatch
    requires ValidateCompaction(compactacion).Pass?
  {
    PreferencePatch(
      FieldValue(turno),
      if compactacion.Some? then Some(ParseInt(compactacion.value).value) else None,
      match dias
      case Absent => None
      case Falsy => Some(Days([]))
      case Scalar(t) => Some(Other(t))
      case Array(items) => Some(Days(items)),
      FieldValue(pesos))
  }

  /** The upsert: each patched field replaces the stored one. */
  function Apply(p: Preferences, patch: PreferencePatch): Preferences
  {
    Preferences(
      if patch.turnoPreferido.Some? then patch.turnoPreferido.value else p.turnoPreferido,
      if patch.compactacion.Some? then patch.compactacion else p.compactacion,
      if patch.evitarDias.Some? then patch.evitarDias.value else p.evitarDias,
      if patch.pesos.Some? then patch.pesos.value else p.pesos)
  }

  /**
   * `updateMyPreferences`: the shift, the days and the compaction are
   * validated in that order, then the supplied fields are upserted over
   * `current`, the stored row or, for a user without one, the row the
   * database would create.
   */
  function UpdateMyPreferences(current: Preferences, turno: Field<string>, compactacion: Option<string>,
                               dias: DaysField, pesos: Field<string>): (r: Result<Preferences, string>)
    ensures r.Ok? <==> ValidateTurno(turno).Pass? && ValidateDays(dias).Pass? && ValidateCompaction(compactacion).Pass?
    ensures ValidateTurno(turno).Fail? ==> r == Err(ValidateTurno(turno).message)
    ensures r.Ok? ==>
      (turno.Missing? ==> r.value.turnoPreferido == current.turnoPreferido) &&
      (turno.Empty? ==> r.value.turnoPreferido == None) &&
      (turno.Given? ==> r.value.turnoPreferido == Some(turno.value) && turno.value in TimeBlocks.ValidTurnos) &&
      (compactacion.None? ==> r.value.compactacion == current.compactacion) &&
      (compactacion.Some? ==> r.value.compactacion == ParseInt(compactacion.value)) &&
      (compactacion.Some? ==> r.value.compactacion.Some? && 0 <= r.value.compactacion.value <= 10) &&
      (dias.Absent? ==> r.value.evitarDias == current.evitarDias) &&
      (dias.Falsy? ==> r.value.evitarDias == Days([])) &&
      (dias.Scalar? ==> r.value.evitarDias == Other(dias.text)) &&
      (dias.Array? ==> r.value.evitarDias == Days(dias.items)) &&
      (pesos.Missing? ==> r.value.pesos == current.pesos) &&
      (pesos.Empty? ==> r.value.pesos == None) &&
      (pesos.Given? ==> r.value.pesos == Some(pesos.value))
  {
    var t := ValidateTurno(turno);
    var d := ValidateDays(dias);
    var c := ValidateCompaction(compactacion);
    if t.Fail? then Err(t.message)
    else if d.Fail? then Err(d.message)
    else if c.Fail? then Err(c.message)
    else Ok(Apply(current, PatchOf(turno, compactacion, dias, pesos)))
  }

  /** Every stored preference lies in its domain; days sent as a non-array are outside it. */
  ghost predicate PreferencesValid(p: Preferences)
  {
    (p.turnoPreferido.None? || p.turnoPreferido.value in TimeBlocks.ValidTurnos) &&
    (p.compactacion.None? || 0 <= p.compactacion.value <= 10) &&
    (p.evitarDias.Days? ==> forall i :: 0 <= i < |p.evitarDias.items| ==> p.evitarDias.items[i] in TimeBlocks.ValidDays)
  }

  /** An accepted update keeps a valid row valid. */
  lemma UpdateKeepsValid(current: Preferences, turno: Field<string>, compactacion: Option<string>, dias: DaysField, pesos: Field<string>)
    requires PreferencesValid(current)
    requires UpdateMyPreferences(current, turno, compactacion, dias, pesos).Ok?
    ensures PreferencesValid(UpdateMyPreferences(current, turno, compactacion, dias, pesos).value)
  {
  }

  /** Sending the same preferences twice stores what sending them once does. */
  lemma UpdateIdempotent(current: Preferences, turno: Field<string>, compactacion: Option<string>, dias: DaysField, pesos: Field<string>)
    requires UpdateMyPreferences(current, turno, compactacion, dias, pesos).Ok?
    ensures var once := UpdateMyPreferences(current, turno, compactacion, dias, pesos).value;
      UpdateMyPreferences(once, turno, compactacion, dias, pesos) == Ok(once)
  {
  }

  /** A truthy non-array value for the days passes validation and is stored as it came. */
  lemma ScalarDaysStored(current: Preferences, text: string)
    ensures UpdateMyPreferences(current, Missing, None, Scalar(text), Missing) == Ok(current.(evitarDias := Other(text)))
  {
  }

  // ---------------------------------------------------------------------------
  // Users
  // ---------------------------------------------------------------------------

  /** A `usuarios` row. */
  datatype Usuario = Usuario(id: string, nombre: string, email: string, rol: string, carreraId: Option<string>,
                             activo: bool, createdAt: int, passwordHash: string)

  /** The row with the id, if any. */
  function FindUser(users: seq<Usuario>, id: string): (r: Option<Usuario>)
    ensures r.Some? ==> r.value in users && r.value.id == id
    ensures r.None? ==> forall i :: 0 <= i < |users| ==> users[i].id != id
  {
    if users == [] then None
    else if users[0].id == id then Some(users[0])
    else FindUser(users[1..], id)
  }

  /** Some row holds the e-mail, compared exactly (`findUnique({ where: { email } })`). */
  predicate EmailTaken(users: seq<Usuario>, email: string)
  {
    exists i :: 0 <= i < |users| && users[i].email == email
  }

  ghost predicate EmailsUnique(users: seq<Usuario>)
  {
    forall i, j :: 0 <= i < j < |users| ==> users[i].email != users[j].email
  }

  /** Every stored e-mail is in lower case, as the service writes them. */
  ghost predicate EmailsLower(users: seq<Usuario>)
  {
    forall i :: 0 <= i < |users| ==> ToLower(users[i].email) == users[i].email
  }

  lemma ToLowerIdempotent(s: string)
    ensures ToLower(ToLower(s)) == ToLower(s)
  {
    assert forall i :: 0 <= i < |s| ==> ToLower(ToLower(s))[i] == ToLowerChar(ToLowerChar(s[i]));
  }

  /**
   * `createStudent`: name, e-mail and password are required, the e-mail must
   * have the pattern's form and be new once lower-cased, a given career must
   * exist; the row is an active student with the lower-cased e-mail.
   */
  function CreateStudent(users: seq<Usuario>, carreras: set<string>, nombre: JsStr, email: JsStr, password: JsStr,
                         carreraId: JsStr, newId: string, now: int): (r: Result<Usuario, string>)
    ensures !nombre.Truthy() || !email.Truthy() || !password.Truthy() ==>
      r == Err("Nombre, email y password son obligatorios")
    ensures r.Ok? <==>
      nombre.Truthy() && email.Truthy() && password.Truthy() && EmailPattern(email.s) &&
      !EmailTaken(users, ToLower(email.s)) && (carreraId.Truthy() ==> carreraId.s in carreras)
    ensures r.Ok? ==>
      r.value.email == ToLower(email.s) && r.value.rol == "ESTUDIANTE" && r.value.activo &&
      r.value.nombre == nombre.s && r.value.passwordHash == password.s &&
      (r.value.carreraId.Some? <==> carreraId.Truthy()) && (carreraId.Truthy() ==> r.value.carreraId == Some(carreraId.s))
  {
    if !nombre.Truthy() || !email.Truthy() || !password.Truthy() then Err("Nombre, email y password son obligatorios")
    else if ValidateEmail(email.s).Fail? then Err(EmailError)
    else if EmailTaken(users, ToLower(email.s)) then Err("El email ya está registrado")
    else if carreraId.Truthy() && carreraId.s !in carreras then Err(CareerNotFound)
    else Ok(Usuario(newId, nombre.s, ToLower(email.s), "ESTUDIANTE", if carreraId.Truthy() then Some(carreraId.s) else None,
                    true, now, password.s))
  }

  /** Creation keeps the stored e-mails unique and in lower case. */
  lemma CreateKeepsEmailsUnique(users: seq<Usuario>, carreras: set<string>, nombre: JsStr, email: JsStr, password: JsStr,
                                carreraId: JsStr, newId: string, now: int)
    requires EmailsUnique(users) && EmailsLower(users)
    requires CreateStudent(users, carreras, nombre, email, password, carreraId, newId, now).Ok?
    ensures var nu := users + [CreateStudent(users, carreras, nombre, email, password, carreraId, newId, now).value];
      EmailsUnique(nu) && EmailsLower(nu)
  {
    ToLowerIdempotent(email.s);
  }

  /** A second registration of the same address, in any letter case, is refused. */
  lemma CreateSameEmailRefused(users: seq<Usuario>, carreras: set<string>, nombre: JsStr, email: JsStr, password: JsStr,
                               carreraId: JsStr, newId: string, now: int, other: JsStr, id2: string, now2: int)
    requires CreateStudent(users, carreras, nombre, email, password, carreraId, newId, now).Ok?
    requires nombre.Truthy() && other.Truthy() && password.Truthy() && EmailPattern(other.s)
    requires ToLower(other.s) == ToLower(email.s)
    ensures var nu := users + [CreateStudent(users, carreras, nombre, email, password, carreraId, newId, now).value];
      CreateStudent(nu, carreras, nombre, other, password, carreraId, id2, now2) == Err("El email ya está registrado")
  {
    var nu := users + [CreateStudent(users, carreras, nombre, email, password, carreraId, newId, now).value];
    assert nu[|users|].email == ToLower(other.s);
  }

  // ---------------------------------------------------------------------------
  // updateStudent and updateMyProfile
  // ---------------------------------------------------------------------------

  /** The row after a profile update: a given name or e-mail replaces the stored one, a sent career id replaces it. */
  function Updated(u: Usuario, nombre: JsStr, email: JsStr, carreraId: JsStr): Usuario
  {
    u.(nombre := if nombre.Truthy() then nombre.s else u.nombre,
       email := if email.Truthy() then ToLower(email.s) else u.email,
       carreraId := if carreraId.Undefined? then u.carreraId else if carreraId.Truthy() then Some(carreraId.s) else None)
  }

  /** The stored rows after replacing the row with the updated user's id. */
  function Replace(users: seq<Usuario>, u: Usuario): (r: seq<Usuario>)
    ensures |r| == |users|
    ensures forall i :: 0 <= i < |users| ==> r[i] == (if users[i].id == u.id then u else users[i])
  {
    seq(|users|, i requires 0 <= i < |users| => if users[i].id == u.id then u else users[i])
  }

  /** The student with the id (`findUnique({ where: { id, rol: 'ESTUDIANTE' } })`). */
  function FindStudent(users: seq<Usuario>, id: string): (r: Option<Usuario>)
    ensures r.Some? ==> r.value in users && r.value.id == id && r.value.rol == "ESTUDIANTE"
  {
    var u := FindUser(users, id);
    if u.Some? && u.value.rol == "ESTUDIANTE" then u else None
  }

  /**
   * `updateStudent` as written: it looks the new e-mail up only when it
   * differs from the stored one, but compares the two without lower-casing.
   */
  function UpdateStudentAsWritten(users: seq<Usuario>, carreras: set<string>, id: string, nombre: JsStr, email: JsStr,
                                  carreraId: JsStr): (r: Result<Usuario, string>)
    ensures FindStudent(users, id).None? ==> r == Err("Estudiante no encontrado")
  {
    match FindStudent(users, id)
    case None => Err("Estudiante no encontrado")
    case Some(existing) =>
      if email.Truthy() && ValidateEmail(email.s).Fail? then Err(EmailError)
      else if email.Truthy() && email.s != existing.email && EmailTaken(users, ToLower(email.s)) then Err(EmailInUse)
      else if carreraId.Truthy() && carreraId.s !in carreras then Err(CareerNotFound)
      else Ok(Updated(existing, nombre, email, carreraId))
  }

  /**
   * A student who sends their own address with different capitals is told
   * that it is in use: the lookup finds their own row.
   */
  lemma OwnEmailOtherCaseRefused(users: seq<Usuario>, carreras: set<string>, id: string, email: string)
    requires FindStudent(users, id).Some?
    requires EmailPattern(email) && ToLower(email) == FindStudent(users, id).value.email && email != ToLower(email)
    ensures UpdateStudentAsWritten(users, carreras, id, Undefined, Str(email), Undefined) == Err(EmailInUse)
  {
    var existing := FindStudent(users, id).value;
    var k :| 0 <= k < |users| && users[k] == existing;
    assert Str(email).Truthy();
  }

  /**
   * `updateStudent`, comparing the new e-mail with the stored one in lower
   * case as `updateMyProfile` does: a student's own address is never
   * reported as in use.
   */
  function UpdateStudent(users: seq<Usuario>, carreras: set<string>, id: string, nombre: JsStr, email: JsStr,
                         carreraId: JsStr): (r: Result<Usuario, string>)
    ensures FindStudent(users, id).None? ==> r == Err("Estudiante no encontrado")
    ensures r.Ok? <==>
      FindStudent(users, id).Some? &&
      (email.Truthy() ==> (EmailPattern(email.s) &&
        (ToLower(email.s) != ToLower(FindStudent(users, id).value.email) ==> !EmailTaken(users, ToLower(email.s))))) &&
      (carreraId.Truthy() ==> carreraId.s in carreras)
    ensures r.Ok? ==> r.value == Updated(FindStudent(users, id).value, nombre, email, carreraId)
  {
    match FindStudent(users, id)
    case None => Err("Estudiante no encontrado")
    case Some(existing) =>
      if email.Truthy() && ValidateEmail(email.s).Fail? then Err(EmailError)
      else if email.Truthy() && ToLower(email.s) != ToLower(existing.email) && EmailTaken(users, ToLower(email.s)) then
        Err(EmailInUse)
      else if carreraId.Truthy() && carreraId.s !in carreras then Err(CareerNotFound)
      else Ok(Updated(existing, nombre, email, carreraId))
  }

  /** Where the code as written accepts an update, the corrected one stores the same row. */
  lemma UpdateStudentAgrees(users: seq<Usuario>, carreras: set<string>, id: string, nombre: JsStr, email: JsStr, carreraId: JsStr)
    requires UpdateStudentAsWritten(users, carreras, id, nombre, email, carreraId).Ok?
    ensures UpdateStudent(users, carreras, id, nombre, email, carreraId) == UpdateStudentAsWritten(users, carreras, id, nombre, email, carreraId)
  {
    var existing := FindStudent(users, id).value;
    if email.Truthy() && ToLower(email.s) != ToLower(existing.email) {
      assert email.s != existing.email;
    }
  }

  /** The corrected update accepts a student's own address in any letter case. */
  lemma OwnEmailOtherCaseAccepted(users: seq<Usuario>, carreras: set<string>, id: string, email: string)
    requires FindStudent(users, id).Some?
    requires EmailPattern(email) && ToLower(email) == ToLower(FindStudent(users, id).value.email)
    ensures UpdateStudent(users, carreras, id, Undefined, Str(email), Undefined).Ok?
  {
  }

  /** Updating a row whose id is unique keeps the stored e-mails unique and in lower case. */
  lemma UpdateKeepsEmailsUnique(users: seq<Usuario>, carreras: set<string>, id: string, nombre: JsStr, email: JsStr, carreraId: JsStr)
    requires EmailsUnique(users) && EmailsLower(users)
    requires forall i, j :: 0 <= i < j < |users| ==> users[i].id != users[j].id
    requires UpdateStudent(users, carreras, id, nombre, email, carreraId).Ok?
    ensures var nu := Replace(users, UpdateStudent(users, carreras, id, nombre, email, carreraId).value);
      EmailsUnique(nu) && EmailsLower(nu)
  {
    var existing := FindStudent(users, id).value;
    var u := UpdateStudent(users, carreras, id, nombre, email, carreraId).value;
    var nu := Replace(users, u);
    var k :| 0 <= k < |users| && users[k] == existing;
    if email.Truthy() {
      ToLowerIdempotent(email.s);
      assert ToLower(existing.email) == existing.email;
    }
    assert u.email == existing.email || !EmailTaken(users, u.email);
    forall i, j | 0 <= i < j < |nu| ensures nu[i].email != nu[j].email {
      if users[i].id == id {
        assert i == k;
        assert users[j].email != existing.email;
      } else if users[j].id == id {
        assert j == k;
        assert users[i].email != existing.email;
      }
    }
  }

  /**
   * `updateMyProfile`: any user, found by id; the e-mail is compared in
   * lower case; a career id that is sent and not null is looked up, even
   * an empty one.
   */
  function UpdateMyProfile(users: seq<Usuario>, carreras: set<string>, userId: string, nombre: JsStr, email: JsStr,
                           carreraId: JsStr): (r: Result<Usuario, string>)
    ensures FindUser(users, userId).None? ==> r == Err("Usuario no encontrado")
    ensures r.Ok? <==>
      FindUser(users, userId).Some? &&
      (email.Truthy() ==> (EmailPattern(email.s) &&
        (ToLower(email.s) != ToLower(FindUser(users, userId).value.email) ==> !EmailTaken(users, ToLower(email.s))))) &&
      (carreraId.Str? ==> carreraId.s in carreras)
    ensures r.Ok? ==> r.value == Updated(FindUser(users, userId).value, nombre, email, carreraId)
  {
    match FindUser(users, userId)
    case None => Err("Usuario no encontrado")
    case Some(existing) =>
      if email.Truthy() && ValidateEmail(email.s).Fail? then Err(EmailError)
      else if email.Truthy() && ToLower(email.s) != ToLower(existing.email) && EmailTaken(users, ToLower(email.s)) then
        Err(EmailInUse)
      else if carreraId.Str? && carreraId.s !in carreras then Err(CareerNotFound)
      else Ok(Updated(existing, nombre, email, carreraId))
  }

  /** A profile update that sends nothing changes nothing. */
  lemma EmptyProfileUpdate(users: seq<Usuario>, carreras: set<string>, userId: string)
    requires FindUser(users, userId).Some?
    ensures UpdateMyProfile(users, carreras, userId, Undefined, Undefined, Undefined) == Ok(FindUser(users, userId).value)
  {
  }

  // ---------------------------------------------------------------------------
  // getAllStudents
  // ---------------------------------------------------------------------------

  /** The filters of the listing: `activo` as sent in the query, a career id, a search text. */
  datatype StudentFilters = StudentFilters(activo: Option<string>, carreraId: JsStr, search: JsStr)

  /** The `where` of `getAllStudents`; the search is a case-insensitive substring of the name or the e-mail. */
  predicate InWhere(u: Usuario, f: StudentFilters)
  {
    u.rol == "ESTUDIANTE" &&
    (f.activo.Some? ==> u.activo == (f.activo.value == "true")) &&
    (f.carreraId.Truthy() ==> u.carreraId == Some(f.carreraId.s)) &&
    (f.search.Truthy() ==> Contains(ToLower(u.nombre), ToLower(f.search.s)) || Contains(ToLower(u.email), ToLower(f.search.s)))
  }

  function Where(users: seq<Usuario>, f: StudentFilters): (r: seq<Usuario>)
    ensures |r| <= |users|
  {
    if users == [] then []
    else
      var rest := Where(users[..|users| - 1], f);
      var last := users[|users| - 1];
      if InWhere(last, f) then rest + [last] else rest
  }

  lemma {:induction false} WhereMember(users: seq<Usuario>, f: StudentFilters, u: Usuario)
    ensures u in Where(users, f) <==> u in users && InWhere(u, f)
  {
    if users != [] {
      var init := users[..|users| - 1];
      WhereMember(init, f, u);
      assert users == init + [users[|users| - 1]];
    }
  }

  function CreatedAt(u: Usuario): int { u.createdAt }

  /** `pagination`: the parsed page and limit, the count, and `Math.ceil(total / limit)` when the limit is positive. */
  datatype PageInfo = PageInfo(page: int, limit: int, total: nat, totalPages: Option<int>)

  /** The page count, when there is one, is the least number of pages of `limit` rows that hold the total. */
  predicate LeastPageCount(pg: PageInfo)
  {
    pg.totalPages.Some? ==> (pg.totalPages.value - 1) * pg.limit < pg.total <= pg.totalPages.value * pg.limit
  }

  datatype StudentPage = StudentPage(students: seq<Usuario>, pagination: PageInfo)

  /** The rows of one page: `skip` rows dropped, at most `take` kept. */
  function Window(rows: seq<Usuario>, skip: nat, take: nat): (r: seq<Usuario>)
    ensures |r| <= take
  {
    if skip >= |rows| then [] else rows[skip..if skip + take <= |rows| then skip + take else |rows|]
  }

  /** A page of an ordered listing is ordered and holds only rows of the listing. */
  lemma WindowOfSorted(rows: seq<Usuario>, skip: nat, take: nat)
    ensures Sorting.SortedBy(rows, CreatedAt, Sorting.GeInt) ==>
              Sorting.SortedBy(Window(rows, skip, take), CreatedAt, Sorting.GeInt)
    ensures forall u :: u in Window(rows, skip, take) ==> u in rows
  {
    var w := Window(rows, skip, take);
    if skip < |rows| {
      assert forall i :: 0 <= i < |w| ==> w[i] == rows[skip + i];
    }
  }

  /**
   * One page of an ordered listing: `(page − 1) · limit` rows skipped, at
   * most `limit` kept. A negative offset, which Prisma rejects with an
   * exception, is an error; a negative limit, which Prisma would read as rows
   * from the end, is an error here as well.
   */
  function PageOf(ordered: seq<Usuario>, pageNum: int, limitNum: int): (r: Result<StudentPage, string>)
    ensures r.Err? <==> (pageNum - 1) * limitNum < 0 || limitNum < 0
    ensures r.Ok? ==> r.value.students == Window(ordered, (pageNum - 1) * limitNum, limitNum)
    ensures r.Ok? ==> |r.value.students| <= limitNum
    ensures r.Ok? ==> forall u :: u in r.value.students ==> u in ordered
    ensures r.Ok? && Sorting.SortedBy(ordered, CreatedAt, Sorting.GeInt) ==>
              Sorting.SortedBy(r.value.students, CreatedAt, Sorting.GeInt)
    ensures r.Ok? ==> r.value.pagination.page == pageNum && r.value.pagination.limit == limitNum &&
                      r.value.pagination.total == |ordered|
    ensures r.Ok? ==> (r.value.pagination.totalPages.Some? <==> limitNum > 0)
    ensures r.Ok? ==> LeastPageCount(r.value.pagination)
  {
    var skip := (pageNum - 1) * limitNum;
    if skip < 0 || limitNum < 0 then Err("Paginación inválida")
    else
      WindowOfSorted(ordered, skip, limitNum);
      Ok(StudentPage(Window(ordered, skip, limitNum),
                     PageInfo(pageNum, limitNum, |ordered|, if limitNum > 0 then Some(CeilDiv(|ordered|, limitNum)) else None)))
  }

  /**
   * `getAllStudents`: the students that pass the filters, newest first,
   * the page `(page − 1) · limit` rows in, at most `limit` of them; page and
   * limit default to 1 and 20. A page or limit that does not parse, a
   * negative offset or a negative limit end in an error, as `PageOf` says.
   */
  function GetAllStudents(users: seq<Usuario>, f: StudentFilters, page: Option<string>, limit: Option<string>): (r: Result<StudentPage, string>)
  {
    var pageNum := if page.Some? then ParseInt(page.value) else Some(1);
    var limitNum := if limit.Some? then ParseInt(limit.value) else Some(20);
    if pageNum.None? || limitNum.None? then Err("Paginación inválida")
    else PageOf(Sorting.SortBy(Where(users, f), CreatedAt, Sorting.GeInt), pageNum.value, limitNum.value)
  }

  /**
   * A page holds at most `limit` students, each of them passing the
   * filters, newest first; the total counts every matching student and the
   * page count is the least number of pages of `limit` rows that hold them.
   */
  lemma PageProperties(users: seq<Usuario>, f: StudentFilters, page: Option<string>, limit: Option<string>, u: Usuario)
    requires GetAllStudents(users, f, page, limit).Ok?
    ensures var p := GetAllStudents(users, f, page, limit).value;
      |p.students| <= p.pagination.limit &&
      (u in p.students ==> u in users && InWhere(u, f)) &&
      Sorting.SortedBy(p.students, CreatedAt, Sorting.GeInt) &&
      p.pagination.total == |Where(users, f)| &&
      LeastPageCount(p.pagination)
  {
    var p := GetAllStudents(users, f, page, limit).value;
    var rows := Where(users, f);
    var ordered := Sorting.SortBy(rows, CreatedAt, Sorting.GeInt);
    var pageNum := if page.Some? then ParseInt(page.value) else Some(1);
    var limitNum := if limit.Some? then ParseInt(limit.value) else Some(20);
    var r := PageOf(ordered, pageNum.value, limitNum.value);
    assert GetAllStudents(users, f, page, limit) == r;
    assert |ordered| == |rows|;
    Sorting.IntOrdersAreTotalPreorders();
    Sorting.SortBySorted(rows, CreatedAt, Sorting.GeInt);
    if u in p.students {
      assert u in multiset(ordered);
      WhereMember(users, f, u);
    }
  }

  /** With no page or limit in the query, the first twenty newest matching students are listed. */
  lemma DefaultPage(users: seq<Usuario>, f: StudentFilters)
    ensures GetAllStudents(users, f, None, None).Ok?
    ensures var p := GetAllStudents(users, f, None, None).value;
      p.pagination.page == 1 && p.pagination.limit == 20 &&
      p.students == Window(Sorting.SortBy(Where(users, f), CreatedAt, Sorting.GeInt), 0, 20)
  {
  }

  /** The `activo` filter keeps active students exactly for the text "true", inactive ones for any other text. */
  lemma ActivoFilter(u: Usuario, text: string)
    requires u.rol == "ESTUDIANTE"
    ensures InWhere(u, StudentFilters(Some(text), Undefined, Undefined)) <==> (u.activo <==> text == "true")
  {
  }
}
