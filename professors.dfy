/**
 * The availability and profile rules of the professors service
 * (`backend/src/services/professors.service.js`): the normalisation of a
 * requested state, the two allowed states, who may change a professor's
 * data, the guards of the bulk update, the state a block shows when none
 * is stored, and the partial profile update. The tables are sequences of
 * rows; `bloques_horarios` rows are those of the time-block catalogue.
 */
module Professors {
  import opened Common
  import JsText
  import TimeBlocks

  // ---------------------------------------------------------------------------
  // normalize
  // ---------------------------------------------------------------------------

  /** `[A-Z0-9_]`. */
  predicate Allowed(c: char)
  {
    'A' <= c <= 'Z' || '0' <= c <= '9' || c == '_'
  }

  predicate AllAllowed(s: string)
  {
    forall i :: 0 <= i < |s| ==> Allowed(s[i])
  }

  /** `.replace(/\s+/g, '_')`: every run of white space becomes one `_`. */
  function CollapseSpaces(s: string): (r: string)
    ensures |r| <= |s|
    decreases |s|
  {
    if s == [] then []
    else if IsJsSpace(s[0]) then "_" + CollapseSpaces(TrimStart(s[1..]))
    else [s[0]] + CollapseSpaces(s[1..])
  }

  /** `.replace(/[^A-Z0-9_]/g, '')`. */
  function KeepAllowed(s: string): (r: string)
    ensures AllAllowed(r) && |r| <= |s|
  {
    if s == [] then []
    else if Allowed(s[0]) then [s[0]] + KeepAllowed(s[1..])
    else KeepAllowed(s[1..])
  }

  /**
   * `normalize`: trimmed, upper-cased, white-space runs turned into `_`,
   * other characters outside `[A-Z0-9_]` dropped; a missing value stays
   * missing.
   */
  function Normalize(s: Option<string>): (r: Option<string>)
    ensures r.Some? <==> s.Some?
    ensures r.Some? ==> AllAllowed(r.value)
  {
    match s
    case None => None
    case Some(t) => Some(KeepAllowed(CollapseSpaces(ToUpper(Trim(t)))))
  }

  lemma {:induction false} KeepAllowedFixed(s: string)
    requires AllAllowed(s)
    ensures KeepAllowed(s) == s
  {
    if s != [] {
      KeepAllowedFixed(s[1..]);
    }
  }

  lemma {:induction false} CollapseSpacesFixed(s: string)
    requires AllAllowed(s)
    ensures CollapseSpaces(s) == s
  {
    if s != [] {
      assert !IsJsSpace(s[0]);
      CollapseSpacesFixed(s[1..]);
    }
  }

  lemma UpperFixed(s: string)
    requires AllAllowed(s)
    ensures ToUpper(s) == s
  {
    assert forall i :: 0 <= i < |s| ==> ToUpperChar(s[i]) == s[i];
  }

  lemma TrimFixed(s: string)
    requires s == [] || (!IsJsSpace(s[0]) && !IsJsSpace(s[|s| - 1]))
    ensures Trim(s) == s
  {
  }

  /** Normalising a normalised state changes nothing. */
  lemma NormalizeIdempotent(s: Option<string>)
    ensures Normalize(Normalize(s)) == Normalize(s)
  {
    if s.Some? {
      var t := Normalize(s).value;
      if t != [] {
        assert Allowed(t[0]) && Allowed(t[|t| - 1]);
      }
      TrimFixed(t);
      UpperFixed(t);
      CollapseSpacesFixed(t);
      KeepAllowedFixed(t);
    }
  }

  const ALLOWED: seq<string> := ["DISPONIBLE", "BLOQUEADO"]

  /** The state `updateAvailability` accepts: the normalised request must be one of the two names. */
  function EstadoOf(raw: Option<string>): (r: Option<string>)
    ensures r.Some? <==> Normalize(raw).Some? && Normalize(raw).value in ALLOWED
    ensures r.Some? ==> r == Normalize(raw)
  {
    var e := Normalize(raw);
    if e.Some? && e.value in ALLOWED then e else None
  }

  // ---------------------------------------------------------------------------
  // Tables and lookups
  // ---------------------------------------------------------------------------

  /** A thrown error as the controller answers it: `error.status || 500` and the message. */
  datatype Failure = Failure(status: nat, message: string)

  const InvalidEstado: string := "estado inválido. Valores válidos: DISPONIBLE, BLOQUEADO"
  const ProfessorNotFound: string := "Profesor no encontrado"
  const Forbidden: string := "Sin permisos"
  const UpdatesError: string := "updates debe ser un arreglo no vacío"

  datatype Usuario = Usuario(id: string, nombre: string, carreraId: Option<string>)

  datatype Profesor = Profesor(id: string, usuarioId: string, cargaMaxHoras: int)

  /**
   * A `disponibilidad_profesor` row; both writers store the professor's user
   * id in `profesor_id`. `bloqueId` is the integer key of `TimeBlocks.Block`.
   */
  datatype Disponibilidad = Disponibilidad(profesorId: string, bloqueId: nat, estado: string)

  datatype Db = Db(usuarios: seq<Usuario>, profesores: seq<Profesor>, bloques: seq<TimeBlocks.Block>,
                   disponibilidad: seq<Disponibilidad>)

  /** The first element satisfying `p`, as `findFirst` (and `findUnique` on a unique key) returns it. */
  function First<T>(xs: seq<T>, p: T -> bool): (r: Option<T>)
    ensures r.Some? ==> r.value in xs && p(r.value)
    ensures r.None? <==> forall i :: 0 <= i < |xs| ==> !p(xs[i])
  {
    if xs == [] then None
    else if p(xs[0]) then Some(xs[0])
    else First(xs[1..], p)
  }

  datatype Found = Found(usuario: Usuario, profesor: Profesor)

  /**
   * `findProfessor`: the id is read first as a user id (then the user's
   * professor row is looked up), and only when no such user exists as a
   * professor id (then that row's user is looked up); a 404 when either
   * half is missing.
   */
  function FindProfessor(db: Db, paramId: string): (r: Result<Found, Failure>)
    ensures r.Err? ==> r.error == Failure(404, ProfessorNotFound)
    ensures r.Ok? ==> r.value.usuario in db.usuarios && r.value.profesor in db.profesores &&
                      r.value.profesor.usuarioId == r.value.usuario.id
    ensures (exists i :: 0 <= i < |db.usuarios| && db.usuarios[i].id == paramId) ==>
              (r.Ok? <==> exists j :: 0 <= j < |db.profesores| && db.profesores[j].usuarioId == paramId) &&
              (r.Ok? ==> r.value.usuario.id == paramId)
    ensures (forall i :: 0 <= i < |db.usuarios| ==> db.usuarios[i].id != paramId) ==>
              (r.Ok? ==> r.value.profesor.id == paramId)
  {
    match First(db.usuarios, (u: Usuario) => u.id == paramId)
    case Some(u) =>
      (match First(db.profesores, (p: Profesor) => p.usuarioId == u.id)
       case Some(p) => Ok(Found(u, p))
       case None => Err(Failure(404, ProfessorNotFound)))
    case None =>
      match First(db.profesores, (p: Profesor) => p.id == paramId)
      case None => Err(Failure(404, ProfessorNotFound))
      case Some(p) =>
        match First(db.usuarios, (u: Usuario) => u.id == p.usuarioId)
        case Some(u) => Ok(Found(u, p))
        case None => Err(Failure(404, ProfessorNotFound))
  }

  /** The permission rule: the professor themself or an administrator. */
  predicate MayEdit(userId: string, ownerId: string, userRole: string)
  {
    userId == ownerId || userRole == "ADMIN"
  }

  // ---------------------------------------------------------------------------
  // Availability records
  // ---------------------------------------------------------------------------

  predicate Matches(row: Disponibilidad, usuarioId: string, bloqueId: nat)
  {
    row.profesorId == usuarioId && row.bloqueId == bloqueId
  }

  /** The index of the first record of the professor for the block, or the length when there is none. */
  function FirstRecord(rows: seq<Disponibilidad>, usuarioId: string, bloqueId: nat): (k: nat)
    ensures k <= |rows|
    ensures forall i :: 0 <= i < k ==> !Matches(rows[i], usuarioId, bloqueId)
    ensures k < |rows| ==> Matches(rows[k], usuarioId, bloqueId)
  {
    if rows == [] then 0
    else if Matches(rows[0], usuarioId, bloqueId) then 0
    else 1 + FirstRecord(rows[1..], usuarioId, bloqueId)
  }

  /** The first record is the one index with a match and no match before it. */
  lemma FirstRecordIs(rows: seq<Disponibilidad>, usuarioId: string, bloqueId: nat, k: nat)
    requires k <= |rows|
    requires forall i :: 0 <= i < k ==> !Matches(rows[i], usuarioId, bloqueId)
    requires k < |rows| ==> Matches(rows[k], usuarioId, bloqueId)
    ensures FirstRecord(rows, usuarioId, bloqueId) == k
  {
    var f := FirstRecord(rows, usuarioId, bloqueId);
    assert f < |rows| ==> Matches(rows[f], usuarioId, bloqueId);
    assert k < |rows| ==> Matches(rows[k], usuarioId, bloqueId);
  }

  /** The state stored for the professor and the block: the first record's, if any. */
  function Stored(rows: seq<Disponibilidad>, usuarioId: string, bloqueId: nat): (e: Option<string>)
    ensures e.None? <==> forall i :: 0 <= i < |rows| ==> !Matches(rows[i], usuarioId, bloqueId)
    ensures e.Some? ==> exists i :: 0 <= i < |rows| && Matches(rows[i], usuarioId, bloqueId) && rows[i].estado == e.value
  {
    var k := FirstRecord(rows, usuarioId, bloqueId);
    if k < |rows| then Some(rows[k].estado) else None
  }

  /**
   * `disponibilidad_profesor[0]?.estado || 'DISPONIBLE'`: a block with no
   * record of the professor shows DISPONIBLE, a stored state shows as it is.
   */
  function Shown(rows: seq<Disponibilidad>, usuarioId: string, bloqueId: nat): (e: string)
    ensures (forall i :: 0 <= i < |rows| ==> !Matches(rows[i], usuarioId, bloqueId)) ==> e == "DISPONIBLE"
    ensures Stored(rows, usuarioId, bloqueId).Some? && Stored(rows, usuarioId, bloqueId).value != "" ==>
              e == Stored(rows, usuarioId, bloqueId).value
    ensures e != ""
  {
    match Stored(rows, usuarioId, bloqueId)
    case Some(e) => if e != "" then e else "DISPONIBLE"
    case None => "DISPONIBLE"
  }

  /** One entry of the `disponibilidad` list `getAvailability` returns. */
  datatype Slot = Slot(bloqueId: nat, dia: TimeBlocks.Day, horaInicio: int, horaFin: int, turno: Option<string>,
                       estado: string)

  /**
   * One entry per block of `bloques`, in its order; `bloques` is the result
   * of the query ordered by `dia` and then `hora_inicio`.
   */
  function SlotsOf(bloques: seq<TimeBlocks.Block>, rows: seq<Disponibilidad>, usuarioId: string): (r: seq<Slot>)
    ensures |r| == |bloques|
    ensures forall i :: 0 <= i < |r| ==>
      var b := bloques[i];
      r[i] == Slot(b.id, b.dia, b.horaInicio, b.horaFin, b.turno, Shown(rows, usuarioId, b.id))
  {
    if bloques == [] then []
    else SlotsOf(bloques[..|bloques| - 1], rows, usuarioId) + 
         [var b := bloques[|bloques| - 1]; Slot(b.id, b.dia, b.horaInicio, b.horaFin, b.turno, Shown(rows, usuarioId, b.id))]
  }

  /** `getAvailability`: every block of the catalogue, in the query's day-then-start order, with the professor's state. */
  function GetAvailability(db: Db, paramId: string): (r: Result<seq<Slot>, Failure>)
    ensures r.Err? <==> FindProfessor(db, paramId).Err?
    ensures r.Err? ==> r.error == Failure(404, ProfessorNotFound)
    ensures r.Ok? ==> r.value == SlotsOf(db.bloques, db.disponibilidad, FindProfessor(db, paramId).value.usuario.id)
  {
    match FindProfessor(db, paramId)
    case Err(e) => Err(e)
    case Ok(f) => Ok(SlotsOf(db.bloques, db.disponibilidad, f.usuario.id))
  }

  /** The update-or-create: the first record of the pair gets the state, or a new record is appended. */
  function Upsert(rows: seq<Disponibilidad>, usuarioId: string, bloqueId: nat, estado: string): (r: seq<Disponibilidad>)
    ensures Stored(r, usuarioId, bloqueId) == Some(estado)
  {
    var k := FirstRecord(rows, usuarioId, bloqueId);
    if k < |rows| then
      var r := rows[k := rows[k].(estado := estado)];
      FirstRecordIs(r, usuarioId, bloqueId, k);
      r
    else
      var r := rows + [Disponibilidad(usuarioId, bloqueId, estado)];
      FirstRecordIs(r, usuarioId, bloqueId, |rows|);
      r
  }

  /** The upsert changes the stored state of its own pair and of no other. */
  lemma UpsertOthers(rows: seq<Disponibilidad>, usuarioId: string, bloqueId: nat, estado: string, u: string, b: nat)
    requires u != usuarioId || b != bloqueId
    ensures Stored(Upsert(rows, usuarioId, bloqueId, estado), u, b) == Stored(rows, u, b)
  {
    var r := Upsert(rows, usuarioId, bloqueId, estado);
    var k := FirstRecord(rows, u, b);
    assert forall i :: 0 <= i < |rows| ==> (Matches(r[i], u, b) <==> Matches(rows[i], u, b));
    if k < |rows| {
      FirstRecordIs(r, u, b, k);
    } else {
      FirstRecordIs(r, u, b, |r|);
    }
  }

  // ---------------------------------------------------------------------------
  // updateAvailability
  // ---------------------------------------------------------------------------

  const BlockNotFound: string := "Bloque horario no encontrado"

  /** The written record and the table after the write. */
  datatype Written = Written(row: Disponibilidad, disponibilidad: seq<Disponibilidad>)

  /**
   * `updateAvailability`: the state is checked first (400), then the
   * professor is found (404), then the permission (403), then the block
   * (404); the record of the pair is updated or created.
   */
  function UpdateAvailability(db: Db, paramId: string, bloqueId: nat, rawEstado: Option<string>, userId: string,
                              userRole: string): (r: Result<Written, Failure>)
    ensures EstadoOf(rawEstado).None? ==> r == Err(Failure(400, InvalidEstado))
    ensures EstadoOf(rawEstado).Some? && FindProfessor(db, paramId).Err? ==> r == Err(Failure(404, ProfessorNotFound))
    ensures EstadoOf(rawEstado).Some? && FindProfessor(db, paramId).Ok? ==>
      var owner := FindProfessor(db, paramId).value.usuario.id;
      (r == Err(Failure(403, Forbidden)) <==> !MayEdit(userId, owner, userRole)) &&
      (MayEdit(userId, owner, userRole) && TimeBlocks.Find(db.bloques, bloqueId).None? ==>
         r == Err(Failure(404, BlockNotFound))) &&
      (r.Ok? <==> MayEdit(userId, owner, userRole) && TimeBlocks.Find(db.bloques, bloqueId).Some?) &&
      (r.Ok? ==> r.value.row == Disponibilidad(owner, bloqueId, EstadoOf(rawEstado).value) &&
                 Stored(r.value.disponibilidad, owner, bloqueId) == EstadoOf(rawEstado) &&
                 forall u: string, b: nat {:trigger Stored(r.value.disponibilidad, u, b)} ::
                   (u != owner || b != bloqueId) ==> Stored(r.value.disponibilidad, u, b) == Stored(db.disponibilidad, u, b))
  {
    match EstadoOf(rawEstado)
    case None => Err(Failure(400, InvalidEstado))
    case Some(estado) =>
      match FindProfessor(db, paramId)
      case Err(e) => Err(e)
      case Ok(f) =>
        var owner := f.usuario.id;
        if !MayEdit(userId, owner, userRole) then Err(Failure(403, Forbidden))
        else if TimeBlocks.Find(db.bloques, bloqueId).None? then Err(Failure(404, BlockNotFound))
        else
          var rows := Upsert(db.disponibilidad, owner, bloqueId, estado);
          assert forall u: string, b: nat {:trigger Stored(rows, u, b)} ::
            (u != owner || b != bloqueId) ==> Stored(rows, u, b) == Stored(db.disponibilidad, u, b) by {
            forall u: string, b: nat | u != owner || b != bloqueId
              ensures Stored(rows, u, b) == Stored(db.disponibilidad, u, b)
            {
              UpsertOthers(db.disponibilidad, owner, bloqueId, estado, u, b);
            }
          }
          Ok(Written(Disponibilidad(owner, bloqueId, estado), rows))
  }

  /** After an accepted update, `getAvailability` shows the new state at that block. */
  lemma UpdateThenShown(db: Db, paramId: string, bloqueId: nat, rawEstado: Option<string>, userId: string,
                        userRole: string, w: Written)
    requires UpdateAvailability(db, paramId, bloqueId, rawEstado, userId, userRole) == Ok(w)
    ensures var slots := GetAvailability(db.(disponibilidad := w.disponibilidad), paramId);
      slots.Ok? && forall i :: 0 <= i < |slots.value| && slots.value[i].bloqueId == bloqueId ==>
        slots.value[i].estado == EstadoOf(rawEstado).value
  {
    var after := db.(disponibilidad := w.disponibilidad);
    var f := FindProfessor(db, paramId).value;
    var e := EstadoOf(rawEstado).value;
    assert FindProfessor(after, paramId) == FindProfessor(db, paramId);
    assert Stored(w.disponibilidad, f.usuario.id, bloqueId) == Some(e);
    assert e != "" by {
      assert e in ALLOWED;
    }
    assert Shown(w.disponibilidad, f.usuario.id, bloqueId) == e;
  }

  lemma AllowedNamesAllowed()
    ensures forall e :: e in ALLOWED ==> AllAllowed(e)
  {
    assert AllAllowed("DISPONIBLE");
    assert AllAllowed("BLOQUEADO");
  }

  /** Any letter case and any surrounding white space of an allowed name is accepted as that name. */
  lemma CaseAndSpacesAccepted(s: string)
    requires ToUpper(Trim(s)) in ALLOWED
    ensures EstadoOf(Some(s)) == Some(ToUpper(Trim(s)))
  {
    var t := ToUpper(Trim(s));
    AllowedNamesAllowed();
    CollapseSpacesFixed(t);
    KeepAllowedFixed(t);
  }

  // ---------------------------------------------------------------------------
  // bulkUpdateAvailability
  // ---------------------------------------------------------------------------

  /** One element of `updates`; `estado` is whatever the body carries (`None` when it is not a text). */
  datatype Entry = Entry(bloqueId: nat, estado: Option<string>)

  /** `updates` as it arrives: an array, or any other value. */
  datatype Updates = NotArray | Array(entries: seq<Entry>)

  /** The bulk check: the state must be exactly one of the allowed names, with no normalisation. */
  predicate ExactlyAllowed(e: Entry)
  {
    e.estado.Some? && e.estado.value in ALLOWED
  }

  function EntryError(e: Entry): string
  {
    "Estado inválido para bloque " + JsText.NatText(e.bloqueId) + ". Valores permitidos: DISPONIBLE, BLOQUEADO"
  }

  /** The first entry whose state is refused. */
  function FirstRefused(entries: seq<Entry>): (r: Option<nat>)
    ensures r.None? <==> forall i :: 0 <= i < |entries| ==> ExactlyAllowed(entries[i])
    ensures r.Some? ==> r.value < |entries| && !ExactlyAllowed(entries[r.value]) &&
                        forall i :: 0 <= i < r.value ==> ExactlyAllowed(entries[i])
  {
    if entries == [] then None
    else if !ExactlyAllowed(entries[0]) then Some(0)
    else match FirstRefused(entries[1..])
         case None => None
         case Some(k) => Some(k + 1)
  }

  /** The writes of the accepted entries, one after the other in array order. */
  function WriteAccepted(rows: seq<Disponibilidad>, usuarioId: string, entries: seq<Entry>): seq<Disponibilidad>
  {
    if entries == [] then rows
    else
      var before := WriteAccepted(rows, usuarioId, entries[..|entries| - 1]);
      var e := entries[|entries| - 1];
      if ExactlyAllowed(e) then Upsert(before, usuarioId, e.bloqueId, e.estado.value) else before
  }

  /** The state of the last accepted entry for a block. */
  function LastAccepted(entries: seq<Entry>, bloqueId: nat): Option<string>
  {
    if entries == [] then None
    else
      var e := entries[|entries| - 1];
      if ExactlyAllowed(e) && e.bloqueId == bloqueId then e.estado
      else LastAccepted(entries[..|entries| - 1], bloqueId)
  }

  /** After the writes the professor's state at a block is that of the last accepted entry for it; nothing else changes. */
  lemma {:induction false} WriteAcceptedStored(rows: seq<Disponibilidad>, usuarioId: string, entries: seq<Entry>,
                                              u: string, b: nat)
    ensures Stored(WriteAccepted(rows, usuarioId, entries), u, b) ==
            if u == usuarioId && LastAccepted(entries, b).Some? then LastAccepted(entries, b) else Stored(rows, u, b)
  {
    if entries != [] {
      var init := entries[..|entries| - 1];
      var e := entries[|entries| - 1];
      WriteAcceptedStored(rows, usuarioId, init, u, b);
      if ExactlyAllowed(e) && (u != usuarioId || e.bloqueId != b) {
        UpsertOthers(WriteAccepted(rows, usuarioId, init), usuarioId, e.bloqueId, e.estado.value, u, b);
      }
    }
  }

  /** The reply and the table after the call. */
  datatype BulkOutcome = BulkOutcome(result: Result<nat, Failure>, disponibilidad: seq<Disponibilidad>)

  /** `${n} bloques actualizados`. */
  function BulkMessage(n: nat): string
  {
    JsText.NatText(n) + " bloques actualizados"
  }

  /** The guards before any entry is looked at: 400, then 403 (against the id in the path), then 404. */
  function BulkGuard(db: Db, id: string, updates: Updates, userId: string, userRole: string): (r: Option<Failure>)
    ensures r == Some(Failure(400, UpdatesError)) <==> updates.NotArray? || updates.entries == []
    ensures updates.Array? && updates.entries != [] ==>
      (r == Some(Failure(403, Forbidden)) <==> !MayEdit(userId, id, userRole))
    ensures r.None? <==>
      updates.Array? && updates.entries != [] && MayEdit(userId, id, userRole) &&
      (exists i :: 0 <= i < |db.usuarios| && db.usuarios[i].id == id) &&
      (exists j :: 0 <= j < |db.profesores| && db.profesores[j].usuarioId == id)
  {
    if updates.NotArray? || updates.entries == [] then Some(Failure(400, UpdatesError))
    else if !MayEdit(userId, id, userRole) then Some(Failure(403, Forbidden))
    else if First(db.usuarios, (u: Usuario) => u.id == id).None? ||
            First(db.profesores, (p: Profesor) => p.usuarioId == id).None? then
      Some(Failure(404, ProfessorNotFound))
    else None
  }

  /**
   * `bulkUpdateAvailability` as written: each entry's state is checked inside
   * its own callback of `Promise.all`, so a refused entry rejects the call
   * (500, the first refused entry's message) while the callbacks of the
   * accepted entries, already running, still write.
   */
  function BulkUpdateAsWritten(db: Db, id: string, updates: Updates, userId: string, userRole: string): (r: BulkOutcome)
    ensures BulkGuard(db, id, updates, userId, userRole).Some? ==>
      r == BulkOutcome(Err(BulkGuard(db, id, updates, userId, userRole).value), db.disponibilidad)
    ensures BulkGuard(db, id, updates, userId, userRole).None? ==>
      var refused := FirstRefused(updates.entries);
      r.disponibilidad == WriteAccepted(db.disponibilidad, id, updates.entries) &&
      (refused.Some? ==> r.result == Err(Failure(500, EntryError(updates.entries[refused.value])))) &&
      (refused.None? ==> r.result == Ok(|updates.entries|))
  {
    match BulkGuard(db, id, updates, userId, userRole)
    case Some(f) => BulkOutcome(Err(f), db.disponibilidad)
    case None =>
      var rows := WriteAccepted(db.disponibilidad, id, updates.entries);
      match FirstRefused(updates.entries)
      case Some(k) => BulkOutcome(Err(Failure(500, EntryError(updates.entries[k]))), rows)
      case None => BulkOutcome(Ok(|updates.entries|), rows)
  }

  /** As written, a refused call still writes the accepted entries. */
  lemma RefusedBulkStillWrites(db: Db, id: string, bloqueId: nat, userId: string, userRole: string)
    requires BulkGuard(db, id, Array([Entry(bloqueId, Some("DISPONIBLE")), Entry(bloqueId + 1, Some("disponible"))]),
                       userId, userRole).None?
    ensures var r := BulkUpdateAsWritten(db, id, Array([Entry(bloqueId, Some("DISPONIBLE")), Entry(bloqueId + 1, Some("disponible"))]),
                                         userId, userRole);
      r.result.Err? && Stored(r.disponibilidad, id, bloqueId) == Some("DISPONIBLE")
  {
    var entries := [Entry(bloqueId, Some("DISPONIBLE")), Entry(bloqueId + 1, Some("disponible"))];
    assert !ExactlyAllowed(entries[1]);
    assert entries[..1] == [entries[0]];
    assert LastAccepted(entries, bloqueId) == Some("DISPONIBLE");
    WriteAcceptedStored(db.disponibilidad, id, entries, id, bloqueId);
  }

  /**
   * `bulkUpdateAvailability` with every state checked before any write: a
   * refused call leaves the table as it was, an accepted one writes every
   * entry and reports their number.
   */
  function BulkUpdate(db: Db, id: string, updates: Updates, userId: string, userRole: string): (r: BulkOutcome)
    ensures r.result.Err? ==> r.disponibilidad == db.disponibilidad
    ensures BulkUpdateAsWritten(db, id, updates, userId, userRole).result.Ok? ==>
              r == BulkUpdateAsWritten(db, id, updates, userId, userRole)
    ensures r.result.Ok? <==> BulkGuard(db, id, updates, userId, userRole).None? && FirstRefused(updates.entries).None?
    ensures r.result.Ok? ==> (
      r.result.value == |updates.entries| &&
      forall u: string, b: nat {:trigger Stored(r.disponibilidad, u, b)} ::
        Stored(r.disponibilidad, u, b) ==
        if u == id && LastAccepted(updates.entries, b).Some? then LastAccepted(updates.entries, b) else Stored(db.disponibilidad, u, b))
  {
    match BulkGuard(db, id, updates, userId, userRole)
    case Some(f) => BulkOutcome(Err(f), db.disponibilidad)
    case None =>
      match FirstRefused(updates.entries)
      case Some(k) => BulkOutcome(Err(Failure(500, EntryError(updates.entries[k]))), db.disponibilidad)
      case None =>
        var rows := WriteAccepted(db.disponibilidad, id, updates.entries);
        assert forall u: string, b: nat {:trigger Stored(rows, u, b)} ::
          Stored(rows, u, b) ==
          if u == id && LastAccepted(updates.entries, b).Some? then LastAccepted(updates.entries, b) else Stored(db.disponibilidad, u, b) by {
          forall u: string, b: nat
            ensures Stored(rows, u, b) ==
              if u == id && LastAccepted(updates.entries, b).Some? then LastAccepted(updates.entries, b) else Stored(db.disponibilidad, u, b)
          {
            WriteAcceptedStored(db.disponibilidad, id, updates.entries, u, b);
          }
        }
        BulkOutcome(Ok(|updates.entries|), rows)
  }

  /**
   * Unlike the single update, the bulk update does not normalise: a name in
   * other letter case or with surrounding spaces, which `updateAvailability`
   * stores, is refused here.
   */
  lemma BulkRefusesWhatSingleAccepts(db: Db, id: string, bloqueId: nat, s: string, userId: string, userRole: string)
    requires ToUpper(Trim(s)) in ALLOWED && s !in ALLOWED
    requires BulkGuard(db, id, Array([Entry(bloqueId, Some(s))]), userId, userRole).None?
    ensures BulkUpdate(db, id, Array([Entry(bloqueId, Some(s))]), userId, userRole).result ==
            Err(Failure(500, EntryError(Entry(bloqueId, Some(s)))))
    ensures EstadoOf(Some(s)) == Some(ToUpper(Trim(s)))
  {
    CaseAndSpacesAccepted(s);
  }

  // ---------------------------------------------------------------------------
  // updateProfile
  // ---------------------------------------------------------------------------

  /** The fields of the request body; `None` stands for `undefined`. */
  datatype ProfilePatch = ProfilePatch(nombre: Option<string>, cargaMaxHoras: Option<int>, carreraId: JsStr)

  function SetCarga(ps: seq<Profesor>, id: string, carga: Option<int>): (r: seq<Profesor>)
    ensures |r| == |ps|
    ensures forall i :: 0 <= i < |ps| ==>
      r[i] == if ps[i].id == id && carga.Some? then ps[i].(cargaMaxHoras := carga.value) else ps[i]
  {
    if ps == [] then []
    else
      var p := ps[0];
      [if p.id == id && carga.Some? then p.(cargaMaxHoras := carga.value) else p] + SetCarga(ps[1..], id, carga)
  }

  /** The `usuarios` update: `nombre` when given, `carrera_id` when given (a `null` clears it). */
  function PatchUsuario(u: Usuario, patch: ProfilePatch): Usuario
  {
    var nombre := if patch.nombre.Some? then patch.nombre.value else u.nombre;
    var carrera := match patch.carreraId
      case Undefined => u.carreraId
      case Null => None
      case Str(s) => Some(s);
    Usuario(u.id, nombre, carrera)
  }

  function SetUsuario(us: seq<Usuario>, id: string, patch: ProfilePatch): (r: seq<Usuario>)
    ensures |r| == |us|
    ensures forall i :: 0 <= i < |us| ==> r[i] == if us[i].id == id then PatchUsuario(us[i], patch) else us[i]
  {
    if us == [] then []
    else [if us[0].id == id then PatchUsuario(us[0], patch) else us[0]] + SetUsuario(us[1..], id, patch)
  }

  /**
   * `updateProfile`: the professor is found (404) and the permission checked
   * (403); then each of the three fields is written only when supplied.
   */
  function UpdateProfile(db: Db, paramId: string, patch: ProfilePatch, userId: string, userRole: string): (r: Result<Db, Failure>)
    ensures FindProfessor(db, paramId).Err? ==> r == Err(Failure(404, ProfessorNotFound))
    ensures FindProfessor(db, paramId).Ok? ==>
      var f := FindProfessor(db, paramId).value;
      (r.Err? <==> !MayEdit(userId, f.usuario.id, userRole)) &&
      (r.Err? ==> r.error == Failure(403, Forbidden)) &&
      (r.Ok? ==> (
        var after := r.value;
        after.disponibilidad == db.disponibilidad && after.bloques == db.bloques &&
        |after.profesores| == |db.profesores| && |after.usuarios| == |db.usuarios| &&
        (forall i :: 0 <= i < |db.profesores| ==>
           after.profesores[i] == db.profesores[i].(cargaMaxHoras := after.profesores[i].cargaMaxHoras) &&
           after.profesores[i].cargaMaxHoras ==
           (if db.profesores[i].id == f.profesor.id && patch.cargaMaxHoras.Some? then patch.cargaMaxHoras.value
            else db.profesores[i].cargaMaxHoras)) &&
        (forall i :: 0 <= i < |db.usuarios| ==>
           after.usuarios[i].id == db.usuarios[i].id &&
           after.usuarios[i].nombre ==
           (if db.usuarios[i].id == f.usuario.id && patch.nombre.Some? then patch.nombre.value
            else db.usuarios[i].nombre) &&
           after.usuarios[i].carreraId ==
           (if db.usuarios[i].id == f.usuario.id && !patch.carreraId.Undefined? then
              (if patch.carreraId.Str? then Some(patch.carreraId.s) else None)
            else db.usuarios[i].carreraId))))
  {
    match FindProfessor(db, paramId)
    case Err(e) => Err(e)
    case Ok(f) =>
      if !MayEdit(userId, f.usuario.id, userRole) then Err(Failure(403, Forbidden))
      else Ok(db.(profesores := SetCarga(db.profesores, f.profesor.id, patch.cargaMaxHoras),
                  usuarios := SetUsuario(db.usuarios, f.usuario.id, patch)))
  }

  /** A body with none of the three fields changes nothing. */
  lemma EmptyProfilePatch(db: Db, paramId: string, userId: string, userRole: string)
    requires FindProfessor(db, paramId).Ok? && MayEdit(userId, FindProfessor(db, paramId).value.usuario.id, userRole)
    ensures UpdateProfile(db, paramId, ProfilePatch(None, None, Undefined), userId, userRole) == Ok(db)
  {
    var f := FindProfessor(db, paramId).value;
    var patch := ProfilePatch(None, None, Undefined);
    var ps := SetCarga(db.profesores, f.profesor.id, None);
    var us := SetUsuario(db.usuarios, f.usuario.id, patch);
    assert ps == db.profesores;
    assert forall i :: 0 <= i < |us| ==> us[i] == db.usuarios[i];
    assert us == db.usuarios;
  }
}
