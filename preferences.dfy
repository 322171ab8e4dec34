/**
 * `savePreferences` (`backend/src/services/preferences.service.js`): the
 * frontend's lower-case labels for the shift, the compaction and the days
 * to avoid become the database's values, with defaults for anything it does
 * not recognise, and one upsert writes the same row whether or not the user
 * had one.
 */
module Preferences {
  import opened Common
  import TimeBlocks

  /** `turnoMap[turno] || 'MANANA'`: the three lower-case labels map to their names, anything else to MANANA. */
  function TurnoEnum(turno: Option<string>): (t: string)
    ensures t in TimeBlocks.ValidTurnos
    ensures turno == Some("tarde") <==> t == "TARDE"
    ensures turno == Some("noche") <==> t == "NOCHE"
  {
    match turno
    case Some("manana") => "MANANA"
    case Some("tarde") => "TARDE"
    case Some("noche") => "NOCHE"
    case _ => "MANANA"
  }

  /** `compactacionMap[compactacion] || 5`: baja 3, media 5, alta 8, anything else 5. */
  function CompactacionValue(compactacion: Option<string>): (c: int)
    ensures c == 3 || c == 5 || c == 8
    ensures c == 3 <==> compactacion == Some("baja")
    ensures c == 8 <==> compactacion == Some("alta")
  {
    match compactacion
    case Some("baja") => 3
    case Some("media") => 5
    case Some("alta") => 8
    case _ => 5
  }

  /** The Spanish name of a day, as the frontend sends it. */
  function FullName(d: TimeBlocks.Day): string
  {
    match d
    case LUN => "lunes" case MAR => "martes" case MIE => "miercoles" case JUE => "jueves"
    case VIE => "viernes" case SAB => "sabado" case DOM => "domingo"
  }

  /** `diasMap`: a full lower-case day name to its abbreviation. */
  function DiaEnum(name: string): (r: Option<string>)
    ensures r.Some? ==> r.value in TimeBlocks.ValidDays
    ensures forall d :: r == Some(TimeBlocks.DayName(d)) <==> FullName(d) == name
  {
    match name
    case "lunes" => Some("LUN") case "martes" => Some("MAR") case "miercoles" => Some("MIE")
    case "jueves" => Some("JUE") case "viernes" => Some("VIE") case "sabado" => Some("SAB")
    case "domingo" => Some("DOM")
    case _ => None
  }

  /** `diasEvitar` as it arrives: an array of texts or any other value. */
  datatype DiasField = NotArray | Array(items: seq<string>)

  /** `.map(dia => diasMap[dia.toLowerCase()]).filter(Boolean)`. */
  function MapDays(items: seq<string>): (r: seq<string>)
    ensures |r| <= |items|
    ensures forall i :: 0 <= i < |r| ==> r[i] in TimeBlocks.ValidDays
  {
    if items == [] then []
    else
      var rest := MapDays(items[..|items| - 1]);
      match DiaEnum(ToLower(items[|items| - 1]))
      case None => rest
      case Some(d) => rest + [d]
  }

  /** A non-array gives no days; an array gives its recognised entries, in order. */
  function EvitarDias(dias: DiasField): (r: seq<string>)
    ensures dias.NotArray? ==> r == []
    ensures dias.Array? ==> r == MapDays(dias.items)
  {
    if dias.Array? then MapDays(dias.items) else []
  }

  /** An abbreviation is in the result exactly when some entry, lower-cased, maps to it. */
  lemma {:induction false} MapDaysMember(items: seq<string>, x: string)
    ensures x in MapDays(items) <==> exists i :: 0 <= i < |items| && DiaEnum(ToLower(items[i])) == Some(x)
  {
    if items != [] {
      var init := items[..|items| - 1];
      MapDaysMember(init, x);
      if x in MapDays(items) && x !in MapDays(init) {
        assert DiaEnum(ToLower(items[|items| - 1])) == Some(x);
      }
      if exists i :: 0 <= i < |items| && DiaEnum(ToLower(items[i])) == Some(x) {
        var i :| 0 <= i < |items| && DiaEnum(ToLower(items[i])) == Some(x);
        if i < |init| {
          assert init[i] == items[i];
        }
      }
      if exists i :: 0 <= i < |init| && DiaEnum(ToLower(init[i])) == Some(x) {
        var i :| 0 <= i < |init| && DiaEnum(ToLower(init[i])) == Some(x);
        assert items[i] == init[i];
      }
    }
  }

  /** A day is avoided exactly when some entry is its full name in some letter case. */
  lemma AvoidedDay(items: seq<string>, d: TimeBlocks.Day)
    ensures TimeBlocks.DayName(d) in MapDays(items) <==> exists i :: 0 <= i < |items| && ToLower(items[i]) == FullName(d)
  {
    MapDaysMember(items, TimeBlocks.DayName(d));
    if exists i :: 0 <= i < |items| && ToLower(items[i]) == FullName(d) {
      var i :| 0 <= i < |items| && ToLower(items[i]) == FullName(d);
      assert DiaEnum(ToLower(items[i])) == Some(TimeBlocks.DayName(d));
    }
  }

  /** When every entry is a day's name in some letter case, each one maps, so none is lost. */
  lemma {:induction false} MapDaysKeepsNames(items: seq<string>)
    requires forall i :: 0 <= i < |items| ==> DiaEnum(ToLower(items[i])).Some?
    ensures |MapDays(items)| == |items|
  {
    if items != [] {
      var init := items[..|items| - 1];
      assert forall i :: 0 <= i < |init| ==> init[i] == items[i];
      MapDaysKeepsNames(init);
    }
  }

  /** `pesos`: the mapped shift with both weights at 1. */
  datatype Pesos = Pesos(turno: string, pesoTurno: int, pesoCompactacion: int)

  /** The fields the upsert writes. */
  datatype Saved = Saved(turnoPreferido: string, compactacion: int, evitarDias: seq<string>, pesos: Pesos)

  /** The mapped preferences. */
  function MapPreferences(turno: Option<string>, dias: DiasField, compactacion: Option<string>): (s: Saved)
    ensures s.turnoPreferido in TimeBlocks.ValidTurnos
    ensures s.pesos == Pesos(s.turnoPreferido, 1, 1)
    ensures s.compactacion == 3 || s.compactacion == 5 || s.compactacion == 8
    ensures forall i :: 0 <= i < |s.evitarDias| ==> s.evitarDias[i] in TimeBlocks.ValidDays
  {
    var t := TurnoEnum(turno);
    Saved(t, CompactacionValue(compactacion), EvitarDias(dias), Pesos(t, 1, 1))
  }

  /** A `preferencias_usuario` row. */
  datatype Row = Row(usuarioId: string, turnoPreferido: string, compactacion: int, evitarDias: seq<string>, pesos: Pesos)

  /**
   * `savePreferences`: the upsert on `usuario_id`, whose update and create
   * branches write the same values, so the stored row does not depend on
   * whether the user had one.
   */
  function SavePreferences(existing: Option<Row>, usuarioId: string, turno: Option<string>, dias: DiasField,
                           compactacion: Option<string>): (r: Row)
    requires existing.Some? ==> existing.value.usuarioId == usuarioId
    ensures r.usuarioId == usuarioId
    ensures var s := MapPreferences(turno, dias, compactacion);
      r == Row(usuarioId, s.turnoPreferido, s.compactacion, s.evitarDias, s.pesos)
  {
    var s := MapPreferences(turno, dias, compactacion);
    match existing
    case Some(row) => row.(turnoPreferido := s.turnoPreferido, compactacion := s.compactacion,
                           evitarDias := s.evitarDias, pesos := s.pesos)
    case None => Row(usuarioId, s.turnoPreferido, s.compactacion, s.evitarDias, s.pesos)
  }

  /** The labels the frontend offers round-trip: the full name of every day comes back as that day. */
  lemma DayLabelsRoundTrip(d: TimeBlocks.Day)
    ensures MapDays([FullName(d)]) == [TimeBlocks.DayName(d)]
  {
    LowerFixed(FullName(d));
    assert [FullName(d)][..0] == [];
  }

  /** A text without capitals is its own lower case. */
  lemma LowerFixed(s: string)
    requires forall i :: 0 <= i < |s| ==> !('A' <= s[i] <= 'Z')
    ensures ToLower(s) == s
  {
  }

  /** The shift is not lower-cased first: the database's own name "TARDE" is read as the default MANANA. */
  lemma UpperCaseShiftIsDefault()
    ensures TurnoEnum(Some("TARDE")) == "MANANA"
  {
  }
}
