/**
 * The time-block catalogue (`backend/src/services/timeBlocks.service.js`):
 * the day, shift and `HH:MM:SS` validators, the day-then-start order of the
 * listing, and the rules of creating, updating and deleting a block. The
 * database is a sequence of stored blocks; a time is stored as the
 * milliseconds of `1970-01-01T<time>Z`.
 */
module TimeBlocks {
  import opened Common
  import Sorting

  // ---------------------------------------------------------------------------
  // Days, shifts and times
  // ---------------------------------------------------------------------------

  datatype Day = LUN | MAR | MIE | JUE | VIE | SAB | DOM

  const ValidDays: seq<string> := ["LUN", "MAR", "MIE", "JUE", "VIE", "SAB", "DOM"]

  const ValidTurnos: seq<string> := ["MANANA", "TARDE", "NOCHE"]

  const DayError := "Día inválido. Valores permitidos: LUN, MAR, MIE, JUE, VIE, SAB, DOM"
  const TurnoError := "Turno inválido. Valores permitidos: MANANA, TARDE, NOCHE"
  const FormatError := "Formato de hora inválido. Use HH:MM:SS"
  const NotFound := "Bloque horario no encontrado"

  function DayName(d: Day): string
  {
    match d
    case LUN => "LUN" case MAR => "MAR" case MIE => "MIE" case JUE => "JUE"
    case VIE => "VIE" case SAB => "SAB" case DOM => "DOM"
  }

  /** `validateDay`: a day name is accepted exactly when it is one of the seven, and it names that day. */
  function DayOf(s: string): (r: Option<Day>)
    ensures r.Some? <==> s in ValidDays
    ensures forall d :: r == Some(d) <==> DayName(d) == s
  {
    match s
    case "LUN" => Some(LUN) case "MAR" => Some(MAR) case "MIE" => Some(MIE) case "JUE" => Some(JUE)
    case "VIE" => Some(VIE) case "SAB" => Some(SAB) case "DOM" => Some(DOM)
    case _ => None
  }

  /** `daysOrder`: the position, counted from 1, of the day in the list of valid days. */
  function DayIndex(d: Day): (n: nat)
    ensures 1 <= n <= 7 && ValidDays[n - 1] == DayName(d)
  {
    match d
    case LUN => 1 case MAR => 2 case MIE => 3 case JUE => 4
    case VIE => 5 case SAB => 6 case DOM => 7
  }

  lemma DayIndexInjective(a: Day, b: Day)
    ensures DayIndex(a) == DayIndex(b) <==> a == b
  {
    if DayIndex(a) == DayIndex(b) {
      assert DayName(a) == DayName(b);
      assert DayOf(DayName(a)) == Some(a);
    }
  }

  /** `validateTurno`: an absent or empty shift, or one of the three names. */
  predicate TurnoOk(t: JsStr)
  {
    !t.Truthy() || t.s in ValidTurnos
  }

  predicate IsDigit(c: char) { '0' <= c <= '9' }

  function Digit(c: char): (n: nat)
    requires IsDigit(c)
    ensures n < 10
  {
    (c as int - '0' as int)
  }

  function DigitChar(n: nat): (c: char)
    requires n < 10
    ensures IsDigit(c) && Digit(c) == n
  {
    ('0' as int + n) as char
  }

  /** `timeRegex`, `^([01]\d|2[0-3]):([0-5]\d):([0-5]\d)$`, on a string. */
  predicate IsTime(t: string)
  {
    |t| == 8 && t[2] == ':' && t[5] == ':' &&
    IsDigit(t[0]) && IsDigit(t[1]) && IsDigit(t[3]) && IsDigit(t[4]) && IsDigit(t[6]) && IsDigit(t[7]) &&
    (t[0] == '0' || t[0] == '1' || (t[0] == '2' && t[1] <= '3')) &&
    t[3] <= '5' && t[6] <= '5'
  }

  function TwoDigits(t: string, i: nat): (n: nat)
    requires i + 1 < |t| && IsDigit(t[i]) && IsDigit(t[i + 1])
    ensures n < 100
  {
    Digit(t[i]) * 10 + Digit(t[i + 1])
  }

  function Pad2(n: nat): (s: string)
    requires n < 100
    ensures |s| == 2 && IsDigit(s[0]) && IsDigit(s[1]) && TwoDigits(s, 0) == n
  {
    [DigitChar(n / 10), DigitChar(n % 10)]
  }

  /** `convertToDateTime`: the milliseconds of the time on 1 January 1970, UTC; within one day. */
  function TimeMillis(t: string): (ms: int)
    requires IsTime(t)
    ensures 0 <= ms < 86400000 && ms % 1000 == 0
  {
    ((TwoDigits(t, 0) * 60 + TwoDigits(t, 3)) * 60 + TwoDigits(t, 6)) * 1000
  }

  /** The `HH:MM:SS` text of a time of day. */
  function TimeText(h: nat, m: nat, s: nat): (t: string)
    requires h < 24 && m < 60 && s < 60
    ensures IsTime(t) && TimeMillis(t) == ((h * 60 + m) * 60 + s) * 1000
  {
    Pad2(h) + ":" + Pad2(m) + ":" + Pad2(s)
  }

  /** The accepted strings are exactly the texts of the times of a day, and each names one time. */
  lemma IsTimeIff(t: string)
    ensures IsTime(t) <==> exists h: nat, m: nat, s: nat :: h < 24 && m < 60 && s < 60 && t == TimeText(h, m, s)
  {
    if IsTime(t) {
      var h, m, s := TwoDigits(t, 0), TwoDigits(t, 3), TwoDigits(t, 6);
      PadOfDigits(t, 0);
      PadOfDigits(t, 3);
      PadOfDigits(t, 6);
      assert t == TimeText(h, m, s);
    }
  }

  /** Two digits read as a number and written back give the same two characters. */
  lemma PadOfDigits(t: string, i: nat)
    requires i + 1 < |t| && IsDigit(t[i]) && IsDigit(t[i + 1])
    ensures Pad2(TwoDigits(t, i)) == t[i..i + 2]
  {
    var n := TwoDigits(t, i);
    assert n / 10 == Digit(t[i]) && n % 10 == Digit(t[i + 1]);
  }

  /** A number written in base `n` has one pair of leading part and last digit. */
  lemma Positional(x: int, y: int, a: int, b: int, n: int)
    requires 0 <= a < n && 0 <= b < n && x * n + a == y * n + b
    ensures x == y && a == b
  {
    assert (x - y) * n == b - a;
    MulAtLeast(x - y, n);
  }

  /** A non-zero multiple of a positive `n` is at least `n` away from zero. */
  lemma MulAtLeast(d: int, n: int)
    requires n > 0
    ensures d >= 1 ==> d * n >= n
    ensures d <= -1 ==> d * n <= -n
  {
    if d >= 1 {
      assert d * n == (d - 1) * n + n;
    } else if d <= -1 {
      assert d * n == (d + 1) * n - n;
    }
  }

  lemma TwoDigitsInjective(a: string, b: string, i: nat)
    requires i + 1 < |a| && IsDigit(a[i]) && IsDigit(a[i + 1])
    requires i + 1 < |b| && IsDigit(b[i]) && IsDigit(b[i + 1])
    requires TwoDigits(a, i) == TwoDigits(b, i)
    ensures a[i] == b[i] && a[i + 1] == b[i + 1]
  {
    Positional(Digit(a[i]), Digit(b[i]), Digit(a[i + 1]), Digit(b[i + 1]), 10);
  }

  /** Hours, minutes and seconds are read back from the milliseconds they make. */
  lemma HmsInjective(ha: int, ma: int, sa: int, hb: int, mb: int, sb: int)
    requires 0 <= ma < 60 && 0 <= mb < 60 && 0 <= sa < 60 && 0 <= sb < 60
    requires ((ha * 60 + ma) * 60 + sa) * 1000 == ((hb * 60 + mb) * 60 + sb) * 1000
    ensures ha == hb && ma == mb && sa == sb
  {
    Positional((ha * 60 + ma) * 60 + sa, (hb * 60 + mb) * 60 + sb, 0, 0, 1000);
    Positional(ha * 60 + ma, hb * 60 + mb, sa, sb, 60);
    Positional(ha, hb, ma, mb, 60);
  }

  /** Two accepted strings stand for the same instant only when they are the same string. */
  lemma TimeMillisInjective(a: string, b: string)
    requires IsTime(a) && IsTime(b)
    ensures TimeMillis(a) == TimeMillis(b) <==> a == b
  {
    if TimeMillis(a) == TimeMillis(b) {
      assert TwoDigits(a, 3) < 60 && TwoDigits(b, 3) < 60 && TwoDigits(a, 6) < 60 && TwoDigits(b, 6) < 60;
      HmsInjective(TwoDigits(a, 0), TwoDigits(a, 3), TwoDigits(a, 6), TwoDigits(b, 0), TwoDigits(b, 3), TwoDigits(b, 6));
      TwoDigitsInjective(a, b, 0);
      TwoDigitsInjective(a, b, 3);
      TwoDigitsInjective(a, b, 6);
      assert forall i :: 0 <= i < 8 ==> a[i] == b[i];
    }
  }

  // ---------------------------------------------------------------------------
  // Stored blocks and the listing
  // ---------------------------------------------------------------------------

  /**
   * A row of `bloques_horarios`; start and end in milliseconds. The id is
   * the table's integer key; the modules that only compare block ids for
   * equality (the generators and the enrollment controllers) carry it as
   * text, which changes none of their results.
   */
  datatype Block = Block(id: nat, dia: Day, horaInicio: int, horaFin: int, turno: Option<string>)

  /** The identity the services keep unique: day, start and end. */
  datatype Slot = Slot(dia: Day, horaInicio: int, horaFin: int)

  function SlotOf(b: Block): Slot { Slot(b.dia, b.horaInicio, b.horaFin) }

  /** No two stored blocks share their day, start and end. */
  ghost predicate SlotsUnique(blocks: seq<Block>)
  {
    forall i, j :: 0 <= i < j < |blocks| ==> SlotOf(blocks[i]) != SlotOf(blocks[j])
  }

  ghost predicate IdsUnique(blocks: seq<Block>)
  {
    forall i, j :: 0 <= i < j < |blocks| ==> blocks[i].id != blocks[j].id
  }

  /** The order key of `sortTimeBlocks`: the day's index, then the start. */
  datatype SortKey = SortKey(day: nat, start: int)

  function KeyOf(b: Block): SortKey { SortKey(DayIndex(b.dia), b.horaInicio) }

  /** The comparator: an earlier day first, on the same day an earlier start first. */
  function KeyLe(a: SortKey, b: SortKey): bool
  {
    a.day < b.day || (a.day == b.day && a.start <= b.start)
  }

  function StartOf(b: Block): int { b.horaInicio }

  lemma KeyLeIsTotalPreorder()
    ensures Sorting.TotalPreorder(KeyLe)
  {
  }

  /** The `where` of `getAllTimeBlocks`: a filter applies only when given. */
  predicate Matches(b: Block, dia: JsStr, turno: JsStr)
  {
    (!dia.Truthy() || DayName(b.dia) == dia.s) && (!turno.Truthy() || b.turno == Some(turno.s))
  }

  function Filter(blocks: seq<Block>, dia: JsStr, turno: JsStr): (r: seq<Block>)
    ensures |r| <= |blocks|
  {
    if blocks == [] then []
    else
      var rest := Filter(blocks[..|blocks| - 1], dia, turno);
      var last := blocks[|blocks| - 1];
      if Matches(last, dia, turno) then rest + [last] else rest
  }

  lemma {:induction false} FilterMember(blocks: seq<Block>, dia: JsStr, turno: JsStr, b: Block)
    ensures b in Filter(blocks, dia, turno) <==> b in blocks && Matches(b, dia, turno)
  {
    if blocks != [] {
      var init := blocks[..|blocks| - 1];
      FilterMember(init, dia, turno, b);
      assert blocks == init + [blocks[|blocks| - 1]];
    }
  }

  datatype Listing = Listing(timeBlocks: seq<Block>, total: nat)

  /**
   * `getAllTimeBlocks`: the matching rows, ordered by start by the query and
   * then by day and start by `sortTimeBlocks`, and their number.
   */
  function GetAllTimeBlocks(blocks: seq<Block>, dia: JsStr, turno: JsStr): Listing
  {
    var rows := Sorting.SortBy(Filter(blocks, dia, turno), StartOf, Sorting.LeInt);
    var sorted := Sorting.SortBy(rows, KeyOf, KeyLe);
    Listing(sorted, |sorted|)
  }

  /**
   * The listing holds exactly the matching blocks, each as often as it is
   * stored, ordered by day and then by start, and its total is its length.
   */
  lemma ListingSorted(blocks: seq<Block>, dia: JsStr, turno: JsStr)
    ensures var l := GetAllTimeBlocks(blocks, dia, turno);
      Sorting.SortedBy(l.timeBlocks, KeyOf, KeyLe) &&
      multiset(l.timeBlocks) == multiset(Filter(blocks, dia, turno)) &&
      l.total == |l.timeBlocks|
  {
    var rows := Sorting.SortBy(Filter(blocks, dia, turno), StartOf, Sorting.LeInt);
    KeyLeIsTotalPreorder();
    Sorting.SortBySorted(rows, KeyOf, KeyLe);
  }

  lemma ListingMember(blocks: seq<Block>, dia: JsStr, turno: JsStr, b: Block)
    ensures b in GetAllTimeBlocks(blocks, dia, turno).timeBlocks <==> b in blocks && Matches(b, dia, turno)
  {
    var f := Filter(blocks, dia, turno);
    var l := GetAllTimeBlocks(blocks, dia, turno).timeBlocks;
    assert multiset(l) == multiset(f);
    assert b in l <==> b in multiset(l);
    assert b in f <==> b in multiset(f);
    FilterMember(blocks, dia, turno, b);
  }

  /** The block with the id, if any (`findUnique`). */
  function Find(blocks: seq<Block>, id: nat): (r: Option<Block>)
    ensures r.Some? ==> r.value in blocks && r.value.id == id
    ensures r.None? ==> forall i :: 0 <= i < |blocks| ==> blocks[i].id != id
  {
    if blocks == [] then None
    else if blocks[0].id == id then Some(blocks[0])
    else Find(blocks[1..], id)
  }

  /** `getTimeBlockById`. */
  function GetTimeBlockById(blocks: seq<Block>, id: nat): (r: Result<Block, string>)
    ensures r.Err? <==> (forall i :: 0 <= i < |blocks| ==> blocks[i].id != id)
    ensures r.Err? ==> r.error == NotFound
    ensures r.Ok? ==> r.value in blocks && r.value.id == id
  {
    match Find(blocks, id)
    case None => Err(NotFound)
    case Some(b) => Ok(b)
  }

  /** Some stored block other than `except` occupies the slot (`findFirst` with `NOT: { id }`). */
  predicate Occupied(blocks: seq<Block>, s: Slot, except: Option<nat>)
  {
    exists i :: 0 <= i < |blocks| && SlotOf(blocks[i]) == s && Some(blocks[i].id) != except
  }

  // ---------------------------------------------------------------------------
  // createTimeBlock
  // ---------------------------------------------------------------------------

  /**
   * `createTimeBlock`: day, start and end are required; the day, a given
   * shift and both times are validated; an identical slot is refused; the
   * shift is stored as null when absent or empty. `newId` is the id the
   * database assigns.
   */
  function CreateTimeBlock(blocks: seq<Block>, dia: JsStr, horaInicio: JsStr, horaFin: JsStr, turno: JsStr,
                           newId: nat): (r: Result<Block, string>)
    ensures !dia.Truthy() || !horaInicio.Truthy() || !horaFin.Truthy() ==>
      r == Err("Día, hora de inicio y hora de fin son obligatorios")
    ensures r.Ok? <==>
      dia.Truthy() && horaInicio.Truthy() && horaFin.Truthy() &&
      dia.s in ValidDays && TurnoOk(turno) && IsTime(horaInicio.s) && IsTime(horaFin.s) &&
      !Occupied(blocks, Slot(DayOf(dia.s).value, TimeMillis(horaInicio.s), TimeMillis(horaFin.s)), None)
    ensures r.Ok? ==>
      r.value.id == newId && DayName(r.value.dia) == dia.s &&
      r.value.horaInicio == TimeMillis(horaInicio.s) && r.value.horaFin == TimeMillis(horaFin.s) &&
      (r.value.turno == None <==> !turno.Truthy()) &&
      (turno.Truthy() ==> r.value.turno == Some(turno.s))
  {
    if !dia.Truthy() || !horaInicio.Truthy() || !horaFin.Truthy() then
      Err("Día, hora de inicio y hora de fin son obligatorios")
    else if DayOf(dia.s).None? then Err(DayError)
    else if !TurnoOk(turno) then Err(TurnoError)
    else if !IsTime(horaInicio.s) || !IsTime(horaFin.s) then Err(FormatError)
    else
      var s := Slot(DayOf(dia.s).value, TimeMillis(horaInicio.s), TimeMillis(horaFin.s));
      if Occupied(blocks, s, None) then Err("Ya existe un bloque con el mismo día y horario")
      else Ok(Block(newId, s.dia, s.horaInicio, s.horaFin, if turno.Truthy() then Some(turno.s) else None))
  }

  /** Creation keeps the slots of the catalogue unique. */
  lemma CreatePreservesUnique(blocks: seq<Block>, dia: JsStr, horaInicio: JsStr, horaFin: JsStr, turno: JsStr, newId: nat)
    requires SlotsUnique(blocks)
    requires CreateTimeBlock(blocks, dia, horaInicio, horaFin, turno, newId).Ok?
    ensures SlotsUnique(blocks + [CreateTimeBlock(blocks, dia, horaInicio, horaFin, turno, newId).value])
  {
    var b := CreateTimeBlock(blocks, dia, horaInicio, horaFin, turno, newId).value;
    var nb := blocks + [b];
    forall i, j | 0 <= i < j < |nb| ensures SlotOf(nb[i]) != SlotOf(nb[j]) {
      if j == |blocks| {
        assert nb[i] == blocks[i];
        assert DayOf(dia.s) == Some(b.dia);
      }
    }
  }

  /** Creating the same block twice: the second request is refused as a duplicate. */
  lemma CreateTwiceRefused(blocks: seq<Block>, dia: JsStr, horaInicio: JsStr, horaFin: JsStr, turno: JsStr, id1: nat, id2: nat)
    requires CreateTimeBlock(blocks, dia, horaInicio, horaFin, turno, id1).Ok?
    ensures var nb := blocks + [CreateTimeBlock(blocks, dia, horaInicio, horaFin, turno, id1).value];
      CreateTimeBlock(nb, dia, horaInicio, horaFin, turno, id2) == Err("Ya existe un bloque con el mismo día y horario")
  {
    var b := CreateTimeBlock(blocks, dia, horaInicio, horaFin, turno, id1).value;
    var nb := blocks + [b];
    assert DayOf(dia.s) == Some(b.dia);
    assert SlotOf(nb[|blocks|]) == Slot(DayOf(dia.s).value, TimeMillis(horaInicio.s), TimeMillis(horaFin.s));
  }

  // ---------------------------------------------------------------------------
  // updateTimeBlock
  // ---------------------------------------------------------------------------

  /**
   * A value handed to `timeRegex.test`: a request string, or the `Date` of a
   * stored time. The string of a `Date` starts with the weekday's name
   * ("Thu Jan 01 1970 …"), so the test never matches it.
   */
  datatype TimeArg = Text(s: string) | Stored(ms: int)

  predicate RegexTest(a: TimeArg)
  {
    a.Text? && IsTime(a.s)
  }

  /** `validateTimeFormat(a, b)`. */
  predicate TimesOk(a: TimeArg, b: TimeArg)
  {
    RegexTest(a) && RegexTest(b)
  }

  /** The time checks of `updateTimeBlock` as written: a missing time is replaced by the stored `Date`. */
  predicate UpdateTimesOkAsWritten(existing: Block, horaInicio: JsStr, horaFin: JsStr)
  {
    var inicio := if horaInicio.Truthy() then Text(horaInicio.s) else Stored(existing.horaInicio);
    var fin := if horaFin.Truthy() then Text(horaFin.s) else Stored(existing.horaFin);
    (!horaInicio.Truthy() || TimesOk(Text(horaInicio.s), fin)) &&
    (!horaFin.Truthy() || TimesOk(inicio, Text(horaFin.s)))
  }

  /** The intended time checks: every time the request gives has the `HH:MM:SS` form. */
  predicate UpdateTimesOk(horaInicio: JsStr, horaFin: JsStr)
  {
    (!horaInicio.Truthy() || IsTime(horaInicio.s)) && (!horaFin.Truthy() || IsTime(horaFin.s))
  }

  /** The block after the update: a field the request leaves out keeps its stored value. */
  function Updated(existing: Block, dia: JsStr, horaInicio: JsStr, horaFin: JsStr, turno: JsStr): Block
    requires !dia.Truthy() || DayOf(dia.s).Some?
    requires !horaInicio.Truthy() || IsTime(horaInicio.s)
    requires !horaFin.Truthy() || IsTime(horaFin.s)
  {
    Block(existing.id,
          if dia.Truthy() then DayOf(dia.s).value else existing.dia,
          if horaInicio.Truthy() then TimeMillis(horaInicio.s) else existing.horaInicio,
          if horaFin.Truthy() then TimeMillis(horaFin.s) else existing.horaFin,
          if turno.Undefined? then existing.turno else if turno.Truthy() then Some(turno.s) else None)
  }

  /** The update once the time checks have passed: the duplicate check and the new row. */
  function FinishUpdate(blocks: seq<Block>, existing: Block, dia: JsStr, horaInicio: JsStr, horaFin: JsStr,
                        turno: JsStr): Result<Block, string>
    requires !dia.Truthy() || DayOf(dia.s).Some?
    requires UpdateTimesOk(horaInicio, horaFin)
  {
    var u := Updated(existing, dia, horaInicio, horaFin, turno);
    if (dia.Truthy() || horaInicio.Truthy() || horaFin.Truthy()) && Occupied(blocks, SlotOf(u), Some(existing.id)) then
      Err("Ya existe otro bloque con el mismo día y horario")
    else Ok(u)
  }

  /** `updateTimeBlock` as written. */
  function UpdateTimeBlockAsWritten(blocks: seq<Block>, id: nat, dia: JsStr, horaInicio: JsStr, horaFin: JsStr,
                                    turno: JsStr): (r: Result<Block, string>)
    ensures Find(blocks, id).None? ==> r == Err(NotFound)
    ensures r.Ok? ==> Find(blocks, id).Some? && horaInicio.Truthy() == horaFin.Truthy()
  {
    match Find(blocks, id)
    case None => Err(NotFound)
    case Some(existing) =>
      if dia.Truthy() && DayOf(dia.s).None? then Err(DayError)
      else if turno.Truthy() && !TurnoOk(turno) then Err(TurnoError)
      else if (horaInicio.Truthy() || horaFin.Truthy()) && !UpdateTimesOkAsWritten(existing, horaInicio, horaFin) then
        Err(FormatError)
      else FinishUpdate(blocks, existing, dia, horaInicio, horaFin, turno)
  }

  /** Changing only the start of a block is always refused by the code as written, however valid the time. */
  lemma StartOnlyUpdateRefused(blocks: seq<Block>, id: nat, horaInicio: string)
    requires Find(blocks, id).Some? && IsTime(horaInicio)
    ensures UpdateTimeBlockAsWritten(blocks, id, Undefined, Str(horaInicio), Undefined, Undefined) == Err(FormatError)
  {
  }

  /**
   * `updateTimeBlock`, with each given time validated on its own: absent or
   * empty fields keep their stored value, an empty shift clears the shift,
   * and a slot another block already holds is refused.
   */
  function UpdateTimeBlock(blocks: seq<Block>, id: nat, dia: JsStr, horaInicio: JsStr, horaFin: JsStr,
                           turno: JsStr): (r: Result<Block, string>)
    ensures Find(blocks, id).None? ==> r == Err(NotFound)
    ensures r.Ok? <==>
      Find(blocks, id).Some? && (!dia.Truthy() || dia.s in ValidDays) && TurnoOk(turno) &&
      UpdateTimesOk(horaInicio, horaFin) &&
      !((dia.Truthy() || horaInicio.Truthy() || horaFin.Truthy()) &&
        Occupied(blocks, SlotOf(Updated(Find(blocks, id).value, dia, horaInicio, horaFin, turno)), Some(id)))
    ensures r.Ok? ==> r.value == Updated(Find(blocks, id).value, dia, horaInicio, horaFin, turno)
  {
    match Find(blocks, id)
    case None => Err(NotFound)
    case Some(existing) =>
      if dia.Truthy() && DayOf(dia.s).None? then Err(DayError)
      else if turno.Truthy() && !TurnoOk(turno) then Err(TurnoError)
      else if !UpdateTimesOk(horaInicio, horaFin) then Err(FormatError)
      else FinishUpdate(blocks, existing, dia, horaInicio, horaFin, turno)
  }

  /** Where the code as written accepts an update, the corrected update gives the same result. */
  lemma UpdateAgreesWhereAccepted(blocks: seq<Block>, id: nat, dia: JsStr, horaInicio: JsStr, horaFin: JsStr, turno: JsStr)
    requires UpdateTimeBlockAsWritten(blocks, id, dia, horaInicio, horaFin, turno).Ok?
    ensures UpdateTimeBlock(blocks, id, dia, horaInicio, horaFin, turno) == UpdateTimeBlockAsWritten(blocks, id, dia, horaInicio, horaFin, turno)
  {
  }

  /**
   * A valid new start on its own is accepted when no other block holds the
   * resulting slot, and it changes the start and nothing else.
   */
  lemma StartOnlyUpdateAccepted(blocks: seq<Block>, id: nat, horaInicio: string)
    requires Find(blocks, id).Some? && IsTime(horaInicio)
    requires var b := Find(blocks, id).value;
      !Occupied(blocks, Slot(b.dia, TimeMillis(horaInicio), b.horaFin), Some(id))
    ensures var b := Find(blocks, id).value;
      UpdateTimeBlock(blocks, id, Undefined, Str(horaInicio), Undefined, Undefined) ==
      Ok(b.(horaInicio := TimeMillis(horaInicio)))
  {
  }

  /** The stored rows after replacing the row with the updated block's id. */
  function Replace(blocks: seq<Block>, u: Block): (r: seq<Block>)
    ensures |r| == |blocks|
    ensures forall i :: 0 <= i < |blocks| ==> r[i] == (if blocks[i].id == u.id then u else blocks[i])
  {
    seq(|blocks|, i requires 0 <= i < |blocks| => if blocks[i].id == u.id then u else blocks[i])
  }

  /** The updated block's slot differs from that of every other stored block. */
  lemma UpdatedSlotFree(blocks: seq<Block>, id: nat, dia: JsStr, horaInicio: JsStr, horaFin: JsStr, turno: JsStr,
                        same: nat, o: nat)
    requires SlotsUnique(blocks) && IdsUnique(blocks)
    requires UpdateTimeBlock(blocks, id, dia, horaInicio, horaFin, turno).Ok?
    requires same < |blocks| && o < |blocks| && same != o && blocks[same].id == id
    ensures SlotOf(UpdateTimeBlock(blocks, id, dia, horaInicio, horaFin, turno).value) != SlotOf(blocks[o])
  {
    var existing := Find(blocks, id).value;
    var k :| 0 <= k < |blocks| && blocks[k] == existing;
    assert k == same;
    if same < o {
      assert blocks[o].id != id && SlotOf(blocks[same]) != SlotOf(blocks[o]);
    } else {
      assert blocks[o].id != id && SlotOf(blocks[o]) != SlotOf(blocks[same]);
    }
  }

  /** An accepted update keeps the slots of the catalogue unique. */
  lemma UpdatePreservesUnique(blocks: seq<Block>, id: nat, dia: JsStr, horaInicio: JsStr, horaFin: JsStr, turno: JsStr)
    requires SlotsUnique(blocks) && IdsUnique(blocks)
    requires UpdateTimeBlock(blocks, id, dia, horaInicio, horaFin, turno).Ok?
    ensures SlotsUnique(Replace(blocks, UpdateTimeBlock(blocks, id, dia, horaInicio, horaFin, turno).value))
  {
    var u := UpdateTimeBlock(blocks, id, dia, horaInicio, horaFin, turno).value;
    var nb := Replace(blocks, u);
    forall i, j | 0 <= i < j < |nb| ensures SlotOf(nb[i]) != SlotOf(nb[j]) {
      if blocks[i].id == id {
        UpdatedSlotFree(blocks, id, dia, horaInicio, horaFin, turno, i, j);
      } else if blocks[j].id == id {
        UpdatedSlotFree(blocks, id, dia, horaInicio, horaFin, turno, j, i);
      }
    }
  }

  // ---------------------------------------------------------------------------
  // deleteTimeBlock
  // ---------------------------------------------------------------------------

  /** The error of a refused deletion, with the number of schedule entries that use the block. */
  datatype DeleteError = DeleteError(message: string, horarios: Option<nat>)

  function Remove(blocks: seq<Block>, id: nat): (r: seq<Block>)
    ensures |r| <= |blocks|
  {
    if blocks == [] then []
    else
      var rest := Remove(blocks[..|blocks| - 1], id);
      var last := blocks[|blocks| - 1];
      if last.id == id then rest else rest + [last]
  }

  lemma {:induction false} RemoveMember(blocks: seq<Block>, id: nat, b: Block)
    ensures b in Remove(blocks, id) <==> b in blocks && b.id != id
  {
    if blocks != [] {
      var init := blocks[..|blocks| - 1];
      RemoveMember(init, id, b);
      assert blocks == init + [blocks[|blocks| - 1]];
    }
  }

  /**
   * `deleteTimeBlock`: a missing block is an error, a block that `usos`
   * entries of `horario_detalle` use is kept and the error carries that
   * number, otherwise the block is removed.
   */
  function DeleteTimeBlock(blocks: seq<Block>, id: nat, usos: nat): (r: Result<seq<Block>, DeleteError>)
    ensures Find(blocks, id).None? ==> r == Err(DeleteError(NotFound, None))
    ensures Find(blocks, id).Some? && usos > 0 ==> r.Err? && r.error.horarios == Some(usos)
    ensures r.Ok? <==> Find(blocks, id).Some? && usos == 0
    ensures r.Ok? ==> r.value == Remove(blocks, id)
  {
    if Find(blocks, id).None? then Err(DeleteError(NotFound, None))
    else if usos > 0 then
      Err(DeleteError("No se puede eliminar el bloque porque está siendo usado en horarios generados", Some(usos)))
    else Ok(Remove(blocks, id))
  }

  /** After a deletion the id is gone and every other block is still stored. */
  lemma DeleteRemovesOnlyTheBlock(blocks: seq<Block>, id: nat, b: Block)
    requires DeleteTimeBlock(blocks, id, 0).Ok?
    ensures b in DeleteTimeBlock(blocks, id, 0).value <==> b in blocks && b.id != id
  {
    RemoveMember(blocks, id, b);
  }
}
