/**
 * The student timetable search of `backend/src/algorithms/geneticAlgorithm.js`.
 *
 * A student picks subjects (`selecciones`); every subject is offered in
 * several groups, and a group meets in one or more time blocks
 * (`horario_detalle`). The search looks for one group per subject whose
 * meetings do not overlap and that fits the student's preferences. A
 * candidate timetable is a `Schedule`: the chosen groups, the number of
 * subjects they cover, and the occupancy matrix indexed by (day, block).
 *
 * The file holds the scoring functions (pure) and the search (imperative:
 * the `GeneticAlgorithm` class whose `Run` method evolves a population of
 * schedules).
 */
module GeneticAlgorithm {
  import opened Common
  import Sorting

  // ---------------------------------------------------------------------------
  // Data handed to the search (the `data` object built by the generation service)
  // ---------------------------------------------------------------------------

  /**
   * One meeting of a group: the catalogue block it uses, with that block's
   * day, times (ms) and shift, and the room it is held in, if any.
   */
  datatype Placement = Placement(bloqueId: string, dia: string, inicio: int, fin: int, turno: JsStr, aulaId: Option<string>)

  /** A group of a subject, with its enrolment count, capacity and free seats. */
  datatype Group = Group(id: string, materiaId: string, inscritos: nat, cupoMax: nat, disponibilidad: nat, horario: seq<Placement>)

  /** An entry of the time-block catalogue. */
  datatype Bloque = Bloque(id: string, dia: string)

  /** The student's stored preferences, or the defaults the service supplies. */
  datatype Preferencias = Preferencias(turnoPreferido: JsStr, compactacion: Option<int>, evitarDias: seq<string>)

  /** The search input: candidate groups, the subjects selected (their ids, in priority order), the catalogue. */
  datatype Data = Data(grupos: seq<Group>, selecciones: seq<string>, bloques: seq<Bloque>, preferencias: Preferencias)

  // ---------------------------------------------------------------------------
  // Time conflicts between groups
  // ---------------------------------------------------------------------------

  /** Two meetings on the same day whose half-open intervals intersect. */
  predicate Overlap(p: Placement, q: Placement)
  {
    p.dia == q.dia && p.inicio < q.fin && q.inicio < p.fin
  }

  /** `tieneConflictoHorario`: distinct groups with some pair of overlapping meetings. */
  predicate Conflicts(g1: Group, g2: Group)
  {
    g1.id != g2.id &&
    exists a, b :: 0 <= a < |g1.horario| && 0 <= b < |g2.horario| && Overlap(g1.horario[a], g2.horario[b])
  }

  /** A group never conflicts with itself, and conflict is symmetric. */
  lemma ConflictsIrreflexiveSymmetric(g1: Group, g2: Group)
    ensures !Conflicts(g1, g1)
    ensures Conflicts(g1, g2) <==> Conflicts(g2, g1)
  {
    if Conflicts(g1, g2) {
      var a, b :| 0 <= a < |g1.horario| && 0 <= b < |g2.horario| && Overlap(g1.horario[a], g2.horario[b]);
      assert Overlap(g2.horario[b], g1.horario[a]);
    }
    if Conflicts(g2, g1) {
      var b, a :| 0 <= b < |g2.horario| && 0 <= a < |g1.horario| && Overlap(g2.horario[b], g1.horario[a]);
      assert Overlap(g1.horario[a], g2.horario[b]);
    }
  }

  /** `tieneConflictoConSeleccionados`: `g` conflicts with some group of `sel`. */
  predicate ConflictsWithAny(g: Group, sel: seq<Group>)
  {
    exists k :: 0 <= k < |sel| && Conflicts(g, sel[k])
  }

  /** No two groups of the sequence conflict. */
  predicate ConflictFree(gs: seq<Group>)
  {
    forall i, j :: 0 <= i < |gs| && 0 <= j < |gs| ==> !Conflicts(gs[i], gs[j])
  }

  /** `filtrarGruposSinConflicto`: the groups of `disp`, in order, that conflict with none of `sel`. */
  function SinConflicto(disp: seq<Group>, sel: seq<Group>): (r: seq<Group>)
    ensures forall k :: 0 <= k < |r| ==> r[k] in disp && !ConflictsWithAny(r[k], sel)
    ensures forall k :: 0 <= k < |disp| && !ConflictsWithAny(disp[k], sel) ==> disp[k] in r
    ensures |r| <= |disp|
  {
    if disp == [] then []
    else
      var init := SinConflicto(disp[..|disp| - 1], sel);
      var last := disp[|disp| - 1];
      assert forall k :: 0 <= k < |disp| - 1 ==> disp[k] == disp[..|disp| - 1][k];
      if ConflictsWithAny(last, sel) then init else init + [last]
  }

  /** The filter keeps the order of `disp`: the groups kept from two runs are those of the first followed by those of the second. */
  lemma {:induction false} SinConflictoAppend(a: seq<Group>, b: seq<Group>, sel: seq<Group>)
    ensures SinConflicto(a + b, sel) == SinConflicto(a, sel) + SinConflicto(b, sel)
  {
    if b != [] {
      var b' := b[..|b| - 1];
      assert (a + b)[..|a + b| - 1] == a + b';
      assert (a + b)[|a + b| - 1] == b[|b| - 1];
      SinConflictoAppend(a, b', sel);
    } else {
      assert a + b == a;
    }
  }

  /** A single group is kept exactly when it conflicts with none of `sel`. */
  lemma SinConflictoOfOne(g: Group, sel: seq<Group>)
    ensures SinConflicto([g], sel) == if ConflictsWithAny(g, sel) then [] else [g]
  {
    assert [g][..0] == [];
  }

  /** With nothing selected yet every available group qualifies. */
  lemma {:induction false} SinConflictoNoSelection(disp: seq<Group>)
    ensures SinConflicto(disp, []) == disp
  {
    if disp != [] {
      SinConflictoNoSelection(disp[..|disp| - 1]);
    }
  }

  /** Appending a group that conflicts with none of a conflict-free sequence keeps it conflict-free. */
  lemma ConflictFreeAppend(gs: seq<Group>, g: Group)
    requires ConflictFree(gs)
    requires !ConflictsWithAny(g, gs)
    ensures ConflictFree(gs + [g])
  {
    var t := gs + [g];
    forall i, j | 0 <= i < |t| && 0 <= j < |t| ensures !Conflicts(t[i], t[j]) {
      ConflictsIrreflexiveSymmetric(t[i], t[j]);
      if i == |gs| && j < |gs| {
        assert !Conflicts(g, gs[j]);
      } else if j == |gs| && i < |gs| {
        assert !Conflicts(g, gs[i]);
      }
    }
  }

  // ---------------------------------------------------------------------------
  // Grouping helpers
  // ---------------------------------------------------------------------------

  /** `groupByMateria(grupos)[m] || []`: the groups of subject `m`, in input order. */
  function GruposDeMateria(grupos: seq<Group>, m: string): (r: seq<Group>)
    ensures forall k :: 0 <= k < |r| ==> r[k] in grupos && r[k].materiaId == m
    ensures forall k :: 0 <= k < |grupos| && grupos[k].materiaId == m ==> grupos[k] in r
  {
    if grupos == [] then []
    else
      var rest := GruposDeMateria(grupos[1..], m);
      if grupos[0].materiaId == m then [grupos[0]] + rest else rest
  }

  /** Every meeting of every group, group by group: the traversal order of the scoring loops. */
  function AllPlacements(gs: seq<Group>): seq<Placement>
  {
    if gs == [] then [] else AllPlacements(gs[..|gs| - 1]) + gs[|gs| - 1].horario
  }

  function Materias(gs: seq<Group>): (r: seq<string>)
    ensures |r| == |gs| && forall k :: 0 <= k < |gs| ==> r[k] == gs[k].materiaId
  {
    if gs == [] then [] else [gs[0].materiaId] + Materias(gs[1..])
  }

  function Dias(ps: seq<Placement>): (r: seq<string>)
    ensures |r| == |ps| && forall k :: 0 <= k < |ps| ==> r[k] == ps[k].dia
  {
    if ps == [] then [] else [ps[0].dia] + Dias(ps[1..])
  }

  /** The meetings of `ps` that fall on day `d`, in order: `groupByDia(schedule)[d]`. */
  function OnDay(ps: seq<Placement>, d: string): (r: seq<Placement>)
    ensures |r| <= |ps|
    ensures forall k :: 0 <= k < |r| ==> r[k] in ps && r[k].dia == d
  {
    if ps == [] then []
    else if ps[0].dia == d then [ps[0]] + OnDay(ps[1..], d)
    else OnDay(ps[1..], d)
  }

  // ---------------------------------------------------------------------------
  // Occupancy matrix and conflict penalty
  // ---------------------------------------------------------------------------

  /** A (day, block id) cell of `matriz`. */
  datatype Cell = Cell(dia: string, bloqueId: string)

  /** One cell with the groups pushed into it, one entry per meeting in that cell. */
  datatype MatrixEntry = MatrixEntry(cell: Cell, grupos: seq<Group>)

  /** `matriz[dia][bloque]`, one entry per catalogued cell. */
  type Matrix = seq<MatrixEntry>

  function CellOf(p: Placement): Cell { Cell(p.dia, p.bloqueId) }

  function CatalogCells(bloques: seq<Bloque>): seq<Cell>
  {
    Dedup(BloqueCells(bloques))
  }

  function BloqueCells(bloques: seq<Bloque>): (r: seq<Cell>)
    ensures |r| == |bloques| && forall k :: 0 <= k < |r| ==> r[k] == Cell(bloques[k].dia, bloques[k].id)
  {
    if bloques == [] then [] else [Cell(bloques[0].dia, bloques[0].id)] + BloqueCells(bloques[1..])
  }

  /** The number of meetings of `ps` in cell `c`. */
  function CountIn(ps: seq<Placement>, c: Cell): nat
  {
    if ps == [] then 0 else (if CellOf(ps[0]) == c then 1 else 0) + CountIn(ps[1..], c)
  }

  function Repeat(g: Group, n: nat): (r: seq<Group>)
    ensures |r| == n && forall k :: 0 <= k < n ==> r[k] == g
  {
    if n == 0 then [] else [g] + Repeat(g, n - 1)
  }

  /** The contents of cell `c` after the fill loop: each group once per meeting it has there. */
  function CellGroups(gs: seq<Group>, c: Cell): seq<Group>
  {
    if gs == [] then [] else CellGroups(gs[..|gs| - 1], c) + Repeat(gs[|gs| - 1], CountIn(gs[|gs| - 1].horario, c))
  }

  function FillCells(cells: seq<Cell>, gs: seq<Group>): (m: Matrix)
    ensures |m| == |cells|
    ensures forall k :: 0 <= k < |m| ==> m[k] == MatrixEntry(cells[k], CellGroups(gs, cells[k]))
  {
    if cells == [] then [] else [MatrixEntry(cells[0], CellGroups(gs, cells[0]))] + FillCells(cells[1..], gs)
  }

  /** `buildScheduleMatrix`: an empty cell per catalogued (day, block), then every meeting pushed into its cell. */
  function BuildScheduleMatrix(bloques: seq<Bloque>, gs: seq<Group>): Matrix
  {
    FillCells(CatalogCells(bloques), gs)
  }

  /** A group enters a cell only through a meeting it has in that cell. */
  lemma {:induction false} CellGroupsHaveMeeting(gs: seq<Group>, c: Cell, k: nat)
    requires k < |CellGroups(gs, c)|
    ensures CellGroups(gs, c)[k] in gs
    ensures CountIn(CellGroups(gs, c)[k].horario, c) > 0
  {
    var init := gs[..|gs| - 1];
    var last := gs[|gs| - 1];
    if k < |CellGroups(init, c)| {
      CellGroupsHaveMeeting(init, c, k);
    }
  }

  /** The matrix has a cell for every catalogued block and no other cell, each once. */
  lemma MatrixCells(bloques: seq<Bloque>, gs: seq<Group>)
    ensures var m := BuildScheduleMatrix(bloques, gs);
      (forall k :: 0 <= k < |m| ==> m[k].cell in BloqueCells(bloques)) &&
      (forall b :: 0 <= b < |bloques| ==> exists k :: 0 <= k < |m| && m[k].cell == Cell(bloques[b].dia, bloques[b].id)) &&
      (forall k, l :: 0 <= k < l < |m| ==> m[k].cell != m[l].cell)
  {
    var m := BuildScheduleMatrix(bloques, gs);
    var cells := CatalogCells(bloques);
    var raw := BloqueCells(bloques);
    forall b | 0 <= b < |bloques| ensures exists k :: 0 <= k < |m| && m[k].cell == Cell(bloques[b].dia, bloques[b].id) {
      assert raw[b] in cells;
      var k :| 0 <= k < |cells| && cells[k] == raw[b];
      assert m[k].cell == raw[b];
    }
  }

  /** A group sits in a cell only through a meeting it has there: meetings outside the catalogue never enter. */
  lemma MatrixEntriesMeetThere(bloques: seq<Bloque>, gs: seq<Group>, k: nat, i: nat)
    requires k < |BuildScheduleMatrix(bloques, gs)|
    requires i < |BuildScheduleMatrix(bloques, gs)[k].grupos|
    ensures var e := BuildScheduleMatrix(bloques, gs)[k];
      e.grupos[i] in gs && CountIn(e.grupos[i].horario, e.cell) > 0
  {
    CellGroupsHaveMeeting(gs, CatalogCells(bloques)[k], i);
  }

  /** `calculateConflictPenalty`: every cell holding n > 1 groups adds n - 1. */
  function ConflictPenalty(m: Matrix): nat
  {
    if m == [] then 0
    else (if |m[0].grupos| > 1 then |m[0].grupos| - 1 else 0) + ConflictPenalty(m[1..])
  }

  /** The penalty vanishes exactly when no cell holds more than one group. */
  lemma {:induction false} ConflictPenaltyZero(m: Matrix)
    ensures ConflictPenalty(m) == 0 <==> forall k :: 0 <= k < |m| ==> |m[k].grupos| <= 1
  {
    if m != [] {
      ConflictPenaltyZero(m[1..]);
      assert forall k :: 1 <= k < |m| ==> m[k] == m[1..][k - 1];
    }
  }

  /**
   * The data loader copies each meeting's day and times from its catalogue
   * block, so meetings in the same block have the same times; blocks are
   * non-empty intervals.
   */
  ghost predicate CatalogConsistent(gs: seq<Group>)
  {
    (forall i, a :: 0 <= i < |gs| && 0 <= a < |gs[i].horario| ==> gs[i].horario[a].inicio < gs[i].horario[a].fin) &&
    (forall i, a, j, b ::
       (0 <= i < |gs| && 0 <= a < |gs[i].horario| && 0 <= j < |gs| && 0 <= b < |gs[j].horario| &&
        gs[i].horario[a].bloqueId == gs[j].horario[b].bloqueId) ==>
         (gs[i].horario[a].inicio == gs[j].horario[b].inicio && gs[i].horario[a].fin == gs[j].horario[b].fin))
  }

  /** Distinct group ids, and no group meets twice in one cell. */
  ghost predicate DistinctGroups(gs: seq<Group>)
  {
    (forall i, j :: 0 <= i < j < |gs| ==> gs[i].id != gs[j].id) &&
    (forall i, a, b :: 0 <= i < |gs| && 0 <= a < b < |gs[i].horario| ==> CellOf(gs[i].horario[a]) != CellOf(gs[i].horario[b]))
  }

  lemma {:induction false} CountInAtMostOne(ps: seq<Placement>, c: Cell)
    requires forall a, b :: 0 <= a < b < |ps| ==> CellOf(ps[a]) != CellOf(ps[b])
    ensures CountIn(ps, c) <= 1
    ensures CountIn(ps, c) == 1 ==> exists a :: 0 <= a < |ps| && CellOf(ps[a]) == c
  {
    if ps != [] {
      CountInAtMostOne(ps[1..], c);
      if CountIn(ps[1..], c) == 1 {
        var a :| 0 <= a < |ps[1..]| && CellOf(ps[1..][a]) == c;
        assert CellOf(ps[a + 1]) == c;
      }
    }
  }

  /** A meeting in cell `c`, when the meetings occupy `c` at least once. */
  lemma {:induction false} CountInOwner(ps: seq<Placement>, c: Cell) returns (a: nat)
    requires CountIn(ps, c) >= 1
    ensures a < |ps| && CellOf(ps[a]) == c
  {
    if CellOf(ps[0]) == c {
      a := 0;
    } else {
      var a' := CountInOwner(ps[1..], c);
      a := a' + 1;
    }
  }

  /** A group and a meeting of it in cell `c`, when some group occupies `c`. */
  lemma {:induction false} CellGroupsOwner(gs: seq<Group>, c: Cell) returns (i: nat, a: nat)
    requires |CellGroups(gs, c)| >= 1
    ensures i < |gs| && a < |gs[i].horario| && CellOf(gs[i].horario[a]) == c
  {
    var init := gs[..|gs| - 1];
    var g := gs[|gs| - 1];
    if CountIn(g.horario, c) >= 1 {
      i := |gs| - 1;
      a := CountInOwner(g.horario, c);
    } else {
      i, a := CellGroupsOwner(init, c);
      assert gs[i] == init[i];
    }
  }

  /** Two distinct catalogue groups meeting in the same cell conflict. */
  lemma SameCellConflicts(gs: seq<Group>, i: nat, a: nat, j: nat, b: nat)
    requires CatalogConsistent(gs) && DistinctGroups(gs)
    requires i < j < |gs| && a < |gs[i].horario| && b < |gs[j].horario|
    requires CellOf(gs[i].horario[a]) == CellOf(gs[j].horario[b])
    ensures Conflicts(gs[i], gs[j])
  {
    assert Overlap(gs[i].horario[a], gs[j].horario[b]);
  }

  lemma PrefixConsistent(gs: seq<Group>, n: nat)
    requires n <= |gs|
    requires CatalogConsistent(gs) && DistinctGroups(gs) && ConflictFree(gs)
    ensures CatalogConsistent(gs[..n]) && DistinctGroups(gs[..n]) && ConflictFree(gs[..n])
  {
    assert forall i :: 0 <= i < n ==> gs[..n][i] == gs[i];
  }

  /** In a conflict-free choice of distinct catalogue groups, at most one group occupies a cell. */
  lemma {:induction false} CellAtMostOne(gs: seq<Group>, c: Cell)
    requires CatalogConsistent(gs) && DistinctGroups(gs) && ConflictFree(gs)
    ensures |CellGroups(gs, c)| <= 1
  {
    if gs != [] {
      var init := gs[..|gs| - 1];
      var g := gs[|gs| - 1];
      PrefixConsistent(gs, |gs| - 1);
      CellAtMostOne(init, c);
      CountInAtMostOne(g.horario, c);
      if CountIn(g.horario, c) == 1 && |CellGroups(init, c)| == 1 {
        var b := CountInOwner(g.horario, c);
        var i, a := CellGroupsOwner(init, c);
        assert init[i] == gs[i];
        SameCellConflicts(gs, i, a, |gs| - 1, b);
        assert false;
      }
    }
  }

  /**
   * The two notions of conflict agree: for distinct groups taken from the
   * catalogue, a pairwise conflict-free choice leaves no cell doubly occupied,
   * so the matrix penalty is 0.
   */
  lemma ConflictFreeHasNoPenalty(bloques: seq<Bloque>, gs: seq<Group>)
    requires CatalogConsistent(gs) && DistinctGroups(gs) && ConflictFree(gs)
    ensures ConflictPenalty(BuildScheduleMatrix(bloques, gs)) == 0
  {
    var m := BuildScheduleMatrix(bloques, gs);
    forall k | 0 <= k < |m| ensures |m[k].grupos| <= 1 {
      CellAtMostOne(gs, m[k].cell);
    }
    ConflictPenaltyZero(m);
  }

  // ---------------------------------------------------------------------------
  // Fitness terms (higher is better)
  // ---------------------------------------------------------------------------

  /** `compactacion || 5`: a missing or zero preference reads as 5. */
  function CompactacionPreferida(p: Preferencias): int
  {
    if p.compactacion.Some? && p.compactacion.value != 0 then p.compactacion.value else 5
  }

  /** `calculateTurnoPreferenceScore`: 30 times the fraction of meetings in the preferred shift. */
  function TurnoScore(p: Preferencias, gs: seq<Group>): real
  {
    if !p.turnoPreferido.Truthy() then 0.0
    else
      var ps := AllPlacements(gs);
      var total := |ps|;
      var matches := |TurnoMatches(ps, p.turnoPreferido)|;
      if total > 0 then matches as real / total as real * 30.0 else 0.0
  }

  function TurnoMatches(ps: seq<Placement>, turno: JsStr): (r: seq<Placement>)
    ensures |r| <= |ps|
  {
    if ps == [] then []
    else (if ps[0].turno == turno then [ps[0]] else []) + TurnoMatches(ps[1..], turno)
  }

  lemma TurnoScoreRange(p: Preferencias, gs: seq<Group>)
    ensures 0.0 <= TurnoScore(p, gs) <= 30.0
  {
    var ps := AllPlacements(gs);
    if p.turnoPreferido.Truthy() && |ps| > 0 {
      var m := |TurnoMatches(ps, p.turnoPreferido)|;
      assert m as real / |ps| as real <= 1.0;
    }
  }

  /** The day's span after ordering its meetings by start: last meeting's end minus first start. */
  function DaySpan(blocks: seq<Placement>): int
    requires |blocks| > 0
  {
    var sorted := Sorting.SortBy(blocks, (p: Placement) => p.inicio, (a: int, b: int) => a <= b);
    sorted[|sorted| - 1].fin - sorted[0].inicio
  }

  /** The contribution of one day to `calculateCompactacionScore`. */
  function DayCompactacion(blocks: seq<Placement>, c: int): real
  {
    if |blocks| > 1 then
      var h := Hours(DaySpan(blocks));
      if c >= 7 then Max(0.0, 20.0 - h * 5.0)
      else if c <= 3 then h * 2.0
      else 0.0
    else 0.0
  }

  function SumCompactacion(days: seq<string>, ps: seq<Placement>, c: int): real
  {
    if days == [] then 0.0 else DayCompactacion(OnDay(ps, days[0]), c) + SumCompactacion(days[1..], ps, c)
  }

  /** `calculateCompactacionScore`, summed over the days that have meetings. */
  function CompactacionScore(p: Preferencias, gs: seq<Group>): real
  {
    var ps := AllPlacements(gs);
    SumCompactacion(Dedup(Dias(ps)), ps, CompactacionPreferida(p))
  }

  lemma {:induction false} SumCompactacionMid(days: seq<string>, ps: seq<Placement>, c: int)
    requires 3 < c < 7
    ensures SumCompactacion(days, ps, c) == 0.0
  {
    if days != [] {
      SumCompactacionMid(days[1..], ps, c);
    }
  }

  /** A stored compaction of 0 behaves as the default 5: a neutral preference worth nothing. */
  lemma CompactacionZeroIsNeutral(p: Preferencias, gs: seq<Group>)
    requires p.compactacion == Some(0) || p.compactacion.None?
    ensures CompactacionScore(p, gs) == 0.0
  {
    var ps := AllPlacements(gs);
    SumCompactacionMid(Dedup(Dias(ps)), ps, 5);
  }

  /** Meetings are non-empty intervals, as catalogue blocks are. */
  ghost predicate WellTimed(ps: seq<Placement>)
  {
    forall k :: 0 <= k < |ps| ==> ps[k].inicio < ps[k].fin
  }

  /** The span of a day runs from its earliest start to the end of its latest-starting meeting: positive. */
  lemma DaySpanPositive(blocks: seq<Placement>)
    requires |blocks| > 0 && WellTimed(blocks)
    ensures DaySpan(blocks) > 0
  {
    var key := (p: Placement) => p.inicio;
    var le := (a: int, b: int) => a <= b;
    var sorted := Sorting.SortBy(blocks, key, le);
    var last := sorted[|sorted| - 1];
    assert last in multiset(sorted);
    assert last in multiset(blocks);
    var i :| 0 <= i < |blocks| && blocks[i] == last;
    Sorting.SortedEnds(blocks, key, le, i);
  }

  lemma {:induction false} SumCompactacionRange(days: seq<string>, ps: seq<Placement>, c: int)
    requires WellTimed(ps)
    ensures 0.0 <= SumCompactacion(days, ps, c)
    ensures c >= 7 ==> SumCompactacion(days, ps, c) <= 20.0 * |days| as real
  {
    if days != [] {
      SumCompactacionRange(days[1..], ps, c);
      var blocks := OnDay(ps, days[0]);
      if |blocks| > 1 {
        assert WellTimed(blocks) by {
          forall k | 0 <= k < |blocks| ensures blocks[k].inicio < blocks[k].fin {
            assert blocks[k] in ps;
          }
        }
        DaySpanPositive(blocks);
      }
    }
  }

  /**
   * The compaction term never subtracts; with a preference for compact days
   * (at least 7) each day earns at most 20 points.
   */
  lemma CompactacionRange(p: Preferencias, gs: seq<Group>)
    requires WellTimed(AllPlacements(gs))
    ensures 0.0 <= CompactacionScore(p, gs)
    ensures CompactacionPreferida(p) >= 7 ==>
      CompactacionScore(p, gs) <= 20.0 * CountDistinct(Dias(AllPlacements(gs))) as real
  {
    var ps := AllPlacements(gs);
    SumCompactacionRange(Dedup(Dias(ps)), ps, CompactacionPreferida(p));
  }

  /** `calculateEvitarDiasScore`: minus 10 for every meeting on an avoided day. */
  function EvitarDiasScore(p: Preferencias, gs: seq<Group>): real
  {
    if |p.evitarDias| == 0 then 0.0
    else -10.0 * |OnAvoided(AllPlacements(gs), p.evitarDias)| as real
  }

  function OnAvoided(ps: seq<Placement>, avoid: seq<string>): (r: seq<Placement>)
    ensures |r| <= |ps|
    ensures forall k :: 0 <= k < |r| ==> r[k] in ps && r[k].dia in avoid
    ensures forall k :: 0 <= k < |ps| && ps[k].dia in avoid ==> ps[k] in r
  {
    if ps == [] then []
    else (if ps[0].dia in avoid then [ps[0]] else []) + OnAvoided(ps[1..], avoid)
  }

  /** Avoided days only cost points, and a schedule that never meets on one keeps them all. */
  lemma EvitarDiasRange(p: Preferencias, gs: seq<Group>)
    ensures EvitarDiasScore(p, gs) <= 0.0
    ensures EvitarDiasScore(p, gs) == 0.0 <==>
      forall k :: 0 <= k < |AllPlacements(gs)| ==> AllPlacements(gs)[k].dia !in p.evitarDias
  {
    var ps := AllPlacements(gs);
    var r := OnAvoided(ps, p.evitarDias);
    if |p.evitarDias| > 0 && |r| > 0 {
      assert r[0] in ps;
      var k :| 0 <= k < |ps| && ps[k] == r[0];
      assert ps[k].dia in p.evitarDias;
    }
  }

  /** The capacity bonus of one group, by the share of seats taken (`calculateCupoScore`). */
  function CupoTier(g: Group): (r: real)
  {
    // inscritos / 0 is Infinity or NaN: every comparison fails and the last tier applies.
    if g.cupoMax == 0 then -5.0
    else
      var pct := g.inscritos as real / g.cupoMax as real * 100.0;
      if pct < 30.0 then 10.0 else if pct < 60.0 then 5.0 else if pct < 80.0 then 2.0 else -5.0
  }

  /** For a positive denominator, a quotient is below a bound exactly when the numerator is below bound times denominator. */
  lemma QuotientBelow(num: int, den: int, bound: int)
    requires den > 0
    ensures (num as real / den as real * 100.0 < bound as real) <==> num * 100 < bound * den
  {
    var q := num as real / den as real;
    assert q * den as real == num as real;
    assert (q * 100.0) * den as real == (num * 100) as real;
    if q * 100.0 < bound as real {
      assert (q * 100.0) * den as real < bound as real * den as real;
    }
    if num * 100 < bound * den {
      assert (q * 100.0) * den as real < bound as real * den as real;
    }
  }

  /** The tiers, stated on the integers: under 30% of seats taken gives 10, under 60% 5, under 80% 2, else -5. */
  lemma CupoTierTiers(g: Group)
    requires g.cupoMax > 0
    ensures g.inscritos * 100 < 30 * g.cupoMax ==> CupoTier(g) == 10.0
    ensures 30 * g.cupoMax <= g.inscritos * 100 < 60 * g.cupoMax ==> CupoTier(g) == 5.0
    ensures 60 * g.cupoMax <= g.inscritos * 100 < 80 * g.cupoMax ==> CupoTier(g) == 2.0
    ensures 80 * g.cupoMax <= g.inscritos * 100 ==> CupoTier(g) == -5.0
  {
    QuotientBelow(g.inscritos, g.cupoMax, 30);
    QuotientBelow(g.inscritos, g.cupoMax, 60);
    QuotientBelow(g.inscritos, g.cupoMax, 80);
  }

  /** A full group, or one without seats, earns the lowest tier. */
  lemma CupoTierFull(g: Group)
    requires g.inscritos >= g.cupoMax
    ensures CupoTier(g) == -5.0
  {
    if g.cupoMax > 0 {
      CupoTierTiers(g);
    }
  }

  function CupoScore(gs: seq<Group>): real
  {
    if gs == [] then 0.0 else CupoTier(gs[0]) + CupoScore(gs[1..])
  }

  lemma {:induction false} CupoScoreRange(gs: seq<Group>)
    ensures -5.0 * |gs| as real <= CupoScore(gs) <= 10.0 * |gs| as real
  {
    if gs != [] {
      CupoScoreRange(gs[1..]);
    }
  }

  function SumDistribucion(days: seq<string>, ps: seq<Placement>, promedio: real): real
  {
    if days == [] then 0.0
    else Max(0.0, 5.0 - Abs(|OnDay(ps, days[0])| as real - promedio)) + SumDistribucion(days[1..], ps, promedio)
  }

  /** `calculateDistribucionScore`: up to 5 points per day, fewer the further the day is from the mean load. */
  function DistribucionScore(gs: seq<Group>): real
  {
    var ps := AllPlacements(gs);
    var dias := Dedup(Dias(ps));
    if |dias| == 0 || |ps| == 0 then 0.0
    else SumDistribucion(dias, ps, |ps| as real / |dias| as real)
  }

  lemma {:induction false} SumDistribucionRange(days: seq<string>, ps: seq<Placement>, promedio: real)
    ensures 0.0 <= SumDistribucion(days, ps, promedio) <= 5.0 * |days| as real
  {
    if days != [] {
      SumDistribucionRange(days[1..], ps, promedio);
    }
  }

  lemma DistribucionRange(gs: seq<Group>)
    ensures 0.0 <= DistribucionScore(gs) <= 5.0 * CountDistinct(Dias(AllPlacements(gs))) as real
  {
    var ps := AllPlacements(gs);
    var dias := Dedup(Dias(ps));
    if |dias| > 0 && |ps| > 0 {
      SumDistribucionRange(dias, ps, |ps| as real / |dias| as real);
    }
  }

  /** The subjects the groups belong to: `new Set(gruposSeleccionados.map(g => g.materia_id))`. */
  function MateriaSet(gs: seq<Group>): set<string>
  {
    set k | 0 <= k < |gs| :: gs[k].materiaId
  }

  /**
   * The share of the selected subjects that the groups cover, weighted 200.
   * Without selections no schedule has groups, so the quotient the source would
   * form there (0 / 0) is never reached; the model gives 0.
   */
  function CoberturaScore(gs: seq<Group>, selecciones: seq<string>): real
  {
    if |selecciones| == 0 then 0.0 else |MateriaSet(gs)| as real / |selecciones| as real * 200.0
  }

  /**
   * `calculateFitness`: -1000 for a schedule without groups, otherwise the base
   * 100 plus the seven terms, floored at 0.
   */
  function Fitness(gs: seq<Group>, horario: Matrix, data: Data): (r: real)
    ensures |gs| == 0 ==> r == -1000.0
    ensures |gs| > 0 ==> r >= 0.0
  {
    if |gs| == 0 then -1000.0
    else
      var p := data.preferencias;
      var score := 100.0 + CoberturaScore(gs, data.selecciones) + TurnoScore(p, gs) + CompactacionScore(p, gs)
        + EvitarDiasScore(p, gs) - ConflictPenalty(horario) as real * 100.0 + CupoScore(gs) + DistribucionScore(gs);
      Max(0.0, score)
  }

  // ---------------------------------------------------------------------------
  // Candidate schedules
  // ---------------------------------------------------------------------------

  /** A candidate timetable: `gruposSeleccionados`, `materiasCubiertas` and `horario`. */
  datatype Schedule = Schedule(grupos: seq<Group>, materiasCubiertas: nat, horario: Matrix)

  /** A schedule with its fitness, as `run` pairs them before sorting. */
  datatype Evaluated = Evaluated(schedule: Schedule, fitness: real)

  /** The sum of the fitness values of `ev[i..]`. */
  function SuffixFitness(ev: seq<Evaluated>, i: nat): real
    requires i <= |ev|
    decreases |ev| - i
  {
    if i == |ev| then 0.0 else ev[i].fitness + SuffixFitness(ev, i + 1)
  }

  /**
   * The roulette wheel: the first index whose running fitness total reaches
   * `x`, or 0 (the fallback `evaluated[0]`) when none does.
   */
  function Roulette(ev: seq<Evaluated>, x: real, i: nat, acc: real): (k: nat)
    requires i <= |ev|
    ensures |ev| > 0 ==> k < |ev|
    decreases |ev| - i
  {
    if i == |ev| then 0
    else if acc + ev[i].fitness >= x then i
    else Roulette(ev, x, i + 1, acc + ev[i].fitness)
  }

  /**
   * A draw strictly inside (0, total] lands on an individual whose own fitness
   * is positive: the fallback is never used and zero-fitness individuals are
   * only picked by a draw of exactly 0.
   */
  lemma {:induction false} RouletteLandsOnPositive(ev: seq<Evaluated>, x: real, i: nat, acc: real)
    requires i <= |ev|
    requires acc < x <= acc + SuffixFitness(ev, i)
    ensures i <= Roulette(ev, x, i, acc) < |ev|
    ensures ev[Roulette(ev, x, i, acc)].fitness > 0.0
    decreases |ev| - i
  {
    if i < |ev| && acc + ev[i].fitness < x {
      RouletteLandsOnPositive(ev, x, i + 1, acc + ev[i].fitness);
    }
  }

  /** What `run` returns. */
  datatype RunResult =
    | EmptySchedule
      // createEmptySchedule(): no groups, materiasCubiertas 0, horario {}, score 0
    | Solution(grupos: seq<Group>, materiasCubiertas: nat, horario: Matrix, score: real, generaciones: int, poblacion: int)
      // { ...bestSolution, score: bestScore, generaciones, poblacion }
    | NoSolution(generaciones: int, poblacion: int)
      // no generation ran: { ...null, score: -Infinity, ... } has no groups at all

  /** `config.x || default`: an absent or zero setting takes the default. */
  function OrDefault(x: Option<int>, d: int): int
  {
    if x.Some? && x.value != 0 then x.value else d
  }

  function OrDefaultReal(x: Option<real>, d: real): real
  {
    if x.Some? && x.value != 0.0 then x.value else d
  }

  /** The first group of `gs` of subject `m`: `gs.find(g => g.materia_id === m)`. */
  function FindByMateria(gs: seq<Group>, m: string): (r: Option<Group>)
    ensures r.Some? ==> r.value in gs && r.value.materiaId == m
    ensures r.None? ==> forall k :: 0 <= k < |gs| ==> gs[k].materiaId != m
  {
    if gs == [] then None else if gs[0].materiaId == m then Some(gs[0]) else FindByMateria(gs[1..], m)
  }

  /** The groups of `gs` whose id differs from `id`. */
  function WithoutId(gs: seq<Group>, id: string): (r: seq<Group>)
    ensures forall k :: 0 <= k < |r| ==> r[k] in gs && r[k].id != id
    ensures forall k :: 0 <= k < |gs| && gs[k].id != id ==> gs[k] in r
  {
    if gs == [] then [] else (if gs[0].id != id then [gs[0]] else []) + WithoutId(gs[1..], id)
  }

  lemma MateriaSetAppend(gs: seq<Group>, g: Group)
    ensures MateriaSet(gs + [g]) == MateriaSet(gs) + {g.materiaId}
  {
    var t := gs + [g];
    forall m | m in MateriaSet(t) ensures m in MateriaSet(gs) + {g.materiaId} {
      var k :| 0 <= k < |t| && t[k].materiaId == m;
      if k < |gs| { assert gs[k] == t[k]; }
    }
    forall m | m in MateriaSet(gs) ensures m in MateriaSet(t) {
      var k :| 0 <= k < |gs| && gs[k].materiaId == m;
      assert t[k] == gs[k];
    }
    assert t[|gs|] == g;
  }

  lemma MateriaSetReplace(gs: seq<Group>, i: nat, g: Group)
    requires i < |gs| && g.materiaId == gs[i].materiaId
    ensures MateriaSet(gs[i := g]) == MateriaSet(gs)
  {
    var t := gs[i := g];
    forall m | m in MateriaSet(t) ensures m in MateriaSet(gs) {
      var k :| 0 <= k < |t| && t[k].materiaId == m;
      assert gs[k].materiaId == m;
    }
    forall m | m in MateriaSet(gs) ensures m in MateriaSet(t) {
      var k :| 0 <= k < |gs| && gs[k].materiaId == m;
      assert t[k].materiaId == m;
    }
  }

  // ---------------------------------------------------------------------------
  // The search
  // ---------------------------------------------------------------------------

  datatype Config = Config(populationSize: Option<int>, generations: Option<int>, mutationRate: Option<real>, data: Data)

  class GeneticAlgorithm {
    const populationSize: int
    const generations: int
    const mutationRate: real
    const data: Data
    var bestSolution: Option<Schedule>
    /** Meaningful once `bestSolution` is set; until then it stands for -Infinity. */
    var bestScore: real
    var currentGeneration: int

    constructor (config: Config)
      ensures populationSize == OrDefault(config.populationSize, 50)
      ensures generations == OrDefault(config.generations, 100)
      ensures mutationRate == OrDefaultReal(config.mutationRate, 0.1)
      ensures data == config.data
      ensures bestSolution == None && currentGeneration == 0
    {
      populationSize := OrDefault(config.populationSize, 50);
      generations := OrDefault(config.generations, 100);
      mutationRate := OrDefaultReal(config.mutationRate, 0.1);
      data := config.data;
      bestSolution := None;
      bestScore := 0.0;
      currentGeneration := 0;
    }

    /** Every group is a candidate group of the data, of a selected subject. */
    ghost predicate FromData(gs: seq<Group>)
    {
      forall k :: 0 <= k < |gs| ==> gs[k] in data.grupos && gs[k].materiaId in data.selecciones
    }

    /** Some selected subject has at least one group. */
    ghost predicate SomeSelectionHasGroups()
    {
      exists k :: 0 <= k < |data.selecciones| && GruposDeMateria(data.grupos, data.selecciones[k]) != []
    }

    /**
     * The data as `loadData` reads it from the database: one selection row per
     * subject, and group ids that are table keys.
     */
    ghost predicate KeyedData()
    {
      (forall i, j :: 0 <= i < j < |data.selecciones| ==> data.selecciones[i] != data.selecciones[j]) &&
      (forall i, j :: 0 <= i < j < |data.grupos| ==> data.grupos[i].id != data.grupos[j].id)
    }

    /**
     * Meetings copied from the catalogue blocks (see `CatalogConsistent`), and
     * no group meeting twice in one cell.
     */
    ghost predicate CatalogData()
    {
      CatalogConsistent(data.grupos) &&
      forall i, a, b :: 0 <= i < |data.grupos| && 0 <= a < b < |data.grupos[i].horario| ==>
        CellOf(data.grupos[i].horario[a]) != CellOf(data.grupos[i].horario[b])
    }

    /**
     * A member of a population: non-empty, drawn from the data, with an
     * up-to-date subject count and matrix; on keyed data also conflict-free
     * with one group per subject.
     */
    ghost predicate Individual(s: Schedule)
    {
      |s.grupos| > 0 && FromData(s.grupos) &&
      s.materiasCubiertas == |MateriaSet(s.grupos)| &&
      s.horario == BuildScheduleMatrix(data.bloques, s.grupos) &&
      (KeyedData() ==> ConflictFree(s.grupos) && DistinctMaterias(s.grupos))
    }

    /** On keyed data two different groups of the catalogue have different ids. */
    lemma DistinctGroupIds(g1: Group, g2: Group)
      requires KeyedData() && g1 in data.grupos && g2 in data.grupos && g1 != g2
      ensures g1.id != g2.id
    {
      var i :| 0 <= i < |data.grupos| && data.grupos[i] == g1;
      var j :| 0 <= j < |data.grupos| && data.grupos[j] == g2;
      assert i < j || j < i;
    }

    /** `calculateFitness(schedule)`, reading the schedule's stored matrix. */
    function CalculateFitness(s: Schedule): real
    {
      Fitness(s.grupos, s.horario, data)
    }

    /** `tieneConflictoHorario`, by the nested loops of the source. */
    method TieneConflictoHorario(g1: Group, g2: Group) returns (r: bool)
      ensures r == Conflicts(g1, g2)
    {
      if g1.id == g2.id {
        return false;
      }
      var a := 0;
      while a < |g1.horario|
        invariant 0 <= a <= |g1.horario|
        invariant forall a', b :: 0 <= a' < a && 0 <= b < |g2.horario| ==> !Overlap(g1.horario[a'], g2.horario[b])
      {
        var b := 0;
        while b < |g2.horario|
          invariant 0 <= b <= |g2.horario|
          invariant forall b' :: 0 <= b' < b ==> !Overlap(g1.horario[a], g2.horario[b'])
        {
          var hd1 := g1.horario[a];
          var hd2 := g2.horario[b];
          if hd1.dia == hd2.dia {
            if hd1.inicio < hd2.fin && hd2.inicio < hd1.fin {
              return true;
            }
          }
          b := b + 1;
        }
        a := a + 1;
      }
      return false;
    }

    /** `tieneConflictoConSeleccionados`. */
    method TieneConflictoConSeleccionados(g: Group, sel: seq<Group>) returns (r: bool)
      ensures r == ConflictsWithAny(g, sel)
    {
      var k := 0;
      while k < |sel|
        invariant 0 <= k <= |sel|
        invariant forall j :: 0 <= j < k ==> !Conflicts(g, sel[j])
      {
        var c := TieneConflictoHorario(g, sel[k]);
        if c {
          return true;
        }
        k := k + 1;
      }
      return false;
    }

    /** `filtrarGruposSinConflicto`. */
    method FiltrarGruposSinConflicto(disp: seq<Group>, sel: seq<Group>) returns (r: seq<Group>)
      ensures r == SinConflicto(disp, sel)
    {
      if |sel| == 0 {
        SinConflictoNoSelection(disp);
        return disp;
      }
      r := [];
      var k := 0;
      while k < |disp|
        invariant 0 <= k <= |disp|
        invariant r == SinConflicto(disp[..k], sel)
      {
        assert disp[..k + 1][..k] == disp[..k];
        var c := TieneConflictoConSeleccionados(disp[k], sel);
        if !c {
          r := r + [disp[k]];
        }
        k := k + 1;
      }
      assert disp[..k] == disp;
    }

    /**
     * The main loop of `createRandomSchedule`: for each selection in order, a
     * random group among its groups that conflict with none chosen so far.
     * Nothing is chosen only when no selected subject has any group.
     */
    method ChooseGroups() returns (sel: seq<Group>, materias: set<string>)
      ensures ConflictFree(sel) && FromData(sel) && |sel| <= |data.selecciones|
      ensures materias == MateriaSet(sel)
      ensures KeyedData() ==> DistinctMaterias(sel)
      ensures |sel| == 0 ==> forall j :: 0 <= j < |data.selecciones| ==> GruposDeMateria(data.grupos, data.selecciones[j]) == []
    {
      sel := [];
      materias := {};
      var k := 0;
      while k < |data.selecciones|
        invariant 0 <= k <= |data.selecciones|
        invariant ConflictFree(sel) && FromData(sel) && |sel| <= k
        invariant materias == MateriaSet(sel)
        invariant |sel| == 0 ==> forall j :: 0 <= j < k ==> GruposDeMateria(data.grupos, data.selecciones[j]) == []
        invariant ChosenBefore(sel, k)
        invariant KeyedData() ==> DistinctMaterias(sel)
      {
        sel, materias := ChooseFor(sel, materias, k);
        k := k + 1;
      }
    }

    /**
     * One turn of that loop: selection `k` adds a random conflict-free group
     * of its subject when there is one, and otherwise leaves the choice as is.
     */
    method ChooseFor(sel: seq<Group>, materias: set<string>, k: nat) returns (sel': seq<Group>, materias': set<string>)
      requires k < |data.selecciones|
      requires ConflictFree(sel) && FromData(sel) && |sel| <= k
      requires materias == MateriaSet(sel)
      requires |sel| == 0 ==> forall j :: 0 <= j < k ==> GruposDeMateria(data.grupos, data.selecciones[j]) == []
      requires ChosenBefore(sel, k)
      requires KeyedData() ==> DistinctMaterias(sel)
      ensures sel' == sel || exists g :: g in GruposDeMateria(data.grupos, data.selecciones[k]) && sel' == sel + [g]
      ensures ConflictFree(sel') && FromData(sel') && |sel'| <= k + 1
      ensures materias' == MateriaSet(sel')
      ensures |sel'| == 0 ==> forall j :: 0 <= j < k + 1 ==> GruposDeMateria(data.grupos, data.selecciones[j]) == []
      ensures ChosenBefore(sel', k + 1)
      ensures KeyedData() ==> DistinctMaterias(sel')
    {
      sel', materias' := sel, materias;
      var materiaId := data.selecciones[k];
      var disp := GruposDeMateria(data.grupos, materiaId);
      if |disp| > 0 {
        var sinConflicto := FiltrarGruposSinConflicto(disp, sel);
        if |sel| == 0 {
          SinConflictoNoSelection(disp);
        }
        if |sinConflicto| > 0 {
          var i := RandomIndex(|sinConflicto|);
          var g := sinConflicto[i];
          ConflictFreeAppend(sel, g);
          MateriaSetAppend(sel, g);
          if KeyedData() {
            NewSelectionUncovered(sel, k);
            DistinctMateriasAppend(sel, g);
          }
          ChosenBeforeAppend(sel, k, g);
          sel' := sel + [g];
          materias' := materias + {materiaId};
        }
      }
      if sel' == sel {
        ChosenBeforeGrow(sel, k);
      }
    }

    /** Every group of `sel` belongs to the subject of one of the first `k` selections. */
    ghost predicate ChosenBefore(sel: seq<Group>, k: nat)
      requires k <= |data.selecciones|
    {
      forall j :: 0 <= j < |sel| ==> sel[j].materiaId in data.selecciones[..k]
    }

    lemma ChosenBeforeGrow(sel: seq<Group>, k: nat)
      requires k < |data.selecciones| && ChosenBefore(sel, k)
      ensures ChosenBefore(sel, k + 1)
    {
      assert data.selecciones[..k + 1] == data.selecciones[..k] + [data.selecciones[k]];
    }

    lemma ChosenBeforeAppend(sel: seq<Group>, k: nat, g: Group)
      requires k < |data.selecciones| && ChosenBefore(sel, k) && g.materiaId == data.selecciones[k]
      ensures ChosenBefore(sel + [g], k + 1)
    {
      ChosenBeforeGrow(sel, k);
    }

    /** On keyed data, the subject of selection `k` is none of the subjects of earlier selections. */
    lemma NewSelectionUncovered(sel: seq<Group>, k: nat)
      requires KeyedData() && k < |data.selecciones| && ChosenBefore(sel, k)
      ensures data.selecciones[k] !in MateriaSet(sel)
    {
      forall j | 0 <= j < |sel| ensures sel[j].materiaId != data.selecciones[k] {
        var i :| 0 <= i < k && data.selecciones[..k][i] == sel[j].materiaId;
        assert data.selecciones[i] != data.selecciones[k];
      }
    }

    /**
     * The fallback of `createRandomSchedule`: one random group of the first
     * selection that has any. (After `ChooseGroups` came back empty there is
     * no such selection, so the fallback never adds a group.)
     */
    method FallbackGroup() returns (sel: seq<Group>, materias: set<string>)
      ensures |sel| <= 1 && ConflictFree(sel) && FromData(sel) && materias == MateriaSet(sel)
      ensures |sel| == 0 <==> forall j :: 0 <= j < |data.selecciones| ==> GruposDeMateria(data.grupos, data.selecciones[j]) == []
    {
      sel := [];
      materias := {};
      var j := 0;
      while j < |data.selecciones|
        invariant 0 <= j <= |data.selecciones|
        invariant forall j' :: 0 <= j' < j ==> GruposDeMateria(data.grupos, data.selecciones[j']) == []
      {
        var materiaId := data.selecciones[j];
        var disp := GruposDeMateria(data.grupos, materiaId);
        if |disp| > 0 {
          var i := RandomIndex(|disp|);
          var g := disp[i];
          ConflictFreeAppend([], g);
          MateriaSetAppend([], g);
          sel := [g];
          materias := {materiaId};
          return;
        }
        j := j + 1;
      }
    }

    /**
     * `createRandomSchedule`: the groups of `ChooseGroups`, or the fallback
     * group when none was chosen, with their subject count and matrix.
     */
    method CreateRandomSchedule() returns (s: Schedule)
      ensures ConflictFree(s.grupos) && FromData(s.grupos)
      ensures |s.grupos| <= |data.selecciones|
      ensures |s.grupos| > 0 <==> SomeSelectionHasGroups()
      ensures s.materiasCubiertas == |MateriaSet(s.grupos)|
      ensures s.horario == BuildScheduleMatrix(data.bloques, s.grupos)
      ensures KeyedData() ==> DistinctMaterias(s.grupos)
    {
      var sel, materias := ChooseGroups();
      if |sel| == 0 {
        sel, materias := FallbackGroup();
      }
      if |sel| > 0 {
        var k :| 0 <= k < |data.selecciones| && data.selecciones[k] == sel[0].materiaId;
        assert sel[0] in GruposDeMateria(data.grupos, data.selecciones[k]);
      }
      s := Schedule(sel, |materias|, BuildScheduleMatrix(data.bloques, sel));
    }

    /** `initializePopulation`: `populationSize` attempts, keeping the non-empty schedules. */
    method InitializePopulation() returns (population: seq<Schedule>)
      ensures forall k :: 0 <= k < |population| ==> Individual(population[k]) && ConflictFree(population[k].grupos)
      ensures |population| == if populationSize > 0 && SomeSelectionHasGroups() then populationSize else 0
    {
      population := [];
      var i := 0;
      while i < populationSize
        invariant 0 <= i <= MaxInt(populationSize, 0)
        invariant |population| == if SomeSelectionHasGroups() then i else 0
        invariant forall k :: 0 <= k < |population| ==> Individual(population[k]) && ConflictFree(population[k].grupos)
      {
        var schedule := CreateRandomSchedule();
        if |schedule.grupos| > 0 {
          population := population + [schedule];
        }
        i := i + 1;
      }
    }

    /** `population.map(...)` in `run`: each schedule paired with its fitness, in population order. */
    function Scored(population: seq<Schedule>): (r: seq<Evaluated>)
      ensures |r| == |population|
      ensures forall i :: 0 <= i < |r| ==> r[i] == Evaluated(population[i], CalculateFitness(population[i]))
    {
      if population == [] then []
      else [Evaluated(population[0], CalculateFitness(population[0]))] + Scored(population[1..])
    }

    /**
     * The evaluation step of `run`: every schedule with its fitness, sorted by
     * descending fitness (a stable sort, so ties keep population order).
     */
    function Evaluate(population: seq<Schedule>): (evaluated: seq<Evaluated>)
      ensures |evaluated| == |population|
      ensures multiset(evaluated) == multiset(Scored(population))
      ensures forall i, j :: 0 <= i < j < |evaluated| ==> evaluated[i].fitness >= evaluated[j].fitness
    {
      SortByFitnessDescending(Scored(population));
      SortByFitness(Scored(population))
    }

    /** `selectParent`: a roulette-wheel pick, or a uniform one when the total fitness is not positive. */
    method SelectParent(evaluated: seq<Evaluated>) returns (r: Option<Schedule>)
      ensures r.None? <==> |evaluated| == 0
      ensures r.Some? ==> exists i :: 0 <= i < |evaluated| && evaluated[i].schedule == r.value
      ensures SuffixFitness(evaluated, 0) > 0.0 ==>
        exists x :: 0.0 <= x < SuffixFitness(evaluated, 0) && r == Some(evaluated[Roulette(evaluated, x, 0, 0.0)].schedule)
    {
      if |evaluated| == 0 {
        return None;
      }
      var totalFitness := SuffixFitness(evaluated, 0);
      if totalFitness <= 0.0 {
        var i := RandomIndex(|evaluated|);
        return Some(evaluated[i].schedule);
      }
      var u := Random();
      var x := u * totalFitness;
      FractionBelow(u, totalFitness, x);
      var cumulative := 0.0;
      var i := 0;
      while i < |evaluated|
        invariant 0 <= i <= |evaluated|
        invariant Roulette(evaluated, x, 0, 0.0) == Roulette(evaluated, x, i, cumulative)
      {
        cumulative := cumulative + evaluated[i].fitness;
        if cumulative >= x {
          return Some(evaluated[i].schedule);
        }
        i := i + 1;
      }
      assert Roulette(evaluated, x, 0, 0.0) == 0;
      return Some(evaluated[0].schedule);
    }

    /** No two groups of the sequence belong to the same subject. */
    ghost predicate DistinctMaterias(gs: seq<Group>)
    {
      forall i, j :: 0 <= i < j < |gs| ==> gs[i].materiaId != gs[j].materiaId
    }

    lemma DistinctMateriasAppend(gs: seq<Group>, g: Group)
      requires DistinctMaterias(gs) && g.materiaId !in MateriaSet(gs)
      ensures DistinctMaterias(gs + [g])
    {
      forall i | 0 <= i < |gs| ensures gs[i].materiaId != g.materiaId {
        assert gs[i].materiaId in MateriaSet(gs);
      }
    }

    /** A group of a selected subject exists when some schedule holds one. */
    lemma SelectedSubjectHasGroups(g: Group)
      requires g in data.grupos && g.materiaId in data.selecciones
      ensures SomeSelectionHasGroups()
    {
      assert g in GruposDeMateria(data.grupos, g.materiaId);
      var j :| 0 <= j < |data.selecciones| && data.selecciones[j] == g.materiaId;
    }

    /**
     * The uniform step of `crossover`: for each subject of either parent, in
     * first-occurrence order, a coin flip picks the parent whose group for it
     * is taken, unless that group conflicts with those taken so far.
     */
    method InheritGroups(parent1: Schedule, parent2: Schedule) returns (sel: seq<Group>, materias: set<string>)
      requires FromData(parent1.grupos) && FromData(parent2.grupos)
      ensures ConflictFree(sel) && FromData(sel) && DistinctMaterias(sel)
      ensures materias == MateriaSet(sel)
    {
      sel := [];
      materias := {};
      var todas := Dedup(Materias(parent1.grupos) + Materias(parent2.grupos));
      var k := 0;
      while k < |todas|
        invariant 0 <= k <= |todas|
        invariant ConflictFree(sel) && FromData(sel) && DistinctMaterias(sel)
        invariant materias == MateriaSet(sel)
        invariant forall m :: m in materias ==> exists j :: 0 <= j < k && todas[j] == m
      {
        var materiaId := todas[k];
        var u := Random();
        var sourceParent := if u > 0.5 then parent1 else parent2;
        var grupoEnParent := FindByMateria(sourceParent.grupos, materiaId);
        if grupoEnParent.Some? {
          var g := grupoEnParent.value;
          var c := TieneConflictoConSeleccionados(g, sel);
          if !c {
            assert materiaId !in materias;
            ConflictFreeAppend(sel, g);
            MateriaSetAppend(sel, g);
            DistinctMateriasAppend(sel, g);
            sel := sel + [g];
            materias := materias + {materiaId};
          }
        }
        k := k + 1;
      }
    }

    /**
     * The completion step of `crossover`: every selection whose subject is not
     * yet covered gets a random group that conflicts with none taken so far.
     * The groups already taken stay, in front.
     */
    method FillUncovered(sel0: seq<Group>, materias0: set<string>) returns (sel: seq<Group>, materias: set<string>)
      requires ConflictFree(sel0) && FromData(sel0) && DistinctMaterias(sel0) && materias0 == MateriaSet(sel0)
      ensures ConflictFree(sel) && FromData(sel) && DistinctMaterias(sel) && materias == MateriaSet(sel)
      ensures |sel0| <= |sel| && sel[..|sel0|] == sel0
      ensures |sel| == 0 ==> forall j :: 0 <= j < |data.selecciones| ==> GruposDeMateria(data.grupos, data.selecciones[j]) == []
    {
      sel, materias := sel0, materias0;
      var j := 0;
      while j < |data.selecciones|
        invariant 0 <= j <= |data.selecciones|
        invariant ConflictFree(sel) && FromData(sel) && DistinctMaterias(sel) && materias == MateriaSet(sel)
        invariant |sel0| <= |sel| && sel[..|sel0|] == sel0
        invariant |sel| == 0 ==> forall j' :: 0 <= j' < j ==> GruposDeMateria(data.grupos, data.selecciones[j']) == []
      {
        var prev := sel;
        sel, materias := CoverSubject(sel, materias, data.selecciones[j]);
        assert sel[..|sel0|] == prev[..|sel0|];
        j := j + 1;
      }
    }

    /**
     * One step of the completion in `crossover`: a subject not yet covered
     * gets a random group that clashes with none chosen so far, if any.
     */
    method CoverSubject(sel0: seq<Group>, materias0: set<string>, materiaId: string) returns (sel: seq<Group>, materias: set<string>)
      requires ConflictFree(sel0) && FromData(sel0) && DistinctMaterias(sel0) && materias0 == MateriaSet(sel0)
      requires materiaId in data.selecciones
      ensures ConflictFree(sel) && FromData(sel) && DistinctMaterias(sel) && materias == MateriaSet(sel)
      ensures sel == sel0 || (materiaId !in materias0 && |sel| == |sel0| + 1 && sel[..|sel0|] == sel0 &&
                              sel[|sel0|].materiaId == materiaId)
      ensures |sel| == 0 ==> GruposDeMateria(data.grupos, materiaId) == []
    {
      sel, materias := sel0, materias0;
      if materiaId !in materias {
        var disp := GruposDeMateria(data.grupos, materiaId);
        var sinConflicto := FiltrarGruposSinConflicto(disp, sel);
        if |sel| == 0 {
          SinConflictoNoSelection(disp);
        }
        if |sinConflicto| > 0 {
          var i := RandomIndex(|sinConflicto|);
          var g := sinConflicto[i];
          ConflictFreeAppend(sel, g);
          MateriaSetAppend(sel, g);
          DistinctMateriasAppend(sel, g);
          assert (sel + [g])[..|sel0|] == sel0;
          sel := sel + [g];
          materias := materias + {materiaId};
        }
      }
    }

    /**
     * `crossover` of two population members: the inherited groups, completed
     * when some selection is uncovered. The child is a conflict-free,
     * non-empty schedule with one group per covered subject.
     */
    method Crossover(parent1: Schedule, parent2: Schedule) returns (child: Schedule)
      requires Individual(parent1) && Individual(parent2)
      ensures Individual(child) && ConflictFree(child.grupos)
      ensures DistinctMaterias(child.grupos) && child.materiasCubiertas == |child.grupos|
    {
      var sel, materias := InheritGroups(parent1, parent2);
      ghost var g0 := parent1.grupos[0];
      assert g0 in data.grupos && g0.materiaId in data.selecciones;
      if |materias| < |data.selecciones| {
        sel, materias := FillUncovered(sel, materias);
        SelectedSubjectHasGroups(g0);
      }
      assert |sel| > 0;
      DistinctCardMaterias(sel);
      child := Schedule(sel, |materias|, BuildScheduleMatrix(data.bloques, sel));
    }

    lemma DistinctCardMaterias(gs: seq<Group>)
      requires DistinctMaterias(gs)
      ensures |MateriaSet(gs)| == |gs|
    {
      var ms := Materias(gs);
      assert forall i, j :: 0 <= i < j < |ms| ==> ms[i] != ms[j];
      DistinctCard(ms);
      assert (set x | x in ms) == MateriaSet(gs) by {
        forall x | x in ms ensures x in MateriaSet(gs) {
          var k :| 0 <= k < |ms| && ms[k] == x;
        }
        forall x | x in MateriaSet(gs) ensures x in ms {
          var k :| 0 <= k < |gs| && gs[k].materiaId == x;
          assert ms[k] == x;
        }
      }
    }

    /**
     * The `otrosGrupos` filter of `mutate`: the groups of the subject other than
     * `actual` that conflict with none of the selected groups whose id is not `actual`'s.
     */
    function OtrosGrupos(gruposMateria: seq<Group>, actual: Group, sel: seq<Group>): (r: seq<Group>)
      ensures forall k :: 0 <= k < |r| ==>
        r[k] in gruposMateria && r[k].id != actual.id && !ConflictsWithAny(r[k], WithoutId(sel, actual.id))
      ensures forall k ::
        (0 <= k < |gruposMateria| && gruposMateria[k].id != actual.id &&
         !ConflictsWithAny(gruposMateria[k], WithoutId(sel, actual.id))) ==> gruposMateria[k] in r
    {
      if gruposMateria == [] then []
      else
        var g := gruposMateria[0];
        (if g.id != actual.id && !ConflictsWithAny(g, WithoutId(sel, actual.id)) then [g] else [])
          + OtrosGrupos(gruposMateria[1..], actual, sel)
    }

    /** The state after a replacing mutation: the group at `idx` swapped for another group of its subject. */
    ghost predicate ValidReplacement(before: seq<Group>, after: seq<Group>, idx: int)
    {
      0 <= idx < |before| && |after| == |before| && after == before[idx := after[idx]] &&
      after[idx] in data.grupos &&
      after[idx].materiaId == before[idx].materiaId && after[idx].id != before[idx].id &&
      !ConflictsWithAny(after[idx], WithoutId(before, before[idx].id))
    }

    /**
     * `mutate`. With probability `1 - mutationRate` the schedule itself comes
     * back. Otherwise, when the subject of a random group has another group
     * that clashes with none of the other selected groups, a random such group
     * takes its place and the matrix is rebuilt.
     */
    method Mutate(schedule: Schedule) returns (mutated: Schedule)
      requires Individual(schedule)
      ensures Individual(mutated)
      ensures mutated == schedule ||
        exists idx :: ValidReplacement(schedule.grupos, mutated.grupos, idx)
      ensures mutated.materiasCubiertas == schedule.materiasCubiertas
    {
      var u := Random();
      if u > mutationRate {
        return schedule;
      }
      mutated := schedule;
      var randomIndex := RandomIndex(|mutated.grupos|);
      var grupoAMutar := mutated.grupos[randomIndex];
      var materiaId := grupoAMutar.materiaId;
      var gruposMateria := GruposDeMateria(data.grupos, materiaId);
      if |gruposMateria| > 1 {
        var otros := OtrosGrupos(gruposMateria, grupoAMutar, mutated.grupos);
        if |otros| > 0 {
          var newGrupoIndex := RandomIndex(|otros|);
          var nuevoGrupo := otros[newGrupoIndex];
          var grupos := mutated.grupos[randomIndex := nuevoGrupo];
          MateriaSetReplace(mutated.grupos, randomIndex, nuevoGrupo);
          assert ValidReplacement(schedule.grupos, grupos, randomIndex);
          if KeyedData() {
            ReplacementKeepsConflictFree(schedule.grupos, grupos, randomIndex);
          }
          mutated := mutated.(grupos := grupos, horario := BuildScheduleMatrix(data.bloques, grupos));
        }
      }
    }

    /**
     * On keyed data a replacing mutation keeps the schedule conflict-free with
     * one group per subject: the other groups are exactly those whose id
     * differs from the replaced one's, and the new group clashes with none.
     */
    lemma ReplacementKeepsConflictFree(before: seq<Group>, after: seq<Group>, idx: int)
      requires KeyedData() && FromData(before) && ConflictFree(before) && DistinctMaterias(before)
      requires ValidReplacement(before, after, idx)
      ensures ConflictFree(after) && DistinctMaterias(after)
    {
      var w := WithoutId(before, before[idx].id);
      forall j | 0 <= j < |before| && j != idx
        ensures !Conflicts(after[idx], after[j]) && !Conflicts(after[j], after[idx])
      {
        assert before[j].materiaId != before[idx].materiaId by {
          if j < idx {} else {}
        }
        DistinctGroupIds(before[j], before[idx]);
        assert before[j] in w;
        var k :| 0 <= k < |w| && w[k] == before[j];
        ConflictsIrreflexiveSymmetric(after[idx], before[j]);
      }
      forall i, j | 0 <= i < |after| && 0 <= j < |after| ensures !Conflicts(after[i], after[j]) {
        if i == idx && j == idx {
          ConflictsIrreflexiveSymmetric(after[i], after[i]);
        }
      }
    }

    /**
     * One generation of `run`: evaluate and sort, record a strictly better
     * best-so-far, then refill the population with the elite followed by
     * mutated children of roulette-selected parents.
     */
    method NextGeneration(population: seq<Schedule>) returns (next: seq<Schedule>)
      requires 0 < |population| <= populationSize
      requires forall k :: 0 <= k < |population| ==> Individual(population[k])
      requires bestSolution.Some? ==> Individual(bestSolution.value) && bestScore == CalculateFitness(bestSolution.value)
      modifies this`bestScore, this`bestSolution
      ensures |next| == populationSize
      ensures forall k :: 0 <= k < |next| ==> Individual(next[k])
      ensures next[0] in population
      ensures forall k :: 0 <= k < |population| ==> CalculateFitness(next[0]) >= CalculateFitness(population[k])
      ensures if old(bestSolution).None? || CalculateFitness(next[0]) > old(bestScore)
        then bestSolution == Some(next[0]) && bestScore == CalculateFitness(next[0])
        else bestSolution == old(bestSolution) && bestScore == old(bestScore)
      ensures bestSolution.Some? && Individual(bestSolution.value) && bestScore == CalculateFitness(bestSolution.value)
    {
      var evaluated := SelectElite(population);
      next := Refill(evaluated);
    }

    /**
     * The first half of a generation: the population evaluated and sorted
     * best-first, and the best record updated from its first entry.
     */
    method SelectElite(population: seq<Schedule>) returns (evaluated: seq<Evaluated>)
      requires 0 < |population|
      requires forall k :: 0 <= k < |population| ==> Individual(population[k])
      requires bestSolution.Some? ==> Individual(bestSolution.value) && bestScore == CalculateFitness(bestSolution.value)
      modifies this`bestScore, this`bestSolution
      ensures |evaluated| == |population|
      ensures forall i :: 0 <= i < |evaluated| ==> Individual(evaluated[i].schedule)
      ensures evaluated[0].schedule in population
      ensures forall k :: 0 <= k < |population| ==> CalculateFitness(evaluated[0].schedule) >= CalculateFitness(population[k])
      ensures if old(bestSolution).None? || CalculateFitness(evaluated[0].schedule) > old(bestScore)
        then bestSolution == Some(evaluated[0].schedule) && bestScore == CalculateFitness(evaluated[0].schedule)
        else bestSolution == old(bestSolution) && bestScore == old(bestScore)
      ensures bestSolution.Some? && Individual(bestSolution.value) && bestScore == CalculateFitness(bestSolution.value)
    {
      evaluated := Evaluate(population);
      EliteIsFittest(population, evaluated);
      KeepBest(evaluated[0].schedule, evaluated[0].fitness);
    }

    /** The record of `run`: the candidate replaces it when there is none yet or when it scores higher. */
    method KeepBest(candidate: Schedule, score: real)
      modifies this`bestScore, this`bestSolution
      ensures if old(bestSolution).None? || score > old(bestScore)
        then bestSolution == Some(candidate) && bestScore == score
        else bestSolution == old(bestSolution) && bestScore == old(bestScore)
    {
      if bestSolution.None? || score > bestScore {
        bestScore := score;
        bestSolution := Some(candidate);
      }
    }

    /** After evaluation, the first entry is a fittest member and every entry is a member. */
    lemma EliteIsFittest(population: seq<Schedule>, evaluated: seq<Evaluated>)
      requires 0 < |population| == |evaluated|
      requires forall k :: 0 <= k < |population| ==> Individual(population[k])
      requires multiset(evaluated) == multiset(Scored(population))
      requires forall i, j :: 0 <= i < j < |evaluated| ==> evaluated[i].fitness >= evaluated[j].fitness
      ensures evaluated[0].schedule in population
      ensures forall k :: 0 <= k < |population| ==> evaluated[0].fitness >= CalculateFitness(population[k])
      ensures forall i :: 0 <= i < |evaluated| ==>
        Individual(evaluated[i].schedule) && evaluated[i].fitness == CalculateFitness(evaluated[i].schedule)
    {
      var scored := Scored(population);
      BestFirst(evaluated, scored);
      forall i | 0 <= i < |evaluated|
        ensures evaluated[i].schedule in population && Individual(evaluated[i].schedule) &&
          evaluated[i].fitness == CalculateFitness(evaluated[i].schedule)
      {
        ScoredEntry(population, evaluated[i]);
      }
    }

    /** An entry of the scored population is a member with its own fitness. */
    lemma ScoredEntry(population: seq<Schedule>, e: Evaluated)
      requires forall k :: 0 <= k < |population| ==> Individual(population[k])
      requires e in Scored(population)
      ensures e.schedule in population && Individual(e.schedule) && e.fitness == CalculateFitness(e.schedule)
    {
      var k := IndexOf(Scored(population), e);
      assert e.schedule == population[k];
    }

    /**
     * The new population of a generation: the elite `evaluated[0]`, then
     * mutated crossovers of roulette-selected parents until `populationSize`.
     */
    method Refill(evaluated: seq<Evaluated>) returns (next: seq<Schedule>)
      requires 0 < |evaluated| <= populationSize
      requires forall i :: 0 <= i < |evaluated| ==> Individual(evaluated[i].schedule)
      ensures |next| == populationSize && next[0] == evaluated[0].schedule
      ensures forall k :: 0 <= k < |next| ==> Individual(next[k])
    {
      next := [evaluated[0].schedule];
      while |next| < populationSize
        invariant 1 <= |next| <= populationSize
        invariant next[0] == evaluated[0].schedule
        invariant forall k :: 0 <= k < |next| ==> Individual(next[k])
        decreases populationSize - |next|
      {
        var parent1 := SelectParent(evaluated);
        var parent2 := SelectParent(evaluated);
        if parent1.Some? && parent2.Some? {
          var child := Crossover(parent1.value, parent2.value);
          var mutatedChild := Mutate(child);
          next := next + [mutatedChild];
        }
      }
    }

    /**
     * A conflict-free schedule of catalogue groups, one per subject, leaves
     * every cell of its matrix with at most one group.
     */
    lemma KeyedHasNoPenalty(gs: seq<Group>)
      requires KeyedData() && CatalogData() && FromData(gs) && ConflictFree(gs) && DistinctMaterias(gs)
      ensures ConflictPenalty(BuildScheduleMatrix(data.bloques, gs)) == 0
    {
      forall i, a | 0 <= i < |gs| && 0 <= a < |gs[i].horario| ensures gs[i].horario[a].inicio < gs[i].horario[a].fin {
        var i' :| 0 <= i' < |data.grupos| && data.grupos[i'] == gs[i];
      }
      forall i, a, j, b | 0 <= i < |gs| && 0 <= a < |gs[i].horario| && 0 <= j < |gs| && 0 <= b < |gs[j].horario| &&
                          gs[i].horario[a].bloqueId == gs[j].horario[b].bloqueId
        ensures gs[i].horario[a].inicio == gs[j].horario[b].inicio && gs[i].horario[a].fin == gs[j].horario[b].fin
      {
        var i' :| 0 <= i' < |data.grupos| && data.grupos[i'] == gs[i];
        var j' :| 0 <= j' < |data.grupos| && data.grupos[j'] == gs[j];
      }
      forall i, j | 0 <= i < j < |gs| ensures gs[i].id != gs[j].id {
        DistinctGroupIds(gs[i], gs[j]);
      }
      forall i, a, b | 0 <= i < |gs| && 0 <= a < b < |gs[i].horario| ensures CellOf(gs[i].horario[a]) != CellOf(gs[i].horario[b]) {
        var i' :| 0 <= i' < |data.grupos| && data.grupos[i'] == gs[i];
      }
      assert CatalogConsistent(gs);
      assert DistinctGroups(gs);
      ConflictFreeHasNoPenalty(data.bloques, gs);
    }

    /**
     * `run`: an empty initial population gives the empty schedule; otherwise
     * `generations` rounds of `NextGeneration`, and the best schedule seen, with
     * its fitness, is returned.
     */
    method Run() returns (res: RunResult)
      requires bestSolution.None?
      modifies this
      ensures res.EmptySchedule? <==> !(populationSize > 0 && SomeSelectionHasGroups())
      ensures res.NoSolution? <==> populationSize > 0 && SomeSelectionHasGroups() && generations <= 0
      ensures res.Solution? ==>
        |res.grupos| > 0 && FromData(res.grupos) &&
        res.score == Fitness(res.grupos, res.horario, data) && res.score >= 0.0 &&
        res.materiasCubiertas == |MateriaSet(res.grupos)| &&
        res.generaciones == generations && res.poblacion == populationSize && currentGeneration == generations
      ensures res.Solution? ==> res.horario == BuildScheduleMatrix(data.bloques, res.grupos)
      ensures res.Solution? && KeyedData() ==> ConflictFree(res.grupos) && DistinctMaterias(res.grupos)
      ensures res.Solution? && KeyedData() && CatalogData() ==> ConflictPenalty(res.horario) == 0
    {
      var population := InitializePopulation();
      if |population| == 0 {
        return EmptySchedule;
      }
      var gen := 0;
      while gen < generations
        invariant 0 <= gen && (gen <= generations || gen == 0)
        invariant 0 < |population| <= populationSize
        invariant forall k :: 0 <= k < |population| ==> Individual(population[k])
        invariant bestSolution.Some? ==> Individual(bestSolution.value) && bestScore == CalculateFitness(bestSolution.value)
        invariant bestSolution.Some? == (gen > 0)
        invariant gen > 0 ==> currentGeneration == gen
      {
        currentGeneration := gen + 1;
        population := NextGeneration(population);
        gen := gen + 1;
      }
      if bestSolution.None? {
        return NoSolution(generations, populationSize);
      }
      var best := bestSolution.value;
      if KeyedData() && CatalogData() {
        KeyedHasNoPenalty(best.grupos);
      }
      res := Solution(best.grupos, best.materiasCubiertas, best.horario, bestScore, generations, populationSize);
    }
  }

  /**
   * A best-first permutation of scored entries starts with a highest score,
   * and each of its entries is one of them.
   */
  lemma BestFirst(evaluated: seq<Evaluated>, scored: seq<Evaluated>)
    requires 0 < |scored| && multiset(evaluated) == multiset(scored)
    requires forall i, j :: 0 <= i < j < |evaluated| ==> evaluated[i].fitness >= evaluated[j].fitness
    ensures 0 < |evaluated| && evaluated[0] in scored
    ensures forall k :: 0 <= k < |scored| ==> evaluated[0].fitness >= scored[k].fitness
    ensures forall i :: 0 <= i < |evaluated| ==> evaluated[i] in scored
  {
    assert |evaluated| == |multiset(evaluated)| == |scored|;
    forall k | 0 <= k < |scored| ensures evaluated[0].fitness >= scored[k].fitness {
      assert scored[k] in multiset(evaluated);
      var i :| 0 <= i < |evaluated| && evaluated[i] == scored[k];
    }
    forall i | 0 <= i < |evaluated| ensures evaluated[i] in scored {
      assert evaluated[i] in multiset(scored);
    }
  }

  function FitnessOf(e: Evaluated): real { e.fitness }

  /** `evaluated.sort((a, b) => b.fitness - a.fitness)`: a stable sort by descending fitness. */
  function SortByFitness(scored: seq<Evaluated>): (r: seq<Evaluated>)
    ensures |r| == |scored| && multiset(r) == multiset(scored)
  {
    Sorting.SortBy(scored, FitnessOf, AtLeast)
  }

  /** The sorted population is in non-increasing order of fitness. */
  lemma SortByFitnessDescending(scored: seq<Evaluated>)
    ensures forall i, j :: 0 <= i < j < |SortByFitness(scored)| ==>
      SortByFitness(scored)[i].fitness >= SortByFitness(scored)[j].fitness
  {
    AtLeastIsTotalPreorder();
    Sorting.SortBySorted(scored, FitnessOf, AtLeast);
  }

  /** The comparator `(a, b) => b.fitness - a.fitness`: descending fitness. */
  function AtLeast(a: real, b: real): bool { a >= b }

  lemma AtLeastIsTotalPreorder()
    ensures Sorting.TotalPreorder(AtLeast)
  {
  }
}
