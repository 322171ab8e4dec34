/**
 * The term the personal timetabler
 * (`backend/src/services/personalScheduleGenerator.service.js`) adds to the
 * institution-wide cost when the student has stored preferences: a wrong
 * shift, a day the student wants free, and too many days with classes for a
 * student who asked for a compact week.
 *
 * The functions are the specification; the methods are the source's
 * `forEach` loops, each proved to compute its part.
 */
module PersonalCost {
  import opened Common
  import opened SchedulerData
  import opened SchedulerCost

  /** `assignment.valid && assignment.block`: the only assignments the student term looks at. */
  predicate Placed(v: Slot)
  {
    v.valid && v.block.Some?
  }

  /** `weights.preference` for every placed assignment whose shift is not `turno`. */
  function ShiftPenalty(w: Weights, turno: JsStr, vs: seq<Slot>): real
  {
    if vs == [] then 0.0
    else
      var v := vs[|vs| - 1];
      ShiftPenalty(w, turno, vs[..|vs| - 1]) + (if Placed(v) && v.block.value.turno != turno then w.preference else 0.0)
  }

  /** `2 * weights.preference` for every placed assignment on a day in `dias`. */
  function AvoidPenalty(w: Weights, dias: seq<string>, vs: seq<Slot>): real
  {
    if vs == [] then 0.0
    else
      var v := vs[|vs| - 1];
      AvoidPenalty(w, dias, vs[..|vs| - 1]) + (if Placed(v) && v.block.value.dia in dias then w.preference * 2.0 else 0.0)
  }

  /** The keys of `bloquesPorDia`: the days of the placed assignments, in first-use order. */
  function StudentDays(vs: seq<Slot>): seq<string>
  {
    if vs == [] then []
    else
      var v := vs[|vs| - 1];
      var prev := StudentDays(vs[..|vs| - 1]);
      if Placed(v) then AddKey(prev, v.block.value.dia) else prev
  }

  /** `bloquesPorDia[d]`: the number of placed assignments on day `d`. */
  function PlacedOn(vs: seq<Slot>, d: string): nat
  {
    if vs == [] then 0
    else
      var v := vs[|vs| - 1];
      PlacedOn(vs[..|vs| - 1], d) + (if Placed(v) && v.block.value.dia == d then 1 else 0)
  }

  /** `(days - 3) * 100` when the student wants at most 3 (a compact week) and has classes on more than 3 days. */
  function CompactnessForStudent(desired: int, days: nat): real
  {
    if desired <= 3 && days > 3 then (days - 3) as real * 100.0 else 0.0
  }

  /** `compactacion || 5`: a missing or zero setting means 5. */
  function DesiredCompactness(p: Preference): int
  {
    if p.compactacion.Some? && p.compactacion.value != 0 then p.compactacion.value else 5
  }

  /** `evaluateStudentPreferences`. */
  function StudentTerm(w: Weights, p: Preference, vs: seq<Slot>): real
  {
    (if p.turnoPreferido.Truthy() then ShiftPenalty(w, p.turnoPreferido, vs) else 0.0) +
    (if p.evitarDias.Some? && |p.evitarDias.value| > 0 then AvoidPenalty(w, p.evitarDias.value, vs) else 0.0) +
    CompactnessForStudent(DesiredCompactness(p), |StudentDays(vs)|)
  }

  // ---------------------------------------------------------------------------
  // The loops
  // ---------------------------------------------------------------------------

  lemma ShiftPenaltyAppend(w: Weights, turno: JsStr, prefix: seq<Slot>, v: Slot)
    ensures ShiftPenalty(w, turno, prefix + [v]) ==
            ShiftPenalty(w, turno, prefix) + (if Placed(v) && v.block.value.turno != turno then w.preference else 0.0)
  {
    assert (prefix + [v])[..|prefix|] == prefix;
  }

  lemma AvoidPenaltyAppend(w: Weights, dias: seq<string>, prefix: seq<Slot>, v: Slot)
    ensures AvoidPenalty(w, dias, prefix + [v]) ==
            AvoidPenalty(w, dias, prefix) + (if Placed(v) && v.block.value.dia in dias then w.preference * 2.0 else 0.0)
  {
    assert (prefix + [v])[..|prefix|] == prefix;
  }

  lemma PlacedOnAppend(prefix: seq<Slot>, v: Slot, d: string)
    ensures PlacedOn(prefix + [v], d) == PlacedOn(prefix, d) + (if Placed(v) && v.block.value.dia == d then 1 else 0)
  {
    assert (prefix + [v])[..|prefix|] == prefix;
  }

  /** The first `forEach`: one `preference` per placed assignment in another shift. */
  method EvaluateShift(w: Weights, turno: JsStr, vs: seq<Slot>) returns (score: real)
    ensures score == ShiftPenalty(w, turno, vs)
  {
    score := 0.0;
    var i := 0;
    while i < |vs|
      invariant 0 <= i <= |vs|
      invariant score == ShiftPenalty(w, turno, vs[..i])
    {
      var v := vs[i];
      ShiftPenaltyAppend(w, turno, vs[..i], v);
      assert vs[..i + 1] == vs[..i] + [v];
      if v.valid && v.block.Some? {
        if v.block.value.turno != turno {
          score := score + w.preference;
        }
      }
      i := i + 1;
    }
    assert vs[..|vs|] == vs;
  }

  /** The second `forEach`: twice `preference` per placed assignment on an avoided day. */
  method EvaluateAvoidedDays(w: Weights, dias: seq<string>, vs: seq<Slot>) returns (score: real)
    ensures score == AvoidPenalty(w, dias, vs)
  {
    score := 0.0;
    var i := 0;
    while i < |vs|
      invariant 0 <= i <= |vs|
      invariant score == AvoidPenalty(w, dias, vs[..i])
    {
      var v := vs[i];
      AvoidPenaltyAppend(w, dias, vs[..i], v);
      assert vs[..i + 1] == vs[..i] + [v];
      if v.valid && v.block.Some? {
        if v.block.value.dia in dias {
          score := score + w.preference * 2.0;
        }
      }
      i := i + 1;
    }
    assert vs[..|vs|] == vs;
  }

  /**
   * `evaluateCompactnessForStudent`: counts the placed assignments per day in
   * `bloquesPorDia` (its keys kept in their insertion order) and charges the
   * days beyond three.
   */
  method EvaluateCompactnessForStudent(vs: seq<Slot>, desired: int)
    returns (penalty: real, days: seq<string>, bloquesPorDia: map<string, nat>)
    ensures days == StudentDays(vs)
    ensures forall d :: d in bloquesPorDia <==> d in days
    ensures forall d :: d in bloquesPorDia ==> bloquesPorDia[d] == PlacedOn(vs, d)
    ensures penalty == CompactnessForStudent(desired, |StudentDays(vs)|)
  {
    days, bloquesPorDia := [], map[];
    var i := 0;
    while i < |vs|
      invariant 0 <= i <= |vs|
      invariant days == StudentDays(vs[..i])
      invariant forall d :: d in bloquesPorDia <==> d in days
      invariant forall d :: d in bloquesPorDia ==> bloquesPorDia[d] == PlacedOn(vs[..i], d)
      invariant forall d :: d !in bloquesPorDia ==> PlacedOn(vs[..i], d) == 0
    {
      var v := vs[i];
      assert vs[..i + 1] == vs[..i] + [v];
      assert (vs[..i] + [v])[..i] == vs[..i];
      forall d ensures PlacedOn(vs[..i + 1], d) == PlacedOn(vs[..i], d) + (if Placed(v) && v.block.value.dia == d then 1 else 0) {
        PlacedOnAppend(vs[..i], v, d);
      }
      if v.valid && v.block.Some? {
        var dia := v.block.value.dia;
        if dia !in bloquesPorDia {
          bloquesPorDia := bloquesPorDia[dia := 0];
          days := days + [dia];
        }
        bloquesPorDia := bloquesPorDia[dia := bloquesPorDia[dia] + 1];
      }
      i := i + 1;
    }
    assert vs[..|vs|] == vs;
    penalty := 0.0;
    if desired <= 3 && |days| > 3 {
      penalty := penalty + (|days| - 3) as real * 100.0;
    }
  }

  /** `evaluateStudentPreferences`: the three parts, each only when the preference is set. */
  method EvaluateStudentPreferences(w: Weights, p: Preference, vs: seq<Slot>) returns (score: real)
    ensures score == StudentTerm(w, p, vs)
  {
    score := 0.0;
    if p.turnoPreferido.Truthy() {
      var s := EvaluateShift(w, p.turnoPreferido, vs);
      score := score + s;
    }
    if p.evitarDias.Some? && |p.evitarDias.value| > 0 {
      var s := EvaluateAvoidedDays(w, p.evitarDias.value, vs);
      score := score + s;
    }
    var desired := if p.compactacion.Some? && p.compactacion.value != 0 then p.compactacion.value else 5;
    var c, _, _ := EvaluateCompactnessForStudent(vs, desired);
    score := score + c;
  }

  // ---------------------------------------------------------------------------
  // What the term means
  // ---------------------------------------------------------------------------

  /** A day is a key of `bloquesPorDia` exactly when some placed assignment falls on it, and each key appears once. */
  lemma {:induction false} StudentDaysMembers(vs: seq<Slot>, d: string)
    ensures d in StudentDays(vs) <==> exists k :: 0 <= k < |vs| && Placed(vs[k]) && vs[k].block.value.dia == d
    ensures forall i, j :: 0 <= i < j < |StudentDays(vs)| ==> StudentDays(vs)[i] != StudentDays(vs)[j]
  {
    if vs != [] {
      var init := vs[..|vs| - 1];
      StudentDaysMembers(init, d);
      assert forall k :: 0 <= k < |init| ==> init[k] == vs[k];
      if d in StudentDays(vs) && d !in StudentDays(init) {
        assert Placed(vs[|vs| - 1]) && vs[|vs| - 1].block.value.dia == d;
      }
    }
  }

  /** A day has a positive count exactly when it is a key. */
  lemma {:induction false} PlacedOnPositive(vs: seq<Slot>, d: string)
    ensures PlacedOn(vs, d) > 0 <==> d in StudentDays(vs)
  {
    if vs != [] {
      PlacedOnPositive(vs[..|vs| - 1], d);
    }
  }

  /** With a positive weight, the shift term is zero exactly when every placed assignment is in the preferred shift. */
  lemma {:induction false} ShiftPenaltyZeroIff(w: Weights, turno: JsStr, vs: seq<Slot>)
    requires w.preference > 0.0
    ensures ShiftPenalty(w, turno, vs) >= 0.0
    ensures ShiftPenalty(w, turno, vs) == 0.0 <==> forall k :: 0 <= k < |vs| && Placed(vs[k]) ==> vs[k].block.value.turno == turno
  {
    if vs != [] {
      var init := vs[..|vs| - 1];
      ShiftPenaltyZeroIff(w, turno, init);
      assert forall k :: 0 <= k < |init| ==> init[k] == vs[k];
    }
  }

  /** With a positive weight, the avoided-days term is zero exactly when no placed assignment falls on an avoided day. */
  lemma {:induction false} AvoidPenaltyZeroIff(w: Weights, dias: seq<string>, vs: seq<Slot>)
    requires w.preference > 0.0
    ensures AvoidPenalty(w, dias, vs) >= 0.0
    ensures AvoidPenalty(w, dias, vs) == 0.0 <==> forall k :: 0 <= k < |vs| && Placed(vs[k]) ==> vs[k].block.value.dia !in dias
  {
    if vs != [] {
      var init := vs[..|vs| - 1];
      AvoidPenaltyZeroIff(w, dias, init);
      assert forall k :: 0 <= k < |init| ==> init[k] == vs[k];
    }
  }

  /** The shift term costs at most the preference weight per assignment. */
  lemma {:induction false} ShiftBounded(w: Weights, turno: JsStr, vs: seq<Slot>)
    requires NonNegative(w)
    ensures ShiftPenalty(w, turno, vs) <= w.preference * |vs| as real
  {
    if vs != [] {
      ShiftBounded(w, turno, vs[..|vs| - 1]);
      ScaleStep(w.preference, |vs|);
    }
  }

  /** The avoided-days term costs at most twice the preference weight per assignment. */
  lemma {:induction false} AvoidBounded(w: Weights, dias: seq<string>, vs: seq<Slot>)
    requires NonNegative(w)
    ensures AvoidPenalty(w, dias, vs) <= w.preference * 2.0 * |vs| as real
  {
    if vs != [] {
      AvoidBounded(w, dias, vs[..|vs| - 1]);
      ScaleStep(w.preference * 2.0, |vs|);
    }
  }

  lemma ScaleStep(a: real, n: nat)
    requires n > 0
    ensures a * n as real == a * (n - 1) as real + a
  {
  }

  /** Only a student who asked for a compact week (at most 3) pays for days, and then 100 per day beyond three. */
  lemma CompactnessNeedsCompactWish(p: Preference, vs: seq<Slot>)
    ensures CompactnessForStudent(DesiredCompactness(p), |StudentDays(vs)|) > 0.0 <==>
            DesiredCompactness(p) <= 3 && |StudentDays(vs)| > 3
    ensures p.compactacion.None? || p.compactacion == Some(0) ==>
            CompactnessForStudent(DesiredCompactness(p), |StudentDays(vs)|) == 0.0
  {
  }

  /** An assignment that is invalid or has no block leaves the student term unchanged. */
  lemma UnplacedIgnored(w: Weights, p: Preference, vs: seq<Slot>, v: Slot)
    requires !Placed(v)
    ensures StudentTerm(w, p, vs + [v]) == StudentTerm(w, p, vs)
  {
    assert (vs + [v])[..|vs|] == vs;
  }

  /** With nonnegative weights the student term is nonnegative. */
  lemma StudentTermNonNegative(w: Weights, p: Preference, vs: seq<Slot>)
    requires NonNegative(w)
    ensures StudentTerm(w, p, vs) >= 0.0
  {
    ShiftNonNegative(w, p.turnoPreferido, vs);
    AvoidNonNegative(w, if p.evitarDias.Some? then p.evitarDias.value else [], vs);
  }

  lemma {:induction false} ShiftNonNegative(w: Weights, turno: JsStr, vs: seq<Slot>)
    requires NonNegative(w)
    ensures ShiftPenalty(w, turno, vs) >= 0.0
  {
    if vs != [] {
      ShiftNonNegative(w, turno, vs[..|vs| - 1]);
    }
  }

  lemma {:induction false} AvoidNonNegative(w: Weights, dias: seq<string>, vs: seq<Slot>)
    requires NonNegative(w)
    ensures AvoidPenalty(w, dias, vs) >= 0.0
  {
    if vs != [] {
      AvoidNonNegative(w, dias, vs[..|vs| - 1]);
    }
  }
}
