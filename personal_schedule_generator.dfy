/**
 * `PersonalScheduleGenerator`
 * (`backend/src/services/personalScheduleGenerator.service.js`): the
 * institution-wide annealer restricted to the groups of the subjects a
 * student selected, with the student's stored preferences added to the cost.
 * The cost override itself is `ScheduleGenerator.EvaluateValues` with
 * `studentPreferences` set; this module builds such a generator from the
 * records `loadData` fetches.
 */
module PersonalScheduleGenerator {
  import opened Common
  import opened SchedulerData
  import opened Gen = ScheduleGenerator

  /** A row of `selecciones_materia` of the student in the period. */
  datatype Selection = Selection(materiaId: string)

  /** `selections.some(sel => sel.materia_id === materiaId)`. */
  predicate IsSelected(selections: seq<Selection>, materiaId: string)
  {
    exists k :: 0 <= k < |selections| && selections[k].materiaId == materiaId
  }

  /** `this.data.groups.filter(group => selections.some(...))`. */
  function SelectedGroups(groups: seq<GroupRec>, selections: seq<Selection>): (r: seq<GroupRec>)
    ensures |r| <= |groups|
    ensures forall g :: g in r <==> g in groups && IsSelected(selections, g.materiaId)
  {
    if groups == [] then []
    else
      var rest := SelectedGroups(groups[..|groups| - 1], selections);
      var g := groups[|groups| - 1];
      assert forall h :: h in groups <==> h in groups[..|groups| - 1] || h == g;
      if IsSelected(selections, g.materiaId) then rest + [g] else rest
  }

  /** The filter keeps the order of the groups: it distributes over concatenation. */
  lemma {:induction false} SelectedGroupsAppend(a: seq<GroupRec>, b: seq<GroupRec>, selections: seq<Selection>)
    ensures SelectedGroups(a + b, selections) == SelectedGroups(a, selections) + SelectedGroups(b, selections)
  {
    if b != [] {
      var b' := b[..|b| - 1];
      assert (a + b)[..|a + b| - 1] == a + b';
      SelectedGroupsAppend(a, b', selections);
    } else {
      assert a + b == a;
    }
  }

  /** Filtering twice by the same selections is filtering once. */
  lemma {:induction false} SelectedGroupsIdempotent(groups: seq<GroupRec>, selections: seq<Selection>)
    ensures SelectedGroups(SelectedGroups(groups, selections), selections) == SelectedGroups(groups, selections)
  {
    if groups != [] {
      var init := groups[..|groups| - 1];
      var g := groups[|groups| - 1];
      SelectedGroupsIdempotent(init, selections);
      if IsSelected(selections, g.materiaId) {
        var once := SelectedGroups(init, selections);
        SelectedGroupsAppend(once, [g], selections);
        assert SelectedGroups([g], selections) == [g] by {
          assert [g][..0] == [];
        }
      }
    }
  }

  /** A student who selected every subject of the period keeps all groups. */
  lemma {:induction false} AllSelectedKeepsGroups(groups: seq<GroupRec>, selections: seq<Selection>)
    requires forall k :: 0 <= k < |groups| ==> IsSelected(selections, groups[k].materiaId)
    ensures SelectedGroups(groups, selections) == groups
  {
    if groups != [] {
      var init := groups[..|groups| - 1];
      assert forall k :: 0 <= k < |init| ==> init[k] == groups[k];
      AllSelectedKeepsGroups(init, selections);
    }
  }

  /** `this.data` after the personal `loadData`: the base data with only the selected groups. */
  function PersonalData(base: SAData, selections: seq<Selection>): SAData
  {
    base.(groups := SelectedGroups(base.groups, selections))
  }

  /**
   * The personal generator's greedy start has one assignment per selected
   * group and only those: every group of an unselected subject is left out.
   */
  lemma PersonalStartCoversSelection(base: SAData, selections: seq<Selection>)
    ensures multiset(Groups(InitialSlots(PersonalData(base, selections)))) == multiset(SelectedGroups(base.groups, selections))
    ensures forall k :: 0 <= k < |InitialSlots(PersonalData(base, selections))| ==>
      IsSelected(selections, InitialSlots(PersonalData(base, selections))[k].group.materiaId)
  {
    var data := PersonalData(base, selections);
    var vs := InitialSlots(data);
    InitialSolutionShape(data);
    forall k | 0 <= k < |vs| ensures IsSelected(selections, vs[k].group.materiaId) {
      assert Groups(vs)[k] == vs[k].group;
      assert vs[k].group in multiset(data.groups);
    }
  }

  /**
   * `new PersonalScheduleGenerator(periodoId, estudianteId, options)` followed
   * by `loadData`: the base data filtered to the selected subjects, and the
   * student's `preferencias_usuario` record (`None` when there is none).
   */
  method NewPersonalScheduleGenerator(base: SAData, selections: seq<Selection>, preference: Option<Preference>,
                                      overrides: Overrides)
    returns (gen: Gen.ScheduleGenerator)
    ensures fresh(gen)
    ensures gen.data == PersonalData(base, selections) && gen.studentPreferences == preference
    ensures gen.options == MakeOptions(overrides)
    ensures gen.currentSolution.None? && gen.bestSolution.None? && gen.temperature == gen.options.initialTemperature
  {
    gen := new Gen.ScheduleGenerator(PersonalData(base, selections), overrides, preference);
  }
}
