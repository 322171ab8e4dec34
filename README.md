# PlanificaEDU scheduling and enrollment core, in Dafny

PlanificaEDU is a university planning system. Its back end builds the timetable of an academic period and puts students into the groups of that timetable. This project models that core and proves properties of the model.

The two generators:

- A simulated-annealing generator (`ScheduleGenerator` and its data loading in `SchedulerData`) assigns every group of a period its weekly sessions: a classroom and a time block for each. It scores assignments by weighted conflicts: professor and classroom availability, double bookings, capacity and the professor's preferences. `PersonalScheduleGenerator` extends it with a student's preferences (cost in `PersonalCost`).
- A genetic algorithm (`GeneticAlgorithm`) builds a student's personal timetable from the subject groups they selected. It covers fitness, crossover, mutation and elitist selection. `ScheduleGeneration` loads its data, creates it and runs it.

Around the generators sit the controllers and services that store and check their output:

- `ScheduleController`: schedules, their details and conflict analysis.
- `EnrollmentController`, `RealEnrollment`: enrollments, group listing and eligibility.
- `AutoEnrollment`: automatic enrollment from a personal schedule.
- `SubjectSelectionService`, `SubjectSelectionController`, `SubjectEnrollmentController`: subject selection and subject enrollment.
- `TimeBlocks`, `Students`, `Professors`, `Preferences`: time blocks, students, professor availability and preferences.

On the front end, the project models the validation rules (`ValidationRules`) and the router's navigation guard (`Router`). Shared pieces live in their own modules:

- `Common`: results, options and ASCII text helpers.
- `JsText`: the e-mail pattern and `parseInt`.
- `Sorting`: the stable sorts the source relies on.

Database access is modelled on values:

- Every Prisma table the core reads or writes becomes a sequence of records.
- Each query becomes a function over those sequences.
- Each handler returns its HTTP status and body as data rather than writing a response.
- `Math.random()` is a method that may return any value in [0, 1), so every property of a randomised operation holds for every outcome of the draws.
- The current time (`new Date()`, `Date.now()`) is a parameter.

Code that works by updating state in place is modelled as classes with `modifies` clauses. This covers the annealing generator, whose shared assignment objects are a class; the genetic algorithm's population loop; and the front end's auth store. Each such method is proved against a specification function.

Where the source and the documented design disagree, the model follows the source. The "## Findings" section lists the places where proving a natural contract showed the source doing something its authors evidently did not intend. For each one, the model has both the behaviour as written and the corrected behaviour.

## Model

| member | source | states |
|---|---|---|
| GeneticAlgorithm.ConflictsIrreflexiveSymmetric | backend/src/algorithms/geneticAlgorithm.js:166-190 | a group never conflicts with itself, and conflict is symmetric |
| GeneticAlgorithm.SinConflicto | backend/src/algorithms/geneticAlgorithm.js:150-164 | the filter keeps exactly the available groups that conflict with none of the selected ones, and no more than there are |
| GeneticAlgorithm.SinConflictoAppend | backend/src/algorithms/geneticAlgorithm.js:150-164 | the groups kept from two runs are those of the first followed by those of the second, so the filter keeps the order of `disp` |
| GeneticAlgorithm.SinConflictoOfOne | backend/src/algorithms/geneticAlgorithm.js:156-161 | a single group is kept, once, exactly when it conflicts with none of the selected groups |
| GeneticAlgorithm.SinConflictoNoSelection | backend/src/algorithms/geneticAlgorithm.js:151-153 | with nothing selected yet every available group qualifies |
| GeneticAlgorithm.ConflictFreeAppend | backend/src/algorithms/geneticAlgorithm.js:115-120 | adding a group that conflicts with none of a conflict-free selection keeps it conflict-free |
| GeneticAlgorithm.GruposDeMateria | backend/src/algorithms/geneticAlgorithm.js:485-493 | the groups `groupByMateria` files under subject `m`, or none when it has no entry, are exactly the groups of that subject (also line 106) |
| GeneticAlgorithm.OnDay | backend/src/algorithms/geneticAlgorithm.js:495-512 | `groupByDia` puts in a day's list only meetings of that day |
| GeneticAlgorithm.CellGroupsHaveMeeting | backend/src/algorithms/geneticAlgorithm.js:524-533 | a group enters a cell only through a meeting it has in that cell |
| GeneticAlgorithm.MatrixCells | backend/src/algorithms/geneticAlgorithm.js:514-536 | the matrix has one cell for every catalogued block and no other cell |
| GeneticAlgorithm.MatrixEntriesMeetThere | backend/src/algorithms/geneticAlgorithm.js:524-533 | a group sits in a cell only through a meeting it has there, so meetings outside the catalogue never enter |
| GeneticAlgorithm.ConflictPenaltyZero | backend/src/algorithms/geneticAlgorithm.js:289-302 | the conflict penalty is 0 exactly when no cell holds more than one group |
| GeneticAlgorithm.SameCellConflicts | backend/src/algorithms/geneticAlgorithm.js:166-190 | two distinct catalogue groups that meet in the same cell conflict (also lines 524-533) |
| GeneticAlgorithm.CellAtMostOne | backend/src/algorithms/geneticAlgorithm.js:514-536 | in a conflict-free choice of distinct catalogue groups, at most one group occupies a cell |
| GeneticAlgorithm.ConflictFreeHasNoPenalty | backend/src/algorithms/geneticAlgorithm.js:166-190 | the two notions of conflict agree: a pairwise conflict-free choice of catalogue groups has penalty 0 (also lines 289-302) |
| GeneticAlgorithm.TurnoScoreRange | backend/src/algorithms/geneticAlgorithm.js:228-244 | the shift term lies between 0 and 30 |
| GeneticAlgorithm.CompactacionZeroIsNeutral | backend/src/algorithms/geneticAlgorithm.js:247-265 | a stored compaction of 0 behaves as the default 5 and is worth nothing |
| GeneticAlgorithm.DaySpanPositive | backend/src/algorithms/geneticAlgorithm.js:254-257 | the span of a day with well-timed meetings is positive |
| GeneticAlgorithm.CompactacionRange | backend/src/algorithms/geneticAlgorithm.js:246-270 | the compaction term never subtracts, and with a preference of at least 7 each day earns at most 20 |
| GeneticAlgorithm.OnAvoided | backend/src/algorithms/geneticAlgorithm.js:278-284 | the penalised meetings are exactly those on an avoided day |
| GeneticAlgorithm.EvitarDiasRange | backend/src/algorithms/geneticAlgorithm.js:272-287 | avoided days only cost points, and the term is 0 exactly when no meeting falls on one |
| GeneticAlgorithm.CupoTierTiers | backend/src/algorithms/geneticAlgorithm.js:308-319 | under 30% of seats taken gives 10, under 60% 5, under 80% 2, and otherwise −5 |
| GeneticAlgorithm.CupoTierFull | backend/src/algorithms/geneticAlgorithm.js:308-319 | a full group, or one without seats, earns −5 |
| GeneticAlgorithm.CupoScoreRange | backend/src/algorithms/geneticAlgorithm.js:304-323 | the seat term lies between −5 and 10 per group |
| GeneticAlgorithm.DistribucionRange | backend/src/algorithms/geneticAlgorithm.js:325-344 | the distribution term lies between 0 and 5 per day with classes |
| GeneticAlgorithm.Fitness | backend/src/algorithms/geneticAlgorithm.js:192-226 | a schedule without groups scores −1000, any other scores at least 0 |
| GeneticAlgorithm.Roulette | backend/src/algorithms/geneticAlgorithm.js:358-369 | the wheel always lands on an index of the population |
| GeneticAlgorithm.RouletteLandsOnPositive | backend/src/algorithms/geneticAlgorithm.js:358-369 | a draw inside (0, total] lands on an individual with positive fitness, so the fallback is never used |
| GeneticAlgorithm.FindByMateria | backend/src/algorithms/geneticAlgorithm.js:395-397 | `find` gives a group of the subject, or none exactly when the parent has none |
| GeneticAlgorithm.WithoutId | backend/src/algorithms/geneticAlgorithm.js:465 | the filter keeps exactly the groups with another id |
| GeneticAlgorithm.GeneticAlgorithm.constructor | backend/src/algorithms/geneticAlgorithm.js:2-10 | the sizes and the rate default to 50, 100 and 0.1 when missing or zero, and there is no best solution yet |
| GeneticAlgorithm.GeneticAlgorithm.TieneConflictoHorario | backend/src/algorithms/geneticAlgorithm.js:166-190 | the nested loops report exactly the conflict relation: different ids and two meetings on one day that overlap |
| GeneticAlgorithm.GeneticAlgorithm.TieneConflictoConSeleccionados | backend/src/algorithms/geneticAlgorithm.js:435-442 | the loop reports whether the group conflicts with any selected group |
| GeneticAlgorithm.GeneticAlgorithm.FiltrarGruposSinConflicto | backend/src/algorithms/geneticAlgorithm.js:150-164 | the loop returns exactly the conflict-free groups in order |
| GeneticAlgorithm.GeneticAlgorithm.ChooseGroups | backend/src/algorithms/geneticAlgorithm.js:104-123 | the chosen groups are conflict-free groups of the data, no more than there are selections, their subjects are counted, nothing is chosen only when no selected subject has a group, and with one selection per subject no subject is chosen twice |
| GeneticAlgorithm.GeneticAlgorithm.ChooseFor | backend/src/algorithms/geneticAlgorithm.js:105-121 | one selection either leaves the choice unchanged or appends one group of its own subject, and the choice stays conflict-free, drawn from the data, counted and free of repeated subjects on keyed data |
| GeneticAlgorithm.GeneticAlgorithm.FallbackGroup | backend/src/algorithms/geneticAlgorithm.js:126-141 | the fallback adds at most one group, and none exactly when no selected subject has any group |
| GeneticAlgorithm.GeneticAlgorithm.CreateRandomSchedule | backend/src/algorithms/geneticAlgorithm.js:98-148 | a conflict-free schedule of groups of the data, non-empty exactly when some selected subject has a group, with its subject count and its matrix; with one selection per subject its subjects are distinct |
| GeneticAlgorithm.GeneticAlgorithm.InitializePopulation | backend/src/algorithms/geneticAlgorithm.js:85-96 | every member is a non-empty conflict-free schedule, and there are `populationSize` of them exactly when some selected subject has a group (otherwise none) |
| GeneticAlgorithm.GeneticAlgorithm.Scored | backend/src/algorithms/geneticAlgorithm.js:30-32 | each schedule is paired with its own fitness, in population order |
| GeneticAlgorithm.GeneticAlgorithm.Evaluate | backend/src/algorithms/geneticAlgorithm.js:30-33 | the evaluated population is a permutation of the scored one in non-increasing fitness |
| GeneticAlgorithm.GeneticAlgorithm.SelectParent | backend/src/algorithms/geneticAlgorithm.js:346-370 | nothing exactly for an empty population; otherwise a member, and with a positive total the roulette's pick for some draw in [0, total) |
| GeneticAlgorithm.GeneticAlgorithm.SelectedSubjectHasGroups | backend/src/algorithms/geneticAlgorithm.js:104-123 | a group of a selected subject makes the population non-empty |
| GeneticAlgorithm.GeneticAlgorithm.InheritGroups | backend/src/algorithms/geneticAlgorithm.js:382-403 | the inherited groups are conflict-free groups of the data with one group per subject, and their subjects are counted |
| GeneticAlgorithm.GeneticAlgorithm.FillUncovered | backend/src/algorithms/geneticAlgorithm.js:406-426 | the completion keeps the inherited groups in front and stays conflict-free with one group per subject |
| GeneticAlgorithm.GeneticAlgorithm.CoverSubject | backend/src/algorithms/geneticAlgorithm.js:412-424 | an uncovered subject gets one conflict-free group or nothing changes |
| GeneticAlgorithm.GeneticAlgorithm.Crossover | backend/src/algorithms/geneticAlgorithm.js:372-433 | the child is a non-empty conflict-free schedule with one group per covered subject, and its subject count is its number of groups |
| GeneticAlgorithm.GeneticAlgorithm.OtrosGrupos | backend/src/algorithms/geneticAlgorithm.js:463-466 | the candidates are exactly the other groups of the subject that conflict with none of the other selected groups |
| GeneticAlgorithm.GeneticAlgorithm.Mutate | backend/src/algorithms/geneticAlgorithm.js:444-482 | the result is the schedule itself or the schedule with one group replaced by another of the same subject that clashes with none of the others; it stays a population member with the same subject count, and so stays conflict-free with distinct subjects when the data has one selection per subject |
| GeneticAlgorithm.GeneticAlgorithm.NextGeneration | backend/src/algorithms/geneticAlgorithm.js:26-67 | a generation keeps `populationSize` members, puts first a fittest member of the old population, and records it as best exactly when there was none or it scores higher |
| GeneticAlgorithm.GeneticAlgorithm.SelectElite | backend/src/algorithms/geneticAlgorithm.js:30-40 | the first evaluated entry is a fittest member, and the best record is updated from it when it scores higher |
| GeneticAlgorithm.GeneticAlgorithm.KeepBest | backend/src/algorithms/geneticAlgorithm.js:36-40 | the candidate replaces the record exactly when there is none yet or it scores strictly higher |
| GeneticAlgorithm.GeneticAlgorithm.EliteIsFittest | backend/src/algorithms/geneticAlgorithm.js:30-47 | after evaluation the first entry is a fittest member and every entry is a member |
| GeneticAlgorithm.GeneticAlgorithm.Refill | backend/src/algorithms/geneticAlgorithm.js:43-65 | the new population is the elite followed by mutated children, `populationSize` members in all |
| GeneticAlgorithm.GeneticAlgorithm.Run | backend/src/algorithms/geneticAlgorithm.js:12-83 | the empty schedule exactly when no initial population exists; no solution exactly when there is a population but no generation; otherwise a non-empty schedule of the data with its own fitness (at least 0), its subject count, its matrix and the run's sizes; with one selection per subject and unique group ids the solution is conflict-free with distinct subjects, and with a catalogue whose groups never repeat a cell its conflict penalty is 0 |
| GeneticAlgorithm.BestFirst | backend/src/algorithms/geneticAlgorithm.js:33-36 | a best-first permutation starts with a highest score and holds only scored entries |
| GeneticAlgorithm.SortByFitness | backend/src/algorithms/geneticAlgorithm.js:33 | the sort is a permutation of the scored population |
| GeneticAlgorithm.SortByFitnessDescending | backend/src/algorithms/geneticAlgorithm.js:33 | the sorted population is in non-increasing fitness |
| GeneticAlgorithm.GeneticAlgorithm.DistinctGroupIds | backend/src/services/scheduleGeneration.service.js:158-160 | two different groups of loaded data have different ids, the ids being table keys |
| GeneticAlgorithm.GeneticAlgorithm.NewSelectionUncovered | backend/src/services/scheduleGeneration.service.js:51-67 | with one selection row per subject, the subject of the next selection is not yet among the chosen groups' subjects |
| GeneticAlgorithm.GeneticAlgorithm.ReplacementKeepsConflictFree | backend/src/algorithms/geneticAlgorithm.js:463-475 | replacing one group of a conflict-free schedule with distinct subjects by a candidate of `otrosGrupos` keeps it conflict-free with distinct subjects |
| GeneticAlgorithm.GeneticAlgorithm.KeyedHasNoPenalty | backend/src/algorithms/geneticAlgorithm.js:289-301 | a conflict-free schedule of distinct subjects from a catalogue whose groups never repeat a cell places at most one group in each cell, so its conflict penalty is 0 |
| ScheduleGeneration.MapDetalle | backend/src/services/scheduleGeneration.service.js:167-175 | a meeting carries its block's id, day, shift and times and its room id |
| ScheduleGeneration.MapGrupo | backend/src/services/scheduleGeneration.service.js:158-176 | the free seats are the seats left, clamped at 0, and the meetings are mapped one for one |
| ScheduleGeneration.MapDetalles | backend/src/services/scheduleGeneration.service.js:167 | every detail row is mapped, in order |
| ScheduleGeneration.MapGrupos | backend/src/services/scheduleGeneration.service.js:158 | every group is mapped, in order |
| ScheduleGeneration.SelectedIds | backend/src/services/scheduleGeneration.service.js:72 | the selected subjects, in priority order (also lines 152-157) |
| ScheduleGeneration.MapBloques | backend/src/services/scheduleGeneration.service.js:183-189 | every block keeps its id and day, in order |
| ScheduleGeneration.MapPreferencias | backend/src/services/scheduleGeneration.service.js:177-182 | the stored preferences, or no shift, compaction 5 and no avoided days when there are none |
| ScheduleGeneration.LoadData | backend/src/services/scheduleGeneration.service.js:151-198 | the search data is the mapping of each fetched collection |
| ScheduleGeneration.EveryIff | backend/src/services/scheduleGeneration.service.js:204-206 | `every` holds exactly when each id is in the set |
| ScheduleGeneration.ValidateDataIff | backend/src/services/scheduleGeneration.service.js:201-216 | the data is valid exactly when there are groups and every selected subject has a group |
| ScheduleGeneration.ValidDataHasChoice | backend/src/services/scheduleGeneration.service.js:28-36 | with valid data and some selection, some selected subject has a group to choose |
| ScheduleGeneration.RowOf | backend/src/services/scheduleGeneration.service.js:252-257 | a row names the schedule, the group and the block; an absent or empty room id becomes null |
| ScheduleGeneration.GroupRows | backend/src/services/scheduleGeneration.service.js:250-258 | one row per meeting of the group, in order |
| ScheduleGeneration.DetailRowsConcat | backend/src/services/scheduleGeneration.service.js:249-260 | the rows of two lists of groups are the rows of the first followed by those of the second |
| ScheduleGeneration.DetailRowsCount | backend/src/services/scheduleGeneration.service.js:249-260 | there is exactly one row per meeting of a selected group |
| ScheduleGeneration.DetailRowsFromMeetings | backend/src/services/scheduleGeneration.service.js:249-260 | every row is the row of some meeting of some selected group |
| ScheduleGeneration.SaveSchedule | backend/src/services/scheduleGeneration.service.js:231-279 | the loops build the rows of every group in order, `createMany` runs exactly when there are rows, and the result reports state DONE, the score and the number of groups |
| ScheduleGeneration.RunGeneticAlgorithm | backend/src/services/scheduleGeneration.service.js:218-229 | with 50 individuals and 100 generations there is always a solution unless no selected subject has a group; a solution is non-empty, scores its own fitness (at least 0) and uses only selected groups of the data |
| ScheduleGeneration.Generate | backend/src/services/scheduleGeneration.service.js:13-47 | invalid data fails with "not enough groups"; valid data with no selection fails with "no valid schedule"; otherwise a DONE schedule with groups and a score of at least 0 is stored |
| ScheduleGenerator.Assignment.constructor | backend/src/services/scheduleGenerator.service.js:145-150 | an assignment holds the group, room, block and validity it was built with (also lines 193-198) |
| ScheduleGenerator.TotalCost | backend/src/services/scheduleGenerator.service.js:206-287 | the score is defined exactly when the assignments can be scored, and without student preferences it is the institution cost |
| ScheduleGenerator.SlotsForPrefix | backend/src/services/scheduleGenerator.service.js:139-152 | each group in turn adds its assignment at the end |
| ScheduleGenerator.InitialSolutionShape | backend/src/services/scheduleGenerator.service.js:133-152 | one assignment per group, groups with more enrolments first |
| ScheduleGenerator.InitialSolutionClean | backend/src/services/scheduleGenerator.service.js:139-154 | an assignment of the greedy start is valid exactly when a feasible placement exists, and then it pays no local penalty; so the start can be scored (also lines 216-245) |
| ScheduleGenerator.Apply | backend/src/services/scheduleGenerator.service.js:378-411 | a change keeps the number of assignments |
| ScheduleGenerator.ApplyAll | backend/src/services/scheduleGenerator.service.js:369-413 | the changes of a neighbour keep the number of assignments |
| ScheduleGenerator.ApplyKeepsGroups | backend/src/services/scheduleGenerator.service.js:378-411 | a change keeps the groups and the validity flags |
| ScheduleGenerator.ApplyAllKeepsGroups | backend/src/services/scheduleGenerator.service.js:369-413 | a neighbour keeps the groups and the validity flags |
| ScheduleGenerator.ApplyAllAppend | backend/src/services/scheduleGenerator.service.js:369-413 | the changes are applied in order |
| ScheduleGenerator.NewRoomFits | backend/src/services/scheduleGenerator.service.js:378-389 | a new room seats the group and has the type it needs, so it costs nothing for capacity or type |
| ScheduleGenerator.LookupBlocksMembers | backend/src/services/scheduleGenerator.service.js:395-397 | a looked-up block is the catalogue block of one of the ids |
| ScheduleGenerator.NewBlockAvailable | backend/src/services/scheduleGenerator.service.js:390-404 | a new block is one the professor is available in, so it costs nothing for professor availability |
| ScheduleGenerator.SwapExchanges | backend/src/services/scheduleGenerator.service.js:405-411 | a swap exchanges exactly the blocks at two distinct indices, keeps the rooms, and keeps the blocks in use |
| ScheduleGenerator.ChangeKeepsScorable | backend/src/services/scheduleGenerator.service.js:378-404 | a room or block change keeps every valid assignment placed, so the cost stays defined |
| ScheduleGenerator.AllowedOnSameGroups | backend/src/services/scheduleGenerator.service.js:369-413 | a change drawn on one state is allowed on any state with the same groups |
| ScheduleGenerator.SwapCanBreakScoring | backend/src/services/scheduleGenerator.service.js:405-411 | as written, a swap can hand the missing block of an unplaced assignment to a valid one, and scoring the neighbour then throws (also lines 221-230) |
| ScheduleGenerator.SafeApply | backend/src/services/scheduleGenerator.service.js:405-411 | the guarded swap keeps the number of assignments |
| ScheduleGenerator.SafeApplyKeepsScorable | backend/src/services/scheduleGenerator.service.js:405-411 | with the swap limited to two placed assignments, every change keeps the cost defined and the groups unchanged |
| ScheduleGenerator.CooledIsPower | backend/src/services/scheduleGenerator.service.js:451 | cooling n times from t0 leaves t0 times the rate to the n |
| ScheduleGenerator.StepTaken | backend/src/services/scheduleGenerator.service.js:433-452 | a round whose changes stay in range and leave the assignments scorable is a step of the as-written run, whichever way the acceptance test goes |
| ScheduleGenerator.AsWrittenRunAppend | backend/src/services/scheduleGenerator.service.js:430-458 | the as-written run over one more round is one more step |
| ScheduleGenerator.StaleBestScore | backend/src/services/scheduleGenerator.service.js:362 | as written, a rejected change still alters the assignments that current and best share: in a concrete case both stored scores stay 0 while the stored assignments cost 400 (also lines 388, 424, 437-448) |
| ScheduleGenerator.ExampleRejectedStep | backend/src/services/scheduleGenerator.service.js:437-448 | the rejected move changes the assignments and neither stored score |
| ScheduleGenerator.ExampleCosts | backend/src/services/scheduleGenerator.service.js:206-287 | in the example a free room costs 0 and an occupied one 400 |
| ScheduleGenerator.CostOfOne | backend/src/services/scheduleGenerator.service.js:206-287 | a lone valid one-hour assignment costs just its local checks |
| ScheduleGenerator.Accept | backend/src/services/scheduleGenerator.service.js:440 | a lower cost is always accepted; at temperature 0 a non-lower cost never is; at a negative temperature always; an equal cost at a positive temperature always |
| ScheduleGenerator.ApplyChange | backend/src/services/scheduleGenerator.service.js:388-410 | the assignment objects end up holding the values of the change applied |
| ScheduleGenerator.NewAssignment | backend/src/services/scheduleGenerator.service.js:140-150 | a fresh object holding the greedy placement of the group, or the invalid one without room and block |
| ScheduleGenerator.SnapshotAppend | backend/src/services/scheduleGenerator.service.js:142-145 | pushing an assignment appends its values |
| ScheduleGenerator.NewAssignments | backend/src/services/scheduleGenerator.service.js:139-152 | one fresh object per group holding the greedy start, in order |
| ScheduleGenerator.ScheduleGenerator.constructor | backend/src/services/scheduleGenerator.service.js:5-31 | the options are the defaults overridden field by field, there is no solution yet and the temperature is the initial one |
| ScheduleGenerator.ScheduleGenerator.EvaluateSolution | backend/src/services/scheduleGenerator.service.js:206-287 | the score of the objects' current values, or nothing where the source throws |
| ScheduleGenerator.ScheduleGenerator.EvaluateValues | backend/src/services/scheduleGenerator.service.js:206-287 | the score of the values, with the student term added when there are preferences |
| ScheduleGenerator.ScheduleGenerator.GenerateInitialSolution | backend/src/services/scheduleGenerator.service.js:126-156 | fresh objects holding the greedy start, and its score |
| ScheduleGenerator.ScheduleGenerator.PickChange | backend/src/services/scheduleGenerator.service.js:370-412 | the random change drawn is allowed on the state |
| ScheduleGenerator.ScheduleGenerator.GenerateNeighbor | backend/src/services/scheduleGenerator.service.js:359-417 | one to three allowed changes are made to the shared objects; an empty solution throws; the result fails exactly when it cannot be scored, and otherwise shares the objects and carries their score |
| ScheduleGenerator.ScheduleGenerator.Iterate | backend/src/services/scheduleGenerator.service.js:430-458 | a round fails on an empty solution and leaves the temperature; otherwise it is one more step of the as-written run, cools once, and never raises the best score |
| ScheduleGenerator.ScheduleGenerator.Decide | backend/src/services/scheduleGenerator.service.js:437-452 | the acceptance test and the cooling make one more step of the as-written run, and the best score never rises |
| ScheduleGenerator.ScheduleGenerator.Anneal | backend/src/services/scheduleGenerator.service.js:430-458 | the loop runs `maxIterations` rounds or stops at the first error; the best solution is returned; the temperature has cooled once per round |
| ScheduleGenerator.ScheduleGenerator.Run | backend/src/services/scheduleGenerator.service.js:419-464 | one object per group; a result follows `maxIterations` rounds of the as-written run from the greedy start; an empty solution with rounds to run fails |
| ScheduleGenerator.ScheduleGenerator.Start | backend/src/services/scheduleGenerator.service.js:423-425 | the greedy solution becomes both current and best, at the initial temperature |
| ScheduleGenerator.ScheduleGenerator.GenerateNeighborCopy | backend/src/services/scheduleGenerator.service.js:359-417 | the corrected neighbour, built on a copy with the guarded swap, stays scorable with the same groups |
| ScheduleGenerator.ScheduleGenerator.RunCorrected | backend/src/services/scheduleGenerator.service.js:419-464 | with solutions held by value, the best's score is the cost of its assignments, the sequence of best scores after each round starts at the greedy start's score, never rises and ends at the returned best, and no round throws |
| ScheduleGenerator.KeepLower | backend/src/services/scheduleGenerator.service.js:444-447 | the kept solution is one of the two, the current one exactly when it costs strictly less, and it costs no more than either |
| ScheduleGenerator.NonIncreasingAppend | backend/src/services/scheduleGenerator.service.js:444-447 | a non-rising sequence of best scores stays non-rising when a score no greater than its last is appended |
| SchedulerData.BlockMap | backend/src/services/scheduleGenerator.service.js:86-89 | every block id is a key, and each key maps to a block of that id from the list |
| SchedulerData.MakeOptions | backend/src/services/scheduleGenerator.service.js:7-25 | each option is the override when given, otherwise 10000 iterations, temperature 1000, cooling 0.995, 30000 ms and the default weights |
| SchedulerData.OfType | backend/src/services/scheduleGenerator.service.js:107-108 | the filter keeps exactly the rooms of the type |
| SchedulerData.GroupsOf | backend/src/services/scheduleGenerator.service.js:112-116 | the professor's list holds exactly their groups |
| SchedulerData.GroupIndex | backend/src/services/scheduleGenerator.service.js:112-116 | one non-empty entry per professor with a group, listing exactly their groups |
| SchedulerData.DayIndex | backend/src/services/scheduleGenerator.service.js:119-123 | one non-empty entry per day with a block, listing that day's blocks |
| SchedulerData.CatalogValues | backend/src/services/scheduleGenerator.service.js:120 | the values of the block catalogue are blocks of the list |
| SchedulerData.CreateIndices | backend/src/services/scheduleGenerator.service.js:104-124 | the room index by type, the group index by professor and the block index by day, each holding exactly what it indexes |
| SchedulerData.FindProfessor | backend/src/services/scheduleGenerator.service.js:160 | the first professor with the id, or none exactly when no professor has it (also lines 225, 272, 392) |
| SchedulerData.Suitable | backend/src/services/scheduleGenerator.service.js:167-168 | exactly the rooms of the needed type that seat the enrolled students |
| SchedulerData.SuitableAmong | backend/src/services/scheduleGenerator.service.js:381-382 | exactly the rooms among those given of the needed type that seat the enrolled students |
| SchedulerData.TurnoRankOrder | backend/src/services/scheduleGenerator.service.js:180-181 | as written, the shift rank with its fallback of 3 ranks afternoon before night and night before morning, which ties with unset shifts, since the rank 0 of morning becomes 3 |
| SchedulerData.IntendedTurnoRankOrder | backend/src/services/scheduleGenerator.service.js:179-181 | the intended rank puts morning before afternoon before night before unset |
| SchedulerData.CommonBlocks | backend/src/services/scheduleGenerator.service.js:174-177 | exactly the catalogue blocks in which both the room and the professor are available |
| SchedulerData.LookupIn | backend/src/services/scheduleGenerator.service.js:174-177 | exactly the ids allowed that the catalogue knows, looked up |
| SchedulerData.AfternoonBeforeMorning | backend/src/services/scheduleGenerator.service.js:178-182 | as written, once an afternoon block is shared, an afternoon block comes first, even when a morning block is shared too |
| SchedulerData.IntendedMorningFirst | backend/src/services/scheduleGenerator.service.js:179-182 | under the intended order, a shared morning block is always chosen first |
| SchedulerData.IntendedRankZero | backend/src/services/scheduleGenerator.service.js:180 | only the morning shift ranks first under the intended order |
| SchedulerData.FirstRanked | backend/src/services/scheduleGenerator.service.js:178-184 | the first block after ranking ranks no worse than any other |
| SchedulerData.FirstFeasibleAt | backend/src/services/scheduleGenerator.service.js:172-201 | the room chosen is the first that shares a block with the professor, and the block is its best-ranked shared block |
| SchedulerData.FirstFeasibleNone | backend/src/services/scheduleGenerator.service.js:172-203 | the search finds nothing exactly when no room shares a block with the professor |
| SchedulerData.SuitableByCapacityMembers | backend/src/services/scheduleGenerator.service.js:167-169 | sorting by capacity keeps exactly the suitable rooms |
| SchedulerData.RankedIsCommon | backend/src/services/scheduleGenerator.service.js:174-182 | a ranked block is a shared block |
| SchedulerData.FeasibleSound | backend/src/services/scheduleGenerator.service.js:158-204 | an answer is a room of the needed type that seats the group, with a catalogue block both it and the professor are available in |
| SchedulerData.FeasibleNone | backend/src/services/scheduleGenerator.service.js:160-161 | there is no answer exactly when the professor is unknown or no suitable room shares a block with them (also lines 172-203) |
| SchedulerData.FeasibleTightestRoom | backend/src/services/scheduleGenerator.service.js:169-172 | every suitable room with fewer seats than the one chosen shares no block with the professor |
| SchedulerData.FeasibleBestShift | backend/src/services/scheduleGenerator.service.js:178-184 | the block chosen has the best shift rank among those the room and the professor share |
| SchedulerData.FindFeasibleAssignment | backend/src/services/scheduleGenerator.service.js:158-204 | the nested loops return exactly the specified answer; the professor-conflict test never rejects a block |
| SchedulerData.Feasible | backend/src/services/scheduleGenerator.service.js:158-204 | the assignment `findFeasibleAssignment` returns for a group; stated by `SchedulerData.FeasibleSound`, `SchedulerData.FeasibleNone`, `SchedulerData.FeasibleTightestRoom` and `SchedulerData.FeasibleBestShift` |
| SchedulerCost.AddKey | backend/src/services/scheduleGenerator.service.js:251-262 | after `add` the set holds exactly its old keys and the new one |
| SchedulerCost.LookupBlocks | backend/src/services/scheduleGenerator.service.js:296 | the lookup drops unknown ids and adds nothing |
| SchedulerCost.SortByStart | backend/src/services/scheduleGenerator.service.js:310-311 | sorting a day by start keeps every block |
| SchedulerCost.Cost | backend/src/services/scheduleGenerator.service.js:206-287 | the cost is defined exactly when every valid assignment has a room and a block, the cases where scoring does not throw |
| SchedulerCost.LoopScoreAppend | backend/src/services/scheduleGenerator.service.js:215-268 | the main loop's score grows by each assignment's penalty in turn |
| SchedulerCost.ScorableAppend | backend/src/services/scheduleGenerator.service.js:216-221 | a longer list can be scored exactly when the prefix can and the new valid assignment has a room and a block |
| SchedulerCost.TracksSkip | backend/src/services/scheduleGenerator.service.js:216-219 | an invalid assignment leaves the bookkeeping unchanged |
| SchedulerCost.TracksProfessorsStep | backend/src/services/scheduleGenerator.service.js:251-255 | the professor's block set gains the block, and the professor is added to the keys once |
| SchedulerCost.TracksRoomsStep | backend/src/services/scheduleGenerator.service.js:258-262 | the room's block set gains the block |
| SchedulerCost.TracksHoursStep | backend/src/services/scheduleGenerator.service.js:265-267 | the professor's hours grow by the block's length in hours |
| SchedulerCost.TracksStep | backend/src/services/scheduleGenerator.service.js:221-267 | a scored assignment moves all the bookkeeping on as the main loop does |
| SchedulerCost.ScoreAssignment | backend/src/services/scheduleGenerator.service.js:221-267 | one scored assignment adds its penalty and updates the block sets and hours |
| SchedulerCost.EvaluateAssignments | backend/src/services/scheduleGenerator.service.js:210-268 | the loop fails exactly where scoring throws; otherwise its score is the loop score, and it leaves each professor's blocks and hours, keyed in insertion order |
| SchedulerCost.CheckAssignment | backend/src/services/scheduleGenerator.service.js:224-245 | the four local checks charge availability of professor and room, missing seats and room type |
| SchedulerCost.RecordUse | backend/src/services/scheduleGenerator.service.js:251-262 | the pair was seen before exactly when the key's set already held the block, and the block is then in the set |
| SchedulerCost.EvaluateMaxHours | backend/src/services/scheduleGenerator.service.js:270-278 | the loop charges each professor's hours above their limit |
| SchedulerCost.ProfessorOverload | backend/src/services/scheduleGenerator.service.js:272-277 | one professor's excess hours times the weight, with the limit defaulting to 20 |
| SchedulerCost.MaxHoursScorePrefix | backend/src/services/scheduleGenerator.service.js:271-278 | each professor's term adds to the sum in key order |
| SchedulerCost.GroupByDay | backend/src/services/scheduleGenerator.service.js:299-303 | the days in first-seen order, each with its blocks in order |
| SchedulerCost.BlocksOfDayStep | backend/src/services/scheduleGenerator.service.js:300-303 | one more block extends only its own day's list |
| SchedulerCost.DaysOfPrefix | backend/src/services/scheduleGenerator.service.js:300-303 | one more block adds its day to the keys once |
| SchedulerCost.BlocksOnDayPrefix | backend/src/services/scheduleGenerator.service.js:300-303 | one more block is appended to its day and to no other |
| SchedulerCost.SumGaps | backend/src/services/scheduleGenerator.service.js:314-323 | the loop adds every gap between consecutive blocks of more than one hour |
| SchedulerCost.DayPenaltyOfMany | backend/src/services/scheduleGenerator.service.js:307-325 | a day with several blocks pays its total gap times the compactness weight |
| SchedulerCost.DaysPenaltyPrefix | backend/src/services/scheduleGenerator.service.js:306-326 | each day's penalty adds to the sum in key order |
| SchedulerCost.ProfessorCompactness | backend/src/services/scheduleGenerator.service.js:295-326 | one professor pays the day penalties of their known blocks |
| SchedulerCost.DayCompactness | backend/src/services/scheduleGenerator.service.js:307-325 | a day with one block is free; several pay their long gaps once sorted by start |
| SchedulerCost.EvaluateCompactness | backend/src/services/scheduleGenerator.service.js:289-330 | the loop sums every professor's compactness |
| SchedulerCost.EvaluatePreferences | backend/src/services/scheduleGenerator.service.js:332-357 | the loop charges each valid assignment for a shift other than the professor's preferred one and twice for an avoided day |
| SchedulerCost.EvaluateSlots | backend/src/services/scheduleGenerator.service.js:206-287 | the method returns the specified cost, or nothing where the source throws |
| SchedulerCost.ProfBlockIdsMembers | backend/src/services/scheduleGenerator.service.js:251-255 | a block is in a professor's set exactly when some scored assignment of theirs uses it |
| SchedulerCost.RoomBlockIdsMembers | backend/src/services/scheduleGenerator.service.js:258-262 | a block is in a room's set exactly when some scored assignment in that room uses it |
| SchedulerCost.DoubleBookingCharged | backend/src/services/scheduleGenerator.service.js:221-262 | each scored assignment pays its four local checks, plus a professor conflict exactly when an earlier one has the same professor in that block, plus a room conflict exactly when one has the same room in that block |
| SchedulerCost.SkippedKeepsSums | backend/src/services/scheduleGenerator.service.js:216-219 | an invalid assignment changes neither the load sum nor the compactness sum (also lines 270-281) |
| SchedulerCost.InvalidAddsHardOnly | backend/src/services/scheduleGenerator.service.js:216-219 | an invalid assignment adds exactly ten times the hard-constraint weight and nothing else (also line 337) |
| SchedulerCost.FeasiblePlacementIsClean | backend/src/services/scheduleGenerator.service.js:158-204 | a greedy placement pays nothing for availability, seats or room type (also lines 224-245) |
| SchedulerCost.TotalGapNonNegative | backend/src/services/scheduleGenerator.service.js:314-323 | the total gap is never negative |
| SchedulerCost.TotalGapZeroIff | backend/src/services/scheduleGenerator.service.js:314-323 | a day costs nothing exactly when no two consecutive blocks are more than an hour apart |
| SchedulerCost.LoopScoreNonNegative | backend/src/services/scheduleGenerator.service.js:215-268 | with non-negative weights the main loop never lowers the score |
| SchedulerCost.MaxHoursScoreNonNegative | backend/src/services/scheduleGenerator.service.js:270-278 | with non-negative weights the load term is non-negative |
| SchedulerCost.DaysPenaltyNonNegative | backend/src/services/scheduleGenerator.service.js:306-326 | with non-negative weights the day penalties are non-negative |
| SchedulerCost.DayPenaltyNonNegative | backend/src/services/scheduleGenerator.service.js:307-325 | with non-negative weights one day's penalty is non-negative |
| SchedulerCost.CompactnessScoreNonNegative | backend/src/services/scheduleGenerator.service.js:289-330 | with non-negative weights the compactness term is non-negative |
| SchedulerCost.PreferenceScoreNonNegative | backend/src/services/scheduleGenerator.service.js:332-357 | with non-negative weights the preference term is non-negative |
| SchedulerCost.CostNonNegative | backend/src/services/scheduleGenerator.service.js:206-287 | with non-negative weights every cost is at least 0, so 0 is the best score |
| SchedulerCost.DefaultWeightsNonNegative | backend/src/services/scheduleGenerator.service.js:12-23 | the default weights are non-negative |
| PersonalCost.ShiftPenaltyAppend | backend/src/services/personalScheduleGenerator.service.js:53-61 | the shift term grows by one weight for each placed assignment in another shift |
| PersonalCost.AvoidPenaltyAppend | backend/src/services/personalScheduleGenerator.service.js:64-72 | the avoided-days term grows by twice the weight for each placed assignment on an avoided day |
| PersonalCost.PlacedOnAppend | backend/src/services/personalScheduleGenerator.service.js:85-91 | a day's count grows by one for each placed assignment on it |
| PersonalCost.EvaluateShift | backend/src/services/personalScheduleGenerator.service.js:54-60 | the loop charges one weight per placed assignment in another shift |
| PersonalCost.EvaluateAvoidedDays | backend/src/services/personalScheduleGenerator.service.js:65-71 | the loop charges twice the weight per placed assignment on an avoided day |
| PersonalCost.EvaluateCompactnessForStudent | backend/src/services/personalScheduleGenerator.service.js:81-103 | the keys are exactly the days with a placed assignment, each counts its assignments, and the penalty is 100 per day beyond three for a wish of at most 3 |
| PersonalCost.EvaluateStudentPreferences | backend/src/services/personalScheduleGenerator.service.js:48-79 | the student term is the three parts, each only when its preference is set |
| PersonalCost.StudentDaysMembers | backend/src/services/personalScheduleGenerator.service.js:85-95 | a day is a key exactly when some placed assignment falls on it, and each key appears once |
| PersonalCost.PlacedOnPositive | backend/src/services/personalScheduleGenerator.service.js:88-89 | a day has a positive count exactly when it is a key |
| PersonalCost.ShiftPenaltyZeroIff | backend/src/services/personalScheduleGenerator.service.js:53-61 | with a positive weight the shift term is 0 exactly when every placed assignment is in the preferred shift |
| PersonalCost.AvoidPenaltyZeroIff | backend/src/services/personalScheduleGenerator.service.js:64-72 | with a positive weight the avoided-days term is 0 exactly when no placed assignment falls on an avoided day |
| PersonalCost.ShiftBounded | backend/src/services/personalScheduleGenerator.service.js:53-61 | the shift term costs at most one weight per assignment |
| PersonalCost.AvoidBounded | backend/src/services/personalScheduleGenerator.service.js:64-72 | the avoided-days term costs at most twice the weight per assignment |
| PersonalCost.CompactnessNeedsCompactWish | backend/src/services/personalScheduleGenerator.service.js:75-100 | only a student who asked for a compact week (at most 3) pays for days, and a missing or 0 wish counts as 5 |
| PersonalCost.UnplacedIgnored | backend/src/services/personalScheduleGenerator.service.js:55-86 | an invalid or unplaced assignment leaves the student term unchanged |
| PersonalCost.StudentTermNonNegative | backend/src/services/personalScheduleGenerator.service.js:48-79 | with non-negative weights the student term is non-negative |
| PersonalCost.ShiftNonNegative | backend/src/services/personalScheduleGenerator.service.js:53-61 | with non-negative weights the shift term is non-negative |
| PersonalCost.AvoidNonNegative | backend/src/services/personalScheduleGenerator.service.js:64-72 | with non-negative weights the avoided-days term is non-negative |
| PersonalScheduleGenerator.SelectedGroups | backend/src/services/personalScheduleGenerator.service.js:25-27 | exactly the groups of a selected subject, never more than there were |
| PersonalScheduleGenerator.SelectedGroupsAppend | backend/src/services/personalScheduleGenerator.service.js:25-27 | the filter keeps the order of the groups |
| PersonalScheduleGenerator.SelectedGroupsIdempotent | backend/src/services/personalScheduleGenerator.service.js:25-27 | filtering twice is filtering once |
| PersonalScheduleGenerator.AllSelectedKeepsGroups | backend/src/services/personalScheduleGenerator.service.js:25-27 | a student who selected every subject keeps all groups |
| PersonalScheduleGenerator.PersonalStartCoversSelection | backend/src/services/personalScheduleGenerator.service.js:25-27 | the personal greedy start has one assignment per selected group and none for an unselected subject |
| PersonalScheduleGenerator.NewPersonalScheduleGenerator | backend/src/services/personalScheduleGenerator.service.js:5-35 | the base data restricted to the selected subjects, the student's preferences, and the base options and state |
| ScheduleController.BlockIds | backend/src/controllers/schedule.controller.js:281-298 | the keys of the two dictionaries are the block ids, each once |
| ScheduleController.OnBlock | backend/src/controllers/schedule.controller.js:281-294 | a block's list holds the indices of its rows, in increasing order |
| ScheduleController.InvolvedOf | backend/src/controllers/schedule.controller.js:305-326 | one involved group per listed row |
| ScheduleController.BlockConflict | backend/src/controllers/schedule.controller.js:301-328 | an entry reports its block, of the pass's kind, listing every row's group |
| ScheduleController.BlockIdsMembers | backend/src/controllers/schedule.controller.js:281-289 | a block is a key exactly when some row uses it |
| ScheduleController.OnBlockComplete | backend/src/controllers/schedule.controller.js:281-294 | every row on a block is in that block's list |
| ScheduleController.BlockEntriesSound | backend/src/controllers/schedule.controller.js:298-330 | each entry of a pass is for a key with at least two rows and lists every group on it |
| ScheduleController.BlockEntriesComplete | backend/src/controllers/schedule.controller.js:298-330 | every key with at least two rows has an entry |
| ScheduleController.BlockEntriesDistinct | backend/src/controllers/schedule.controller.js:298-330 | no block has two entries in one pass |
| ScheduleController.BlockConflictIff | backend/src/controllers/schedule.controller.js:269-330 | a professor conflict (and equally a room conflict) is reported for a block exactly when at least two rows use it, listing every group on it, once |
| ScheduleController.KeyedByBlockOnly | backend/src/controllers/schedule.controller.js:276-312 | two rows on the same block are a professor conflict even when their professors differ, since the dictionary is keyed by the block alone |
| ScheduleController.CapacityEntriesIff | backend/src/controllers/schedule.controller.js:333-348 | a capacity entry is exactly a row whose group outnumbers its room, with the difference |
| ScheduleController.OnBlockPrefix | backend/src/controllers/schedule.controller.js:275-295 | one more row adds its index to its own block only |
| ScheduleController.BlockIdsPrefix | backend/src/controllers/schedule.controller.js:281-289 | one more row adds its block as a key when new |
| ScheduleController.RegisterStep | backend/src/controllers/schedule.controller.js:281-294 | one more row keeps the dictionaries indexing the rows read so far |
| ScheduleController.RecordAssignments | backend/src/controllers/schedule.controller.js:275-295 | the first pass leaves both dictionaries indexing every row by block, keyed in insertion order |
| ScheduleController.BlockEntriesPrefix | backend/src/controllers/schedule.controller.js:298-313 | the pass adds each key's entry in key order |
| ScheduleController.ReportBlock | backend/src/controllers/schedule.controller.js:299-312 | an entry is pushed exactly when the block has more than one row |
| ScheduleController.BlockPass | backend/src/controllers/schedule.controller.js:298-330 | the loop pushes the entries of every key in order |
| ScheduleController.CapacityEntriesPrefix | backend/src/controllers/schedule.controller.js:333-348 | one more row adds its capacity entry when it is overfull |
| ScheduleController.CapacityPass | backend/src/controllers/schedule.controller.js:333-348 | the third pass adds every overfull row, and throws on a row without a room |
| ScheduleController.FindConflicts | backend/src/controllers/schedule.controller.js:269-351 | the three passes give the specified conflicts, or the error of a row without a room |
| ScheduleController.CountOf | backend/src/controllers/schedule.controller.js:253-256 | a type cannot occur more often than there are conflicts |
| ScheduleController.PorTipoCounts | backend/src/controllers/schedule.controller.js:253-256 | `por_tipo` has a key exactly for the types that occur, each holding how often it occurs |
| ScheduleController.PorTipoSum | backend/src/controllers/schedule.controller.js:252-256 | the three counts add up to `total_conflictos`, and no other type occurs |
| ScheduleController.CountsSum | backend/src/controllers/schedule.controller.js:301-346 | every conflict has one of the three types |
| ScheduleController.PorTipoKeys | backend/src/controllers/schedule.controller.js:253-256 | every key of `por_tipo` is one of the three types |
| ScheduleController.AsLoaded | backend/src/controllers/schedule.controller.js:223-239 | the rows as loaded carry no enrolment counts and keep their rooms |
| ScheduleController.NoCapacityEntryWithoutCounts | backend/src/controllers/schedule.controller.js:335-337 | without counts no row with a non-negative capacity is overfull |
| ScheduleController.AnalyzeNeverReportsCapacity | backend/src/controllers/schedule.controller.js:219-266 | as written, a schedule whose rooms all have a non-negative capacity never gets a capacity entry, however many students its groups have (also line 335) |
| ScheduleController.BlockEntriesOneRow | backend/src/controllers/schedule.controller.js:299-316 | a single row shares no block, so neither block pass reports anything |
| ScheduleController.CrowdedRoomMissed | backend/src/controllers/schedule.controller.js:223-258 | as written, a 40-student group in a 30-seat room is not reported (also line 335) |
| ScheduleController.CrowdedRoomCounted | backend/src/controllers/schedule.controller.js:333-348 | with the counts loaded, that row is reported with its overflow of 10 |
| ScheduleController.AnalyzeCountedReportsCapacity | backend/src/controllers/schedule.controller.js:245-258 | with the counts loaded, the report lists exactly the overfull rows, and its summary adds up (also lines 333-348) |
| ScheduleController.KeyList | backend/src/controllers/schedule.controller.js:191 | each row's key is its day and room |
| ScheduleController.RowsWithKey | backend/src/controllers/schedule.controller.js:201-206 | a key's blocks come only from the rows |
| ScheduleController.FirstIndex | backend/src/controllers/schedule.controller.js:193-199 | an entry is created by the first row with its key |
| ScheduleController.EntriesFor | backend/src/controllers/schedule.controller.js:215 | one entry per key |
| ScheduleController.FormattedEntries | backend/src/controllers/schedule.controller.js:187-216 | each entry's blocks are in ascending start order and are exactly the blocks of its rows |
| ScheduleController.RowInRowsWithKey | backend/src/controllers/schedule.controller.js:201-206 | every row's block goes under its own key |
| ScheduleController.RowIsFormatted | backend/src/controllers/schedule.controller.js:190-215 | every row's block is in the entry of its key, whose day and room come from the first row with that key |
| ScheduleController.KeyInjective | backend/src/controllers/schedule.controller.js:191 | keys built from days without `_` are equal only for the same day and room |
| ScheduleController.SumRowsStep | backend/src/controllers/schedule.controller.js:190-207 | one more row counts once, under its own key |
| ScheduleController.SumRowsCovers | backend/src/controllers/schedule.controller.js:190-207 | over distinct keys covering every row, every row is counted once |
| ScheduleController.SumRowsEmpty | backend/src/controllers/schedule.controller.js:188 | no rows, no blocks |
| ScheduleController.TotalOfEntries | backend/src/controllers/schedule.controller.js:201-215 | the entries hold as many blocks as their keys have rows |
| ScheduleController.FormattedTotal | backend/src/controllers/schedule.controller.js:187-216 | formatting neither loses nor duplicates a row: the entries hold `detalles.length` blocks in all |
| ScheduleController.KeyListPrefix | backend/src/controllers/schedule.controller.js:190-191 | one more row appends its key |
| ScheduleController.UnsortedStep | backend/src/controllers/schedule.controller.js:193-206 | one more row appends its block to an existing entry, or creates the entry with it |
| ScheduleController.RowsWithKeyAbsent | backend/src/controllers/schedule.controller.js:201-206 | a key no row has holds no block |
| ScheduleController.GroupedStep | backend/src/controllers/schedule.controller.js:190-207 | one more row keeps the dictionary grouping the rows read so far |
| ScheduleController.GroupedValueAt | backend/src/controllers/schedule.controller.js:193-206 | each value after a step is the grouping of the rows read so far |
| ScheduleController.GroupedKeyAt | backend/src/controllers/schedule.controller.js:193-199 | every key read so far is in the dictionary |
| ScheduleController.KeysStep | backend/src/controllers/schedule.controller.js:193-199 | the keys keep their insertion order |
| ScheduleController.GroupRows | backend/src/controllers/schedule.controller.js:190-207 | the first loop leaves one entry per key, in insertion order, holding its rows' blocks |
| ScheduleController.SortEntries | backend/src/controllers/schedule.controller.js:210-213 | every entry gets its blocks sorted |
| ScheduleController.FormatScheduleDetails | backend/src/controllers/schedule.controller.js:187-216 | the method returns the specified grouping |
| ScheduleController.ValuesAreFormatted | backend/src/controllers/schedule.controller.js:210-215 | the sorted values are the formatted entries |
| ScheduleController.SkipTiles | backend/src/controllers/schedule.controller.js:14 | the first page starts at the first schedule, and each page starts `limit` schedules after the previous one |
| ScheduleController.PagesCover | backend/src/controllers/schedule.controller.js:37 | for a positive limit `pages` is the number of pages needed: the last page starts before the end and ends at or after it; no schedules, no pages |
| ScheduleController.GenerateScheduleGuards | backend/src/controllers/schedule.controller.js:50-94 | generation starts (202) exactly for a given, existing period with groups; a missing id or an empty period is a 400, an unknown one a 404 |
| ScheduleController.DeleteScheduleGuards | backend/src/controllers/schedule.controller.js:354-386 | a schedule is deleted exactly when it exists and is not being generated; one being generated is a 400 |
| ScheduleController.AnalyzeConflicts | backend/src/controllers/schedule.controller.js:219-266 | the report of `analyzeConflicts` as written, for a missing schedule a 404; that it never reports a full group is stated by `ScheduleController.AnalyzeNeverReportsCapacity` |
| ScheduleController.GenerateSchedule | backend/src/controllers/schedule.controller.js:50-94 | the reply of `generateSchedule` before the job starts; stated by `ScheduleController.GenerateScheduleGuards` |
| ScheduleController.DeleteSchedule | backend/src/controllers/schedule.controller.js:354-386 | the reply of `deleteSchedule` from the schedule's state; stated by `ScheduleController.DeleteScheduleGuards` |
| EnrollmentController.FallbackEntry | backend/src/controllers/enrollment.controller.js:69-77 | a group's record keeps its `cupo_max` and counts its enrolments, 0 when it has none |
| EnrollmentController.FallbackSeats | backend/src/controllers/enrollment.controller.js:70-71 | the free seats are known exactly when `cupo_max` is a number, are never negative, and are `cupo_max` minus the enrolments when that is not negative, otherwise 0 |
| EnrollmentController.CapacityMapEntries | backend/src/controllers/enrollment.controller.js:68-78 | each group id is a key holding the record of the last group with that id |
| EnrollmentController.CapacityMapKeys | backend/src/controllers/enrollment.controller.js:69-78 | the keys are exactly the ids of the groups returned |
| EnrollmentController.ViewMapEntries | backend/src/controllers/enrollment.controller.js:44-55 | each group named by a view row is a key holding the counts of the last row for that group |
| EnrollmentController.ViewMapKeys | backend/src/controllers/enrollment.controller.js:44-55 | the keys are exactly the groups named by the view's rows |
| EnrollmentController.BuildCapacityMap | backend/src/controllers/enrollment.controller.js:38-80 | no ids give an empty map; when the capacity view answers, the map built from its rows; when it throws, the map built from the fallback queries |
| EnrollmentController.PrereqsFor | backend/src/controllers/enrollment.controller.js:111-117 | a subject's list comes from the rows |
| EnrollmentController.PrereqsForMembers | backend/src/controllers/enrollment.controller.js:111-117 | a subject's list holds exactly the prerequisites of its own rows |
| EnrollmentController.PrerequisitesMap | backend/src/controllers/enrollment.controller.js:100-119 | no ids give an empty map; otherwise exactly the subjects with a row, each with its prerequisites in row order |
| EnrollmentController.PrereqsForStep | backend/src/controllers/enrollment.controller.js:112-116 | one more row extends only its own subject's list, which starts empty |
| EnrollmentController.PrereqsForAbsent | backend/src/controllers/enrollment.controller.js:112 | a subject without rows has no prerequisites |
| EnrollmentController.CompletedSubjects | backend/src/controllers/enrollment.controller.js:139-144 | the set holds exactly the non-empty subject ids of the student's earlier enrolments |
| EnrollmentController.ExistingBlocksLast | backend/src/controllers/enrollment.controller.js:168-169 | every block id of the rows is a key holding the last row with that id |
| EnrollmentController.ExistingBlocksKeys | backend/src/controllers/enrollment.controller.js:168-169 | the keys are exactly the block ids of the rows |
| EnrollmentController.ExistingBlocksForStudent | backend/src/controllers/enrollment.controller.js:147-171 | no period gives an empty map; otherwise the rows keyed by block id |
| EnrollmentController.FirstClash | backend/src/controllers/enrollment.controller.js:183-196 | a clash is a block of the group whose id the student already occupies |
| EnrollmentController.FirstClashNone | backend/src/controllers/enrollment.controller.js:183-196 | no clash is found exactly when no block id of the group is occupied (ids are compared, not times) |
| EnrollmentController.FirstClashAt | backend/src/controllers/enrollment.controller.js:184-193 | the clash reported is the first occupied block, with the occupying row's group, subject and times |
| EnrollmentController.DetectScheduleConflict | backend/src/controllers/enrollment.controller.js:183-196 | the loop with its early return finds the first clash |
| EnrollmentController.HandleErrorEchoes | backend/src/controllers/enrollment.controller.js:272-286 | an error with a status is echoed with its message and exactly the optional fields it carries; any other becomes a 500 with the fallback message and the error's own |
| EnrollmentController.MissingPrereqs | backend/src/controllers/enrollment.controller.js:213 | the missing list is drawn from the prerequisites |
| EnrollmentController.MissingPrereqsMembers | backend/src/controllers/enrollment.controller.js:213 | the missing list is exactly the prerequisites whose subject is not completed (also line 440) |
| EnrollmentController.MissingPrereqsEmpty | backend/src/controllers/enrollment.controller.js:214 | nothing is missing exactly when every prerequisite is completed |
| EnrollmentController.ValidateOrder | backend/src/controllers/enrollment.controller.js:198-224 | GROUP_FULL exactly when the group is full; PREREQ_NOT_MET, with the missing list, exactly when it is not but a prerequisite is missing; SCHEDULE_CONFLICT exactly when both pass and a block is occupied; all failures are 409, and otherwise the student may enrol |
| EnrollmentController.ReEnrollingReportsConflict | backend/src/controllers/enrollment.controller.js:147-169 | a student who asks again for a group they are in, with a block and free seats, gets SCHEDULE_CONFLICT before the insert could report ALREADY_ENROLLED (also lines 218-221, 255-256) |
| EnrollmentController.AddStudentOutcome | backend/src/controllers/enrollment.controller.js:226-260 | a student is enrolled (201) exactly when the id is given, the user is a student, the group exists, every check passes and the enrolment is new; a duplicate is a 409 (also lines 288-295, 329-344) |
| EnrollmentController.RemoveEnrollmentGuards | backend/src/controllers/enrollment.controller.js:346-374 | an enrolment is removed (200) exactly through its own group; a missing one is a 404 |
| EnrollmentController.CancelDeadline | backend/src/controllers/enrollment.controller.js:523-537 | cancelling is always allowed without a start date or when allowed after start; with a positive number of days until that many days before the start; otherwise until the start; and a later instant never allows what an earlier one refuses |
| EnrollmentController.CancelSelfOutcome | backend/src/controllers/enrollment.controller.js:539-575 | a cancellation succeeds exactly for the student's own enrolment within the deadline; someone else's looks missing (404) |
| EnrollmentController.ItemEligibility | backend/src/controllers/enrollment.controller.js:436-456 | a group is eligible exactly when it has free seats or no known limit, no prerequisite is missing and no block id is occupied; `cupo` flags exactly a group with no free seats |
| EnrollmentController.DisponiblesFallback | backend/src/controllers/enrollment.controller.js:437-439 | without a capacity record the free seats come from `cupo_max` and the group's own count, clamped at 0 |
| EnrollmentController.ItemsFor | backend/src/controllers/enrollment.controller.js:435-459 | one item per group, in order |
| EnrollmentController.ListingFailsWithGroups | backend/src/controllers/enrollment.controller.js:455-463 | as written, any period with a group gets a 500 and no items |
| EnrollmentController.CorrectedListing | backend/src/controllers/enrollment.controller.js:393-465 | with the name fixed, every group is listed in order with its eligibility and its clash |
| EnrollmentController.EnrollStudent | backend/src/controllers/enrollment.controller.js:226-260 | the outcome of `enrollStudent`: a missing group, a failed check or a duplicate (student, group) row is refused, anything else enrolls; its statuses are stated by `EnrollmentController.AddStudentOutcome` |
| EnrollmentController.AddStudentToGroup | backend/src/controllers/enrollment.controller.js:329-344 | the status of `addStudentToGroup`: 400 without a student id, then the role check, then the enrolment; stated by `EnrollmentController.AddStudentOutcome` |
| EnrollmentController.RemoveEnrollment | backend/src/controllers/enrollment.controller.js:346-374 | the status of `removeEnrollment`: 404 for an unknown enrolment, 400 for one of another group, otherwise 200; stated by `EnrollmentController.RemoveEnrollmentGuards` |
| EnrollmentController.CanCancelEnrollment | backend/src/controllers/enrollment.controller.js:523-537 | whether a cancellation is still allowed at an instant, from the period start and the two settings; stated by `EnrollmentController.CancelDeadline` |
| EnrollmentController.CancelSelfEnrollment | backend/src/controllers/enrollment.controller.js:539-575 | the status of `cancelSelfEnrollment`: someone else's or a missing enrolment is a 404, one past the deadline a 409, otherwise 200; stated by `EnrollmentController.CancelSelfOutcome` |
| EnrollmentController.ListAvailableGroupsForStudent | backend/src/controllers/enrollment.controller.js:393-465 | the listing as written, which fails with a 500 as soon as there is a group; stated by `EnrollmentController.ListingFailsWithGroups` |
| RealEnrollment.OverlapsSymmetric | backend/src/services/real-enrollment.service.js:71-73 | the overlap test on day and half-open hours is symmetric, a block of positive length overlaps itself, and a block that ends when another starts does not overlap it |
| RealEnrollment.RowHasOverlap | backend/src/services/real-enrollment.service.js:69-77 | the innermost loop finds an overlap exactly when some block of one enrolled group overlaps the new block |
| RealEnrollment.EnrolledHasOverlap | backend/src/services/real-enrollment.service.js:68-78 | the middle loop finds an overlap exactly when some enrolled group holds a block overlapping the new block |
| RealEnrollment.HasScheduleConflict | backend/src/services/real-enrollment.service.js:67-79 | the triple loop stops with a conflict exactly when some block of the group overlaps some block of the student's enrolled groups |
| RealEnrollment.PercentBounds | backend/src/services/real-enrollment.service.js:120 | a group within its limit has a whole occupancy percentage from 0 to 100, 0 when empty and 100 when full |
| RealEnrollment.StatsWith | backend/src/services/real-enrollment.service.js:108-109 | the figures keep the given enrolment count, the free seats are never negative, they are 0 exactly when the limit is reached, and they are `cupo_max` minus the count otherwise |
| RealEnrollment.EnrollStudentInGroup | backend/src/services/real-enrollment.service.js:3-129 | the enrolment is decided by the group lookup, the duplicate check and whether any block of the group overlaps the student's enrolled blocks |
| RealEnrollment.EnrollOrder | backend/src/services/real-enrollment.service.js:16-36 | the first failing check wins (missing group, no free seat, already enrolled, overlap); a success counts one more student, leaves `cupo_max` minus that many seats and an occupancy from 0 to 100 (also lines 67-79, 107-120) |
| RealEnrollment.CancelOutcome | backend/src/services/real-enrollment.service.js:148-174 | a cancellation succeeds exactly for the owner of an existing enrolment, another user gets the permission error, and a success counts one student less and frees one seat |
| RealEnrollment.EnrollThenCancel | backend/src/services/real-enrollment.service.js:107-120 | enrolling and then cancelling the same enrolment gives back the group's figures from before both (also lines 162-174) |
| RealEnrollment.CapacityReportConsistent | backend/src/services/real-enrollment.service.js:316-351 | the free seats are never negative, a group has a seat or is full and never both, it is full exactly when its enrolments reach `cupo_max`, and seats plus enrolments make `cupo_max` within the limit |
| RealEnrollment.GetGroupEnrollments | backend/src/services/real-enrollment.service.js:213-235 | the report exists exactly when the group does; it lists the loaded enrolments, counts them and keeps the group's enrolment count with non-negative free seats |
| RealEnrollment.TotalCreditosAppend | backend/src/services/real-enrollment.service.js:308 | the credit total over the enrolments is additive over concatenation |
| RealEnrollment.TotalCreditosNonNegative | backend/src/services/real-enrollment.service.js:308 | the credit total of subjects with non-negative credits is non-negative |
| RealEnrollment.EnrollInGroupStatuses | backend/src/controllers/real-enrollment.controller.js:16-30 | a missing `grupoId` answers 400; a service rejection, which carries no status, answers 500; the answer is 201 exactly when the enrolment succeeds |
| RealEnrollment.RowConflictsEmpty | backend/src/controllers/real-enrollment.controller.js:196-207 | one enrolled group adds no conflict entry exactly when none of its blocks overlaps the block |
| RealEnrollment.BlockConflictsEmpty | backend/src/controllers/real-enrollment.controller.js:195-209 | a block adds no conflict entry exactly when it overlaps no enrolled block |
| RealEnrollment.ConflictListEmpty | backend/src/controllers/real-enrollment.controller.js:193-212 | the conflict list is empty exactly when the service's overlap test finds nothing, so the check reports CONFLICTO_HORARIO exactly when the enrolment would be refused for an overlap |
| RealEnrollment.ConflictListSound | backend/src/controllers/real-enrollment.controller.js:197-206 | every conflict entry carries the day and hours of a block of the group that overlaps a block of an enrolled group |
| RealEnrollment.BlockConflictsEntry | backend/src/controllers/real-enrollment.controller.js:197-206 | every entry a block adds carries that block's day and hours, and that block overlaps an enrolled block |
| RealEnrollment.RowConflictsEntry | backend/src/controllers/real-enrollment.controller.js:197-206 | every entry one enrolled group adds is the entry of that block and group, and the block overlaps the group |
| RealEnrollment.CollectRow | backend/src/controllers/real-enrollment.controller.js:196-208 | the innermost loop appends exactly the entries of one enrolled group |
| RealEnrollment.CollectBlock | backend/src/controllers/real-enrollment.controller.js:195-209 | the middle loop appends exactly the entries of one block |
| RealEnrollment.CollectConflicts | backend/src/controllers/real-enrollment.controller.js:193-210 | the triple loop builds exactly the conflict list of the group against the enrolments |
| RealEnrollment.PendingOf | backend/src/controllers/real-enrollment.controller.js:252-262 | the pending list is never longer than the list of prerequisites |
| RealEnrollment.PendingMembers | backend/src/controllers/real-enrollment.controller.js:255-261 | an entry is pending exactly when it is a prerequisite of the subject whose required subject is not among the finished ones |
| RealEnrollment.PendingEmpty | backend/src/controllers/real-enrollment.controller.js:255-264 | nothing is pending exactly when every required subject has been finished |
| RealEnrollment.CollectPending | backend/src/controllers/real-enrollment.controller.js:252-262 | the loop builds exactly the pending prerequisites, in row order |
| RealEnrollment.AsLoaded | backend/src/controllers/real-enrollment.controller.js:173-191 | the enrolments as loaded keep every group's blocks and lose its subject |
| RealEnrollment.AsLoadedOverlaps | backend/src/controllers/real-enrollment.controller.js:173-200 | whether a group overlaps the enrolments does not depend on the subjects the query leaves out |
| RealEnrollment.CheckAvailabilityForStudent | backend/src/controllers/real-enrollment.controller.js:116-287 | the answer is decided by the group, the duplicate check, the conflicts against the enrolments as loaded and the pending prerequisites |
| RealEnrollment.AvailabilityOrder | backend/src/controllers/real-enrollment.controller.js:133-287 | the first failing reason is reported, in the order not found, CUPO_LLENO, YA_INSCRITO, CONFLICTO_HORARIO, PRERREQUISITOS_PENDIENTES; the group is available exactly when the service would enrol the student and every prerequisite is finished, and then it has a free seat |
| RealEnrollment.ConflictsNeverNamed | backend/src/controllers/real-enrollment.controller.js:180-205 | as written, every reported conflict has the subject label 'Materia sin nombre', because the query does not load the subjects |
| RealEnrollment.ConflictListNames | backend/src/controllers/real-enrollment.controller.js:205 | every conflict entry carries the subject label of one of the enrolments |
| RealEnrollment.BlockConflictsNames | backend/src/controllers/real-enrollment.controller.js:205 | every entry a block adds carries the subject label of an enrolment that holds an overlapping block |
| RealEnrollment.CheckAvailabilityNamed | backend/src/controllers/real-enrollment.controller.js:116-287 | with the subjects loaded, the answer is decided by the conflicts against the enrolments themselves |
| RealEnrollment.ConflictsNamed | backend/src/controllers/real-enrollment.controller.js:205 | with the subjects loaded, every conflict names the subject of one of the student's enrolments whenever the subjects have names |
| RealEnrollment.CancelEnrollment | backend/src/services/real-enrollment.service.js:148-174 | the outcome of `cancelEnrollment`: an unknown enrolment and someone else's are refused, otherwise the group's figures minus one; stated by `RealEnrollment.CancelOutcome` and `RealEnrollment.EnrollThenCancel` |
| RealEnrollment.EnrollInGroupStatus | backend/src/controllers/real-enrollment.controller.js:16-30 | the status of `enrollInGroup`: 400 without `grupoId`, 500 for any refusal of the service, 201 otherwise; stated by `RealEnrollment.EnrollInGroupStatuses` |
| RealEnrollment.Decide | backend/src/controllers/real-enrollment.controller.js:133-287 | the availability answer once conflicts and pending prerequisites are collected; its order of reasons is stated by `RealEnrollment.AvailabilityOrder` |
| AutoEnrollment.OwnedSchedule | backend/src/services/auto-enrollment.service.js:36-42 | the schedule passes exactly when it exists and was created by the caller; another user's schedule is refused with 403 (also lines 196-202) |
| AutoEnrollment.LastWithId | backend/src/services/auto-enrollment.service.js:46 | the group kept for an id is a group of the schedule with that id |
| AutoEnrollment.UniqueGroups | backend/src/services/auto-enrollment.service.js:45-46 | the distinct groups carry the schedule's ids once each, in order of first appearance, and each is a group of the schedule (also lines 204-205) |
| AutoEnrollment.UniqueGroupsCover | backend/src/services/auto-enrollment.service.js:46 | the distinct groups have pairwise different ids, cover every id of the schedule and are no more than its rows (also line 205) |
| AutoEnrollment.UniqueGroupsOfDistinct | backend/src/services/auto-enrollment.service.js:46 | a schedule whose rows name different groups keeps all of them, in order (also line 205) |
| AutoEnrollment.LastIsOnly | backend/src/services/auto-enrollment.service.js:46 | in a list of distinct ids, the group kept for an id is the one with that id |
| AutoEnrollment.Classify | backend/src/services/auto-enrollment.service.js:69-141 | the first rule that applies decides: unselected subject, full group (`count >= cupo_max`), existing enrolment, then the insert's new id or its error; only a selected group with a free seat ends in the results |
| AutoEnrollment.Results | backend/src/services/auto-enrollment.service.js:99-131 | the results are no more than the groups and each one is INSCRITO or YA_INSCRITO |
| AutoEnrollment.Errors | backend/src/services/auto-enrollment.service.js:70-88 | no entry of the errors is INSCRITO or YA_INSCRITO (also lines 135-141) |
| AutoEnrollment.CountEstado | backend/src/services/auto-enrollment.service.js:157-158 | a count of entries by state is no more than the entries |
| AutoEnrollment.CountsAddUp | backend/src/services/auto-enrollment.service.js:67-143 | every distinct group ends in exactly one of the two lists, and every result is counted either as newly enrolled or as already enrolled (also lines 157-159) |
| AutoEnrollment.ResultsSound | backend/src/services/auto-enrollment.service.js:99-131 | each result is the entry of a group of the run whose subject was selected and which had a free seat |
| AutoEnrollment.EnrollGroups | backend/src/services/auto-enrollment.service.js:64-143 | the loop, with its `continue` branches and the catch of a failed insert, builds exactly the results and errors of the distinct groups |
| AutoEnrollment.EnrollFromSchedule | backend/src/services/auto-enrollment.service.js:13-171 | a missing schedule answers 404 and another user's 403; otherwise the summary holds the number of distinct groups, the newly and already enrolled counts, the errors, both lists and the stored score |
| AutoEnrollment.ScoreInUnit | backend/src/services/auto-enrollment.service.js:150 | the stored score is a share between 0 and 1, 0 exactly when nothing succeeded and 1 when nothing failed |
| AutoEnrollment.SummaryConsistent | backend/src/services/auto-enrollment.service.js:150-159 | newly enrolled, already enrolled and errors add up to the number of distinct groups, and the score is a share between 0 and 1 that is 0 exactly without results |
| AutoEnrollment.CountAvailable | backend/src/services/auto-enrollment.service.js:225 | the number of groups with a seat is no more than the number of checks |
| AutoEnrollment.Checks | backend/src/services/auto-enrollment.service.js:207-218 | there is one check per distinct group, in order, with its free seats |
| AutoEnrollment.ValidateAutoEnrollment | backend/src/services/auto-enrollment.service.js:176-236 | a missing schedule answers 404 and another user's 403 with its own message; otherwise the report covers the distinct groups of the schedule |
| AutoEnrollment.CountAvailableAll | backend/src/services/auto-enrollment.service.js:220-225 | every check is available exactly when all of them are counted as having a seat |
| AutoEnrollment.ValidationAgrees | backend/src/services/auto-enrollment.service.js:207-230 | `canEnroll` holds exactly when every distinct group has `cupo_max` minus its count above 0, which is exactly when `gruposConCupo` equals `totalGrupos`; `gruposConCupo` never exceeds it |
| AutoEnrollment.ValidationPredictsNoFull | backend/src/services/auto-enrollment.service.js:81-89 | after a validation that allows enrolling, no group of a run over the same groups ends as 'Cupo lleno' (also lines 214-220) |
| SubjectSelectionService.Cursadas | backend/src/services/subject-selection.service.js:71-75 | a subject counts as taken exactly when the student has an enrolment in it whose period ended before now |
| SubjectSelectionService.OpenGroups | backend/src/services/subject-selection.service.js:47-53 | the catalogue keeps exactly the groups of the subject with `cupo_max > 0` |
| SubjectSelectionService.PrereqInfos | backend/src/services/subject-selection.service.js:111-119 | one entry per prerequisite, in order, marked `cumplido` exactly when its required subject was taken |
| SubjectSelectionService.Unmet | backend/src/services/subject-selection.service.js:123 | the unmet prerequisites are no more than the prerequisites |
| SubjectSelectionService.UnmetEmpty | backend/src/services/subject-selection.service.js:123 | nothing is unmet exactly when every prerequisite is `cumplido` |
| SubjectSelectionService.NivelCases | backend/src/services/subject-selection.service.js:121-124 | `nivel` is 0 exactly without prerequisites, 1 exactly when there are some and all were taken, 2 exactly when one was not taken, and never anything else |
| SubjectSelectionService.GruposDisponibles | backend/src/services/subject-selection.service.js:132-135 | the count of groups with `cupo_max` above their enrolments (0 when missing) is no more than the groups, and positive exactly when one such group exists |
| SubjectSelectionService.DetailsOf | backend/src/services/subject-selection.service.js:147-153 | one detail per group, in order, with its `cupo_max`, its enrolments and `cupo_max` minus them as free seats |
| SubjectSelectionService.DisponibleIff | backend/src/services/subject-selection.service.js:126-130 | a subject is available exactly when it was not taken, every prerequisite was taken and it has a group with `cupo_max > 0` in the period; an available subject has `nivel` 0 or 1 |
| SubjectSelectionService.FullSubjectStillOffered | backend/src/services/subject-selection.service.js:50-52 | availability ignores the seats taken: a subject whose only group is full is still available, with no available group (also lines 127-135) |
| SubjectSelectionService.RankLeIsTotalPreorder | backend/src/services/subject-selection.service.js:159-169 | the comparator's order (availability, then `nivel`, then credits) is a total preorder, so the sort is well defined |
| SubjectSelectionService.OrderSubjectsSorted | backend/src/services/subject-selection.service.js:158-169 | the listing is a permutation of the subjects in which available subjects come first, then `nivel` and then credits do not decrease |
| SubjectSelectionService.FindSubject | backend/src/services/subject-selection.service.js:194 | the search returns a subject of the list with the id, and finds nothing exactly when no subject has it (also line 243) |
| SubjectSelectionService.CountAvailable | backend/src/services/subject-selection.service.js:177 | the count is exactly the number of subjects kept as available, no more than the listing |
| SubjectSelectionService.EvaluateCareerMembers | backend/src/services/subject-selection.service.js:42-45 | the evaluated subjects are exactly the evaluations of the catalogue subjects of the student's career (also lines 92-156) |
| SubjectSelectionService.SelectedIds | backend/src/services/subject-selection.service.js:89 | the selected ids are the subject ids of the current selections, in order |
| SubjectSelectionService.GetAvailableSubjects | backend/src/services/subject-selection.service.js:3-204 | a missing student and then a missing period are errors with their messages; otherwise there is a listing |
| SubjectSelectionService.ListingCoversCareer | backend/src/services/subject-selection.service.js:159-197 | the listing holds the evaluation of every subject of the career and nothing else; `disponibles` is at most `total`, which is the listing's length, and `seleccionadas` counts the current selections |
| SubjectSelectionService.Requested | backend/src/services/subject-selection.service.js:227-232 | the subjects found are no more than the catalogue |
| SubjectSelectionService.RequestedMember | backend/src/services/subject-selection.service.js:227-232 | a subject is found exactly when it is in the catalogue, in the student's career and among the requested ids |
| SubjectSelectionService.NotAvailable | backend/src/services/subject-selection.service.js:242-245 | nothing is refused exactly when every requested id is found in the listing as available |
| SubjectSelectionService.Prioritized | backend/src/services/subject-selection.service.js:272-281 | one new selection per requested id, in the given order, with priority `index + 1` |
| SubjectSelectionService.SaveSubjectSelections | backend/src/services/subject-selection.service.js:206-298 | the save succeeds exactly when the user and the period exist, every requested id is found in the career, every one is available and the credits are at most 24; then the new selections have priorities 1, 2, … in input order |
| SubjectSelectionService.SavedAreAvailable | backend/src/services/subject-selection.service.js:239-249 | every subject of a saved selection is in the listing as available |
| SubjectSelectionService.RequestedCount | backend/src/services/subject-selection.service.js:227-236 | with a catalogue of distinct ids, the query finds at most one subject per distinct requested id |
| SubjectSelectionService.RepeatedSubjectRejected | backend/src/services/subject-selection.service.js:227-236 | with a catalogue of distinct ids, a request that names a subject twice fails the count check |
| SubjectSelectionService.CreditsOfInsert | backend/src/services/subject-selection.service.js:331 | inserting a selection into the ordered list adds its credits to the total |
| SubjectSelectionService.CreditsOfSort | backend/src/services/subject-selection.service.js:317-331 | ordering the selections by priority does not change their credit total |
| SubjectSelectionService.GetCurrentSelections | backend/src/services/subject-selection.service.js:300-338 | the selections are those of the student in the period, ordered by ascending priority, counted, with their credit total |
| SubjectSelectionService.Available | backend/src/services/subject-selection.service.js:366 | the available subjects are no more than the listing |
| SubjectSelectionService.AvailableMember | backend/src/services/subject-selection.service.js:366 | a subject is kept exactly when it is in the listing and available |
| SubjectSelectionService.LevelZeroOrOne | backend/src/services/subject-selection.service.js:370 | the kept subjects are no more than the given ones |
| SubjectSelectionService.LevelMember | backend/src/services/subject-selection.service.js:370 | a subject is kept exactly when its `nivel` is 0 or 1 |
| SubjectSelectionService.WeightLeIsTotalPreorder | backend/src/services/subject-selection.service.js:371-378 | the recommendation order, credits then `nivel`, is a total preorder |
| SubjectSelectionService.RecommendProperties | backend/src/services/subject-selection.service.js:366-379 | at most five recommendations, each an available subject of the listing with `nivel` 0 or 1, with credits and then `nivel` not decreasing; with at most five candidates, all of them are recommended |
| SubjectSelectionService.GetSubjectRecommendations | backend/src/services/subject-selection.service.js:361-390 | the recommendations exist exactly when the listing does, and are drawn from it |
| SubjectSelectionService.LevelFilterRedundant | backend/src/services/subject-selection.service.js:127-130 | on a listing the service computed, the `nivel` filter removes nothing, since an available subject never has pending prerequisites (also lines 366-370) |
| SubjectSelectionService.LevelsKept | backend/src/services/subject-selection.service.js:370 | a list whose every subject has `nivel` 0 or 1 passes the filter unchanged |
| SubjectSelectionService.RecommendLightest | backend/src/services/subject-selection.service.js:366-379 | exactly the first five (or all) candidates are recommended, and every candidate left out weighs at least as much, by credits and then `nivel`, as every one recommended |
| SubjectSelectionService.Evaluate | backend/src/services/subject-selection.service.js:92-155 | the entry of one subject: its level from its prerequisites, its availability, its free groups and their details; stated by `SubjectSelectionService.EvaluateCareerMembers` |
| SubjectSelectionService.OrderSubjects | backend/src/services/subject-selection.service.js:158-169 | the subjects ordered available first and then by level; stated by `SubjectSelectionService.OrderSubjectsSorted` |
| SubjectSelectionService.Recommend | backend/src/services/subject-selection.service.js:366-379 | the lightest five candidates of level 0 or 1; stated by `SubjectSelectionService.RecommendProperties` and `SubjectSelectionService.RecommendLightest` |
| SubjectSelectionController.ServiceError | backend/src/controllers/subject-selection.controller.js:26-62 | an error the service throws carries no status and answers 500, with its message or, when that is empty, the handler's fallback |
| SubjectSelectionController.GetAvailable | backend/src/controllers/subject-selection.controller.js:10-33 | 400 without `periodoId`; otherwise the listing exactly when the student and the period exist, and any service error as 500 |
| SubjectSelectionController.SaveSelections | backend/src/controllers/subject-selection.controller.js:36-64 | 400 without `periodoId`, then 400 unless `materias` is a non-empty array; a save happens only for a non-empty array, and other errors answer 500 |
| SubjectSelectionController.GetCurrent | backend/src/controllers/subject-selection.controller.js:67-90 | the only error is the 400 for a missing `periodoId` |
| SubjectSelectionController.Clear | backend/src/controllers/subject-selection.controller.js:93-116 | the only error is the 400 for a missing `periodoId` in the body; otherwise the answer counts every stored selection of the student in the period as removed |
| SubjectSelectionController.GetRecommendations | backend/src/controllers/subject-selection.controller.js:119-142 | 400 without `periodoId`; the recommendations are at most five, all available |
| SubjectSelectionController.VerdictOf | backend/src/controllers/subject-selection.controller.js:167-183 | a selection is valid exactly when its subject is found in the listing as available, which is exactly when the reason is 'Disponible'; an unknown subject is invalid; 'Prerrequisitos pendientes' appears exactly when the listed subject is not available and has `nivel` 2 |
| SubjectSelectionController.Verdicts | backend/src/controllers/subject-selection.controller.js:167-183 | one verdict per stored selection, in order |
| SubjectSelectionController.ValidateSelections | backend/src/controllers/subject-selection.controller.js:145-206 | 400 without `periodoId`; a report exactly when the student and the period exist, built from the current selections and the listing |
| SubjectSelectionController.ReportMeaning | backend/src/controllers/subject-selection.controller.js:185-197 | `todasValidas` holds exactly when every stored selection is valid, there is one verdict per selection, and the warning appears exactly when the stored credits exceed 24 |
| SubjectEnrollmentController.CompletedOf | backend/src/controllers/subjectEnrollment.controller.js:11-35 | a subject counts as completed exactly when some loaded enrolment with a group and a subject id names it, and, when a date is given, its period ended before that date |
| SubjectEnrollmentController.GetCompletedSubjects | backend/src/controllers/subjectEnrollment.controller.js:5-42 | the `forEach` builds exactly the set of completed subjects |
| SubjectEnrollmentController.SeatGroups | backend/src/controllers/subjectEnrollment.controller.js:173-177 | the kept groups are no more than the subject's groups and each has a `cupo_max` (0 when unset) above its enrolments |
| SubjectEnrollmentController.SeatGroupsMember | backend/src/controllers/subjectEnrollment.controller.js:173-177 | a group is kept exactly when it is a group of the subject with a free seat |
| SubjectEnrollmentController.Present | backend/src/controllers/subjectEnrollment.controller.js:180-182 | the kept prerequisites are no more than the rows |
| SubjectEnrollmentController.PresentMember | backend/src/controllers/subjectEnrollment.controller.js:180-182 | a prerequisite is kept exactly when its subject was loaded |
| SubjectEnrollmentController.Slots | backend/src/controllers/subjectEnrollment.controller.js:207-213 | the kept blocks are no more than the loaded ones and each has a day |
| SubjectEnrollmentController.SlotsAppend | backend/src/controllers/subjectEnrollment.controller.js:207-213 | the blocks kept from two runs of rows are those of the first followed by those of the second, so the rows' order is kept |
| SubjectEnrollmentController.SlotsOfOne | backend/src/controllers/subjectEnrollment.controller.js:207-213 | a single row gives its block exactly when the block was loaded with a truthy day, and nothing otherwise |
| SubjectEnrollmentController.SlotsMember | backend/src/controllers/subjectEnrollment.controller.js:207-213 | an entry is kept exactly when some row loaded a block with a truthy day that maps to it |
| SubjectEnrollmentController.DetailOf | backend/src/controllers/subjectEnrollment.controller.js:192-214 | the displayed free seats are never negative, and for a group with a seat they are its positive number of free seats |
| SubjectEnrollmentController.Evaluate | backend/src/controllers/subjectEnrollment.controller.js:171-238 | only groups with a free seat are counted and detailed, no more than the subject has, each with a positive number of free seats |
| SubjectEnrollmentController.DisponibleIff | backend/src/controllers/subjectEnrollment.controller.js:184-189 | a subject is available exactly when one of its groups has a free seat and every loaded prerequisite is completed (none counts as met); `sin_cupo` holds exactly when no group has a seat; available means neither restriction holds; `conflictos` is always false (also lines 232-236) |
| SubjectEnrollmentController.EvaluateAll | backend/src/controllers/subjectEnrollment.controller.js:171-238 | one evaluation per subject of the career, in order |
| SubjectEnrollmentController.Offered | backend/src/controllers/subjectEnrollment.controller.js:252 | the kept subjects are no more than the listing and each is available |
| SubjectEnrollmentController.OfferedMember | backend/src/controllers/subjectEnrollment.controller.js:252 | a subject is kept exactly when it is in the listing and available |
| SubjectEnrollmentController.CountOffered | backend/src/controllers/subjectEnrollment.controller.js:252 | the count is exactly the number of subjects kept as available, no more than the subjects |
| SubjectEnrollmentController.GetAvailableSubjects | backend/src/controllers/subjectEnrollment.controller.js:44-265 | 404 for an unknown student, 400 when `carrera_id` is falsy, 404 without the named or active period; otherwise the listing of that period: each subject of the career evaluated against the subjects completed before the period starts and the student's selections, `disponibles` the number of those available, and the number of distinct selected subjects |
| SubjectEnrollmentController.Keys | backend/src/controllers/subjectEnrollment.controller.js:309 | one key per element of the request, in order: the text of its `id`, or of the element itself when it has none |
| SubjectEnrollmentController.DeletionsMember | backend/src/controllers/subjectEnrollment.controller.js:310-320 | a deletion is issued exactly for each stored selection whose subject is not in the new set |
| SubjectEnrollmentController.CreationsMember | backend/src/controllers/subjectEnrollment.controller.js:323-336 | a creation is issued exactly for each subject of the new set that is not yet stored |
| SubjectEnrollmentController.StoredAfterMember | backend/src/controllers/subjectEnrollment.controller.js:305-339 | after the operations, a subject is stored exactly when a stored selection that was not deleted holds it or a creation adds it |
| SubjectEnrollmentController.StoredAfterSound | backend/src/controllers/subjectEnrollment.controller.js:305-339 | every subject stored after the operations is in the request |
| SubjectEnrollmentController.StoredAfterComplete | backend/src/controllers/subjectEnrollment.controller.js:305-339 | when stored ids are distinct, every requested subject is stored after the operations |
| SubjectEnrollmentController.SelectionReplaced | backend/src/controllers/subjectEnrollment.controller.js:305-339 | when stored ids are distinct, the operations leave exactly the set of requested subject keys stored |
| SubjectEnrollmentController.SelectSubjects | backend/src/controllers/subjectEnrollment.controller.js:267-356 | 400 without `periodoId` or an array, 404 for an unknown period; otherwise the deletions followed by the creations that replace the stored set, and `seleccionadas` is the request's length |
| SubjectEnrollmentController.CollectDeletions | backend/src/controllers/subjectEnrollment.controller.js:314-320 | the loop pushes exactly the deletions |
| SubjectEnrollmentController.CollectCreations | backend/src/controllers/subjectEnrollment.controller.js:323-336 | the loop pushes exactly the creations |
| SubjectEnrollmentController.FindStored | backend/src/controllers/subjectEnrollment.controller.js:324 | the search finds a stored selection of that subject, and finds none exactly when none exists |
| SubjectEnrollmentController.RepeatedItemCountedTwice | backend/src/controllers/subjectEnrollment.controller.js:309-344 | a request naming a subject twice reports 2 in `seleccionadas`, though its key set holds that subject once |
| SubjectEnrollmentController.TotalOfInsert | backend/src/controllers/subjectEnrollment.controller.js:407-409 | inserting a selection into the ordered list adds its credits, 0 when its subject is missing |
| SubjectEnrollmentController.TotalOfSort | backend/src/controllers/subjectEnrollment.controller.js:401-409 | ordering by priority does not change the credit total |
| SubjectEnrollmentController.InScope | backend/src/controllers/subjectEnrollment.controller.js:368-379 | the selections in scope are no more than the student's, and all of them when there is no period |
| SubjectEnrollmentController.InScopeMember | backend/src/controllers/subjectEnrollment.controller.js:368-379 | a selection is in scope exactly when it is the student's and, when there is a period, in that period |
| SubjectEnrollmentController.GetMySelections | backend/src/controllers/subjectEnrollment.controller.js:358-420 | the selections are those of the requested period, else of the active one, else all; they are sorted by ascending priority, and `total_creditos` sums their credits with a missing subject as 0 |
| SubjectEnrollmentController.UpdateSelectionPriority | backend/src/controllers/subjectEnrollment.controller.js:422-468 | a priority outside 1..3 is 400 before any lookup; 404 exactly when the priority passes and the selection is not the student's; a valid or absent priority on the student's own existing selection always succeeds, with the row holding the new priority, or unchanged when none is given |
| SubjectEnrollmentController.FindSelection | backend/src/controllers/subjectEnrollment.controller.js:435-440 | the search returns a selection with that id, and returns none only when no selection has it |
| SubjectEnrollmentController.ClearSelections | backend/src/controllers/subjectEnrollment.controller.js:470-498 | the removed count is exactly the number of the student's selections in scope: those of the given period, or all of them without a period |
| Common.Random | backend/src/algorithms/geneticAlgorithm.js:358 | every value `Math.random()` may return lies in [0, 1) (also lines 391, 445) |
| Common.RandomIndex | backend/src/algorithms/geneticAlgorithm.js:116 | `Math.floor(Math.random() * n)` is a valid index into a collection of `n` elements (also lines 133, 354, 454, 469) |
| Common.RatioInUnit | backend/src/services/real-enrollment.service.js:120 | a count over a positive limit it does not exceed is a ratio between 0 and 1, 0 for none and 1 for all (also lines 218, 335) |
| Common.Ceil | backend/src/controllers/schedule.controller.js:37 | `Math.ceil` returns the least integer not below its argument |
| Common.Round | backend/src/services/real-enrollment.service.js:120 | `Math.round` returns the integer within half a unit, halves going up (also lines 174, 218, 335) |
| Common.CeilDiv | backend/src/services/students.service.js:86 | the page count is the least number of pages of `limit` rows that holds `total` rows |
| Common.Dedup | backend/src/algorithms/geneticAlgorithm.js:382-387 | `Array.from(new Set(s))` keeps each element once, in order of first appearance, adds nothing and drops nothing |
| Common.DedupOrder | backend/src/algorithms/geneticAlgorithm.js:382-387 | `[...new Set(s)]` lists elements in order of first appearance: an element listed before another occurs in `s` before every occurrence of the other |
| Common.DedupOfDistinct | backend/src/services/auto-enrollment.service.js:46 | a list without repeats passes through the set unchanged |
| Common.TrimStart | backend/src/services/professors.service.js:125 | the leading white space, and only it, is removed |
| Common.TrimEnd | backend/src/services/professors.service.js:125 | the trailing white space, and only it, is removed |
| Common.TrimEmpty | backend/src/services/professors.service.js:125 | a trimmed string is empty exactly when the input is all white space |
| Common.ToLower | backend/src/services/students.service.js:118 | `toLowerCase` keeps the length and lowers each letter in place (also lines 137, 173) |
| Common.ToUpper | backend/src/services/professors.service.js:125 | `toUpperCase` keeps the length and raises each letter in place |
| Sorting.InsertSorted | backend/src/services/subject-selection.service.js:159-169 | inserting into an ordered list under a total preorder keeps it ordered |
| Sorting.SortBySorted | backend/src/services/subject-selection.service.js:159-169 | the stable sort by a total preorder returns a permutation of its input ordered by the key |
| Sorting.SortByOfSorted | backend/src/services/subject-selection.service.js:159-169 | stability: an input already in key order comes back unchanged |
| Sorting.SortedAt | backend/src/algorithms/geneticAlgorithm.js:33 | any two positions of the sorted list are in key order |
| Sorting.SortedEnds | backend/src/algorithms/geneticAlgorithm.js:33 | the first element of the sorted list has a least key and the last a greatest one |
| Sorting.SortByMembers | backend/src/algorithms/geneticAlgorithm.js:33 | the sorted list holds exactly the elements of its input |
| JsText.EmailIff | backend/src/services/students.service.js:5 | the e-mail test accepts exactly the strings of the form local `@` domain `.` suffix, each part a non-empty run without white space or `@` |
| JsText.ParseIntOfIntText | backend/src/services/students.service.js:51-52 | `parseInt` reads back the decimal text of every integer, ignoring whatever follows when it does not continue the number (also line 359) |
| JsText.ParseIntNaN | backend/src/services/students.service.js:51-52 | a text whose first visible character is neither a sign nor a digit gives `NaN` (also line 359) |
| Sorting.WithKey | backend/src/services/subject-selection.service.js:159-169 | the elements of a list whose key is a given one, in list order, are never more than the list |
| Sorting.InsertWithKey | backend/src/services/subject-selection.service.js:159-169 | inserting an element puts it after every element of equal key already in the list |
| Sorting.SortByStable | backend/src/services/subject-selection.service.js:159-169 | stability: for every key, the sorted list holds the elements of that key in their input order |
| TimeBlocks.DayOf | backend/src/services/timeBlocks.service.js:4-17 | a day is accepted exactly when it is one of LUN … DOM, and it then names that day |
| TimeBlocks.DayIndex | backend/src/services/timeBlocks.service.js:3 | `daysOrder` numbers the days 1 to 7 in the order of the valid-days list |
| TimeBlocks.DayIndexInjective | backend/src/services/timeBlocks.service.js:3 | two days share their order number only when they are the same day |
| TimeBlocks.TimeMillis | backend/src/services/timeBlocks.service.js:9-11 | the time is stored as the milliseconds of `1970-01-01T<time>Z`, a whole number of seconds within one day |
| TimeBlocks.TimeText | backend/src/services/timeBlocks.service.js:6 | every time of day has an `HH:MM:SS` text that the pattern accepts and that stands for that time |
| TimeBlocks.IsTimeIff | backend/src/services/timeBlocks.service.js:6 | the pattern accepts exactly the `HH:MM:SS` texts of the times of a day |
| TimeBlocks.TimeMillisInjective | backend/src/services/timeBlocks.service.js:9-11 | two accepted texts stand for the same instant exactly when they are the same text |
| TimeBlocks.KeyLeIsTotalPreorder | backend/src/services/timeBlocks.service.js:31-38 | comparing by day index and then by start is a total preorder |
| TimeBlocks.Filter | backend/src/services/timeBlocks.service.js:44-46 | the `where` keeps a subsequence of the blocks |
| TimeBlocks.FilterMember | backend/src/services/timeBlocks.service.js:44-46 | a block is kept exactly when it matches the day and the shift that are given |
| TimeBlocks.ListingSorted | backend/src/services/timeBlocks.service.js:41-59 | the listing is sorted by day and then start, holds exactly the matching blocks as often as they are stored, and its total is its length |
| TimeBlocks.ListingMember | backend/src/services/timeBlocks.service.js:41-59 | a block is listed exactly when it is stored and matches the filters |
| TimeBlocks.Find | backend/src/services/timeBlocks.service.js:62-64 | `findUnique` gives the block with that id, or none exactly when no block has it |
| TimeBlocks.GetTimeBlockById | backend/src/services/timeBlocks.service.js:61-71 | an unknown id fails with `Bloque horario no encontrado`, otherwise the stored block with that id is returned |
| TimeBlocks.CreateTimeBlock | backend/src/services/timeBlocks.service.js:73-109 | day, start and end are required; the call succeeds exactly when the day, a given shift and both times are valid and no block has the same day, start and end; the stored block has the converted times and a null shift when none is given |
| TimeBlocks.CreatePreservesUnique | backend/src/services/timeBlocks.service.js:87-97 | creation keeps the slots of the catalogue unique |
| TimeBlocks.CreateTwiceRefused | backend/src/services/timeBlocks.service.js:87-97 | creating the same block twice refuses the second request as a duplicate |
| TimeBlocks.UpdateTimeBlockAsWritten | backend/src/services/timeBlocks.service.js:111-163 | as written: an unknown id is refused, and an update is only accepted when both times or neither are sent |
| TimeBlocks.StartOnlyUpdateRefused | backend/src/services/timeBlocks.service.js:124-130 | as written, changing only the start is refused with the format error, however valid the time |
| TimeBlocks.UpdateTimeBlock | backend/src/services/timeBlocks.service.js:111-163 | with each given time validated on its own: an unknown id is refused; the call succeeds exactly when each given field is valid and no other block holds the new slot; absent fields keep their value and an empty shift clears the shift |
| TimeBlocks.UpdateAgreesWhereAccepted | backend/src/services/timeBlocks.service.js:111-163 | wherever the as-written update succeeds, the corrected update gives the same block |
| TimeBlocks.StartOnlyUpdateAccepted | backend/src/services/timeBlocks.service.js:124-134 | the corrected update accepts a valid new start alone when the slot is free, and changes only the start |
| TimeBlocks.Replace | backend/src/services/timeBlocks.service.js:157-160 | the update replaces the block with that id and no other |
| TimeBlocks.UpdatedSlotFree | backend/src/services/timeBlocks.service.js:136-149 | the updated block's slot differs from that of every other stored block |
| TimeBlocks.UpdatePreservesUnique | backend/src/services/timeBlocks.service.js:136-160 | an accepted update keeps the slots of the catalogue unique |
| TimeBlocks.Remove | backend/src/services/timeBlocks.service.js:187-189 | the deletion keeps a subsequence of the blocks |
| TimeBlocks.RemoveMember | backend/src/services/timeBlocks.service.js:187-189 | after removal exactly the blocks with other ids remain |
| TimeBlocks.DeleteTimeBlock | backend/src/services/timeBlocks.service.js:165-192 | an unknown id is an error; a block used by schedule details is kept and the error carries their number; otherwise the block is removed |
| TimeBlocks.DeleteRemovesOnlyTheBlock | backend/src/services/timeBlocks.service.js:165-192 | after a deletion the id is gone and every other block is still stored |
| TimeBlocks.GetAllTimeBlocks | backend/src/services/timeBlocks.service.js:41-59 | the listing `getAllTimeBlocks` answers; stated by `TimeBlocks.ListingSorted` and `TimeBlocks.ListingMember` |
| Students.ValidateEmail | backend/src/services/students.service.js:5-12 | an e-mail passes exactly when it matches `^[^\s@]+@[^\s@]+\.[^\s@]+$`, and otherwise fails with `Formato de email inválido` |
| Students.InvalidDays | backend/src/services/students.service.js:17 | the refused entries are a subsequence, so never more numerous than the entries |
| Students.InvalidDaysEmpty | backend/src/services/students.service.js:17-18 | no entry is refused exactly when every entry is a valid day name |
| Students.ValidateDays | backend/src/services/students.service.js:14-21 | anything but an array passes; an array passes exactly when every entry is a day name, and otherwise the message lists the refused entries and the valid names |
| Students.ValidateTurno | backend/src/services/students.service.js:23-27 | a falsy shift passes and a given one passes exactly when it is MANANA, TARDE or NOCHE |
| Students.ValidateCompaction | backend/src/services/students.service.js:358-363 | a missing compaction passes; a given one passes exactly when `parseInt` reads an integer between 0 and 10 |
| Students.CompactionOfInteger | backend/src/services/students.service.js:358-363 | an integer passes the compaction check exactly when it lies in [0, 10] |
| Students.UpdateMyPreferences | backend/src/services/students.service.js:352-381 | the shift, the days and the compaction are validated in that order and the call succeeds exactly when all three pass; the first failure gives its message; an accepted call writes exactly the supplied fields, with falsy values replaced as the code does |
| Students.UpdateKeepsValid | backend/src/services/students.service.js:352-381 | an accepted update keeps a valid preference row valid |
| Students.UpdateIdempotent | backend/src/services/students.service.js:365-378 | sending the same preferences twice stores what sending them once does |
| Students.ScalarDaysStored | backend/src/services/students.service.js:15 | a truthy value for the days that is not an array passes validation and is stored as it came (also line 368) |
| Students.FindUser | backend/src/services/students.service.js:294-300 | `findUnique` by id gives the row with that id, or none exactly when no row has it |
| Students.ToLowerIdempotent | backend/src/services/students.service.js:118-137 | lower-casing twice is lower-casing once |
| Students.CreateStudent | backend/src/services/students.service.js:108-155 | name, e-mail and password are required; the call succeeds exactly when the e-mail has the pattern's form, is new once lower-cased and a given career exists; the new row is an active student with the lower-cased e-mail |
| Students.CreateKeepsEmailsUnique | backend/src/services/students.service.js:117-137 | creation keeps the stored e-mails unique and in lower case |
| Students.CreateSameEmailRefused | backend/src/services/students.service.js:117-123 | a second registration of the same address in any letter case is refused with `El email ya está registrado` |
| Students.Replace | backend/src/services/students.service.js:195-202 | the update replaces the row with the student's id and no other |
| Students.FindStudent | backend/src/services/students.service.js:160-162 | the row found has that id and the ESTUDIANTE role |
| Students.UpdateStudentAsWritten | backend/src/services/students.service.js:157-206 | as written: an unknown student is refused with `Estudiante no encontrado`, and the new e-mail is compared with the stored one without lower-casing |
| Students.OwnEmailOtherCaseRefused | backend/src/services/students.service.js:168-178 | as written, a student who sends their own address in other capitals is told it is in use |
| Students.UpdateStudent | backend/src/services/students.service.js:157-206 | with the comparison in lower case: an unknown student is refused; the call succeeds exactly when a given e-mail has the pattern's form and is the student's own or not in use and a given career exists; the stored row takes exactly the supplied fields |
| Students.UpdateStudentAgrees | backend/src/services/students.service.js:157-206 | wherever the as-written update succeeds, the corrected update stores the same row |
| Students.OwnEmailOtherCaseAccepted | backend/src/services/students.service.js:168-178 | the corrected update accepts a student's own address in any letter case |
| Students.UpdateKeepsEmailsUnique | backend/src/services/students.service.js:168-206 | an accepted corrected update keeps the stored e-mails unique and in lower case |
| Students.UpdateMyProfile | backend/src/services/students.service.js:291-350 | an unknown user is refused with `Usuario no encontrado`; the e-mail is compared in lower case; a career id that is sent and not null must exist; the stored row takes exactly the supplied fields |
| Students.EmptyProfileUpdate | backend/src/services/students.service.js:324-331 | a profile update that sends nothing changes nothing |
| Students.Where | backend/src/services/students.service.js:34-49 | the filter keeps a subsequence of the rows |
| Students.WhereMember | backend/src/services/students.service.js:34-49 | a row is listed exactly when it is a student that passes the `activo`, `carrera_id` and `search` filters |
| Students.Window | backend/src/services/students.service.js:73-74 | a page drops `skip` rows and keeps at most `take` |
| Students.WindowOfSorted | backend/src/services/students.service.js:73-75 | a page of an ordered listing is ordered and holds only rows of the listing |
| Students.PageOf | backend/src/services/students.service.js:51-88 | a negative offset and, in this model, a negative limit are refused; a page holds at most `limit` rows of the ordered listing, skipping `(page − 1) · limit`, keeps its order, and reports the page, the limit, the total and the least number of pages of `limit` rows that hold the total |
| Students.PageProperties | backend/src/services/students.service.js:30-89 | a page of `getAllStudents` holds at most `limit` students, each a student that passes the filters, newest first; the total counts every matching student and the page count is the least number of pages that hold them |
| Students.DefaultPage | backend/src/services/students.service.js:32 | without `page` and `limit` the first twenty newest matching students are listed |
| Students.ActivoFilter | backend/src/services/students.service.js:36-38 | the `activo` filter keeps active students exactly for the text `true` and inactive ones for any other text |
| Students.GetAllStudents | backend/src/services/students.service.js:30-89 | the page `getAllStudents` answers; stated by `Students.PageProperties`, `Students.DefaultPage` and `Students.PageOf` |
| Professors.CollapseSpaces | backend/src/services/professors.service.js:125 | `replace(/\s+/g, '_')` never lengthens the text |
| Professors.KeepAllowed | backend/src/services/professors.service.js:125 | `replace(/[^A-Z0-9_]/g, '')` leaves only characters of `[A-Z0-9_]` and never lengthens the text |
| Professors.Normalize | backend/src/services/professors.service.js:125 | `normalize` keeps a missing value missing, and a present one comes out made only of `[A-Z0-9_]` |
| Professors.NormalizeIdempotent | backend/src/services/professors.service.js:125 | normalising a normalised state changes nothing |
| Professors.EstadoOf | backend/src/services/professors.service.js:126-133 | a state is accepted exactly when its normalised form is DISPONIBLE or BLOQUEADO, and the accepted state is that normalised form |
| Professors.CaseAndSpacesAccepted | backend/src/services/professors.service.js:125-129 | any letter case and any surrounding white space of an allowed name is accepted as that name |
| Professors.First | backend/src/services/professors.service.js:65-71 | `findUnique`/`findFirst` give an element that satisfies the filter, and nothing exactly when no element does |
| Professors.FindProfessor | backend/src/services/professors.service.js:64-84 | the id is read first as a user id (then that user's professor row is looked up) and otherwise as a professor id (then that row's user); the user and the row found exist and are linked, and a missing half is a 404 `Profesor no encontrado` |
| Professors.FirstRecord | backend/src/services/professors.service.js:151-153 | `findFirst` on the professor and the block: the index of the first matching record, with no match before it, or the end when none matches |
| Professors.FirstRecordIs | backend/src/services/professors.service.js:151-153 | the first matching record is the one index that matches with no match before it |
| Professors.Stored | backend/src/services/professors.service.js:93-95 | the stored state of a professor and a block is absent exactly when no record matches, and otherwise is the state of a matching record |
| Professors.Shown | backend/src/services/professors.service.js:109 | a block with no record of the professor shows DISPONIBLE, a stored non-empty state shows as stored, and the shown state is never empty |
| Professors.SlotsOf | backend/src/services/professors.service.js:103-110 | one entry per block, in the order of the blocks, each with the block's fields and the professor's shown state |
| Professors.GetAvailability | backend/src/services/professors.service.js:87-121 | `getAvailability` fails with 404 exactly when the professor is not found; otherwise it lists every block with the state shown for the professor's user |
| Professors.Upsert | backend/src/services/professors.service.js:151-167 | after the update or create, the pair's stored state is the new state |
| Professors.UpsertOthers | backend/src/services/professors.service.js:151-167 | the update or create changes the stored state of no other professor or block |
| Professors.UpdateAvailability | backend/src/services/professors.service.js:124-170 | the state is checked first (400), then the professor is found (404), then the caller must be the owner or ADMIN (403), then the block must exist (404); an accepted call stores the normalised state for the pair and leaves every other pair as it was |
| Professors.UpdateThenShown | backend/src/services/professors.service.js:87-170 | after an accepted update, `getAvailability` shows the new state at that block |
| Professors.FirstRefused | backend/src/services/professors.service.js:201-204 | the first entry whose state is not exactly an allowed name, and none exactly when all are allowed |
| Professors.WriteAcceptedStored | backend/src/services/professors.service.js:200-219 | after the bulk writes, the state at a block is that of the last accepted entry for it, and the other professors' states are unchanged |
| Professors.BulkGuard | backend/src/services/professors.service.js:174-195 | a missing or empty `updates` array is a 400; a caller who is neither the id in the path nor ADMIN is a 403; a missing user or professor row is a 404; the call passes exactly when none applies |
| Professors.BulkUpdateAsWritten | backend/src/services/professors.service.js:173-225 | as written: after the guards, a refused entry fails the call with the first refused entry's message while the accepted entries are still written |
| Professors.RefusedBulkStillWrites | backend/src/services/professors.service.js:200-219 | as written, a call whose second entry is refused still stores the first entry's state |
| Professors.BulkUpdate | backend/src/services/professors.service.js:173-225 | with every state checked before any write: a refused call leaves the table unchanged; the call succeeds exactly when the guards pass and every entry is allowed, then reports the number of entries and stores each block's last state; where the as-written call succeeds, both agree |
| Professors.BulkRefusesWhatSingleAccepts | backend/src/services/professors.service.js:125-129 | a name in another letter case or with surrounding spaces is stored by the single update but refused by the bulk update (also lines 202-204) |
| Professors.SetCarga | backend/src/services/professors.service.js:276-281 | only the professor row with that id gets the new maximum load |
| Professors.SetUsuario | backend/src/services/professors.service.js:283-292 | only the user with that id is patched |
| Professors.UpdateProfile | backend/src/services/professors.service.js:266-306 | a professor who is not found is a 404 and a caller who is neither the owner nor ADMIN is a 403; otherwise `carga_max_horas`, `nombre` and `carrera_id` are each written only when supplied |
| Professors.EmptyProfilePatch | backend/src/services/professors.service.js:276-292 | a body with none of the three fields changes nothing |
| Preferences.TurnoEnum | backend/src/services/preferences.service.js:5-38 | the shift is always a valid shift name; it is TARDE exactly for `tarde` and NOCHE exactly for `noche`, and MANANA for anything else |
| Preferences.CompactacionValue | backend/src/services/preferences.service.js:21-41 | the compaction is 3, 5 or 8: 3 exactly for `baja`, 8 exactly for `alta`, and 5 for anything else |
| Preferences.DiaEnum | backend/src/services/preferences.service.js:11-19 | a full lower-case day name maps to that day's abbreviation and nothing else maps; every result is a valid day |
| Preferences.MapDays | backend/src/services/preferences.service.js:47-53 | the mapped days are valid day names and no more numerous than the entries |
| Preferences.EvitarDias | backend/src/services/preferences.service.js:44-53 | a value that is not an array gives no days; an array gives its recognised entries |
| Preferences.MapDaysMember | backend/src/services/preferences.service.js:47-53 | an abbreviation is kept exactly when some entry, lower-cased, maps to it |
| Preferences.AvoidedDay | backend/src/services/preferences.service.js:47-53 | a day is avoided exactly when some entry is its full name in any letter case |
| Preferences.MapDaysKeepsNames | backend/src/services/preferences.service.js:47-53 | when every entry is a day name, no entry is dropped |
| Preferences.MapPreferences | backend/src/services/preferences.service.js:38-62 | the saved shift is valid, the weights carry that shift with both weights 1, the compaction is 3, 5 or 8 and every avoided day is valid |
| Preferences.SavePreferences | backend/src/services/preferences.service.js:73-88 | the upsert stores the same mapped row whether or not the user had one, keyed by the user id |
| Preferences.DayLabelsRoundTrip | backend/src/services/preferences.service.js:11-19 | the full name of every day comes back as that day's abbreviation (also lines 47-53) |
| Preferences.UpperCaseShiftIsDefault | backend/src/services/preferences.service.js:38 | the shift is not lower-cased, so the database's own `TARDE` is read as the default MANANA |
| ValidationRules.TextOr | frontend/src/validation/rules.js:6 | the text of a value with the empty text as fallback gives a text's own characters and the empty text for `undefined` or `null` |
| ValidationRules.Apply | frontend/src/validation/rules.js:2-15 | each rule passes exactly when its condition holds: `required` on a non-blank text, `isEmail` on a trimmed text of the e-mail grammar, `minLength` on a text at least `n` long, `sameAs` on a value equal to the other one; a failure yields the rule's message, and `minLength` without a message yields `Mínimo n caracteres` |
| ValidationRules.FirstFailureMeaning | frontend/src/validation/rules.js:18-24 | `validateField` answers `true` exactly when every rule passes; otherwise it answers the message of the first rule that fails |
| ValidationRules.LaterRulesIgnored | frontend/src/validation/rules.js:19-21 | rules after the first failing one do not change the answer |
| ValidationRules.ValidateField | frontend/src/validation/rules.js:18-24 | the loop returns the answer of the first failing rule, or `true` after the last one |
| ValidationRules.ErrorsKeys | frontend/src/validation/rules.js:29-32 | only keys of the schema can carry an error |
| ValidationRules.ErrorsOutside | frontend/src/validation/rules.js:29-32 | a key that is not in the schema carries no error |
| ValidationRules.ErrorsAt | frontend/src/validation/rules.js:29-35 | a schema field carries an error exactly when its rules fail, and that error is the first failing message |
| ValidationRules.ValidateAll | frontend/src/validation/rules.js:26-37 | the loop builds one error per failing field, and `isValid` is true exactly when no error was recorded |
| ValidationRules.ValidIffAllPass | frontend/src/validation/rules.js:26-37 | a form is valid exactly when every rule of every field passes on that field's value |
| ValidationRules.EmptyConfirmReportsRequired | frontend/src/validation/schemas.js:12-15 | an empty confirmation field reports `Debes confirmar la contraseña`, whatever the password |
| ValidationRules.MismatchReported | frontend/src/validation/schemas.js:12-15 | a non-blank confirmation that differs from the password reports `Las contraseñas no coinciden` |
| ValidationRules.FirstFailure | frontend/src/validation/rules.js:18-24 | the verdict of `validateField`; stated by `ValidationRules.FirstFailureMeaning` and `ValidationRules.LaterRulesIgnored` |
| ValidationRules.Errors | frontend/src/validation/rules.js:29-35 | the `errors` object of `validateAll`; stated by `ValidationRules.ErrorsKeys`, `ValidationRules.ErrorsOutside` and `ValidationRules.ErrorsAt` |
| Router.PathOf | frontend/src/router/index.js:24-157 | each route record's path resolves back to that record; it starts with a slash, does not end with one, and is neither `/` nor `/home` |
| Router.RoleHome | frontend/src/router/index.js:69-74 | ESTUDIANTE, PROFESOR and ADMIN each get their own dashboard, exactly those roles do, and every other role goes to `/onboarding/type` |
| Router.Resolve | frontend/src/router/index.js:63-77 | a path is matched ignoring letter case and one trailing slash: `/` redirects to `/login`; `/home` redirects to `/login` without a user and to the role's dashboard with one; any other path names its own record or none (also lines 27 and 159-162) |
| Router.MatchKey | frontend/src/router/index.js:159-162 | the text a path is matched by: each character lower-cased, and one trailing slash dropped from any path longer than `/` |
| Router.ResolveIgnoresCase | frontend/src/router/index.js:159-162 | a path in other capitals leads where its lower-case form leads |
| Router.ResolveTrailingSlash | frontend/src/router/index.js:159-162 | a path followed by one slash leads where the path leads |
| Router.PathVariantsNameRecord | frontend/src/router/index.js:24-162 | every spelling of a record's path in other capitals or with one trailing slash names that record |
| Router.VariantOfGuardedPathNeedsSession | frontend/src/router/index.js:159-177 | a visitor without a session who types a guarded record's path in other capitals or with a trailing slash is sent to `/login` |
| Router.Decide | frontend/src/router/index.js:175-221 | the guard checks `requiresAuth`, then `guestOnly`, then `requiresAdmin`, then `allowedRoles`, redirecting on the first that fails; it proceeds exactly when none fails, and and the guard itself never asks for a replace (a string the guard returns is applied with the navigation's own `replace` flag) |
| Router.GuestRedirects | frontend/src/router/index.js:179-196 | a signed-in user on `/login` or `/register` goes to `/onboarding/type` without a role, to `/onboarding/preferences` as a student without preferences, and otherwise to the role's dashboard |
| Router.TargetsLetThrough | frontend/src/router/index.js:175-221 | every page a guard redirect leads to lets the same settled session through |
| Router.NoRedirectLoop | frontend/src/router/index.js:164-222 | from any route a settled session is let through, or redirected once to a page that lets it through |
| Router.HomeLandsOnAllowedPage | frontend/src/router/index.js:63-77 | `/home` sends every signed-in user to a page the guard lets them see |
| Router.AuthStore.constructor | frontend/src/stores/auth.js:6-11 | the store starts from the stored user and token |
| Router.AuthStore.Logout | frontend/src/stores/auth.js:24-29 | `logout` clears the user and the token (also lines 68-70) |
| Router.AuthStore.Me | frontend/src/stores/auth.js:55-66 | without a token nothing changes; an accepted token takes the server's user; a refused token clears the session, so afterwards the session is settled |
| Router.BeforeEach | frontend/src/router/index.js:164-173 | `resetSession=1` logs out and replaces the navigation with `/login`; otherwise the session is completed with `me` when there is a token but no user, and the decision is the guard's on the settled session, with unmatched paths let through |
| Router.MetaOf | frontend/src/router/index.js:24-157 | the `meta` flags of each route record; the guard built on them is stated by `Router.TargetsLetThrough` |
| Router.Guard | frontend/src/router/index.js:175-221 | the guard decision for a record of the table; stated by `Router.GuestRedirects`, `Router.TargetsLetThrough` and `Router.NoRedirectLoop` |

## Left out

- Prisma queries and transactions: the records they return are inputs, and each write is a new value of the table it changes. The `loadData` queries of both generators, `saveSolution` (backend/src/services/scheduleGenerator.service.js:466-500) and the transaction boundaries are not part of this model.
- HTTP responses: each `res.status(...).json(...)` is returned as a status and body value; Express, authentication middleware, passport, JWT and bcrypt are not part of this model.
- The wall-clock timeout of the annealing loop (backend/src/services/scheduleGenerator.service.js:428-431) is left out: only the iteration cap bounds the run, because the clock is outside the program.
- The current time (`new Date()`, `Date.now()`) in the cancellation deadline and the "finished subject" filters is a parameter, because the clock is outside the program.
- `console.log` progress output is left out, because it has no effect on results.
- The `generateAsync` background job (backend/src/controllers/schedule.controller.js:105-136) is left out, with its RUNNING, DONE and FAILED transitions, because it is concurrency around the same generator.
- `Math.random` is an oracle that may return any value in [0, 1); no probabilistic claim (acceptance rate, convergence, distribution of draws) is made.
- ScheduleGenerator.Accept: `Math.exp(-delta / temperature)` is not computed; for a worse neighbour at a positive temperature, acceptance is left to the random draw, so the contract states which outcomes are possible rather than their probability.
- JavaScript numbers are modelled as mathematical reals and integers: no rounding error, overflow or `NaN` arithmetic beyond the division-by-zero cases modelled explicitly.
- GeneticAlgorithm.GeneticAlgorithm.Mutate: the copy it returns shares its `gruposSeleccionados` array with its parent in the source (backend/src/algorithms/geneticAlgorithm.js:449,473). The model keeps schedules as values, so the parent is not changed as well.
- The personal generator's `loadData` uses the `prisma` global that backend/src/prisma.js sets outside production; the query itself is not part of this model, and its result is the input `PersonalData`.
- The inheritance between `PersonalScheduleGenerator` and `ScheduleGenerator` is modelled as an optional student-preference field that `EvaluateSolution` consults; the base generator leaves it empty.
- `toTimeString().slice(0, 5)` time display and date formatting are left out, because they are locale-dependent.
- Case mapping (`toLowerCase`, `toUpperCase`, `normalize`) covers ASCII letters only.
- `sortTimeBlocks` is modelled as a stable sort by day and start time; the order of blocks that tie on both is the input order.
- Students: `getStudentById`, `getMyProfile`, `deactivateStudent` and `activateStudent` are left out, because they are single queries with a not-found check. The password is stored as given, because hashing is outside the model.
- Preferences: `getUserPreferences` is left out, because it is a single query; only the label mappings it applies are modelled.
- `parseInt` on a value that is not a string is applied to that value's text, which is how JavaScript converts it.
- Professors: the listing and profile queries (backend/src/services/professors.service.js:1-60), `getProfile` and `getSchedule` are left out. `getSchedule` looks up ORM models by reflection (lines 319-358). The bulk availability writes are applied in list order, although the source starts them concurrently.
- Front-end rules: a field value is undefined, null or a string; other value types are not modelled.
- Router: `localStorage` is left out, because it is browser state; the reply of `auth.me()` is a parameter of the guard.
- Enrollment controller: `listByGroup`, `listMyEnrollments`, `mapEnrollment`, `formatGroupResponse`, `getGroupWithDetails`, `getGroupBlocks`, `getActiveOrSelectedPeriod` and `describeSchedule` are left out, because their logic is ORM queries and response shaping. The bodies of successful responses are left out too.
- Enrollment controller: `selfEnroll` shares the status model of `addStudentToGroup`.
- EnrollmentController.BuildCapacityMap: on the view path the columns are taken as already found by their name search (backend/src/controllers/enrollment.controller.js:45-48); a view without a group column, a `Number(...)` of a value that is not numeric (`NaN`, or 0 for `null`) and the `raw` field are not modelled.
- Subject selection service: `clearSelections` (backend/src/services/subject-selection.service.js:340-359) is a single delete; the count it returns is modelled only through SubjectSelectionController.Clear.
- Plain CRUD controllers and services, route files, the front-end HTTP clients and stores are not part of this model. The exception is the auth store's `logout` and `me`, which the router guard calls.
- GeneticAlgorithm.GeneticAlgorithm.Run: conflict-freedom and distinct subjects of the solution are proved only for data with one selection per subject and unique group ids, which is what `loadData` reads (backend/src/services/scheduleGeneration.service.js:51-67,152-160) and what the selection save keeps (backend/src/controllers/subjectEnrollment.controller.js:305-336); the zero conflict penalty also needs a catalogue whose groups never repeat a (day, block) cell. With a subject selected twice, `createRandomSchedule` can take the same group twice, and `mutate` then checks a replacement against neither copy.
- Students.PageOf: a negative limit is refused, where the source passes it to Prisma as `take` (backend/src/services/students.service.js:51-53,73-74), whose answer to a negative `take` (rows counted from the end) is not part of this model. A negative offset is an error in both: the model refuses it, and in the source Prisma throws.
- Preferences.TurnoEnum: the lookup `turnoMap[turno]` in a plain object also finds inherited names such as `constructor` or `toString`, whose truthy value then reaches the upsert and makes it throw; the model gives the default `MANANA` for every name outside the map.
- Preferences.CompactacionValue: the same inherited-name lookup in `compactacionMap` is left out; the model gives the default 5 for every name outside the map.
- Preferences.DiaEnum: the same inherited-name lookup in `diasMap` is left out; the model drops every name outside the map.
- Preferences.MapDays: an array element that is not a string makes `dia.toLowerCase()` throw; the days are a sequence of texts here, which cannot hold such an element.
- EnrollmentController.CanCancelEnrollment: the deadline is the period start minus a fixed 86400000 ms per day, where the source steps back calendar days with `setDate` (backend/src/controllers/enrollment.controller.js:531-533), which differs by an hour across a daylight-saving change.
- ValidationRules.Apply: the `minLength` rule counts the length in characters, where JavaScript's `.length` counts UTF-16 code units, so a character outside the Basic Multilingual Plane counts two in the source and one here.

## Findings

| source | as written | input that shows it | evidently intended | confidence | as-written member | corrected member |
|---|---|---|---|---|---|---|
| backend/src/services/scheduleGenerator.service.js:362,388,403,409,437-448 | `generateNeighbor` copies the array of assignments but changes the assignment objects it shares with the current and best solutions, so even a rejected neighbour rewrites them and the stored best score no longer matches the best assignment | one assignment whose room change to a busy room is rejected: the stored best score stays 0 while the assignment it points to now costs 400 | a neighbour is built from copies, so the best solution keeps the assignments it was scored on | not executed | ScheduleGenerator.StaleBestScore | ScheduleGenerator.ScheduleGenerator.RunCorrected |
| backend/src/services/scheduleGenerator.service.js:405-411 with 221-230 | a swap exchanges blocks with any other assignment, including one without a block, so a valid assignment can end up with a null block and `block.id` throws when the neighbour is scored | a placed assignment and an unplaced one of the same group, swapped | swap only between assignments that both hold a block, so every valid assignment stays scorable | not executed | ScheduleGenerator.SwapCanBreakScoring | ScheduleGenerator.SafeApplyKeepsScorable |
| backend/src/services/scheduleGenerator.service.js:370-373 | with no assignments, `assignments[idx]` is undefined and reading `.group` throws | a period with no groups and at least one iteration | an empty solution has no neighbour to try, so the run returns it unchanged | not executed | ScheduleGenerator.ScheduleGenerator.Run | ScheduleGenerator.ScheduleGenerator.RunCorrected |
| backend/src/services/scheduleGenerator.service.js:180-181 | the comparator falls back to 3 for a falsy shift order, which turns the morning's order 0 into 3, so morning blocks are tried after afternoon and evening ones | a morning block and an afternoon block as candidates | blocks ordered morning, afternoon, evening, then unset | not executed | SchedulerData.AfternoonBeforeMorning | SchedulerData.IntendedMorningFirst |
| backend/src/controllers/schedule.controller.js:226-236,335 | the query does not include `_count`, so the enrolment count is always 0 and capacity conflicts are never reported | a room of capacity 30 holding a group with 40 enrolments | report a capacity conflict when enrolments exceed the room's capacity | not executed | ScheduleController.AnalyzeNeverReportsCapacity | ScheduleController.AnalyzeCountedReportsCapacity |
| backend/src/controllers/enrollment.controller.js:455 | `conflicto` is not defined anywhere, so listing available groups throws a ReferenceError, answered with status 500, whenever there is a group to list | a student and a period with one group | report the schedule conflict already computed for the group | not executed | EnrollmentController.ListingFailsWithGroups | EnrollmentController.CorrectedListing |
| backend/src/controllers/real-enrollment.controller.js:180-191,205 | the enrolled groups are fetched without their subject, so every conflict is reported as "Materia sin nombre" | a student enrolled in a group whose block overlaps the requested group | name the subject of the conflicting group | not executed | RealEnrollment.ConflictsNeverNamed | RealEnrollment.ConflictsNamed |
| backend/src/services/timeBlocks.service.js:124-130 | when only one end of a block changes, the other end is the stored date-time value, not an "HH:MM:SS" text, so the format check refuses every such update | an update that gives only a new start time | validate the given time on its own and keep the stored end | not executed | TimeBlocks.StartOnlyUpdateRefused | TimeBlocks.StartOnlyUpdateAccepted |
| backend/src/services/students.service.js:168-178 | the new e-mail is compared with the stored one before lower-casing, so a student who resubmits their own e-mail in other letter case finds it "already in use" | a student stored as `ana@x.io` updating to `Ana@x.io` | compare the lower-cased e-mail with the stored one | not executed | Students.OwnEmailOtherCaseRefused | Students.OwnEmailOtherCaseAccepted |
| backend/src/services/professors.service.js:200-219 | the state check runs inside each concurrent callback, so a request with one invalid state is refused while every accepted entry is still written | a valid `DISPONIBLE` entry followed by an invalid `disponible` one | check every state before writing any, so a refused request writes nothing | not executed | Professors.RefusedBulkStillWrites | Professors.BulkUpdate |
