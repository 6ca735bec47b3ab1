# Evening timetable optimisers, modelled in Dafny

This project models the core of a Python system that builds the evening
timetable of one programme: five weekdays (Segunda to Sexta) by four time
bands (18:50, 19:40, 20:30, 21:20). The problem data are subjects with a
weekly load, teachers, rooms and the availability records of each teacher.
Three genetic optimisers work on that data:

- **The grid optimiser** (`genetic_scheduler_v2.py`). An individual is a
  5 x 4 agenda whose cells hold a lesson (`Aula`) or nothing. Fitness is a
  sum of seven non-negative scores. Crossover exchanges whole day rows and
  repairs both children. Mutation swaps cells. Elitism keeps the top tenth.
  The run stops when the last fifty generation bests are equal.
- **The list optimiser** (`genetic_scheduler.py`). An individual is a list
  of genes (subject, teacher, day, slot, room). Fitness is 10000 minus
  penalties plus a spread bonus. Crossover swaps a segment between two cut
  points. Mutation moves a gene to another day or slot.
- **The rule-based optimiser** (`genetic_algorithm.py`). It builds its
  individuals greedily. A subject of two, three or four hours is split into
  blocks that start at 18:50. The optimiser minimises one of two penalty
  scorers.

The helpers built on the same data are modelled too:

- the conflict report of a list individual (`visualization_script.py`);
- the quality metrics, the statistics and the workbook rows of a grid
  agenda (`utils_v2.py`);
- the two solution summaries of the comparison script
  (`comparison_v1_v2.py`);
- the subject-name abbreviation and the example timetable of the board
  generator (`gerador_quadro_horarios.py`).

Every random draw of the source is a parameter: the shuffles, the
tournament samples, the coins, the cut points and the chosen days or
cells. Each operator is then a deterministic function or method, and its
contract holds for every draw. A numpy agenda is an `array2<Cell>` in the
methods that update it. The specification functions read it through
`Cells`, its row-major sequence, where cell (d, h) sits at position 4d + h.
A Python dictionary keyed by code is a sequence in insertion order, one
entry per code: the loader's assignments `disciplinas[code] = ...` and
`professores[code] = ...` (genetic_scheduler_v2.py:105, 116) keep a single
entry per code, and the model's lookups (`Records.TeacherByCode`,
`Records.SubjectIndex`) return the first entry with the code, which is that
entry when codes are unique. A failed lookup, an empty room table or a division by zero raises in the
source and is `None` here.

Module layout:

- `Wrappers`, `Week`, `Counting`, `Ranking` and `Records` hold shared
  pieces: `Option` and `Collect`, the week constants, occurrence counting,
  Python's `max`/`min`/stable `sorted`, and the loaded problem data.
- `GridGenome`, `GridBuild`, `GridRepair`, `GridVariation` and
  `GridEvolution` model the grid optimiser.
- `ListGenome`, `ListFitness`, `ListVariation` and `ListEvolution` model
  the list optimiser.
- `RuleData`, `RuleBuild`, `RuleAlloc`, `RuleFitness` and `RuleEvolution`
  model the rule-based optimiser.
- `ConflictReport`, `GridMetrics`, `GridStatistics`, `GridReport`,
  `Comparison` and `Board` model the helpers.

The three optimisers are separate classes in the source, each with its
own selection, crossover, mutation and generation loop. The model keeps
one module per optimiser, so members of similar shape in two modules
(the subject lists of `ListGenome` and `RuleBuild`, the children and
populations of the three loops) stand for those separate copies, each
with its own branches and constants. The fitness list of a population,
which the grid and the list optimisers compute alike, is
`Ranking.Scores`.

## Model

| member | source | states |
|---|---|---|
| Counting.RepeatsIsSurplus | visualization_script.py:150-178 | the seen-key fold charges exactly the number of positions minus the number of distinct keys |
| Counting.RepeatsSnoc | genetic_scheduler.py:165-171 | one more gene is charged exactly when its key occurred at an earlier position |
| Ranking.ArgBest | genetic_scheduler_v2.py:416 | `max`/`min` with a key returns a best candidate, and the first of the best ones |
| Ranking.BestIndex | genetic_scheduler_v2.py:531-532 | `scores.index(max(scores))` is a position with the top score, and no earlier position has it |
| Ranking.RankPermutes | genetic_scheduler_v2.py:554-555 | the stable ranking of the indices is a permutation of them |
| Ranking.RankOrdered | genetic_scheduler_v2.py:554-555 | the ranking is best first, and equal scores keep ascending position, like Python's stable `sorted(..., reverse=True)` |
| Ranking.TopIsBest | genetic_scheduler_v2.py:553-555 | none of the first k ranked indices is beaten by any index ranked after them |
| Ranking.Winner | genetic_scheduler.py:223-227 | the tournament winner is in the sample, no sampled score beats it, and it is the first sampled index with its score |
| Ranking.Lowest | genetic_algorithm.py:587-597 | the minimising tournament returns a sampled index with the lowest score, the first one in sample order |
| Records.FirstTeacher | genetic_scheduler_v2.py:164-169 | the teacher of a subject is the first one, in dictionary order, whose subject is that code; none exactly when nobody teaches it |
| Records.TeacherByCode | utils_v2.py:27 | `professores[code]` finds the first teacher with that code; `None` (the `KeyError`) for a missing code or a lesson without teacher |
| Records.HasSlot | genetic_scheduler_v2.py:236-238 | true exactly when some record names both the day and the slot |
| Records.IsAvailable | genetic_scheduler_v2.py:228-240 | a teacher is available in cell (d, h) exactly when they have records and one names that day and that slot |
| Records.SubjectIndex | utils_v2.py:26 | `disciplinas[code]` finds the first subject with that code, `None` when there is none |
| GridGenome.DemandLength | genetic_scheduler_v2.py:159-178 | the demand list has exactly the sum of the weekly loads, counting a non-positive load as zero |
| GridGenome.DemandLessons | genetic_scheduler_v2.py:163-178 | every demanded lesson belongs to a subject of the table, with that subject's first teacher and the given room |
| GridGenome.DemandCount | genetic_scheduler_v2.py:163-178 | with unique subject codes, each subject is demanded exactly its load, and a code outside the table not at all |
| GridGenome.FillOneCount | genetic_scheduler_v2.py:211 | writing a lesson into an empty cell adds one to that subject's count only and removes one empty cell |
| GridGenome.SubjectPoints | genetic_scheduler_v2.py:300-307 | a subject earns between 0 and 1000, and exactly 1000 when its count reaches its load |
| GridGenome.CompletenessBounds | genetic_scheduler_v2.py:286-309 | the completeness score lies in [0, 1000 n], and reaches 1000 n exactly when every subject has its load |
| GridGenome.AvailableAtMostOccupied | genetic_scheduler_v2.py:311-321 | the number of available lessons never exceeds the number of occupied cells |
| GridGenome.DayCountsSum | genetic_scheduler_v2.py:327-331 | `aulas_por_dia` has five counts, each day holds at most four lessons, and the counts add up to the occupied cells of the agenda |
| GridGenome.BalanceScore | genetic_scheduler_v2.py:323-341 | the balance score is never negative and, for a non-negative spread, at most 400: the weight 200 times at most 2 |
| GridGenome.LoadScoreConstant | genetic_scheduler_v2.py:343-352 | a day has only four cells, so every day earns the 150 points: 150 d over d days, the constant 750 over the week |
| GridGenome.GapsAtMostTwo | genetic_scheduler_v2.py:360-368 | a day with a lesson has at most two gaps between its first and last lesson |
| GridGenome.DayContinuityValues | genetic_scheduler_v2.py:354-373 | a day scores 0, 200, 300 or 400; 0 exactly when it is empty, 400 exactly when its lessons are contiguous |
| GridGenome.ContinuityBound | genetic_scheduler_v2.py:354-373 | the continuity score over d days is at most 400 d |
| GridGenome.DaysWorked | genetic_scheduler_v2.py:379-388 | a teacher works on at most as many days as were visited |
| GridGenome.TeacherListMembers | genetic_scheduler_v2.py:380-388 | the keys of `professor_dias` are exactly the teachers of the occupied cells, `None` included |
| GridGenome.TeacherScoreBounds | genetic_scheduler_v2.py:375-395 | each listed teacher works one to five days, so the teacher score lies between 80 and 400 per teacher |
| GridGenome.RoomScore | genetic_scheduler_v2.py:397-411 | the room score lies in [0, 50] |
| GridGenome.FitnessAtLeastLoad | genetic_scheduler_v2.py:256-284 | every agenda scores at least 750, above the run's starting best of 0 |
| GridGenome.PlacedIsCount | genetic_scheduler_v2.py:182-226 | the multiset of placed lessons counts each lesson as often as cells hold it, and has one element per occupied cell |
| GridBuild.BuildDemand | genetic_scheduler_v2.py:159-178 | the demand is built exactly when a room exists or nothing is due (the source indexes the first room), and then equals `Demand` |
| GridBuild.CreateEmptyAgenda | genetic_scheduler_v2.py:182-184 | a fresh 5 x 4 agenda with every cell empty |
| GridBuild.FirstFitSpec | genetic_scheduler_v2.py:207-224 | the scan returns the first free-list entry whose cell is empty (and whose teacher is available, when asked), or nothing exactly when no entry fits |
| GridBuild.ChooseFinds | genetic_scheduler_v2.py:217-224 | while free cells remain, the forced pass always places the lesson |
| GridBuild.PlacedAfter | genetic_scheduler_v2.py:200-226 | placement adds exactly the first lessons the loop guard lets through, and nothing else |
| GridBuild.ChromosomeAsWritten | genetic_scheduler_v2.py:200-203 | with the source's guard exactly the first min(n, 10) shuffled lessons are placed |
| GridBuild.ChromosomeDropsEleventh | genetic_scheduler_v2.py:200-203 | eleven lessons on an empty week: the source places ten and leaves ten cells empty |
| GridBuild.ChromosomeCorrected | genetic_scheduler_v2.py:200-226 | with the intended guard exactly the first min(n, 20) lessons are placed |
| GridBuild.FindSlot | genetic_scheduler_v2.py:207-215 | the scan loop returns what `FirstFit` names |
| GridBuild.PlaceOne | genetic_scheduler_v2.py:205-224 | one lesson's turn: the chosen cell gets the lesson and no other cell changes; nothing changes when no cell is free |
| GridBuild.PlaceLessons | genetic_scheduler_v2.py:186-226 | `criar_cromossomo` on a fresh agenda, with the source's loop guard or the corrected one, yields exactly the grid `Chromosome` specifies |
| GridRepair.EmptiesAreEmptyCells | genetic_scheduler_v2.py:498-500 | `slots_vazios` lists every empty cell once, in ascending row-major order, and nothing else |
| GridRepair.FillCells | genetic_scheduler_v2.py:502-509 | the fill writes the lesson exactly at the first m listed positions |
| GridRepair.FillCounts | genetic_scheduler_v2.py:502-509 | filling the first m of a list of distinct empty cells adds m lessons of that subject, none of any other, and removes m empty cells |
| GridRepair.RepairKeeps | genetic_scheduler_v2.py:468-511 | repair never removes or overwrites a filled cell |
| GridRepair.KeepsCounts | genetic_scheduler_v2.py:482-509 | an agenda that keeps every filled cell has no fewer lessons of any subject and no more empty cells, so an over-allocated subject is never reduced |
| GridRepair.RepairServes | genetic_scheduler_v2.py:481-509 | after the pass every subject has its load or the week is full |
| GridRepair.RepairSucceeds | genetic_scheduler_v2.py:504-508 | repair raises only when a lesson is due and there is no room |
| GridRepair.RepairServedIsIdentity | genetic_scheduler_v2.py:486 | an agenda on which every subject is served is left unchanged |
| GridRepair.RepairIdempotent | genetic_scheduler_v2.py:468-511 | repairing twice gives the same agenda as repairing once |
| GridRepair.RepairFailureStays | genetic_scheduler_v2.py:482-509 | once one subject's turn raises, the whole pass has raised |
| GridRepair.CountSubjects | genetic_scheduler_v2.py:472-479 | the counting loop gives each code the number of cells holding it, 0 for an absent one |
| GridRepair.EmptySlots | genetic_scheduler_v2.py:498-500 | the comprehension lists the empty cells as `Empties` does |
| GridRepair.RepairSubject | genetic_scheduler_v2.py:482-509 | one subject's turn in place: the agenda becomes `RepairStep`'s, or is untouched when the turn raises |
| GridRepair.Repair | genetic_scheduler_v2.py:468-511 | `_reparar_cromossomo` in place: it succeeds exactly when `Repaired` does, and the agenda then equals it |
| GridVariation.CopyGrid | genetic_scheduler_v2.py:417 | `copy.deepcopy` gives a fresh agenda with the same cells |
| GridVariation.Tournament | genetic_scheduler_v2.py:413-417 | the result is a fresh copy of the sample's winner |
| GridVariation.SwapDaysRows | genetic_scheduler_v2.py:431-437 | with distinct days, each child's row is the other parent's on every chosen day and its own parent's on every other day |
| GridVariation.SwapRowInPlace | genetic_scheduler_v2.py:435-437 | exchanging day d's rows in place gives `SwapRow` of the old agendas |
| GridVariation.CrossedServes | genetic_scheduler_v2.py:427-443 | a crossed child keeps every lesson of its swapped grid, and every subject then has its load or the week is full |
| GridVariation.Crossover | genetic_scheduler_v2.py:419-443 | fresh children holding `Crossed`: copies of the parents when the coin exceeds the rate, otherwise swapped and repaired |
| GridVariation.ApplyAttemptsMultiset | genetic_scheduler_v2.py:455-464 | mutation keeps the multiset of cells and the multiset of subject tags |
| GridVariation.MutationKeepsCounts | genetic_scheduler_v2.py:445-466 | mutation keeps every subject's count, the occupied-cell count and the placed lessons |
| GridVariation.Mutate | genetic_scheduler_v2.py:445-466 | a fresh copy holds the attempts applied; the input agenda is untouched |
| GridEvolution.EliteSize | genetic_scheduler_v2.py:553 | `max(1, n // 10)` is at least 1 and at most n for a non-empty population |
| GridEvolution.PairsNeededCovers | genetic_scheduler_v2.py:561-570 | the refill loop runs one more pass exactly while elites plus children are fewer than n |
| GridEvolution.InitialGridsAsWritten | genetic_scheduler_v2.py:186-254 | `inicializar_populacao` builds one agenda per start with `criar_cromossomo` and its own loop guard, and every starting agenda holds exactly the first min(n, 10) lessons of its shuffled demand |
| GridEvolution.ElitesAreTop | genetic_scheduler_v2.py:553-558 | no individual left out of the elites scores above an elite, and the first elite has the generation's best score |
| GridEvolution.Offspring | genetic_scheduler_v2.py:562-568 | one pass of the refill loop gives two agendas |
| GridEvolution.Children | genetic_scheduler_v2.py:561-570 | two children per pair draw, in draw order: children 2k and 2k + 1 are the two offspring of the k-th draw, each a 5 x 4 agenda |
| GridEvolution.NextGeneration | genetic_scheduler_v2.py:550-573 | the next population has the old size, holds agendas only, and starts with the elites in rank order |
| GridEvolution.NextGenerationKeepsBest | genetic_scheduler_v2.py:552-558 | the next population starts with an individual that scores at least as well as every member of this one |
| GridEvolution.NextGenerationChildren | genetic_scheduler_v2.py:550-573 | the elites and the children fill the population, and after the elites come the children in order |
| GridEvolution.EvolveUnfold | genetic_scheduler_v2.py:526-573 | one generation: the bookkeeping, then either the stop or the run continued from the next population |
| GridEvolution.FitnessFloored | genetic_scheduler_v2.py:256-284 | every agenda has fitness at least 750 |
| GridEvolution.EvolveRounds | genetic_scheduler_v2.py:526-547 | one history entry per generation; the run stops early exactly at the first generation whose convergence test passes |
| GridEvolution.EvolveMonotone | genetic_scheduler_v2.py:531-558 | with elitism the generation bests never decrease |
| GridEvolution.RunRounds | genetic_scheduler_v2.py:521-547 | a run has between 1 and `geracoes` entries, and ends early only after generation 100 with the last fifty bests equal |
| GridEvolution.RunBest | genetic_scheduler_v2.py:521-576 | when every agenda scores at least some positive floor, a best agenda is reported and its fitness is the last and largest generation best |
| GridEvolution.BestIsLast | genetic_scheduler_v2.py:534-538 | over non-decreasing bests the reported best is the last generation's |
| GridEvolution.EvolutionRounds | genetic_scheduler_v2.py:513-547 | from the population the source's guard builds, `executar` runs between 1 and `geracoes` generations and stops early only on convergence |
| GridEvolution.EvolutionBest | genetic_scheduler_v2.py:513-576 | from the population the source's guard builds, `executar` reports an agenda whose fitness is the last and largest of the never-decreasing bests, each at least 750 |
| GridEvolution.Initialize | genetic_scheduler_v2.py:242-254 | the population loop builds one fresh agenda per start with the source's guard, holding `InitialGrids` |
| GridEvolution.BreedPair | genetic_scheduler_v2.py:562-568 | two tournaments, the crossover and both mutations give the two agendas `Offspring` names |
| GridEvolution.CopyElites | genetic_scheduler_v2.py:557-558 | a fresh copy of each elite, in rank order |
| GridEvolution.BreedChildren | genetic_scheduler_v2.py:561-570 | fresh agendas holding `Children` |
| GridEvolution.Breed | genetic_scheduler_v2.py:549-573 | fresh agendas holding `NextGeneration` |
| GridEvolution.Observe | genetic_scheduler_v2.py:527-538 | the scores, the kept best and the history entry of one generation are `Record`'s |
| GridEvolution.Generation | genetic_scheduler_v2.py:526-573 | one generation of the loop, with the stop test, agrees with `EvolveFrom` |
| GridEvolution.Run | genetic_scheduler_v2.py:521-576 | the whole generation loop reports what `EvolveFrom` computes |
| GridEvolution.Evolve | genetic_scheduler_v2.py:513-576 | from the population the source's guard builds, `executar` fails exactly when the demand cannot be built, and otherwise reports `Evolution`'s best, fitness and history |
| ListGenome.Chromosome | genetic_scheduler.py:139-149 | the genes carry the demanded lessons in order, gene i sitting at the day and slot pick i draws |
| ListGenome.CreateChromosome | genetic_scheduler.py:122-149 | `criar_cromossomo` raises exactly when a gene is due and the room table is empty, and otherwise builds `Chromosome` |
| ListGenome.PlaceCopies | genetic_scheduler.py:145-147 | the inner loop appends one gene per hour of the subject's load, each at the next pick |
| ListGenome.InitialPopulation | genetic_scheduler.py:151-157 | one chromosome per start, each holding the whole demand |
| ListGenome.InitializePopulation | genetic_scheduler.py:151-157 | `inicializar_populacao` raises exactly when a chromosome is due and no room exists, and otherwise builds `InitialPopulation` |
| ListGenome.ChromosomeCounts | genetic_scheduler.py:143-147 | with unique subject codes a chromosome holds exactly the weekly load of genes of every subject, and none of an unknown code |
| ListGenome.ChromosomeGenes | genetic_scheduler.py:122-137 | every gene teaches a subject of the table, with its first teacher, in the first room |
| ListGenome.DemandOrdered | genetic_scheduler.py:143-147 | the genes come grouped by subject in the order of the subject table |
| ListFitness.Unavailable | genetic_scheduler.py:181-194 | the availability charge counts at most one per gene, and none exactly when every teacher is available where their gene sits |
| ListFitness.MaxLoad | genetic_scheduler.py:212-215 | `max(aulas_por_dia)` bounds every weekday's load and is attained by one |
| ListFitness.Overload | genetic_scheduler.py:215-219 | there is a charge exactly when some day has more than four lessons, and it is 100 per lesson above four on the busiest day |
| ListFitness.SpreadPoints | genetic_scheduler.py:205-209 | the bonus raises exactly at a subject missing from the table, and is at most 50 per subject |
| ListFitness.FitnessDefined | genetic_scheduler.py:159-221 | the evaluation raises exactly when some gene's subject is missing from the table |
| ListFitness.FitnessEmpty | genetic_scheduler.py:159-221 | an empty chromosome scores exactly 10000 |
| ListFitness.FitnessClashes | genetic_scheduler.py:163-179 | the clash penalties are 1000 per gene beyond the distinct (teacher, day, slot) and (room, day, slot) keys |
| ListFitness.FitnessUpper | genetic_scheduler.py:196-221 | no chromosome scores above 10000 plus 50 per distinct subject it teaches |
| ListFitness.FitnessAtMost | genetic_scheduler.py:196-221 | no chromosome scores above 10000 plus 50 per subject of the table |
| ListFitness.FitnessClean | genetic_scheduler.py:159-221 | without clashes, with every teacher available and no day above four lessons, a chromosome scores at least 10000 and so meets the 9500 stop |
| ListVariation.Tournament | genetic_scheduler.py:223-227 | the winner is a sampled chromosome with the top score, the first such one in sample order |
| ListVariation.Slice | genetic_scheduler.py:241-242 | `l[a:b]` with Python's clipping of the bounds |
| ListVariation.SpliceIn | genetic_scheduler.py:241-242 | slice assignment keeps the chromosome before the clipped start, puts the segment there, keeps the chromosome from the clipped end on, and shifts the length by the difference |
| ListVariation.Crossover | genetic_scheduler.py:229-245 | copies of the parents above the rate; otherwise the segment between the cuts exchanged; the genes together keep their number and equal-length parents give children of that length |
| ListVariation.CrossoverKeepsLessons | genetic_scheduler.py:229-245 | parents holding the same lessons give children holding those lessons |
| ListVariation.Mutated | genetic_scheduler.py:247-259 | a gene whose coin falls below the rate has its day or its slot redrawn, the other kept; every other gene and every lesson is unchanged |
| ListVariation.Mutate | genetic_scheduler.py:247-259 | the gene-by-gene loop computes `Mutated` |
| ListEvolution.PairsNeededCovers | genetic_scheduler.py:300-309 | the refill loop, starting from the one elite, runs exactly while elite plus children are fewer than n |
| ListEvolution.Offspring | genetic_scheduler.py:301-309 | one pass gives two chromosomes of the common length |
| ListEvolution.OffspringLessons | genetic_scheduler.py:301-309 | children of parents holding the lessons hold them too |
| ListEvolution.Children | genetic_scheduler.py:300-309 | two children per pair draw, all of the common length |
| ListEvolution.NextGeneration | genetic_scheduler.py:296-312 | the next population has the old size and starts with a copy of the first top-scoring chromosome |
| ListEvolution.NextGenerationLessons | genetic_scheduler.py:296-312 | breeding keeps the lessons of the population |
| ListEvolution.Populations | genetic_scheduler.py:273-312 | every generation's population has the first one's size and chromosome length and is bred from its predecessor |
| ListEvolution.PopulationsUnfold | genetic_scheduler.py:273-312 | the populations are this one followed by those bred from the next |
| ListEvolution.PopulationsLessons | genetic_scheduler.py:273-312 | every generation's chromosomes hold the initial lessons |
| ListEvolution.PopulationsElitist | genetic_scheduler.py:296-297 | each population after the first starts with the best of the one before |
| ListEvolution.ReplayRounds | genetic_scheduler.py:273-294 | one history entry per generation; the loop stops early exactly at the first best of at least 9500 |
| ListEvolution.ReplayMonotone | genetic_scheduler.py:279-297 | the carried copy of the best makes the generation bests non-decreasing |
| ListEvolution.ElitistTail | genetic_scheduler.py:296-297 | the second population starts with a chromosome scoring the first one's best |
| ListEvolution.RunRecord | genetic_scheduler.py:268-312 | the kept best and its fitness stay consistent with the history, which never decreases |
| ListEvolution.BestIsLast | genetic_scheduler.py:279-285 | over non-decreasing bests the reported chromosome is the last generation's best |
| ListEvolution.RunBest | genetic_scheduler.py:268-319 | the run reports a chromosome holding the lessons whose score is the last generation best |
| ListEvolution.RunRounds | genetic_scheduler.py:273-294 | between one and `geracoes` entries; an early end only on a best of at least 9500, reached by no earlier generation |
| ListEvolution.DemandScored | genetic_scheduler.py:159-221 | a chromosome holding the demand teaches only known subjects, so its evaluation never raises |
| ListEvolution.InitialRunnable | genetic_scheduler.py:151-157 | the initial population holds the demand in every chromosome |
| ListEvolution.EvolutionBest | genetic_scheduler.py:261-319 | `executar` returns a chromosome holding the demand whose evaluation gives the returned fitness, the last and largest of the never-decreasing bests |
| ListEvolution.EvolutionRounds | genetic_scheduler.py:261-319 | `executar` runs between one and `geracoes` generations and stops early only at a best of at least 9500 |
| ListEvolution.Evolve | genetic_scheduler.py:261-319 | `executar` fails where creating the population raises, and otherwise returns `Evolution`'s outcome |
| ListEvolution.Run | genetic_scheduler.py:273-312 | the generation loop computes `EvolveFrom` |
| ListEvolution.Note | genetic_scheduler.py:276-285 | one generation's bookkeeping appends the generation best and keeps the first strictly better chromosome |
| ListEvolution.RunStops | genetic_scheduler.py:291-294 | a generation whose best reaches 9500 ends the loop |
| ListEvolution.RunContinues | genetic_scheduler.py:296-312 | otherwise the loop goes on with the bred population |
| ListEvolution.BreedPair | genetic_scheduler.py:301-309 | two tournaments, the crossover and both mutations give `Offspring` |
| ListEvolution.Breed | genetic_scheduler.py:296-312 | the refill loop and the cut give `NextGeneration` |
| RuleData.DetermineRule | genetic_algorithm.py:159-168 | loads 2, 3 and 4 and only they give the consecutive, 2 + 1 and 2 + 2 patterns; every other load gives the `n aulas` label carrying the load itself |
| RuleData.BlocksFollowRule | genetic_algorithm.py:256-286 | the blocks follow the named rule, are of one or two lessons, add up to the load for loads 2 to 4 and to one lesson for any other load |
| RuleData.LowerChar | genetic_algorithm.py:180 | `str.lower` maps the ASCII capitals 32 code points down and leaves every other non-capital unchanged |
| RuleData.LowerIdempotent | genetic_algorithm.py:180 | lower-casing twice is lower-casing once |
| RuleData.AnyMatch | genetic_algorithm.py:177-183 | the filter is non-empty exactly when some row names the teacher, the day in any letter case, and a time starting with the slot |
| RuleData.TeacherFree | genetic_algorithm.py:170-186 | every teacher is available while no table is loaded, and otherwise exactly when some row matches |
| RuleData.MatchesIgnoresCase | genetic_algorithm.py:180 | the day test ignores the letter case of the row's day |
| RuleData.SlotsOnAppend | genetic_algorithm.py:235-237 | the slots of a day over two runs of genes are those of the first run, then those of the second |
| RuleData.SlotsOnTotal | genetic_algorithm.py:235-237 | the five day lists share out all the genes |
| RuleData.NoClashByDay | genetic_algorithm.py:207-220 | when no day lists a slot twice, no two genes share a day and a slot |
| RuleBuild.SearchDays | genetic_algorithm.py:203-205 | Monday to Thursday, with Friday added only for one lesson |
| RuleBuild.FreeFrom | genetic_algorithm.py:211-217 | the collected slots are consecutive from the start and stop at the load and at the last slot |
| RuleBuild.FreeFromFull | genetic_algorithm.py:211-219 | the run reaches q slots exactly when q fits in the day and the first q slots are free |
| RuleBuild.SlotFromSpec | genetic_algorithm.py:207-222 | the search over a day list returns the first day on which the block fits, with slots 0 to q - 1, and nothing when none fits |
| RuleBuild.SlotSpec | genetic_algorithm.py:201-222 | `encontrar_slot_seguido` returns the first searched day whose first q slots are free, Friday only for one lesson, and nothing for more than four lessons |
| RuleBuild.FirstTaught | genetic_algorithm.py:247-251 | the first teacher row of the subject, none exactly when no row teaches it |
| RuleBuild.OfferFor | genetic_algorithm.py:246-254 | the subject's first teacher, else the table's first, and the first room; `None` exactly for an empty teacher or room table |
| RuleBuild.BuiltRaises | genetic_algorithm.py:362-376 | building raises exactly when there is a subject and the teacher or room table is empty |
| RuleBuild.IndividualRaises | genetic_algorithm.py:348-400 | `criar_individuo_otimizado` raises exactly in that case |
| RuleBuild.PlaceBooks | genetic_algorithm.py:229-238 | one block books exactly the slots of its genes |
| RuleBuild.PlaceNumbered | genetic_algorithm.py:229-238 | one block's genes carry the subject's teacher, room and cohort and the numbers from `num` on |
| RuleBuild.PlaceCount | genetic_algorithm.py:229-238 | one block makes at most q genes |
| RuleBuild.PlaceShaped | genetic_algorithm.py:229-238 | a block of one or two lessons goes to an empty day and keeps every day empty or one block from 18:50 |
| RuleBuild.DividedBooks | genetic_algorithm.py:224-240 | `alocar_dividido` appends exactly its genes' slots to the occupancy, day by day |
| RuleBuild.DividedNumbers | genetic_algorithm.py:224-240 | every gene carries the subject's offer, numbered on from 1 |
| RuleBuild.DividedCount | genetic_algorithm.py:224-240 | no more genes are made than the blocks ask for |
| RuleBuild.DividedShaped | genetic_algorithm.py:224-240 | blocks of one or two lessons keep every day in shape |
| RuleBuild.AllocationLessons | genetic_algorithm.py:242-286 | one subject's allocation books exactly its genes' slots, keeps days in shape and makes lessons of that subject only |
| RuleBuild.BuiltLessons | genetic_algorithm.py:362-376 | building the subjects books exactly the genes made, keeps days in shape and makes only lessons of those subjects |
| RuleBuild.IndividualShape | genetic_algorithm.py:348-400 | every day of the built timetable is empty or one block from 18:50, no two lessons share a cell, there are at most nine, each of a table subject, for the cohort, in the first room |
| RuleBuild.DayShapeSize | genetic_algorithm.py:201-222 | a day in shape lists no slot twice and holds two lessons at most, one on Friday |
| RuleBuild.ShapeCount | genetic_algorithm.py:201-222 | days in shape hold at most nine lessons |
| RuleAlloc.Occupancy.constructor | genetic_algorithm.py:351 | the occupancy starts empty |
| RuleAlloc.Occupancy.Reserve | genetic_algorithm.py:235-237 | booking a slot appends it to that day's list, creating the list when absent |
| RuleAlloc.FreeRun | genetic_algorithm.py:209-217 | the inner loop collects `FreeFrom`'s slots |
| RuleAlloc.FindSlot | genetic_algorithm.py:201-222 | the day loop returns `Slot` |
| RuleAlloc.AllocateBlock | genetic_algorithm.py:230-238 | one block in place: the genes and the new occupancy are `Place`'s |
| RuleAlloc.AllocateDivided | genetic_algorithm.py:224-240 | `alocar_dividido` in place: the genes and the new occupancy are `Divided`'s |
| RuleAlloc.DividedSingle | genetic_algorithm.py:256-284 | a single block is placed as the block allocation places it |
| RuleAlloc.AllocateByRule | genetic_algorithm.py:242-286 | `alocar_aulas_por_regra` gives `Allocation`'s genes and occupancy, and on the `IndexError` leaves the occupancy untouched |
| RuleAlloc.CreateIndividual | genetic_algorithm.py:348-400 | `criar_individuo_otimizado` computes `Individual` |
| RuleFitness.Unavailable | genetic_algorithm.py:445-447 | at most one charge per gene, none exactly when every teacher is available |
| RuleFitness.Fridays | genetic_algorithm.py:449-451 | at most one charge per gene, none exactly when no gene is on Friday |
| RuleFitness.Lessons | genetic_algorithm.py:426 | the count of a (subject, cohort) key never exceeds the genes |
| RuleFitness.Missing | genetic_algorithm.py:453-460 | nothing is missing exactly when every table row has at least its load for its cohort |
| RuleFitness.PenaltyCounts | genetic_algorithm.py:402-462 | the clash terms charge 2 per gene beyond the distinct room, teacher and cohort keys, plus 5 per unavailable gene, 1 per Friday gene and 50 per missing lesson |
| RuleFitness.RepeatsZero | genetic_algorithm.py:428-443 | the seen-key fold charges nothing exactly when no key repeats |
| RuleFitness.PenaltyZero | genetic_algorithm.py:402-462 | `fitness` is 0 exactly without a repeated key, with every teacher available, nothing on Friday and every load met |
| RuleFitness.PenaltyWithoutAvailability | genetic_algorithm.py:174-175 | without an availability table nobody is charged as unavailable |
| RuleFitness.PenaltyWithoutClash | genetic_algorithm.py:402-462 | when no two genes share a cell, only availability, Friday and missing lessons are charged |
| RuleFitness.Earliest | genetic_algorithm.py:510-511 | the first lesson of a day is at its earliest slot |
| RuleFitness.Sorted | genetic_algorithm.py:518-519 | the day's slots in ascending order, a permutation of them |
| RuleFitness.SharedIsSurplus | genetic_algorithm.py:481-484 | the lessons beyond the first in each cell are the surplus of lessons over occupied cells |
| RuleFitness.SlotShareCounts | genetic_algorithm.py:481-484 | the shared-slot term is 2000 per lesson beyond the first in its cell, and 0 exactly when no two lessons share a cell |
| RuleFitness.BlockDayTerms | genetic_algorithm.py:506-525 | a day empty or holding one block from 18:50 has no gap term and earns the 18:50 bonus when used |
| RuleEvolution.InitialPopulation | genetic_algorithm.py:575-585 | forty identical copies of the built timetable, since building draws nothing; `None` exactly when building raises |
| RuleEvolution.CreatePopulation | genetic_algorithm.py:575-585 | the population loop computes `InitialPopulation` |
| RuleEvolution.ShapedDayTerms | genetic_algorithm.py:506-525 | over days in shape the start and gap terms are -100 per used day |
| RuleEvolution.ShapedScore | genetic_algorithm.py:402-557 | a built-shape timetable pays no clash in `fitness` and no shared slot or gap in `calcular_fitness`, which is 10000 when empty and otherwise clamped at 0 |
| RuleEvolution.SampleSize | genetic_algorithm.py:593 | `min(k, len)` is positive for a non-empty population and at most both |
| RuleEvolution.Pick | genetic_algorithm.py:589-595 | the sampled individual with the lowest score, the first such in sample order |
| RuleEvolution.SelectionShaped | genetic_algorithm.py:587-597 | winners keep the individuals' length |
| RuleEvolution.Select | genetic_algorithm.py:587-597 | the selection loop computes `Selection` |
| RuleEvolution.Crossover | genetic_algorithm.py:599-609 | copies when no crossover fires or a parent is empty; the children together keep the number of lessons |
| RuleEvolution.CrossoverKeepsLessons | genetic_algorithm.py:599-609 | the children hold the parents' lessons between them, as multisets |
| RuleEvolution.CrossoverPositions | genetic_algorithm.py:604-607 | for equal-length parents, each child keeps its parent's front and takes the other's back from `len // 2` on |
| RuleEvolution.Mutated | genetic_algorithm.py:611-621 | only the drawn lesson's day can change, only when the coin fires, and the length is kept |
| RuleEvolution.Offspring | genetic_algorithm.py:661-667 | one pass gives two individuals of the common length |
| RuleEvolution.Children | genetic_algorithm.py:659-670 | two children per pair draw, of the common length |
| RuleEvolution.EliteCount | genetic_algorithm.py:652 | `int(n * 0.15)` is at most n and positive from seven individuals on |
| RuleEvolution.Order | genetic_algorithm.py:653 | the order lists positions of the population, one per individual |
| RuleEvolution.OrderCovers | genetic_algorithm.py:653 | every position is in the order |
| RuleEvolution.EliteLowest | genetic_algorithm.py:652-656 | no elite scores above an individual left out of it |
| RuleEvolution.OrderFirstLowest | genetic_algorithm.py:630-653 | the first of the order has the generation's lowest score |
| RuleEvolution.PairsNeededCovers | genetic_algorithm.py:659-670 | the refill loop runs exactly while elite plus children are fewer than n |
| RuleEvolution.NextGeneration | genetic_algorithm.py:648-672 | the next population has the old size and starts with the elite |
| RuleEvolution.NextStartsLowest | genetic_algorithm.py:648-672 | with an elite the next population starts with an individual scoring the generation's lowest |
| RuleEvolution.Populations | genetic_algorithm.py:627-672 | each generation keeps the size and length and is bred from the one before |
| RuleEvolution.PopulationsUnfold | genetic_algorithm.py:627-672 | the populations are this one followed by those bred from the next |
| RuleEvolution.Lowest | genetic_algorithm.py:630 | `min(fitness_populacao)` is attained and bounds every score from below |
| RuleEvolution.PopulationsElitist | genetic_algorithm.py:648-656 | with an elite each population starts with the lowest of the one before |
| RuleEvolution.RecordImproves | genetic_algorithm.py:630-638 | the history gains the generation low; the best fitness is set, never goes up and changes only on a strict decrease |
| RuleEvolution.ReplayRounds | genetic_algorithm.py:627-645 | one history entry per generation; the loop stops early exactly at the first low of 0 |
| RuleEvolution.ReplayMonotone | genetic_algorithm.py:627-672 | the carried elite keeps the generation lows from going up |
| RuleEvolution.ElitistTail | genetic_algorithm.py:648-656 | the second population starts with an individual scoring the first one's low |
| RuleEvolution.RunRecord | genetic_algorithm.py:623-675 | with an elite the record stays consistent and the lows never go up |
| RuleEvolution.BestIsLast | genetic_algorithm.py:636-638 | over never-increasing lows the reported best is the last generation's low |
| RuleEvolution.RunRounds | genetic_algorithm.py:627-645 | between one and `max_geracoes` new entries, an early end only at a low of 0 reached by no earlier generation |
| RuleEvolution.InitialRunnable | genetic_algorithm.py:575-585 | a buildable catalog gives a population ready to run |
| RuleEvolution.EvolutionBest | genetic_algorithm.py:623-675 | `evoluir` fails exactly when building raises; otherwise it reports a best scoring the last and lowest of the never-increasing lows, one entry per generation, and stops early only at 0 |
| RuleEvolution.BreedPair | genetic_algorithm.py:661-667 | one selection round, two sampled parents, crossover and both mutations give `Offspring` |
| RuleEvolution.CopyElite | genetic_algorithm.py:652-656 | the elite loop computes `Elite` |
| RuleEvolution.AddPair | genetic_algorithm.py:668-671 | each child is added while the population is short |
| RuleEvolution.Breed | genetic_algorithm.py:648-672 | the new population is `NextGeneration` |
| RuleEvolution.Refill | genetic_algorithm.py:659-671 | the refill loop gives the elite and the children, cut to the size |
| RuleEvolution.Filled | genetic_algorithm.py:668-671 | the filled population has min(n, elite + children) members |
| RuleEvolution.Optimiser.constructor | genetic_algorithm.py:623-675 | a fresh optimiser has no best, no best fitness and an empty history |
| RuleEvolution.Optimiser.Note | genetic_algorithm.py:630-638 | one generation's bookkeeping updates the fields as `Record` states and returns the generation low |
| RuleEvolution.Optimiser.Evolve | genetic_algorithm.py:623-675 | `evoluir` on the fields: `None` and nothing changed where building raises, otherwise the fields hold `Evolution`'s record and its best is returned |
| RuleEvolution.RunStops | genetic_algorithm.py:643-645 | a generation whose low is 0 ends the loop |
| RuleEvolution.RunContinues | genetic_algorithm.py:648-672 | otherwise the loop goes on with the bred population |
| ConflictReport.Pairs | visualization_script.py:150-178 | the reported (first, repeat) pairs name repeat positions below n |
| ConflictReport.PairsCount | visualization_script.py:150-178 | one pair per repeated position: the surplus of positions over distinct keys |
| ConflictReport.PairsShape | visualization_script.py:150-163 | each pair names the first occurrence of a key and a later repeat of it |
| ConflictReport.PairsAscending | visualization_script.py:150-178 | the repeats come in increasing position order |
| ConflictReport.PairsComplete | visualization_script.py:150-178 | every repeated position is reported |
| ConflictReport.PairsSound | visualization_script.py:150-178 | only repeated positions are reported |
| ConflictReport.PairsPrefix | visualization_script.py:150-178 | the pairs over a shorter prefix are a prefix of the pairs |
| ConflictReport.TeacherEntry | visualization_script.py:154-160 | a professor entry carries the pair, the repeat's teacher name, day and slot names; `None` when the catalog lacks that teacher |
| ConflictReport.RoomEntry | visualization_script.py:169-175 | a room entry carries the pair and the room code |
| ConflictReport.Absent | visualization_script.py:180-200 | the positions of unavailable genes lie below n |
| ConflictReport.AbsentCount | visualization_script.py:180-200 | one absent position per unavailable gene |
| ConflictReport.AbsentMembers | visualization_script.py:180-200 | a position is absent exactly when its teacher is not available there |
| ConflictReport.AbsentAscending | visualization_script.py:180-200 | absent positions come in increasing order |
| ConflictReport.AbsenceEntry | visualization_script.py:194-199 | an availability entry carries the gene's position, teacher and subject names, day and slot names; `None` when the catalog lacks either name |
| ConflictReport.TeacherFails | visualization_script.py:154-156 | a repeat whose teacher the catalog lacks makes the whole loop raise |
| ConflictReport.SeenFirst | visualization_script.py:150-163 | the dictionary holds the first position of a repeated key |
| ConflictReport.SeenAdd | visualization_script.py:150-163 | a new key records its position; a repeat leaves the dictionary as it is |
| ConflictReport.TeacherVisit | visualization_script.py:152-163 | one turn adds the repeat's entry or raises, and records a new key |
| ConflictReport.TeacherLoop | visualization_script.py:150-163 | the professor loop computes the collected professor entries |
| ConflictReport.RoomLoop | visualization_script.py:165-178 | the room loop computes the room entries |
| ConflictReport.HasRecord | visualization_script.py:186-190 | the record search finds a record exactly when one names the day and the slot |
| ConflictReport.AbsenceVisit | visualization_script.py:181-200 | one turn adds the entry of an unavailable gene or raises |
| ConflictReport.TeacherAvailable | visualization_script.py:184-190 | availability is `Available`: the teacher has records and one matches |
| ConflictReport.AvailabilityLoop | visualization_script.py:180-200 | the availability loop computes the collected availability entries |
| ConflictReport.AbsenceFails | visualization_script.py:194-199 | an unavailable gene whose teacher or subject the catalog lacks makes the loop raise |
| ConflictReport.CheckConflicts | visualization_script.py:142-202 | `verificar_conflitos` computes `Conflicts` |
| ConflictReport.ConflictCounts | visualization_script.py:142-202 | one professor entry per repeated (teacher, day, slot) key, one room entry per repeated (room, day, slot) key, one availability entry per unavailable gene |
| ConflictReport.ConflictPenalty | genetic_scheduler.py:163-219 | 1000 per professor and room entry and 500 per availability entry, plus the day overload, are exactly the list optimiser's penalties |
| ConflictReport.TeacherClashShape | visualization_script.py:150-163 | a professor entry names the first gene with the key and a later gene with the same teacher, day and slot, with their names |
| ConflictReport.RoomClashShape | visualization_script.py:165-178 | a room entry names the first gene with the key and a later gene in the same room, day and slot |
| ConflictReport.AbsenceShape | visualization_script.py:180-200 | an availability entry names an unavailable gene whose names the catalog knows |
| ConflictReport.ConflictOrder | visualization_script.py:142-202 | every list follows the genes' order |
| ConflictReport.ClashesComplete | visualization_script.py:150-178 | a gene gets a professor (room) entry exactly when its key is a repeat |
| ConflictReport.AbsencesComplete | visualization_script.py:180-200 | a gene gets an availability entry exactly when its teacher is not available there |
| ConflictReport.ConflictsDefined | visualization_script.py:142-202 | the detector raises exactly when a repeated gene's teacher, or an unavailable gene's teacher or subject, is missing from the catalog |
| GridMetrics.Completed | utils_v2.py:209-215 | the completed subjects are at most the subjects |
| GridMetrics.CompletedAll | utils_v2.py:209-215 | every subject counts as completed exactly when all reach their load |
| GridMetrics.CompletedNone | utils_v2.py:209-215 | none counts exactly when none reaches its load |
| GridMetrics.Fraction | utils_v2.py:217 | a share of a whole lies in [0, 1], is 1 exactly for the whole and 0 exactly for nothing |
| GridMetrics.CompletionRatio | utils_v2.py:200-217 | `completude_disciplinas` raises exactly for an empty subject table, lies in [0, 1], is 1 exactly when every subject has its load and 0 exactly when none has |
| GridMetrics.ReachedGrid | utils_v2.py:200-215 | the grid's subjects reach their loads exactly when the fitness function calls the grid complete |
| GridMetrics.AvailableAll | utils_v2.py:219-229 | the available count reaches the occupied count exactly when every occupied cell is available |
| GridMetrics.AvailabilityRatio | utils_v2.py:219-231 | `respeito_disponibilidade` lies in [0, 1], is 0 for an empty grid, and 1 exactly when there are lessons and all are available |
| GridMetrics.Balance | utils_v2.py:233-244 | `equilibrio_distribuicao` lies in [0, 1] for a non-negative deviation, is 1 exactly at deviation 0 and 0 exactly from deviation 3 on |
| GridMetrics.Utilisation | utils_v2.py:246-249 | `utilizacao_slots` lies in [0, 1], 1 exactly for a full week and 0 exactly for an empty one |
| GridMetrics.DaysOfRow | utils_v2.py:252-260 | visiting day d's four cells adds d to a teacher's days exactly when they work that day |
| GridMetrics.DaysOfCount | utils_v2.py:252-260 | `len(dias_por_professor[t])` is the number of days t works |
| GridMetrics.Spare | utils_v2.py:264 | one teacher's share lies in [0, 1], is at most 3/4 once they work a day, and is 0 exactly from four days on |
| GridMetrics.ConcentrationBounds | utils_v2.py:251-267 | `concentracao_professores` lies in [0, 3/4], and is 0 for a grid without lessons |
| GridMetrics.Overall | utils_v2.py:269-279 | the weights sum to one, so ratios in [0, 1] give a score in [0, 1], which is 1 exactly when every ratio is |
| GridMetrics.QualityBounds | utils_v2.py:195-281 | the report exists exactly when there are subjects; every ratio lies in its range; completeness and availability are 1 exactly in their cases; the overall score never exceeds 0.9625 |
| GridMetrics.CountCompleted | utils_v2.py:209-215 | the completed-subject loop computes `Completed` |
| GridMetrics.CountOccupied | utils_v2.py:220-221 | `total_aulas` is the number of occupied cells |
| GridMetrics.AvailableCell | utils_v2.py:226-229 | one cell adds one exactly when it holds a lesson whose teacher is available there |
| GridMetrics.CountAvailable | utils_v2.py:222-229 | `aulas_com_disponibilidade` is the number of available lessons |
| GridMetrics.DayLoad | utils_v2.py:236 | `aulas_dia` is the number of occupied cells of the day |
| GridMetrics.DayLoads | utils_v2.py:234-237 | `aulas_por_dia` holds the five day loads in order |
| GridMetrics.VisitDays | utils_v2.py:255-260 | one cell of the days loop keeps its invariant |
| GridMetrics.TeacherDays | utils_v2.py:252-260 | the keys of `dias_por_professor` are the teachers of the grid, in first-seen order, each with the days they work |
| GridMetrics.MeanConcentration | utils_v2.py:262-267 | the mean over the dictionary is `Concentration` |
| GridMetrics.AnalyseQuality | utils_v2.py:195-281 | `analisar_qualidade_agenda` computes `Quality` |
| Comparison.ListStatsBounds | comparison_v1_v2.py:92-126 | the list summary exists exactly when there are subjects; both shares lie in [0, 1]; completeness is 1 exactly when every subject has its load; availability is 1 exactly for a non-empty chromosome with every gene available, and 0 for an empty one |
| Comparison.CreatedComplete | comparison_v1_v2.py:96-107 | a chromosome as `criar_cromossomo` builds it has completeness 1 |
| Comparison.GridStatsAgree | comparison_v1_v2.py:128-163 | the grid summary is the completeness and availability of the quality report of the same grid |
| Comparison.CountGeneSubjects | comparison_v1_v2.py:97-100 | `disciplina_count` holds each code's number of genes |
| Comparison.CountAvailableGenes | comparison_v1_v2.py:110-122 | the number of genes whose teacher has a matching record |
| Comparison.AnalyseListSolution | comparison_v1_v2.py:92-126 | `analisar_solucao_v1` computes `ListStats` |
| Comparison.AnalyseGridSolution | comparison_v1_v2.py:128-163 | `analisar_solucao_v2` computes `GridStats` |
| GridStatistics.DayStatsFacts | utils_v2.py:117-125 | each row names its day, lessons and free slots make four, the percentage lies in [0, 100] and is 100 exactly without a free slot, and the rows' lessons add up to the occupied cells |
| GridStatistics.FirstTeacherName | utils_v2.py:143-147 | the name of the first teacher of the subject, `None` exactly when nobody teaches it |
| GridStatistics.FirstTeacherAgrees | utils_v2.py:143-147 | that name belongs to the teacher `FirstTeacher` names |
| GridStatistics.SubjectStatsFacts | utils_v2.py:130-157 | each row carries the subject's code, name, load and lessons; `Diferenca` is given minus planned; `COMPLETA` exactly when it is not negative; the `COMPLETA` rows are the completed subjects |
| GridStatistics.LevelOf | utils_v2.py:189 | `ALTA` exactly for at most two days, `BAIXA` exactly for more than three |
| GridStatistics.RowLessons | utils_v2.py:167-175 | a teacher gives one to four lessons on a day they work, none on another |
| GridStatistics.TeacherLoad | utils_v2.py:167-179 | a teacher works at least one day per four lessons and at most one day per lesson |
| GridStatistics.TeacherStatsFacts | utils_v2.py:162-190 | the sheet raises exactly when a teacher's subject is missing; otherwise one row per teacher with days at most five, between a quarter of the lessons and the lessons, and a mean per day in [0, 4], at least 1 with lessons |
| GridStatistics.DayStatsLoop | utils_v2.py:117-125 | the `stats_dia` loop computes `DayStats` |
| GridStatistics.FindTeacherName | utils_v2.py:143-147 | the teacher loop computes `FirstTeacherName` |
| GridStatistics.SubjectStatsLoop | utils_v2.py:130-157 | the `stats_disciplina` loop computes `SubjectStats` |
| GridStatistics.CountTeacherLessons | utils_v2.py:167-172 | `aulas_por_professor` holds each teacher's lesson count |
| GridStatistics.VisitLessons | utils_v2.py:169-172 | one cell keeps the count invariant |
| GridStatistics.TeacherStatsLoop | utils_v2.py:162-190 | the `stats_professor` loop computes `TeacherStats`, raising at the first teacher whose subject is missing |
| GridStatistics.StatisticsOf | utils_v2.py:113-193 | `criar_planilha_estatisticas` computes `Statistics` |
| GridReport.Position | utils_v2.py:39 | `Slot_Posicao` is three characters: the day digit, `_` and the slot digit |
| GridReport.PositionsDistinct | utils_v2.py:39 | two cells share a position exactly when they are the same cell |
| GridReport.AgendaEntry | utils_v2.py:23-53 | the row of a cell is missing exactly when its lesson's subject or teacher lookup fails |
| GridReport.AgendaRowsShape | utils_v2.py:18-53 | the rows exist exactly when every lesson resolves; then there are twenty in day-major order, free cells read `LIVRE` for subject and teacher with no codes, room, load or cohort; lessons carry their subject and teacher codes, the subject's and the teacher's names, the room, the load and the cohort; each row has its day, time and position |
| GridReport.LessonRows | utils_v2.py:63 | `Apenas_Aulas` keeps rows of the table whose subject name is not `LIVRE` |
| GridReport.LessonRowsCount | utils_v2.py:63 | when no subject is called `LIVRE` the lesson sheet has one row per occupied cell |
| GridReport.DaySheetRows | utils_v2.py:66-69 | each day's sheet is exactly that day's four rows in slot order |
| GridReport.Truncate | utils_v2.py:103 | `s[:n]` is a prefix of at most n characters, and s itself when it fits |
| GridReport.ViewText | utils_v2.py:99-106 | a free cell reads `LIVRE`; a lesson reads the first fifteen characters of its subject name, a newline and the teacher name in parentheses; missing exactly when a lookup fails |
| GridReport.GridViewDefined | utils_v2.py:84-111 | the grid view is missing exactly when some lesson does not resolve |
| GridReport.ViewLineShape | utils_v2.py:95-108 | a built line has the slot time and then one cell per day |
| GridReport.GridViewShape | utils_v2.py:84-111 | a built view has the header and four lines of six columns, the slot time first and then cell (d, h) for each day |
| GridReport.ViewAgreesWithRows | utils_v2.py:18-111 | the rows and the visual grid fail for the same catalogs |
| GridReport.SaveOutcome | utils_v2.py:18-82 | saving raises exactly when a lesson does not resolve; the caught error comes only from a teacher whose subject is missing; a workbook has twenty rows, four per day sheet, and one lesson row per occupied cell |
| GridReport.BuildAgendaRows | utils_v2.py:19-53 | the `dados_agenda` double loop computes the rows |
| GridReport.BuildViewLine | utils_v2.py:95-108 | one line of the `dados_grade` loop |
| GridReport.BuildGridView | utils_v2.py:84-111 | the `dados_grade` loop computes `GridView` |
| GridReport.SaveAgenda | utils_v2.py:18-82 | `salvar_agenda_excel` without the file computes `Save` |
| Board.WordLength | gerador_quadro_horarios.py:242 | the head run has no space and ends at a space or the end |
| Board.Words | gerador_quadro_horarios.py:242 | `split()` gives non-empty words without spaces |
| Board.JoinLength | gerador_quadro_horarios.py:284 | `' '.join` has the words' length plus one space between each two |
| Board.SplitJoin | gerador_quadro_horarios.py:242-284 | splitting joined words gives the words back |
| Board.UpperChar | gerador_quadro_horarios.py:278 | `str.upper` on one character: an ASCII small letter moves 32 code points down, any other ASCII character is kept, and Latin-1 and the characters whose upper case is ASCII follow Python |
| Board.UpperIdempotent | gerador_quadro_horarios.py:278 | upper-casing twice changes nothing more |
| Board.AbbreviationsTable | gerador_quadro_horarios.py:248-275 | every abbreviation is a word of at most five characters and every key is already upper-case |
| Board.Lookup | gerador_quadro_horarios.py:279-280 | `abreviacoes.get` finds a key exactly when the table has it |
| Board.AbbreviateWord | gerador_quadro_horarios.py:277-282 | a word becomes a word of at most five characters: its table abbreviation, or its first four characters when not in the table |
| Board.AbbreviateFacts | gerador_quadro_horarios.py:227-290 | a missing name reads `DISCIPLINA`; up to two words it is kept; longer names become the words' abbreviations, all of them when they fit in 25 characters and otherwise the first three, never more than 25 characters |
| Board.AbbreviateOne | gerador_quadro_horarios.py:278-282 | one pass of the loop computes `AbbreviateWord` |
| Board.AbbreviateName | gerador_quadro_horarios.py:227-290 | `abreviar_disciplina` computes `Abbreviate` |
| Board.ExampleCoversWeek | gerador_quadro_horarios.py:64-93 | the example fixture fills each of the twenty cells of the week exactly once |

## Left out

- Loading the problem data from spreadsheets or CSV files (every `carregar_dados` and its variants) is file I/O: `executar` and `evoluir` start from an already-loaded `Catalog`.
- Writing workbooks, JSON or CSV files and creating folders is file I/O: `salvar_agenda_excel` is modelled only by the rows and sheets it would write and by the outcome it returns.
- Plotting, dashboards and the drawing code of the board generator are graphical output.
- The interactive menus, the parameter sweep and the validation script only re-run the optimisers or inspect files.
- Progress printing is output only; `relatorio_aulas_faltantes` (genetic_algorithm.py:559-573) only prints, so it is not modelled.
- The pseudo-random generator is not modelled: every draw of `random.sample`, `random.shuffle`, `random.random`, `random.randint` and `random.choice` is a parameter, and each contract holds for every admissible draw.
- The rule-based mutation draws its new day only when its coin fires; the model's parameter is read only in that case, which does not change any result.
- `np.std` in `_pontuar_distribuicao` and in `equilibrio_distribuicao` is floating point: the spread is a caller-supplied value (`std`, `spread`), and only its sign is assumed where bounds are stated.
- Other floating-point arithmetic (ratios, means, weighted scores) is exact real arithmetic; rounding is not modelled.
- The grid and list optimisers' fixed `populacao_size` of 50 and `geracoes` of 1000 (genetic_scheduler_v2.py:81-82, genetic_scheduler.py:56-57) are the lengths of the `starts` and `draws` parameters: every run contract holds for any population size and generation count, these two included.
- A code listed twice in a catalog: `Records.TeacherByCode` and `Records.SubjectIndex` return its first entry, where the loader's dictionary keeps the last value for that code (genetic_scheduler_v2.py:105, 116); a catalog built by the loader has one entry per code.
- `int(len(populacao) * 0.15)` in `evoluir` is modelled as `(3 * n) / 20`, the exact product truncated; the rounding of the float product is not modelled.
- `converter_horario_decimal` (genetic_algorithm.py:73-91) converts spreadsheet day-fractions by float thresholds whose boundaries depend on rounding, so `RuleData` takes times as the slot strings it would produce.
- `gerar_populacao_inicial` (genetic_algorithm.py:288-346) is never called by `evoluir`, which builds its population with `criar_individuo_otimizado`, so it is not modelled.
- The `except` branch of `professor_esta_disponivel` guards against malformed records that the typed model cannot hold.
- The shallow copies in the rule-based `selecao_torneio` and `evoluir` (genetic_algorithm.py:595, 634, 640, 657), and the list slices of `crossover`, let the in-place `mutacao` (genetic_algorithm.py:619) change gene dictionaries shared between individuals. Genes are values here, so that aliasing is not reproduced: each individual's mutation affects only itself. The guarantees below about the best and the elite hold only without that aliasing.
- RuleEvolution.EvolutionBest: that the reported best scores the last generation's low holds only without aliasing; in the source a later `mutacao` can rewrite the genes of the saved `melhor_solucao` (genetic_algorithm.py:634-640), so its score can differ from `melhor_fitness`.
- RuleEvolution.Optimiser.Evolve: the fields hold `Evolution`'s record only without aliasing; the saved best shares gene dictionaries with the population, which later mutations can change.
- RuleEvolution.ReplayMonotone: the lows never rise only without aliasing; an elite carried by shallow copy (genetic_algorithm.py:657) shares genes with offspring that `mutacao` can move, so the carried elite may no longer score the previous low.
- RuleEvolution.RunRecord: as for `ReplayMonotone`, the consistent record and the never-rising lows assume that mutation affects only the individual it is applied to.
- RuleEvolution.BestIsLast: the best is the last low only when the saved best still scores what it scored when it was saved, which the source's aliasing does not guarantee.
- Python dictionaries are sequences of key and value pairs in insertion order, and pandas frames are sequences of rows; only the columns the core reads are kept.
- RuleData.Lower: follows `str.lower` for ASCII and the Latin-1 capitals only (`RuleData.LowerChar`); other characters with a lower-case form, in Latin Extended or other scripts, are left as they are.
- `Board.Upper` follows `str.upper` for ASCII, Latin-1 and a few Latin ligatures only; letters of other scripts are left as they are.
- `abreviar_disciplina` also accepts a pandas Series and converts its argument with `str()`; the model takes the name as a string, so that branch is left out.

## Findings

| source | as written | input that shows it | evidently intended | confidence | as-written member | corrected member |
|---|---|---|---|---|---|---|
| genetic_scheduler_v2.py:200-203 | `criar_cromossomo` stops once the placed count reaches the length of the shrinking free-cell list, so it places at most ten lessons in the twenty-cell week | eleven lessons of one subject on an empty week: ten are placed and ten cells stay empty | place every lesson while a cell is free, that is min(n, 20) lessons | not executed | GridBuild.ChromosomeDropsEleventh | GridBuild.ChromosomeCorrected |

The grid optimiser's run starts, as `executar` does, from agendas placed with the source's guard (`GridEvolution.InitialGrids`, `GridEvolution.Initialize`); `GridEvolution.InitialGridsAsWritten` states that each of them holds min(n, 10) lessons. The corrected guard is `GridBuild.ChromosomeCorrected`, that is `PlaceLessons(..., false)`, and it places min(n, 20).
