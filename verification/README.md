# Verified model of the change workflow and its tools

A Dafny 4.11 model of the repository's own tooling, and proofs of what each part of it is
for. `dafny verify dfyconfig.toml` checks the whole.

| part | files | what is modelled |
|---|---|---|
| the workflow log as processes share it | `LogProtocol`, `LogProtocolProof`, `LogProtocolRuns`, `LogProtocolResults` | a transition system: any number of processes open, lock, check, read, append in two writes, replace by rename, remove, and may be killed between any two steps; an invariant of every interleaving; exclusion, what survives, what each operation returns and when it fails, and that none is ever stuck |
| the log's lines | `WorkflowLog`, `LogConversion` | seqs and formats, the owner's directions, revisits of triages, recorded decisions, and the conversion of an older log |
| the workflow graph | `WorkflowGraph`, `WorkflowRuns` | the table of nodes and exits, derived remedy exits, how a target names a node, entry refusals, and runs that mix exits, remedies, and directions |
| the architecture checker | `Reachability`, `CycleInvariant`, `Cycle`, `Architecture`, `ArchitectureRules` | how edges are formed, the classification's fixed point over project objects, the search for cycles with its mutable index, low, and stack, the layer and scope rules, and what a clean tree then is |
| lock freshness | `Versions`, `ExtrasInUse`, `LockCheck` | specifiers in three values, the least set of extras in use, and the soundness and completeness of an empty report |
| the Helm validation | `HelmTrace`, `Validation`, `Helm` | the run's steps as objects that are re-marked after they are recorded, the volume wait, the replacement of the release, and its end, with every answer of a command or a read left open |
| the image overlay | `ImageTags`, `ValuesTree`, `ValuesReading`, `ValuesLists`, `ImageOverlay` | the indentation-stack reader, trees of block mappings and lists and how they print, what reading makes of every such tree, when a tag in a list is refused, and the overlay built from what is read |
| pruning | `Prune` | vacancy and the deepest-first sweep over a tree of paths |
| history synchronization | `History` | the copy and extension of files, interrupted or not, against a clone that grows |
| costs | `Cost`, `CostReport` | a session's running total and its runs' dollars, in exact arithmetic, and the report's buckets |

Where the source updates an object or loops, the model is a class or a method with the loop
and its invariants; what computes a value is a function. The protocol is a transition
system, since its subject is the interleaving of steps. Text is not parsed: the models
start from what a line, a clause, or a file is read as. Names of packages are taken as
already normalized.

## What is found false, and when

- A round can be entered on an archived change: what a round's join lacks is named without
  an entry guard being checked. From a sound state that is the next step exactly if the
  change is archived and in the join (`WorkflowRuns.ArchivedRoundNext`). Along a run it
  happens only after the owner directed the archived change to an implementation review,
  its triage, the round view, or a validation for one of the first two
  (`WorkflowRuns.ArchivedRoundWasLed`), and every such direction can lead to it
  (`WorkflowRuns.LedBackReachesRound`); `WorkflowRuns.ArchivedRoundHappens` is one run.
- A derived remedy node keeps only the first exit to a target on an occasion, though
  `graph.py` says each remedied exit keeps its guards. A validation keeps every exit it
  remedies but one, the merge's to another pre-closeout review
  (`WorkflowRuns.ValidationKeepsAllButOne`), whose place the triage's exit and its guard
  take (`WorkflowRuns.MergeReviewGuardIsDropped`); the round view keeps all of its
  (`WorkflowRuns.RoundViewKeepsAll`). The fault is in the derived table: the next-step
  computation checks a run's exit again from the exit's own source
  (`next_step.py:527-551`, `next_step.py:928-966`).
- In `unused_direction` a direction can be used by a line naming a step exactly if its node's
  runs are logged, which those of the round view and of the end are not
  (`WorkflowLog.UsableUnlessUnlogged`), so there a direction to the round view stays unused
  (`WorkflowLog.RoundViewDirectionStands`). The next-step computation reads the log's route
  otherwise, and lets such a direction give way to the next run of any step.
- A prefix clause (`==X.*`) compares the version unpadded, so it departs from PEP 440,
  "Version matching", exactly when the version is written shorter than the prefix and is
  the prefix up to zeros (`Versions.PrefixIsUnpadded`). A clause `~=X.Y.Z` departs from
  "Compatible release" exactly when that is so of its prefix and the version is, moreover,
  at least `X.Y.Z` (`Versions.CompatibleDeparts`). Instances are in
  `Versions.ShortVersionMissed`. A one-part `~=`, which PEP 440 does not allow, is read as
  `>=`.
- Of two recorded entries of one dependency only the last is checked against the wheel's
  specifier: a section can be clean while an earlier entry fails it exactly where it
  names something twice (`LockCheck.UnforkedIsMet`, `LockCheck.ForkEscapes`). Of two
  internal wheels of one name only the last one's requests count toward the extras
  (`LockCheck.EveryWheelCounts`, `LockCheck.EarlierWheelIsLost`).
- A Helm run that has touched the release is not brought down exactly when the last listing
  of the release's workloads has a replica count that is no number: the read then raises
  past the scale-down (`HelmTrace.ListingDecides`, `Helm.ValidateHelm`).
- Not every tag inside a list is refused. A dash alone on its line is taken for no item, so
  what is under it is read as entries of the mapping around, and an image there is given a
  path that is not its own (`ValuesLists.LoneDashMisread`); and of a line that begins with
  two dashes the key behind the second is not read. In files with no line of the second
  kind, and none of the first outside another list's items, every tag in a list is refused
  (`ValuesLists.ListedTagsAreRefused`); in any other that is not refused, a tag put there is
  let by (`ValuesLists.DashesLetTagsBy`). What reading makes of any file, with or without
  such lines, is `ValuesReading.ReadIsOfTree`.
- A block scalar that begins a list item, at its dash or behind a key, is not skipped: its
  text is read as lines, and the file refused if one, outside what the text itself seems to
  open as a block scalar, reads as a tag (`ValuesLists.ListedTagsAreRefused`, and for a file
  of one such item exactly then, `ValuesLists.ItemScalarIsRead`).
- The overlay of some tags is right exactly when no tag's path leads to another's
  (`ImageOverlay.Overlay`), which holds of every file that repeats no key
  (`ValuesTree.ImagesApart`).

## Model

| member | source | states |
|---|---|---|
| LogProtocolProof.StepKeepsInv | scripts/change_workflow/log.py:119-334 | every step of every process keeps that locks exclude each other, that a process past its check holds the file the name holds, that a replacement's file is its own, that the log is its effects replayed, and that each append took the next seq and each replacement was handed the whole log |
| LogProtocolProof.CreateKeepsInv | scripts/change_workflow/log.py:246-254 | opening a log that is not there creates it empty and keeps the invariant, whoever else is opening or waiting |
| LogProtocolProof.UnlinkKeepsInv | scripts/change_workflow/log.py:304-315 | removing the log a failed replacement created removes an empty log the name still holds, and shows the same nothing |
| LogProtocolRuns.RunKeepsInv | scripts/change_workflow/log.py:119-334 | the invariant holds in every state of every run |
| LogProtocolRuns.OneExclusiveHolder | scripts/change_workflow/log.py:119-147 | at no point do two processes hold the lock of the file the name holds when one of them holds it exclusively |
| LogProtocolRuns.NobodyElseTouches | scripts/change_workflow/log.py:119-147 | while a process past its check holds the log exclusively, no step of another changes that file, rebinds the name, or takes effect |
| LogProtocolRuns.HolderAlone | scripts/change_workflow/log.py:257-315 | from its check until its own next step the holder's file and the name stay as they were, over any number of others' steps |
| LogProtocolRuns.OnlyCommitsChange | scripts/change_workflow/log.py:257-334 | what the name shows changes only where an append ends, by exactly its numbered line, or where a replacement renames, to exactly its lines; never by a creation, a partial write, a failure, a removal, or a kill |
| LogProtocolRuns.OneEffectPerOperation | scripts/change_workflow/log.py:281-315 | an operation takes effect or fails at most once, and one that failed, or was killed, takes no effect afterwards |
| LogProtocolResults.Linearizable | scripts/change_workflow/log.py:150-315 | whatever an operation returns was decided in one step of its own: a read by what the whole log then was, failing exactly if it was torn; an append failing exactly if the log was torn or held a line of a format not read, and otherwise returning the one line it then added; a replacement returning what it then renamed, or failing with or without the rename |
| LogProtocolResults.ReadsSucceed | scripts/change_workflow/log.py:150-164 | a read during which the log is never torn returns all the lines the log had at one moment of it |
| LogProtocolResults.ReplacementFails | scripts/change_workflow/log.py:281-315 | a replacement fails exactly if a step of its own failed it, or its rename was made and then raised |
| LogProtocolResults.NeverStuck | scripts/change_workflow/log.py:119-147 | a process in an operation can always go on, except to wait for a lock another holds, and nothing but a torn log forces a replacement to fail |
| LogProtocolResults.NoDeadlock | scripts/change_workflow/log.py:119-147 | while any process is in an operation some process can go on |
| LogProtocolRuns.LinesStay | scripts/change_workflow/log.py:257-278 | every line stays in place until a replacement is renamed, and is among the lines that replacement was handed |
| LogProtocolRuns.SeqsIncrease | scripts/change_workflow/log.py:237-243 | seqs are strictly increasing in every state of every run whose replacements keep them so |
| LogProtocolRuns.SeqsIncreaseUnderConversions | scripts/change_workflow/convert.py:424-450 | so they are in every state of every run whose replacements are conversions, the only ones the engine makes |
| LogProtocolRuns.ConversionKeepsAppends | scripts/change_workflow/convert.py:424-450 | a conversion under the lock keeps every line appended before it, as the same run at the same seq |
| WorkflowLog.UnusedMeansStands | scripts/change_workflow/log.py:648-683 | the unused direction is the last of the owner's, if no later line is a run of its node that ended with an exit, each node's runs as the log writes them, though the code compares seqs and not positions |
| WorkflowLog.AppendedToDirection | scripts/change_workflow/log.py:664-683 | what one appended line does to the unused direction: a direction takes its place, a run of its node that took an exit uses it, all else leaves it |
| WorkflowLog.UsedStaysUsed | scripts/change_workflow/log.py:664-683 | a used direction stays used whatever is appended until another is given |
| WorkflowLog.UnfinishedRunsKeepDirection | scripts/change_workflow/log.py:664-683 | a direction stays unused through any number of runs that ended with a question, a block, or a stop |
| WorkflowLog.UsableUnlessUnlogged | scripts/change_workflow/log.py:648-683 | some line naming a step, other than a direction, would use a direction to a node exactly if the node is neither the round view nor the end |
| WorkflowLog.RoundViewDirectionStands | scripts/change_workflow/log.py:648-683 | so a direction to the round view stays unused through any lines that name a step, until another direction |
| WorkflowLog.RevisitMeans | scripts/change_workflow/log.py:500-526 | exactly when a triage can be revisited, and why not: the first run at its seq is a finished triage that names a review, and no later triage names one of them or resumed it |
| WorkflowLog.LaterTriageBarsRevisit | scripts/change_workflow/log.py:500-526 | a later triage of a review, or its resumption, bars revisiting the earlier one |
| WorkflowLog.OneRevisitableTriagePerReview | scripts/change_workflow/log.py:500-526 | of all the triages of one review at most one can be revisited |
| WorkflowLog.RevisitMeansStands | scripts/change_workflow/log.py:529-539 | the direction to revisit that stands is the owner's last, if no later run resumed the triage |
| WorkflowLog.AppendedToRevisit | scripts/change_workflow/log.py:529-539 | what one appended line does to a revisit: a direction opens it, a run resuming the triage closes it, all else leaves it |
| WorkflowLog.DirectionResumesOnce | scripts/change_workflow/log.py:529-539 | in every log with increasing seqs, a direction to revisit that stands for one run resuming the triage stands for no later one |
| WorkflowLog.EachRevisitResumesOnce | scripts/change_workflow/log.py:529-539 | in a log whose resumes of a run were each appended while a direction to revisit it stood, there are never more resumes than directions, and fewer while one stands |
| WorkflowLog.DecisionRecorded | scripts/change_workflow/log.py:592-645 | exactly which decisions are recorded, by the runs they name, who decides, and the entry guards, and as what line |
| WorkflowLog.RecordedDecisionStands | scripts/change_workflow/log.py:592-645 | an accepted direction, once recorded, is the unused one; one to revisit opens the revisit and leaves the unused direction as it was |
| LogConversion.DecisionNames | scripts/change_workflow/convert.py:119-122 | an older decision's word and kind become a target of exactly the node they name |
| LogConversion.ReturnNames | scripts/change_workflow/convert.py:66-130 | an older return gains a target of the node its phase returns to, and none for another phase |
| LogConversion.ProseIsKept | scripts/change_workflow/convert.py:123-130 | an older run's prose is kept, as its message or after it, and its target is left |
| LogConversion.ConvertsOnlyOlder | scripts/change_workflow/convert.py:178-209 | exactly which logs are converted and why each other is refused, and what the conversion's own line says |
| LogConversion.ConversionKeepsLines | scripts/change_workflow/convert.py:178-209 | a written conversion is the old lines rewritten in place with their seqs, then new ones with larger seqs, all current |
| LogConversion.ReferencesStillName | scripts/change_workflow/convert.py:178-209 | at every seq the written log, its new lines included, has the same run as before, whether the first or the last there is meant, so every `resolves`, `reads`, and `resumes` still names what it named |
| LogConversion.SecondConversionRefused | scripts/change_workflow/convert.py:178-209 | a converted log is refused a second conversion whatever else the change holds |
| LogConversion.ConvertedDirectionStands | scripts/change_workflow/convert.py:365-388 | the direction confirmed with a conversion is then the unused one |
| WorkflowGraph.NodeIsNamed | scripts/change_workflow/graph.py:489-533 | a target names a node exactly by the fields that node is named by, a validation by another node's |
| WorkflowGraph.ExitsLeadTo | scripts/change_workflow/graph.py:369-418 | the table read by target: where each exit to a node comes from, when it is taken, and what guards it |
| WorkflowGraph.RemediedExits | scripts/change_workflow/graph.py:421-434 | a remedy's exits are exactly those it remedies or whose join it supplies, to each target on each occasion once |
| WorkflowGraph.AcceptedEntry | scripts/change_workflow/graph.py:536-563 | an accepted entry names a node whose guards are met, and a directed validation's target is an accepted entry too and no validation |
| WorkflowGraph.EntryMeans | scripts/change_workflow/graph.py:536-563 | exactly which entries are accepted, by the archive, the reviews awaiting triage, and, for a directed validation, the target it is for; and which name no node |
| WorkflowGraph.DoneIsNeverDirected | scripts/change_workflow/graph.py:341-350 | no direction, however nested, reaches the end |
| WorkflowRuns.RunsRespectTheArchive | scripts/change_workflow/graph.py:319-350 | along every run mixing exits, remedies, repairs, and directions, with entry guards checked on exits and directions only: design, plan, and merge only on an unarchived change, closeout's review, triage, and cleanup only on an archived one, and the end only from cleanup |
| WorkflowRuns.ArchivedAtCloseout | scripts/change_workflow/graph.py:409-410 | no step leaves the archive, and only one from closeout enters it |
| WorkflowRuns.DirectedValidationLeads | scripts/change_workflow/graph.py:536-563 | a directed validation can go on to the node it is for, and to no other by that direction |
| WorkflowRuns.ArchivedRoundNext | scripts/change_workflow/next_step.py:1256-1290 | the next step can be a round of an archived change exactly if the change is archived and in the round's join |
| WorkflowRuns.ArchivedRoundWasLed | scripts/change_workflow/next_step.py:1046-1066 | along a run a round is entered on an archived change only after the owner directed the archived change back into implementation |
| WorkflowRuns.LedBackReachesRound | scripts/change_workflow/next_step.py:1046-1066 | and every such direction can lead to one with no other direction after it |
| WorkflowRuns.ArchivedRoundHappens | scripts/change_workflow/next_step.py:1256-1290 | one run that enters a round on an archived change |
| WorkflowRuns.ArchiveGuardsNeverBlock | scripts/change_workflow/graph.py:369-443 | on runs of exits alone the archive guards hold wherever the run leads, though none is checked |
| WorkflowRuns.CloseoutFollowsTriageAndMerge | scripts/change_workflow/graph.py:369-418 | closeout is entered only after a pre-closeout triage and then a merge, with nothing but the merge and its validations between |
| WorkflowRuns.MergeIsRepaired | scripts/change_workflow/graph.py:299-306 | exactly the merge's exits to closeout and to another review send a failed validation back to the merge |
| WorkflowRuns.MergeReviewGuardIsDropped | scripts/change_workflow/graph.py:421-434 | a validation's exit to another pre-closeout review has the triage's guard alone |
| WorkflowRuns.ValidationKeepsAllButOne | scripts/change_workflow/graph.py:421-434 | an exit a validation remedies is among its own, guards and all, exactly if it is not the merge's to another pre-closeout review |
| WorkflowRuns.RoundViewKeepsAll | scripts/change_workflow/graph.py:421-434 | every exit the round view remedies is among its own, guards and all |
| WorkflowRuns.ValidationExits | scripts/change_workflow/graph.py:421-443 | all a validation's exits, by where each leads, its occasion, and its guards |
| WorkflowRuns.RoundViewExits | scripts/change_workflow/graph.py:421-443 | all the round view's exits |
| Architecture.EdgesJoinDistinctProjects | scripts/architecture.py:266-271 | every edge joins two known projects and none a project to itself |
| Architecture.BuiltEdge | scripts/architecture.py:418-440 | an edge is built exactly if some project declares it, or can be read and imports a package, outside the standard library, that its target is the last to ship |
| Architecture.KnownIsLeast | scripts/architecture.py:293-312 | what a package is to know is below every assignment of scopes that includes its own and is closed along compositions |
| Architecture.KnownIsSaturated | scripts/architecture.py:293-312 | and is itself closed: a composition knows every mechanism and dispute its targets know |
| Architecture.ReadAll | scripts/architecture.py:275-292 | each project gets the layer and the scope its override, or else its path, states |
| Architecture.WidenFamilies | scripts/architecture.py:297-303 | a composition naming no domain gets every domain of its families, and no other package changes |
| Architecture.Pass | scripts/architecture.py:304-312 | one pass, in any order, goes no further than what is to be known, and comes strictly nearer it or changes nothing and is closed |
| Architecture.Classify | scripts/architecture.py:275-312 | classification ends, and each package's scope is its own, widened by family, with exactly the mechanisms and disputes reachable through chains of compositions |
| Cycle.CycleSearch.Connect | scripts/architecture.py:525-546 | a call numbers its node and everything the node newly reaches, keeps what was numbered and stacked, and pops only whole components |
| Cycle.CycleSearch.PopComponent | scripts/architecture.py:538-546 | what is popped when a node's low is its own index is the node's whole component, reported if it has two members or more |
| Cycle.CycleSearch.Run | scripts/architecture.py:513-549 | what is reported is exactly the components of two or more, each once, no two sharing a member |
| CycleInvariant.AboveIsScc | scripts/architecture.py:525-546 | what stands on the stack from such a node up is one strongly connected component |
| CycleInvariant.AllComponentsFound | scripts/architecture.py:547-549 | once every node with an edge is numbered, the popped components of two or more are all there are |
| ArchitectureRules.LayerFindings | scripts/architecture.py:502-510 | the layer rule reports exactly the edges that lead up between classified packages, and fails exactly when such an edge names a layer not in the table |
| ArchitectureRules.CycleFindings | scripts/architecture.py:513-554 | the cycle rule reports exactly the components of two or more of the same-layer graph, disjoint and each of one layer |
| ArchitectureRules.CleanIsAcyclic | scripts/architecture.py:492-554 | with everything classified and neither rule reporting, no package reaches itself, across layers |
| ArchitectureRules.CleanTreeIsOrdered | scripts/architecture.py:492-554 | and the whole dependency graph has a topological order |
| ArchitectureRules.BuiltIsFormed | scripts/architecture.py:415-445 | the edges a tree is built with join its own packages, none to itself, which the rules' results ask for |
| ArchitectureRules.OrderRules | scripts/architecture.py:492-554 | the three rules run: a layer report and a cycle report are empty exactly when their rules hold, and with all three empty the tree has a topological order |
| ArchitectureRules.ClassifyGivesClassified | scripts/architecture.py:288-312 | what classification ensures is what the scope results ask for |
| ArchitectureRules.ScopeBoundsEverythingReached | scripts/architecture.py:583-595 | in a clean tree everything a package that is no composition reaches knows nothing outside that package's scope |
| ArchitectureRules.CompositionNeverLacksShared | scripts/architecture.py:583-595 | a scope finding on a composition never names a mechanism or a dispute |
| Versions.Satisfies | scripts/check_locks.py:121-150 | the loop over the clauses gives the specifier's meaning |
| Versions.MeaningIs | scripts/check_locks.py:121-150 | met exactly when the version and every clause parse and every clause holds; unmet exactly when the first clause that does not both parse and hold parses |
| Versions.ComparesMeans | scripts/check_locks.py:139-146 | each comparison is that of the order by the first differing part, absent parts zero, whatever the lengths |
| Versions.TotalPreorder | scripts/check_locks.py:116-118 | the order is a total preorder across releases of any lengths |
| Versions.TrailingZeros | scripts/check_locks.py:116-146 | ordered clauses and plain equalities ignore trailing zeros on either side |
| Versions.CompatibleRelease | scripts/check_locks.py:142-143 | `~=X.Y.Z` means `>=X.Y.Z` with `==X.Y.*` |
| Versions.PrefixIsUnpadded | scripts/check_locks.py:131-138 | a prefix match is right exactly unless the version is the prefix shortened by zeros |
| Versions.CompatibleDeparts | scripts/check_locks.py:142-143 | `~=` of two parts or more is met only as PEP 440 means it, and departs from it exactly if its prefix is the version lengthened by zeros and the version is at least the target |
| ExtrasInUse.VisitWheel | scripts/check_locks.py:185-191 | one wheel's requests, its own extras counted as the shared set has them, add only what is needed, and nothing only if all are served |
| ExtrasInUse.Compute | scripts/check_locks.py:163-193 | the extras in use are the least set that has the lock's requests and is closed under the wheels' requirements, whatever the order of visits |
| LockCheck.MetadataProblems | scripts/check_locks.py:243-271 | a package's report has exactly the unrecorded and no longer required dependencies of its sections, and the requirements that the version locked does not meet or cannot be shown to: that of the last entry of the name, or, where it has none, the only one the lock has |
| LockCheck.VerdictIs | scripts/check_locks.py:260-270 | a requirement is met, unmet, or unverifiable exactly as its specifier says of the version on the last entry of its name, or, where that has none, of the only version locked; with neither it is unverifiable |
| LockCheck.LockProblems | scripts/check_locks.py:235-240 | the internal packages' report is exactly theirs under the least extras |
| LockCheck.NothingReportedMeans | scripts/check_locks.py:243-271 | nothing is reported exactly when every section in use records what its wheel requires, no more, resolved to versions that meet the specifiers |
| LockCheck.ActiveRequirementIsMet | scripts/check_locks.py:243-271 | so each unmarked requirement active under the extras is recorded, and with a specifier is resolved to a version that meets it |
| LockCheck.UnforkedIsMet | scripts/check_locks.py:253-263 | where a section names each dependency once, a clean one has every recorded version met |
| LockCheck.ForkEscapes | scripts/check_locks.py:253-263 | wherever a section names one twice, it can be clean with a recorded version no requirement allows |
| LockCheck.EveryWheelCounts | scripts/check_locks.py:235-236 | with internal names distinct, every wheel's requirements count toward the extras |
| LockCheck.EarlierWheelIsLost | scripts/check_locks.py:235-236 | wherever two internal packages share a name, the earlier one's requests can be lost |
| HelmTrace.SafeMeans | scripts/validate_slice.py:1141-1166 | a run is safe exactly when each deploy or install follows a read that listed none of the release's volumes, with no deletion or uninstall between |
| HelmTrace.TouchedMeans | scripts/validate_slice.py:1045-1138 | the release is touched exactly if something was scaled down, deleted, uninstalled, or deployed |
| HelmTrace.PendingMeans | scripts/validate_slice.py:1225-1233 | a test pod is left running exactly if its test was run and nothing since read its exit status or told it to stop |
| HelmTrace.ListingDecides | scripts/validate_slice.py:1343-1348 | what the last listing answers decides whether the release is brought down: always, but for an unreadable one |
| HelmTrace.RecordingKeeps | scripts/validate_slice.py:840-842 | what is recorded afterwards changes nothing of that |
| Validation.Validation.Run | scripts/validate_slice.py:475-496 | a step is recorded as passed exactly if its command passed and the checkout is unchanged, and the run then passes exactly if it did before and the step passed |
| Validation.Validation.Record | scripts/validate_slice.py:453-461 | recording a failure, and nothing else, fails the run |
| Helm.WaitForNoVolumes | scripts/validate_slice.py:1141-1166 | the wait ends, and succeeds only after listings of none of the release's volumes and, where asked for, of its tests'; the run then passes exactly if the wait succeeded and it passed before |
| Helm.DeleteVolumes | scripts/validate_slice.py:1117-1138 | the same of deleting the pods and volumes, each asked for and done, and waiting |
| Helm.DeployOrReinstall | scripts/validate_slice.py:1067-1087 | with the volumes read as gone beforehand, each deploy or install is safe, and the run then passes exactly if the release was deployed, at once or anew after a refused upgrade, and it passed before: the refusal itself, re-marked, is no failure, and is all that the release is uninstalled for |
| Helm.ReplaceRelease | scripts/validate_slice.py:1045-1103 | a release that came up was last deployed after what was up was scaled down, its pods and volumes deleted, and its secrets made; the deploy passed, it was resumed, and each workload listed rolled out; the run passes as before. One that did not has failed the run, unless a listing could not be read |
| Helm.TestPod | scripts/validate_slice.py:1194-1233 | with the checkout unchanged the run still passes only if the pod's test was run and passed and its own exit status was then read as 0, by re-marking the recorded step; a failed run stays failed |
| Helm.AfterScenarios | scripts/validate_slice.py:1326-1348 | whatever the evidence, the release is brought down unless its last listing cannot be read |
| Helm.ValidateHelm | scripts/validate_slice.py:768-837 | the whole part: a run that passes built every part, rendered with no check skipped, replaced the release and saw it come up, and, unless the checkout was read to have changed, ran the scenarios' pod and every payments check listed, each to its own exit status of 0 after the last deploy; every part leaves no test pod that it neither saw exit nor told to stop; and once it has touched the release it brings it down exactly unless the last listing cannot be read, which also keeps it from finishing |
| Helm.CiBaseline | scripts/validate_slice.py:675-693 | a baseline is found only once its fetch passed; failures of an unneeded search become warnings, and the run then passes exactly if it did before; otherwise every step stays as recorded |
| ImageTags.Tags | scripts/change_namespace.py:81-126 | the reader's loop, with its inner pops, computes the reading of the lines one by one |
| ValuesReading.ReadIsOfTree | scripts/change_namespace.py:92-126 | a printed tree, with any noise lines, indents, block scalars, and lists, lone and second dashes included, is refused exactly when reading comes to a tag in a list, and otherwise gives exactly the images of the tree with its lists gone and what is under a lone dash in the mapping around |
| ValuesLists.ListedTagsAreRefused | scripts/change_namespace.py:81-90 | a refused file has a tag in a list or, in a text that begins an item, a line that reads as one; with no dash alone on its line outside lists and no line of two dashes every such file is refused; and with no lone dash one not refused gives exactly its images' tags |
| ValuesLists.DashesLetTagsBy | scripts/change_namespace.py:105-112 | any other file that is not refused, with an image under each such lone dash and a tag behind each second one, has a tag in a list and is not refused either |
| ValuesLists.LoneDashMisread | scripts/change_namespace.py:105-124 | an image under a list's lone dash is found at the path of the list's key |
| ValuesTree.ImagesAreTheMappings | scripts/change_namespace.py:84-90 | where no key repeats, those are exactly the mappings with `name: arkhai` and a `tag`, each with that tag |
| ValuesLists.ItemScalarIsRead | scripts/change_namespace.py:105-116 | a file of one list item that is a block scalar, or whose first key has one, is refused exactly if a line of its text reads as a tag |
| ValuesTree.ImagesApart | scripts/change_namespace.py:125-126 | where no key repeats, no image's tag path leads to another's |
| ImageOverlay.PutPuts | scripts/change_namespace.py:134-137 | putting a tag where nothing is in the way puts it at its path and changes no other text |
| ImageOverlay.Overlay | scripts/change_namespace.py:129-138 | the overlay holds at exactly the tags' paths each tag with the suffix, exactly when no path leads to another |
| ImageOverlay.ImageOverlay | scripts/change_namespace.py:129-138 | for every printed file that repeats no key, with no tag in a list nor a text there that reads as one, and no dash alone on its line outside lists, the overlay's texts are exactly its images' tags with the suffix |
| Prune.VacantMeans | scripts/prune_tombstones.py:68-81 | a directory is vacant exactly when every file below it is in a directory to skip |
| Prune.RemovalKeepsVacancy | scripts/prune_tombstones.py:118-141 | removing vacant directories, in any order, changes for none left whether it is vacant |
| Prune.Tree.Run | scripts/prune_tombstones.py:104-141 | the run leaves exactly the tree without its tombstones and without the directories then vacant |
| Prune.RunRemoves | scripts/prune_tombstones.py:56-141 | what goes is exactly the tombstones with no name to skip on their path, and whole each directory below a source root, with none on its own, of which every file is such a tombstone or inside a directory to skip |
| Prune.NoneLeftVacant | scripts/prune_tombstones.py:118-141 | no directory below a source root and outside those to skip is left vacant |
| Prune.OnlyTombstonesGo | scripts/prune_tombstones.py:56-65 | outside directories to skip, a file goes exactly if it is a tombstone whose own name is none to skip |
| Prune.PruneTwice | scripts/prune_tombstones.py:104-141 | a second run changes nothing |
| History.Sync.One | scripts/change_workflow/history.py:166-190 | one file is copied, extended, left, or refused as the two copies stand, and nothing else changes |
| History.Sync.Run | scripts/change_workflow/history.py:162-206 | every workspace file is kept or made longer; a sync that refuses nothing leaves no difference; without write errors the refused are exactly the differing, and syncing any file again changes nothing |
| History.WorkspaceOnlyGrows | scripts/change_workflow/history.py:162-191 | over any run of growth, new files, and syncs interrupted anywhere, from any workspace, each workspace file's earlier contents are a prefix of its later ones |
| History.NothingRefused | scripts/change_workflow/history.py:162-191 | where the workspace begins as syncs leave it, no file is ever refused but one not regular in the clone |
| Cost.ReadLoggedTotal | scripts/change_workflow/cost.py:117-123 | the search from the end finds the total of the latest run that recorded one |
| Cost.MeasuredBefore | scripts/change_workflow/cost.py:126-147 | a run is measured against that total, its dollars shared exactly if the last run left no total or turns were gained |
| Cost.RunCost | scripts/change_workflow/cost.py:28-59 | a run's dollars are the last total less the one before, told only if it did not fall |
| Cost.MeasuredCost | scripts/change_workflow/cost.py:150-181 | exactly when a run records dollars, a total of its own, the total it found, or none |
| Cost.DollarsAreTheTotal | scripts/change_workflow/cost.py:28-181 | a session's recorded dollars sum to its latest logged running total, whatever its runs reported |
| Cost.TotalNeverFalls | scripts/change_workflow/cost.py:28-181 | and that total never decreases |
| Cost.NextLine | scripts/change_workflow/cost.py:126-181 | measuring a run and logging its cost continues a session that these hold of |
| CostReport.Rounds | scripts/change_workflow/cost_report.py:73-95 | each run is labelled by the rounds recorded before it, or closeout once a pre-closeout review finished |
| CostReport.Bucket.Add | scripts/change_workflow/cost_report.py:53-65 | a bucket grows by exactly one run's figures, its dollars in one end of the range |
| CostReport.Family.Add | scripts/change_workflow/cost_report.py:129-136 | the key's bucket, made if there was none, gets the run, and no other bucket changes |
| CostReport.GroupsSumToAll | scripts/change_workflow/cost_report.py:122-137 | groups that are distinct and leave nothing out sum to the whole |
| CostReport.MakeReport | scripts/change_workflow/cost_report.py:122-143 | the buckets by step, by round, and by cache each hold their own runs and each sum to the total, which is all the runs cost |

## Left out

- Torn lines: a process killed between the two writes of an append leaves a line the model marks torn, and later reads and appends fail on it; nothing prevents one.
- An inode in use is never given to another file, and locks are those of one machine; that every waiter is granted its lock in the end is not shown.
- Malformed lines other than a torn one, a log line's JSON, and the directory of the log being moved.
- The readings by which the next step is computed, its reasons, held guards, and routes other than exits, remedies, repairs, and directions; the wrapper that runs a step, and the schema of an outcome. Every reading of a guard is left open.
- WorkflowLog.DirectionResumesOnce: does not model a run resumed twice at once, since a resume reads the log before its run and appends after it.
- WorkflowLog.UnusedMeansStands: is about `unused_direction`, which a review's waiver reads, and not about the route the next step is computed from.
- The direction a conversion proposes, and reading a triage file: the model takes the direction confirmed.
- The architecture rules other than unclassified, layer, cycle, and scope; reading TOML and Python; the sites a finding lists; the recursion limit of the cycle search.
- Reading version and requirement text, and the checks of a lock that compare strings: revision, registry, pinned version, the wheel's presence, and uv's own check.
- LockCheck.MetadataProblems: does not model the order in which problems are listed.
- Helm.Preflight: does not model which checks are made, only that they record notes, warnings, and at most one failure that stops the part.
- Helm.WaitForNoVolumes: takes it that a sleep of two seconds lets the clock pass by as much, which is what makes the wait end.
- Helm.ValidateHelm: does not model errors of the local file system, nor a checkout that changes and changes back between two checks.
- Listing lines without three columns, which `_workloads` passes over: the model's listings have none.
- The sampling thread of the Helm part, its evidence files, and the local and continuous-integration parts but for the baseline's re-marking.
- ImageOverlay.Overlay: builds its nested mappings as values rather than in place, so it does not model aliasing between them; `image_overlay` shares none.
- ImageTags.Tags: does not model the line number a refusal names.
- ValuesReading.ReadIsOfTree: does not model YAML beyond block mappings, lists, and scalars. Keys are plain words directly before their colon, so a quoted `tag`, which the reader does not know, is not one of the model's; flow mappings and lists, anchors, and plain values that go on over further lines are left out.
- Shortened namespace names and their hashes.
- Prune.Tree.Run: does not model symbolic links, nor the listing it prints.
- History: two syncs at once, which could each append the same bytes; which files are a change's history; times and permissions of a copy.
- Cost.RunCost: does not model the rounding of dollars to six places, nor the sums of turns and tokens.
- Rendering, argument parsing, and everything the tools only pass to git, gh, kubectl, helm, docker, or uv.
