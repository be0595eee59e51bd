# Moonlightbox: a verified model of its algorithmic and protocol cores

Moonlightbox reconstructs people and relationships from chat histories with the help of language models. This project
models seven parts of its backend in Dafny and proves what they are for.

* **Event clustering** (`Ranking`, `RankingIndex`, `RankingMerge`). Ranked event candidates are merged greedily under
  complete link. The code finds clusters through semantic, evidence and month buckets and a constant-time summary test;
  the model proves this index equal to the simple rule it speeds up, and says exactly where it is not.
* **Sensitive-content recovery** (`MaskedMessages`, `MaskSearch`, `MaskRecovery`, `MaskBudget`, `MaskElimination`). When
  a provider rejects a request, a budgeted bisection looks for a smallest mask over nested messages. The provider is an
  arbitrary oracle; the bisection refines the plain search that unmasks one unit after another.
* **Inference scheduler** (`Scheduler`, `SchedulerRuns`, `SchedulerAnswers`, `SchedulerObject`). A single worker serves a
  priority queue with preemption, cancellation and shutdown. Every section under the lock and every queue or future
  operation is one step; the results hold in every interleaving. The class ties the object's methods to those steps.
* **Agent loop** (`AgentTurns`, `AgentCompaction`, `AgentLoop`, `AgentLoopRuns`, `AgentLoopTheorems`, `AgentLoopReasons`,
  `AgentLoopBatch`, `AgentLoopCalls`, `AgentLoopSteady`, `AgentLoopLongest`, `AgentLoopAllowance`). The graph of guard,
  model, plan, execute, evaluate and prepare nodes, with arbitrary model answers, tool results, clocks, cancellation,
  compactors and input refreshers.
* **Node metrics and the acceptance gate** (`NodeMetrics`, `NodeAcceptance`). Greedy one-to-one matching, precision,
  recall, F1, and the gate that scores a reviewed packet.
* **JSON handling** (`JsonScan`, `Schema`, `SchemaUnions`, `SchemaExample`). The scanner that cuts a JSON object out of an
  answer, the rewrite of tagged `oneOf` unions to `anyOf`, and the generator of minimal examples.
* **Windows and review prompts** (`Windowing`, `ReviewPrompt`). Sessions by time gaps, overlapping windows under a
  character budget, and the packing of follow-up messages into a prompt of bounded size.

`Common` holds options, filtered sequences and the stable sort. Verify the project with `dafny verify dfyconfig.toml`.

## What the proofs found

The code is modelled as it is; where it does less than one would expect, the exact condition is proved.

* The merge index is exact for positive thresholds only, and only if months never run against time. Time stamps written
  at different offsets can put one instant into two months, and the month filter then hides a fitting cluster.
* A recovery over n references and r free texts needs 2n + r trials for a minimal mask, or 1 + r when n is 0; the
  default of 16 is enough exactly when that number is at most 16.
* After a recovery the handler does not learn a masked reference that another handler had stored in the registry; it
  shows that text again until a new handler is built.
* `cancel` may answer true and the result still be delivered, exactly when the worker has passed its final check. A
  REALTIME submit does not preempt a request that is popped but not yet admitted.
* Capacity recoveries cost three extra visits each. For all that the loop allows its compactors and refreshers to do,
  the recursion limit `max(32, 8L + 16)` covers every run only for step limits up to 3. Up to 14 a run that exceeds it
  needs two effective recoveries in one model step; with a trimming compactor whose notes list what was read, that takes
  an input that arrives between the two while no tool turn is kept. Without such inputs the limit covers every run with
  a step limit up to 14, and not from 15 on. The runtime's compactors are of this kind and its refresher only rewrites
  the task; the refresher that appends inputs belongs to the node investigation, whose compactor is another. The step
  limits set in `agent_runtime/policy.py` are 48 and more. A limit of 0 counts as unset.
* A trim with no tool turn to keep drops the inputs that were appended since the trim before. The compactor of the node
  investigation appends its note behind the turns, so that its notes pile up at each trim.
* Tool calls in an output that is not a message leave replies that answer nothing in the history.
* `input_context_limit` ends a run as failed when it comes from the context check, but as blocked when it comes from the
  capacity check.
* Rounding to six digits flips the acceptance gate exactly for values between the threshold and a boundary at most half
  a millionth away; for packets of legal size it never does at thresholds of up to four decimals, such as the default.
* The `oneOf` rewrite says it needs disjoint, required tags. It also needs variants restricted to objects and no `anyOf`
  beside the union, and it adds the required tag instead of checking it; three counterexamples show each condition
  is needed.
* A window that repeats a message id, in its evidence or after the candidate, puts it into the review prompt twice.
* The final sort of the merged representatives never changes their order, whatever the threshold and the time stamps.

## Model

| member | source | states |
|---|---|---|
| RankingIndex.IndexedIsNaive | backend/moonlightbox/events/ranking.py:122-197 | For every threshold in (0, 1] and every list whose months never run against time, the bucket-, prefilter- and month-indexed placement yields the same clusters, in the same order with the same members, as "first cluster all of whose members are the same event". |
| RankingIndex.IndexedExactly | backend/moonlightbox/events/ranking.py:122-197 | For any stamps at all, the index and the simple rule agree after every candidate if and only if each candidate shares a calendar month with the cluster the simple rule chooses. |
| RankingIndex.ExactThresholds | backend/moonlightbox/events/ranking.py:154-172 | Over the thresholds 0 to 1, index and simple rule agree on all one-calendar lists exactly when the threshold is positive. |
| RankingIndex.ThresholdZeroHides | backend/moonlightbox/events/ranking.py:140-161 | A two-candidate list on which, at threshold 0, the index separates what the simple rule joins. |
| RankingIndex.MixedCalendarsHide | backend/moonlightbox/events/ranking.py:254-276 | A two-candidate list stamped at different offsets on which, at any positive threshold, the month filter hides the fitting cluster. |
| RankingIndex.PrefilterPasses | backend/moonlightbox/events/ranking.py:154-161 | The overlap count, which counts evidence of all members, never rejects a cluster whose representative is similar enough. |
| RankingIndex.OnlyMonthsHide | backend/moonlightbox/events/ranking.py:128-161 | A cluster all of whose members are the same event is listed exactly when it shares a month: no other device hides one. |
| RankingIndex.FastIsPairwise | backend/moonlightbox/events/ranking.py:279-298 | At every accepted threshold, on a listed complete-link cluster, the constant-time summary test equals the test against every member, including empty evidence, inverted ranges and the never-checked event type. |
| RankingIndex.FirstsAgree | backend/moonlightbox/events/ranking.py:162-172 | For one candidate the indexed choice is the simple rule's choice if and only if that choice passes the month filter. |
| RankingIndex.ListedHasType | backend/moonlightbox/events/ranking.py:140-161 | Every member of a listed cluster has the candidate's event type, though no branch compares types. |
| RankingIndex.EmptyClusterIsUniform | backend/moonlightbox/events/ranking.py:226-251 | A complete-link cluster with an evidence-free member is uniform in meaning: evidence alone never joins it. |
| RankingMerge.CandidateCluster.constructor | backend/moonlightbox/events/ranking.py:175-183 | A new cluster holds its one candidate and a correct summary. |
| RankingMerge.CandidateCluster.Append | backend/moonlightbox/events/ranking.py:301-313 | Appending keeps the four summary fields equal to what a scan of all members would give. |
| RankingMerge.CandidateCluster.Fits | backend/moonlightbox/events/ranking.py:279-298 | The test on the summary fields is the specified fast test of the members. |
| RankingMerge.CountOverlaps | backend/moonlightbox/events/ranking.py:140-153 | The counting loop over evidence buckets counts, per cluster in month, the candidate's evidence that some member of its type carries. |
| RankingMerge.CandidateIds | backend/moonlightbox/events/ranking.py:127-161 | The buckets yield exactly the identifiers of the listed clusters. |
| RankingMerge.ChooseCluster | backend/moonlightbox/events/ranking.py:162-174 | The ascending scan chooses the first listed cluster that fits, or a new one. |
| RankingMerge.MergeOne | backend/moonlightbox/events/ranking.py:127-197 | One candidate's turn: clusters and the three bucket tables again describe the specified groups. |
| RankingMerge.MergeRankedCandidates | backend/moonlightbox/events/ranking.py:112-202 | Rejects thresholds outside 0 to 1; otherwise returns one representative per cluster of the code. Written out, without the model's order or similarity: a representative has the highest total of its cluster, of equals the earliest start, of equals a key that is not after; representatives come in that order; any two members of a cluster have one type, ranges that touch and equal meaning or enough evidence in common. Ties keep the input order. For positive thresholds on one-calendar input the clusters are the simple rule's, and every representative is another event than some member of each earlier cluster. |
| RankingIndex.ClusteringTheorem | backend/moonlightbox/events/ranking.py:122-202 | For every input and every accepted threshold, of the clusters the code builds: each candidate is in exactly one, members are pairwise the same event, heads are rank-minimal and already in rank order (the last sort changes nothing), candidates level in rank keep the input order, and each head was turned away by every earlier cluster as it then stood. |
| RankingIndex.TurnedAwayExactly | backend/moonlightbox/events/ranking.py:127-172 | At a positive threshold a cluster turned a candidate away if and only if the candidate differs from some member, or shared no month with the members of the time. |
| RankingIndex.IndexedGrown | backend/moonlightbox/events/ranking.py:127-197 | At every accepted threshold the indexed code only ever places a candidate into a cluster all of whose members are the same event, or into a new one. |
| Ranking.GrownIsSound | backend/moonlightbox/events/ranking.py:122-202 | What any clustering keeps that places ranked candidates one by one into fitting or new groups, whichever fitting group is chosen. |
| Ranking.SimpleRuleTheorem | backend/moonlightbox/events/ranking.py:226-251 | The simple rule's clusters keep all this, and each head differs from some member of every earlier cluster. |
| Ranking.SortKeepsTies | backend/moonlightbox/events/ranking.py:122 | Parts of the ranked list keep candidates of one rank in their input order. |
| Ranking.CommonInstant | backend/moonlightbox/events/ranking.py:226-251 | The members of a complete-link cluster share an instant if and only if no member's range is inverted. |
| Ranking.RankLeqTotalPreorder | backend/moonlightbox/events/ranking.py:335-340 | The rank key orders all candidates totally, so the stable sort is well defined. |
| Ranking.RankLeqExactly | backend/moonlightbox/events/ranking.py:335-340 | The rank order is: higher total, then earlier start, then a key that is equal, a prefix, or smaller at the first differing character. |
| Ranking.LevelExactly | backend/moonlightbox/events/ranking.py:335-340 | Candidates that tie in rank agree in total, start and key. |
| Ranking.SameEventExactly | backend/moonlightbox/events/ranking.py:226-251 | Two candidates are one event if and only if their types agree, their ranges touch, and their meaning is equal or the ids in both are at least the asked share of the ids in either, none of none counting as 0. |
| RankingIndex.InMonthsExactly | backend/moonlightbox/events/ranking.py:254-276 | A cluster passes the month filter if and only if some member of the candidate's type shares a month with it, spans read in either direction. |
| MaskedMessages.MaskCompose | backend/moonlightbox/agent_runtime/sensitive_mask.py:79-148 | Masking by (A, R1) and then by (B, R2) is masking by the unions. |
| MaskedMessages.MaskTouchesOnlySelected | backend/moonlightbox/agent_runtime/sensitive_mask.py:129-148 | For every list and selection, each message that is not at a selected position and mentions no selected reference comes back unchanged, whatever happens to the others. |
| MaskedMessages.MaskObjectTouchesOnlySelected | backend/moonlightbox/agent_runtime/sensitive_mask.py:79-116 | Inside a partly masked object only the contents of selected entries, the chunks of hit fragments and, when a fragment is hit, the context are replaced; unselected entries, other chunks and everything else stay. |
| MaskedMessages.ObjectFixedExactly | backend/moonlightbox/agent_runtime/sensitive_mask.py:91-116 | Masking changes an object if and only if it still shows something selected. |
| MaskedMessages.CollectAfterMask | backend/moonlightbox/agent_runtime/sensitive_mask.py:151-182 | Collecting candidates after masking gives the original candidates, in order, without the masked ones. |
| MaskedMessages.NothingLeftToMask | backend/moonlightbox/agent_runtime/sensitive_mask.py:151-182 | After masking every candidate there is none left. |
| MaskedMessages.MaskingIsMonotone | backend/moonlightbox/agent_runtime/sensitive_mask.py:129-148 | For a provider that objects to fixed visible texts, masking more never turns an acceptable list into a rejected one. |
| MaskRecovery.MaskJsonObject | backend/moonlightbox/agent_runtime/sensitive_mask.py:91-116 | The loops over entries and fragments, with hits, counts and the context flag, compute the specified object and count something exactly when it differs. |
| MaskRecovery.MaskMessages | backend/moonlightbox/agent_runtime/sensitive_mask.py:129-148 | The message loop computes the specified masked list. |
| MaskRecovery.CollectCandidates | backend/moonlightbox/agent_runtime/sensitive_mask.py:151-182 | The collecting loops, with their seen-set, return the units; what these are is stated by RefUnitsExact. |
| MaskedMessages.RefUnitsExact | backend/moonlightbox/agent_runtime/sensitive_mask.py:158-182 | For every list: a reference is a unit if and only if some JSON message has an entry with it and a content not yet masked, in its own messages or in those of one of its fragments; and each is listed once. |
| MaskRecovery.RecoverySearchesExactly | backend/moonlightbox/agent_runtime/sensitive_mask.py:228-248 | A recovery reaches a search if and only if there is such an entry or a free text, and masking them all is accepted. |
| MaskRecovery.SteadyRecoverySucceeds | backend/moonlightbox/agent_runtime/sensitive_mask.py:228-289 | From a steady provider a recovery succeeds if and only if there is something to mask and masking it all is accepted. |
| MaskRecovery.TrialExtendsView | backend/moonlightbox/agent_runtime/sensitive_mask.py:233-243 | Every trial sends the handler's own view of the list with the trial's mask laid over it. |
| MaskElimination.SearchIsOneByOne | backend/moonlightbox/agent_runtime/sensitive_mask.py:249-274 | With trials enough and a steady, monotone provider, the bisection ends on the very mask that unmasking one unit after another would find, references in alphabetical order and then free texts. |
| MaskElimination.RecoveryIsOneByOne | backend/moonlightbox/agent_runtime/sensitive_mask.py:228-274 | So does a whole recovery of a message list. |
| MaskElimination.SortedRefsInOrder | backend/moonlightbox/agent_runtime/sensitive_mask.py:250-251 | References are tried in alphabetical order, character by character. |
| MaskRecovery.SearchMask | backend/moonlightbox/agent_runtime/sensitive_mask.py:252-274 | The stack loop and the linear loop compute the specified search and the trials it spends. |
| MaskSearch.BudgetExact | backend/moonlightbox/agent_runtime/sensitive_mask.py:247-274 | Every steady, monotone provider ends with a 1-minimal mask for n references and r free texts if and only if the budget is at least 1 + max(2n - 1, 0) + r. |
| MaskSearch.SearchMinimal | backend/moonlightbox/agent_runtime/sensitive_mask.py:252-274 | With that budget, unmasking any single remaining reference or free text is rejected. |
| MaskSearch.SearchAccepted | backend/moonlightbox/agent_runtime/sensitive_mask.py:247-274 | For any provider the mask found was accepted by one of the trials made and lies within the collected units. |
| MaskSearch.MinimalIsTriggers | backend/moonlightbox/agent_runtime/sensitive_mask.py:247-274 | When acceptance means covering fixed triggers, an accepted minimal mask is exactly the uncovered triggers. |
| MaskRecovery.SensitiveContentHandler.constructor | backend/moonlightbox/agent_runtime/sensitive_mask.py:192-207 | The handler starts from the registry's references and allows at least two trials. |
| MaskRecovery.SensitiveContentHandler.MaskedView | backend/moonlightbox/agent_runtime/sensitive_mask.py:209-212 | The view is the list masked by what is known. |
| MaskRecovery.SensitiveContentHandler.NoteAccepted | backend/moonlightbox/agent_runtime/sensitive_mask.py:214-218 | Remembered positions are dropped exactly when the history got shorter. |
| MaskRecovery.SensitiveContentHandler.Recover | backend/moonlightbox/agent_runtime/sensitive_mask.py:220-289 | Whole new state and result of a recovery: on success the mask enters the registry, only references new to the registry become known, positions are remembered; otherwise nothing changes. |
| MaskRecovery.RecoveryIsBounded | backend/moonlightbox/agent_runtime/sensitive_mask.py:231-283 | For any provider at most max_trials trials and one final call, whose mask an earlier trial accepted. |
| MaskRecovery.RecoveryIsMinimal | backend/moonlightbox/agent_runtime/sensitive_mask.py:231-289 | With a steady, monotone provider and trials enough, the final call is accepted and its mask 1-minimal. |
| MaskRecovery.RememberedExactly | backend/moonlightbox/agent_runtime/sensitive_mask.py:284-286 | While the remembered positions still hold free text, the handler's next view equals the accepted one if and only if no newly masked reference was already in the registry without being known to the handler. |
| MaskRecovery.RememberedInGeneral | backend/moonlightbox/agent_runtime/sensitive_mask.py:284-286 | For any remembered positions, also after the history was rewritten: the views are equal if and only if no message outside those positions shows a reference the handler did not learn. |
| MaskBudget.RecoveryBudgetExact | backend/moonlightbox/agent_runtime/sensitive_mask.py:220-289 | Every recovery of n references and r free texts from a provider that blocks fixed visible texts settles on a 1-minimal mask if and only if the budget is at least 1 + max(2n - 1, 0) + r. |
| MaskBudget.SampleNotMinimal | backend/moonlightbox/agent_runtime/sensitive_mask.py:252-274 | For every smaller budget, a message list and a blocking provider whose recovery keeps a harmless text masked. |
| MaskRecovery.BlockingProvider | backend/moonlightbox/agent_runtime/sensitive_mask.py:233-243 | A provider that rejects fixed visible texts is steady and monotone on every list, so the minimality results apply to it. |
| Scheduler.StepKeeps | backend/moonlightbox/agent/inference.py:116-268 | Every atomic step of submitters, cancellers, the stopper and the worker keeps the invariant: one live worker, queue and futures consistent, nobody lost, stopping sound. |
| SchedulerRuns.OnePlace | backend/moonlightbox/agent/inference.py:131-242 | In every reachable state an accepted request is in exactly one place: queued, in the worker's hand, running, or settled. |
| SchedulerRuns.OneInference | backend/moonlightbox/agent/inference.py:116-129 | Even across restarts at most one thread is between the start of an inference and its settlement. |
| SchedulerRuns.InferredOnce | backend/moonlightbox/agent/inference.py:220-228 | Each request reaches the backend at most once, and only a request that was not cancelled before. |
| SchedulerRuns.FetchesTheLeast | backend/moonlightbox/agent/inference.py:203-206 | In every state that keeps the invariant, as all reachable ones do, an idle worker with work waiting can fetch exactly one request: the least by priority, then by order of acceptance. |
| SchedulerRuns.AcceptedGoesBehind | backend/moonlightbox/agent/inference.py:142-151 | An accepted request is queued behind every queued request of its own or a more urgent priority. |
| SchedulerAnswers.AnswersAreTruthful | backend/moonlightbox/agent/inference.py:227-241 | In every run from the start a delivered value is one the backend returned in that request's own inference; an error was raised there; a preemption means that the backend gave up there or that the request was found flagged after it. |
| SchedulerAnswers.SubmitTouches | backend/moonlightbox/agent/inference.py:131-159 | A submit changes the run in progress only when it is accepted and REALTIME and that run is PROACTIVE or OFFLINE, and only by flagging it; an accepted request is pending and queued once, and nothing else changes. |
| SchedulerAnswers.PendingIsServed | backend/moonlightbox/agent/inference.py:201-242 | From every state of a running scheduler, each pending request can still be answered with any value the backend may return. |
| SchedulerAnswers.AcceptedIsServed | backend/moonlightbox/agent/inference.py:131-242 | After any run, whatever is accepted next can be answered with any value. |
| SchedulerAnswers.ShutdownBindsExactly | backend/moonlightbox/agent/inference.py:173-176 | When shutdown begins, an open request never delivers if and only if the worker has not passed its final check. |
| SchedulerAnswers.ExpiredNeverInferred | backend/moonlightbox/agent/inference.py:211-213 | A request found past its deadline is cancelled for good and never reaches the backend. |
| SchedulerAnswers.CancelledIsDropped | backend/moonlightbox/agent/inference.py:209-210 | A request taken from the queue is dropped at once if and only if it was cancelled. |
| SchedulerRuns.SettledForever | backend/moonlightbox/agent/inference.py:161-171 | In every continuation a settled answer stays as it is. |
| SchedulerRuns.DoomedNeverDelivered | backend/moonlightbox/agent/inference.py:152-158 | A run flagged before its post-inference check, or already failing, never delivers a result, whatever is done later. |
| SchedulerRuns.PreemptionExact | backend/moonlightbox/agent/inference.py:152-158 | A REALTIME submit keeps the low-priority request in the worker's hand from ever delivering if and only if its inference has begun and its check is still ahead, or it is failing; one that is popped but not admitted is not preempted. |
| SchedulerRuns.CancelBindsExactly | backend/moonlightbox/agent/inference.py:161-171 | After cancel answers true the request never delivers a result, except exactly when the worker had already passed its final check. |
| SchedulerRuns.ShutdownSettlesAll | backend/moonlightbox/agent/inference.py:173-201 | When the stopping shutdown(wait=True) returns, under any interleaving every accepted future is settled, none was accepted meanwhile, and no later submit is. |
| SchedulerRuns.LeftShrinks | backend/moonlightbox/agent/inference.py:173-201 | While a shutdown is in progress each worker or stopper step shrinks a measure nobody else can raise. |
| SchedulerRuns.NeverStuck | backend/moonlightbox/agent/inference.py:199-201 | A shutdown in progress always has an enabled worker, join, drain or return step. |
| SchedulerRuns.ShutdownReturns | backend/moonlightbox/agent/inference.py:173-201 | From any state with a shutdown in progress some run of at most Left + 1 steps ends with the return of the stopping call, and no run before its return has more than Left worker and stopper steps, whatever callers do in between. |
| SchedulerObject.PersonaInferenceScheduler.constructor | backend/moonlightbox/agent/inference.py:104-114 | The object starts in the machine's initial state, running. |
| SchedulerObject.PersonaInferenceScheduler.Start | backend/moonlightbox/agent/inference.py:116-129 | start is the machine's start step: nothing when running, otherwise a fresh queue and one more thread. |
| SchedulerObject.PersonaInferenceScheduler.Submit | backend/moonlightbox/agent/inference.py:131-159 | submit is the machine's submit step and answers stopped, duplicate or accepted accordingly. |
| SchedulerObject.PersonaInferenceScheduler.Cancel | backend/moonlightbox/agent/inference.py:161-171 | cancel is the machine's cancel step with its answer. |
| SchedulerObject.PersonaInferenceScheduler.BeginShutdown | backend/moonlightbox/agent/inference.py:176-198 | The locked part of shutdown is the machine's stop step. |
| SchedulerObject.PersonaInferenceScheduler.Admit | backend/moonlightbox/agent/inference.py:220-226 | The locked part of the worker's turn is the machine's admission step. |
| SchedulerObject.PersonaInferenceScheduler.ClearActive | backend/moonlightbox/agent/inference.py:237-240 | The locked clean-up is the machine's clear step. |
| SchedulerObject.PersonaInferenceScheduler.CancelQueued | backend/moonlightbox/agent/inference.py:259-268 | The drain loop empties the queue, settles every open future by cancelling it and touches no other. |
| AgentLoopTheorems.DeliveredOnlyBySubmission | backend/moonlightbox/agent_runtime/controller.py:594-611 | In every run, whatever the model emits, a value comes back exactly with status succeeded or waiting_for_user, and only as the receipt value of a permitted submission that was the only call of its batch, after a clean last input check. |
| AgentLoopTheorems.AcceptanceIsFinal | backend/moonlightbox/agent_runtime/controller.py:865-886 | From an evaluated batch the run has a delivery two visits later if and only if some execution is an accepted submission, and it has then ended. |
| AgentLoopTheorems.WithinBudgets | backend/moonlightbox/agent_runtime/controller.py:965-991 | Model steps never exceed the step limit, the model is asked only below it, and at most T calls ever reach a tool. |
| AgentLoopTheorems.ReasonsHonest | backend/moonlightbox/agent_runtime/controller.py:965-991 | In every reachable state: the model is asked only below the call and result limits; a run stopped for its step, call or result limit has reached it; success reasons go with a delivery. |
| AgentLoopReasons.EndingsJustified | backend/moonlightbox/agent_runtime/controller.py:1070-1086 | Whatever status and reason a run ends with, one of its visits wrote them and what it saw justifies them: a limit reached, the clock run out, inputs changed, the context too long, capacity beyond recovery, a broken model, or an accepted submission. |
| AgentLoopReasons.ContextLimitStatus | backend/moonlightbox/agent_runtime/controller.py:945-950 | Running out of context ends a run as failed exactly in the context check and as blocked exactly in the model node's capacity recovery. |
| AgentLoopReasons.EndsExactly | backend/moonlightbox/agent_runtime/controller.py:965-991 | A visit ends a run if and only if there is a reason to, spelled out for every node: no check, limit, clock or capacity condition is passed over. |
| AgentLoopReasons.GuardReportsFirst | backend/moonlightbox/agent_runtime/controller.py:965-991 | The guard reports the first of its reasons in the order inputs, clock, steps, calls, result size, repetition. |
| AgentLoopReasons.PreparesExactly | backend/moonlightbox/agent_runtime/controller.py:899-956 | A preparation takes over the refreshed history, or the compacted one exactly when the size is not managed by the client, is at the threshold and there is a compactor; the first preparation goes on to the guard even when it ended the run. |
| AgentLoopReasons.BrokenEndsAs | backend/moonlightbox/agent_runtime/controller.py:1018-1033 | A broken model call uses a step and ends the run as cancelled, stale or blocked where its failure says so, and otherwise as failed. |
| AgentLoopReasons.WarnsOnce | backend/moonlightbox/agent_runtime/controller.py:431-453 | A guard that does not end the run points out repetition once, with one message and a fresh streak, and otherwise changes nothing. |
| AgentLoopTheorems.VisitsBound | backend/moonlightbox/agent_runtime/controller.py:390-429 | Whatever compactors and refreshers do, a run visits at most 6L + 2 nodes plus three per capacity recovery, and has at most 2L recoveries. |
| AgentLoopTheorems.Terminates | backend/moonlightbox/agent_runtime/controller.py:390-429 | With a step limit L every run has ended after 12L + 2 visits, with a terminal status. |
| AgentLoopLongest.LongestRun | backend/moonlightbox/agent_runtime/controller.py:560-592 | For every L there is a run of 12L + 2 visits in which an input arrives between any two recoveries, and one of 9L + 2 in which none does. The submission tool is declared, replies have 400 characters, patience is 2, the provider turns away exactly the histories longer than three messages, and the compactor is the runtime's trimming call with one note that never changes. |
| AgentLoopLongest.Refused | backend/moonlightbox/agent_runtime/controller.py:560-592 | In those runs each recovery leaves a shorter history, and the next estimate is smaller. |
| AgentLoopAllowance.RecursionLimitExact | backend/moonlightbox/agent_runtime/controller.py:1065-1067 | Over all agents that declare their submission tool, the graph's recursion limit covers every run with step limit L if and only if L is at most 3. |
| AgentLoopSteady.SteadyVisitsBound | backend/moonlightbox/agent_runtime/controller.py:560-592 | With a compactor that trims with notes depending only on what was read, and no input that arrives between a recovery and the next answer while no turn is kept, a model step has at most one effective recovery and a run at most 9L + 2 visits. |
| AgentLoopAllowance.SteadyRecursionLimitExact | backend/moonlightbox/agent_runtime/controller.py:1065-1067 | For such compactors and inputs the recursion limit covers every run with step limit L if and only if L is at most 14. |
| AgentCompaction.CompactIdempotent | backend/moonlightbox/runtime_v1/agent_support.py:96-117 | Trimming again with the same notes, and the same rewritten task if any, changes nothing. |
| AgentCompaction.SecondTrimExact | backend/moonlightbox/runtime_v1/agent_support.py:96-117 | When inputs arrive after a trim, the next trim with the same notes changes the history if and only if inputs came and no turn is kept, and it then drops exactly those inputs. |
| AgentCompaction.TrailingNotesPileUp | backend/moonlightbox/node_investigation/agent.py:60-73 | A compactor that appends its note behind the turns adds one more copy at each trim, as soon as a turn is kept. |
| AgentLoopAllowance.RecursionLimitWithoutRecovery | backend/moonlightbox/agent_runtime/controller.py:1065-1067 | Runs with at most (2L + 14) / 3 capacity recoveries, in particular those with none, stay within the recursion limit. |
| AgentLoopTheorems.PatienceBounds | backend/moonlightbox/agent_runtime/controller.py:431-453 | With K at least 1 the model never works on after 2K unproductive turns in a row, and no run is stopped for repetition before K. |
| AgentLoopTheorems.PatienceRunsOut | backend/moonlightbox/agent_runtime/controller.py:431-453 | After 2K unproductive turns in a row the next guard ends the run, whatever else it sees. |
| AgentLoopTheorems.RunKeepsProtocol | backend/moonlightbox/agent_runtime/controller.py:669-715 | From a well-formed request, with compactors that trim and refreshers that append inputs or rewrite the task, in every run each AI message's calls are answered once each, in order, before the next AI message. |
| AgentLoopTheorems.ProtocolExact | backend/moonlightbox/agent_runtime/controller.py:506-531 | A batch leaves a well-formed history if and only if the calls came in a message; otherwise its replies are orphans. |
| AgentLoopRuns.RunInv | backend/moonlightbox/agent_runtime/controller.py:390-963 | Delivery, budget, visit and patience invariants hold in every reachable state of every run. |
| AgentLoopRuns.PlanExact | backend/moonlightbox/agent_runtime/controller.py:594-667 | Planning answers calls one to one in order; a call that passes is well-formed, declared and permitted, and none passes beside a submission. |
| AgentLoopCalls.PassesExactly | backend/moonlightbox/agent_runtime/controller.py:594-667 | For every policy, batch and count: outside a mixed submission batch a call passes if and only if it is an object call of a declared, permitted tool and, with a call limit, fewer calls before it have passed than were left; each of the five refusals has its exact condition. |
| AgentLoopCalls.ReachesExactly | backend/moonlightbox/agent_runtime/controller.py:669-690 | A planned call reaches its tool if and only if it passed and the inputs are unchanged. |
| AgentLoopCalls.ExecutionExactly | backend/moonlightbox/agent_runtime/controller.py:717-804 | The exact conditions under which an execution is cut off, an error or done, and what keys and receipt it carries. |
| AgentLoopCalls.BatchDelivers | backend/moonlightbox/agent_runtime/controller.py:865-886 | From the model's calls to the delivery three visits later: a value is accepted if and only if the batch is one proper call to the submission tool within the call limit, and the tool took it with a receipt while the inputs stayed the same; it is that receipt's value. |
| AgentLoopCalls.ResultExactly | backend/moonlightbox/agent_runtime/controller.py:247-300 | An accepted value reaches the caller if and only if the last look at the inputs finds nothing; otherwise that look decides status and reason. |
| AgentLoopCalls.BatchCounts | backend/moonlightbox/agent_runtime/controller.py:806-897 | A batch lengthens the streak if and only if all its results were seen before and none has a new key; characters and charged calls are the sums over its executions. |
| AgentLoopCalls.AnswerCounts | backend/moonlightbox/agent_runtime/controller.py:506-531 | An answer uses one model step; one without calls lengthens the streak. |
| AgentLoopRuns.BatchWithinBudget | backend/moonlightbox/agent_runtime/controller.py:612-667 | No more calls of a batch reach a tool than the call budget has left. |
| AgentLoopRuns.ReachedIsCounted | backend/moonlightbox/agent_runtime/controller.py:834-843 | Every call that reaches a tool is counted against the budget when the batch is evaluated. |
| AgentLoopRuns.RepeatedExactly | backend/moonlightbox/agent_runtime/controller.py:816-833 | A batch counts as repeated exactly when all its results were seen in earlier batches. |
| AgentLoopRuns.ProgressExactly | backend/moonlightbox/agent_runtime/controller.py:857-864 | A batch makes progress exactly when some result carries a key never seen before it. |
| AgentLoopBatch.PlanToolBatch | backend/moonlightbox/agent_runtime/controller.py:594-667 | The planning loop with its running remainder computes, from the ledger's total, the plan whose calls pass as PassesExactly states. |
| AgentLoopBatch.ExecuteToolBatch | backend/moonlightbox/agent_runtime/controller.py:669-715 | The execution loop returns one execution per planned call and appends their replies in order. |
| AgentLoopBatch.EvaluateProgress | backend/moonlightbox/agent_runtime/controller.py:806-897 | The evaluation loop leaves the ledger, seen sets and no-progress counter as specified. |
| AgentLoopBatch.FindSubmission | backend/moonlightbox/agent_runtime/controller.py:865-874 | The first accepted submission, if any. |
| AgentLoopBatch.LedgerExact | backend/moonlightbox/agent_runtime/controller.py:834-843 | Each tool is charged exactly its own executions, and the sum over tools is the counter the budget checks read. |
| AgentLoopBatch.BudgetLedger.Record | backend/moonlightbox/agent_runtime/controller.py:834-856 | Recording an execution changes its tool's count, unless it was refused for the budget, and the result characters. |
| AgentLoopBatch.BudgetLedger.Total | backend/moonlightbox/agent_runtime/controller.py:612-613 | The loop adds the calls of all tools. |
| AgentTurns.RetainKeepsProtocol | backend/moonlightbox/agent_runtime/context.py:8-37 | Trimming a well-formed history, with any human or system notes, leaves a well-formed history. |
| AgentTurns.RetainedTurns | backend/moonlightbox/agent_runtime/context.py:26-37 | What is left of the turns is exactly what follows the start of the kept ones, whole and in order. |
| AgentTurns.RetainCountsTurns | backend/moonlightbox/agent_runtime/context.py:26-37 | Trimming keeps exactly the last `keep` turns, or all of them when there are fewer. |
| AgentTurns.RetainIdempotent | backend/moonlightbox/agent_runtime/context.py:8-37 | Trimming again without notes changes nothing. |
| AgentTurns.RepliesClose | backend/moonlightbox/agent_runtime/controller.py:696-714 | A full batch of replies in call order closes the AI message before it. |
| NodeMetrics.BestIsGreatest | backend/moonlightbox/evaluation/node_metrics.py:27-37 | The chosen gold exists whenever a free one of the type does, overlaps most, and among equals has the greatest index. |
| NodeMetrics.GreedyMatches | backend/moonlightbox/evaluation/node_metrics.py:23-40 | The greedy loop builds a one-to-one matching of same-type pairs at or above the threshold. |
| NodeMetrics.GreedyMaximal | backend/moonlightbox/evaluation/node_metrics.py:23-40 | No matchable pair is left with both sides unmatched. |
| NodeMetrics.GreedyHalfOptimal | backend/moonlightbox/evaluation/node_metrics.py:23-40 | Any other valid matching has at most twice as many pairs. |
| NodeMetrics.GreedyPrefers | backend/moonlightbox/evaluation/node_metrics.py:37-40 | A candidate that had a free matchable gold took one at least as similar. |
| NodeMetrics.EdgeExactly | backend/moonlightbox/evaluation/node_metrics.py:37-57 | Two labels may be matched if and only if their types agree and the ids in both are at least the asked share of the ids in either, two empty sets sharing all. |
| NodeMetrics.JaccardLeqExactly | backend/moonlightbox/evaluation/node_metrics.py:27-37 | Overlaps compare as the products of shared and joint sizes do. |
| NodeMetrics.GreedyIsMaximalMatching | backend/moonlightbox/evaluation/node_metrics.py:23-40 | By counting alone: the greedy pairs are one-to-one, may all be matched, leave no matchable pair free, and no candidate shares more with a free gold of its type than with its own. |
| NodeMetrics.F1ByCounting | backend/moonlightbox/evaluation/node_metrics.py:44-46 | The F1 value is twice the matched over all predicted and gold labels. |
| NodeMetrics.TwinnedGoldMatched | backend/moonlightbox/evaluation/node_metrics.py:23-40 | When every gold has its own identical candidate, all golds are matched, however other candidates overlap them or labels repeat. |
| NodeMetrics.GreedyLoop | backend/moonlightbox/evaluation/node_metrics.py:23-40 | The loop over unmatched golds counts the greedy pairs. |
| NodeMetrics.EvaluateNodes | backend/moonlightbox/evaluation/node_metrics.py:18-52 | The matched count is the size of a maximal matching, by counting, that prefers the greater overlaps; precision, recall and F1 are the rounded quotients of counts, within 0 and 1; and the empty case. |
| NodeMetrics.F1Unit | backend/moonlightbox/evaluation/node_metrics.py:46 | The harmonic mean of two ratios is a ratio. |
| NodeMetrics.Round6Monotone | backend/moonlightbox/evaluation/node_metrics.py:47-51 | Rounding to six digits never reverses an order. |
| NodeAcceptance.IntegrityFixesPayloads | backend/moonlightbox/evaluation/node_acceptance.py:523-563 | With a collision-free hash a packet that passes both checks shows the run's own nodes, so only verdicts can differ. |
| NodeAcceptance.DecidedExactly | backend/moonlightbox/evaluation/node_acceptance.py:290-316 | With collision-free hashes a packet passes all checks if and only if, its verdicts aside, it is the run's own export, and that has at most 25 nodes under distinct ids. |
| NodeAcceptance.AcceptedAllMatched | backend/moonlightbox/evaluation/node_acceptance.py:317-323 | The greedy match count of accepted against all nodes is the number of accepted nodes. |
| NodeAcceptance.EvaluateReviewPacket | backend/moonlightbox/evaluation/node_acceptance.py:290-357 | Exactly when a packet is decided, refused or out of scope; and a decided one gets precision accepted/total (rounded), the counts, and pass, fail or pending by counting alone. |
| NodeAcceptance.DefaultGateIsExact | backend/moonlightbox/evaluation/node_acceptance.py:328-339 | At the default threshold 0.8, for packets of legal size, rounding never changes the verdict. |
| NodeAcceptance.FourDecimalGateIsExact | backend/moonlightbox/evaluation/node_acceptance.py:327-339 | At every threshold of up to four decimals, for packets of legal size, rounding never changes the verdict. |
| NodeAcceptance.RoundedMeetsExactly | backend/moonlightbox/evaluation/node_metrics.py:47-51 | For every value and threshold, the rounded value meets the threshold if and only if the value lies above half a millionth below the least whole number of millionths that is no less than the threshold, or at it when that number is even. |
| NodeAcceptance.RoundingFlipsExactly | backend/moonlightbox/evaluation/node_acceptance.py:327-339 | For every value and threshold, rounding changes the verdict if and only if the value lies between the threshold and that boundary. |
| NodeAcceptance.RoundingCanPass | backend/moonlightbox/evaluation/node_acceptance.py:334 | A witness: at threshold 0.666667 two accepted nodes of three pass although two thirds do not reach it. |
| NodeAcceptance.Score | backend/moonlightbox/evaluation/node_acceptance.py:316-339 | The counts, the precision and the verdict of a packet whose labels are the run's. |
| JsonScan.UnwrapInvertsPrint | backend/moonlightbox/events/cloud_client.py:1157-1180 | For every JSON object printed by the grammar of RFC 8259, with any nesting, spacing and escapes, every prefix without a brace and every suffix, exactly the object's text is cut out. |
| JsonScan.CutShortUnchanged | backend/moonlightbox/events/cloud_client.py:1157-1180 | An object cut short anywhere is not mistaken for a shorter one: the text comes back as it was. |
| JsonScan.UnwrapIdempotent | backend/moonlightbox/events/cloud_client.py:1157-1180 | Unwrapping twice is unwrapping once, for any text at all. |
| JsonScan.CutStartsExactly | backend/moonlightbox/events/cloud_client.py:1157 | The scan starts at the printed object if and only if no brace stands before it; otherwise it starts at the first such brace. |
| JsonScan.PrefixBraceMisleads | backend/moonlightbox/events/cloud_client.py:1157-1180 | With a brace that is never closed somewhere before the object, and no other brace or quote around the two, no object is found and the text comes back as it was. |
| JsonScan.FirstObjectWins | backend/moonlightbox/events/cloud_client.py:1157-1180 | Of two objects the first is returned, whatever stands before, between and after them, as long as no brace precedes the first. |
| JsonScan.UnwrapJsonContent | backend/moonlightbox/events/cloud_client.py:1157-1180 | The scanning loop with depth, in-string and escaped flags computes the specified text. |
| SchemaUnions.RewritePreservesAcceptance | backend/moonlightbox/events/cloud_client.py:179-218 | If rewritten unions have object variants that require their tag and no anyOf beside them, the rewritten schema accepts exactly the values the original accepts, at every depth, with shared definitions edited in place and cycles of references. |
| SchemaUnions.SharedNodesUnchanged | backend/moonlightbox/events/cloud_client.py:205-210 | Under that guard the edits in place add no required name to any shared definition. |
| SchemaUnions.AtMostOneVariant | backend/moonlightbox/events/cloud_client.py:198-204 | Two variants of a rewritten union never accept the same value. |
| SchemaUnions.VariantsDisjoint | backend/moonlightbox/events/cloud_client.py:194-204 | The loop over variants decides whether all declare tag values and no two share one. |
| SchemaUnions.ConvertsExactly | backend/moonlightbox/events/cloud_client.py:190-204 | A union is rewritten if and only if it names its tag, every variant declares values for it and no value is declared by two. |
| SchemaUnions.TagValuesExactly | backend/moonlightbox/events/cloud_client.py:199-203 | A variant declares the constant of its tag property, or else its choices. |
| SchemaUnions.NothingLeftToRewrite | backend/moonlightbox/events/cloud_client.py:179-218 | After the rewrite neither the root nor any shared node holds a union, at any depth, that could have been rewritten. |
| SchemaUnions.UntypedVariantsDiffer | backend/moonlightbox/events/cloud_client.py:205-211 | Without the object restriction: a union that rejected null accepts it after the rewrite. |
| SchemaUnions.UnrequiredTagDiffers | backend/moonlightbox/events/cloud_client.py:206-209 | Without the required tag: an object the union accepted is rejected after the rewrite. |
| SchemaUnions.SiblingAnyOfIsLost | backend/moonlightbox/events/cloud_client.py:210 | With an anyOf beside the union that lets only null pass: its constraint is lost. |
| SchemaExample.ExampleAccepted | backend/moonlightbox/events/cloud_client.py:278-376 | On plain schemas without reference cycles the generated example is accepted at every sufficient depth, whatever references were followed before. |
| SchemaExample.MinimalExampleAccepted | backend/moonlightbox/events/cloud_client.py:278-376 | The same for the example of a root schema; the generator itself is total on every schema, cyclic and dangling references included. |
| SchemaExample.LeafExact | backend/moonlightbox/events/cloud_client.py:346-376 | For a leaf with the limits of its kind the example is accepted if and only if the stated bounds condition holds. |
| SchemaExample.ArrayExact | backend/moonlightbox/events/cloud_client.py:328-345 | The number of generated items respects minItems and maxItems if and only if the stated condition holds. |
| SchemaExample.CountIsLeast | backend/moonlightbox/events/cloud_client.py:328-345 | The number of items is the least allowed, but at least one and at most 16, and none exactly when none is allowed. |
| SchemaExample.ObjectExampleExactly | backend/moonlightbox/events/cloud_client.py:315-328 | The example of an object has every declared property, required or not, and no other, each with its own example. |
| Windowing.SplitSessions | backend/moonlightbox/events/windowing.py:47-66 | Rejects gaps that are not positive; otherwise splits the time-ordered messages into runs no more than the gap apart with more than the gap between runs. |
| Windowing.SortIsChronological | backend/moonlightbox/events/windowing.py:57 | Messages are put in order of time and, within one instant, of their ids, and none is lost. |
| Windowing.SplitsUnique | backend/moonlightbox/events/windowing.py:57-66 | There is only one such splitting. |
| Windowing.FillWindow | backend/moonlightbox/events/windowing.py:140-148 | The inner loop takes at least one message, stays within the budget unless it takes only one, and could not take the next. |
| Windowing.BuildSessionWindows | backend/moonlightbox/events/windowing.py:128-164 | The window loop ends, at the end of the session, with windows that are each filled so and overlap by the asked number or half the previous window. |
| Windowing.WindowsDetermined | backend/moonlightbox/events/windowing.py:128-164 | That description determines the windows. |
| Windowing.TotalAdds | backend/moonlightbox/events/windowing.py:140-148 | The character count of a stretch is the sum of its parts, down to single messages. |
| Windowing.OverlapExactly | backend/moonlightbox/events/windowing.py:161 | The overlap is what is asked for, or else the most that is no more than half the window. |
| Windowing.TagAllExactly | backend/moonlightbox/events/windowing.py:69-95 | Every window of every session is listed with its session and its number in it, and nothing else. |
| Windowing.WindowsAdvance | backend/moonlightbox/events/windowing.py:128-164 | Starts strictly increase, ends never decrease, and no message falls between windows, although a window may lie inside its predecessor. |
| Windowing.AtMostOnePerMessage | backend/moonlightbox/events/windowing.py:128-164 | There are never more windows than messages. |
| Windowing.WindowsCover | backend/moonlightbox/events/windowing.py:128-164 | The parts of the windows beyond the previous end, joined, are the session exactly. |
| Windowing.AddsNothingExactly | backend/moonlightbox/events/windowing.py:161-162 | A window adds nothing new if and only if it overlaps and the overlap leaves no room for the next message. |
| Windowing.NestedWindows | backend/moonlightbox/events/windowing.py:128-164 | A session whose second window lies wholly inside its first. |
| Windowing.BuildAnalysisWindows | backend/moonlightbox/events/windowing.py:69-95 | Rejects a budget that is not positive or a negative overlap; otherwise lists the windows of all sessions in order with their ordinals. |
| Windowing.WindowsRebuildChat | backend/moonlightbox/events/windowing.py:47-95 | From messages to windows and back: what the windows add, joined over all sessions, is the chat in time order, a permutation of the input. |
| Windowing.GetPersistenceContext | backend/moonlightbox/events/windowing.py:98-117 | The rest of the first session of that name and up to the allowed number of whole sessions after it; otherwise an error. |
| Windowing.ContextFollowsWindow | backend/moonlightbox/events/windowing.py:98-117 | That context is the stretch of the chat that directly follows the window. |
| ReviewPrompt.BuildReviewUserContent | backend/moonlightbox/events/reviewer.py:430-516 | Errors exactly when evidence is missing from the window or the empty prompt is over budget; otherwise a prompt that fits and would not fit with one more message. |
| ReviewPrompt.SelectMessages | backend/moonlightbox/events/reviewer.py:496-516 | The loop that appends, tries and takes back. |
| ReviewPrompt.KeepFirsts | backend/moonlightbox/events/reviewer.py:455-463 | The loop that drops later duplicates and ids already listed. |
| ReviewPrompt.PackedExactly | backend/moonlightbox/events/reviewer.py:430-516 | The prompt is within the budget, carries the longest in-order prefix of the follow-up messages that is, and is marked truncated if and only if a message or a session was left out. |
| ReviewPrompt.OfferExactly | backend/moonlightbox/events/reviewer.py:442-465 | By position: evidence is what the window has of the evidence ids; on offer are what follows the end message and is no evidence, and then the first of each further id in the rest of the session and the allowed sessions. |
| ReviewPrompt.AfterExactly | backend/moonlightbox/events/reviewer.py:420-427 | What follows the candidate is what stands behind the first message with its end id, and nothing when there is none. |
| ReviewPrompt.SizeExactly | backend/moonlightbox/events/reviewer.py:474-494 | The size of a prompt is that of its frame, its flag and, with their separators, all messages in its three lists. |
| ReviewPrompt.BudgetErrorExact | backend/moonlightbox/events/reviewer.py:485-494 | The budget error means that no prefix at all would have fitted. |
| ReviewPrompt.DistinctOnRequest | backend/moonlightbox/events/reviewer.py:442-465 | No prompt for a request repeats an id if and only if neither the window's evidence messages nor its other messages after the candidate do. |
| ReviewPrompt.DistinctExactly | backend/moonlightbox/events/reviewer.py:442-465 | The three lists of a prompt never share an id; an id is repeated if and only if its evidence or its window list repeats it. |
| ReviewPrompt.DistinctWindow | backend/moonlightbox/events/reviewer.py:442-465 | With distinct ids in the window no id is listed twice. |
| ReviewPrompt.RepeatedWindowIsKept | backend/moonlightbox/events/reviewer.py:443-445 | A window that repeats an id, in a prompt that fits its budget, has it listed twice: only the persistence messages are cleaned of duplicates. |
| ReviewPrompt.FirstsComplete | backend/moonlightbox/events/reviewer.py:455-463 | Nothing but duplicates is dropped from the persistence messages. |

## Left out

- Scheduler restarts: `start` is modelled after a completed `shutdown(wait=True)`; after `shutdown(wait=False)`, or while
  a shutdown is still in progress, the code does not promise one worker, and nothing is claimed.
- The caller id `__shutdown__`, which the code uses for its sentinel, is excluded from submits.
- A backend that never returns: the shutdown results bound the steps of the worker and of the stopping call and show that
  one is always possible, not that the backend takes it.
- Threads, locks and the priority queue's own implementation: sections under the lock are atomic, and a queue hands out
  its least element.
- JSON parsing and printing inside the masker is taken to lose nothing; entries of odd JSON types are one case, and the
  dictionaries edited in place are private parsed copies, modelled as values.
- The registry's database table is a set shared by handlers; the callback that reports new masks is left out.
- The rank score, its components and the filters before the merge: arithmetic case tables with easy claims.
- Floating point: similarities, precision and thresholds are exact reals; only the rounding to six digits is modelled.
- Text canonicalisation, hashes and the stripping of think tags and code fences are uninterpreted; the gate's claim
  assumes a collision-free node hash.
- Evidence ids are sets, since every use in the merge and in the labels turns them into one.
- Agent checkpoints, resume, status callbacks and tracing: one uninterrupted run is modelled. Tool-call ids are present;
  no tool raises the code `tool_call_safety_limit` itself; a tool's result text is its length only.
- Compactors and refreshers are arbitrary in the loop. The protocol results and the results for steady notes take the
  forms the repository has: trimming with any number of kept turns, notes in front, a rewritten task and trailing notes;
  appending inputs or rewriting the first human message.
- MaskRecovery.RememberedExactly: speaks of remembered positions that still hold free text; RememberedInGeneral has no
  such restriction.
- AgentLoopTheorems.RunKeepsProtocol: assumes that tool calls come inside a message, because otherwise it is false, as
  ProtocolExact shows.
- The recursion limit is read as the number of nodes a run may visit; the graph library is not part of this model.
- Request transport, retry, token estimation and provider usage: the model call answers, fails, or is turned away with an
  arbitrary estimate.
- Schema nodes are values: the edits in place are the rewritten table of shared nodes. References name shared nodes by
  their full text; a reference through a rewritten `oneOf` list, or at a node that is also written in place elsewhere,
  is not modelled, nor is a union that occurs inside literal data such as a default.
- SchemaExample.ExampleAccepted: covers schemas with one family of constraints per node, because the generator looks at
  one family only; `pattern` is not modelled and `format` is an annotation.
- SchemaUnions.RewritePreservesAcceptance: is one direction, from the guard to equal acceptance; the three
  counterexamples show that no part of the guard can be dropped.
- The strict-schema conversion and the checks for unrepresentable structures: recursive case tables with easy claims.
- Session and window ids, being hashes of positions; the sender and kind of a message.
- Normalisation and extraction of candidates and the model calls of the two review stages.
- Database sessions, migrations, routers, settings, the frontend, job workers and pipelines, model loading and the
  keyword heuristics of the branches.
