# Verified model of constellation-monitor

This project models the parts of constellation-monitor whose correctness is
hardest to see from the code, and proves what they promise.

- **Status projection.** A policy of components, required facts and dependency
  edges is validated, ordered by depth-first search, evaluated against live
  support and cut to a freshness window that a renderer enforces later. The
  walk, the in-place propagation and the window are methods; the meaning is a
  system of equations over the graph with exactly one solution. The clock
  argument runs from the support source's clock through admission and
  projection to a reader with a clock of its own.
- **Attention evaluator.** The per-condition lifecycle (`Present`, `Clear`,
  `Unknown`, `Removed`), page deferral, event identities, and the pass that
  plans, sorts, saves and submits intents. The constant-size lifecycle state is
  proved against a reading of the whole history. Passes may crash before the
  plan is saved or after any number of answered submissions.
- **Remediation consumer.** A crash-restartable driver of an external state
  machine (AG). `Consumer.Pass` is the pass with its state, its state file and
  a ghost trace of the steps that matter; an error return and a crash are the
  same outcome, `Stopped`, and may follow any durable write or outside call.
  Every run keeps `GoodTrace`; the safety laws are lemmas about good traces.
- **Exact arithmetic and the paged read.** JSON numbers to plain decimals and to
  micro-dollars, days to calendar dates and printed stamps, and the paged read
  of NQ's history against a direct scan.

Conventions. Times and counters are integers; where the source's width matters
(`u64`, `i64`, `i32`, saturation, wrap-around) it is written out. Digests are
injective and random identities fresh. NQ, AG, Docket, resolvers, the report
and the clock are arbitrary: their answers are parameters or havocked values,
and each law states what it assumes of them. The source's ordered maps are maps;
the order in which they are walked leaves no trace in any result, except in the
submission plan, which is sorted.

What the proofs found about the code:

- Admission alone accepts stated lifetimes that overrun the source's expiry
  (`MarginIsNeeded`); `AdmissionSoundIff` says which exchanges are sound, and
  the source's one-millisecond margin makes all of its own so.
- A trigger that stayed pending through one crashed pass is silently replaced
  when a later pass displaces another unretained trigger of the same role
  (`TriggerCanBeLost`); `PendingConservation` gives the exact case.
- A pass that sends a held page skips the follow-up of that condition's
  unanswered notice (`NoticeResentIffNoPageDue`, `HeldPageDelaysNotice`).
- The consumer reads the clock once to select and once to guard. Successive
  window ends then increase exactly when the readings are less than the margin
  apart (`WindowsIncreaseIff`), but no episode is opened twice and dispatch
  windows stay disjoint with any clock that does not go back.
- Event identities leave out the component (`SharedIdentities`).
- `plain_decimal` takes the absolute value of a 64-bit exponent and fails
  outright on the least one (`PlainDecimalPanicsIff`); the other decimal laws
  are about the answer where there is one.
- The printed stamp has its fixed width exactly until the year 9999.
- A comment in the attention state calls `updated_at` the time of the last
  completed pass; the code sets it before the first submission, and the model
  follows the code.

## Model

| member | source | states |
|---|---|---|
| DependencyGraph.ValidateAcyclic | crates/constellation-status-projection/src/model.rs:938-969 | the depth-first check accepts exactly the graphs without a directed cycle |
| DependencyGraph.DependencyOrder | crates/constellation-status-projection/src/projector.rs:455-477 | on an acyclic graph every component is listed once, dependencies first |
| DependencyGraph.VisitOrder | crates/constellation-status-projection/src/projector.rs:456-470 | one visit extends the output and keeps it distinct and dependencies-first |
| DependencyGraph.AcyclicIffOrderable | crates/constellation-status-projection/src/model.rs:938-969 | a closed graph has a dependencies-first order exactly when it has no cycle |
| Projection.EvaluateDirect | crates/constellation-status-projection/src/projector.rs:310-375 | unknown unless every required fact matches, is supported and agrees; then the mapped state for the least remaining support |
| Projection.DirectUnique | crates/constellation-status-projection/src/projector.rs:310-375 | that description determines the evaluation |
| Projection.ApplyDependencies | crates/constellation-status-projection/src/projector.rs:386-453 | one map entry is overwritten with the combination of its own value and its dependencies' |
| Projection.Propagate | crates/constellation-status-projection/src/projector.rs:92-94 | in-place propagation along any dependencies-first order solves the equations of the whole graph |
| Projection.SolutionUnique | crates/constellation-status-projection/src/projector.rs:386-477 | the equations have one solution, so every order computes the same map |
| PropagationLaws.StateFollowsCalls | crates/constellation-status-projection/src/projector.rs:398-453 | in a solution a component is unknown if it knows nothing of itself, keeps its direct state when no edge calls for another, and otherwise has the one state all calls name, or is unknown |
| PropagationLaws.UnreadFieldsIrrelevant | crates/constellation-status-projection/src/projector.rs:406-412 | a solution stays one when behaviour fields are changed for states the dependencies do not have |
| PropagationLaws.UnknownIsNotIgnored | crates/constellation-status-projection/src/model.rs:532-550 | in a valid policy nothing is healthy over an unknown hard or soft dependency |
| PropagationLaws.HardOutageIsUnknown | crates/constellation-status-projection/src/projector.rs:413-418 | a healthy component over a major outage behind a hard edge is unknown |
| PropagationLaws.MapStateTable | crates/constellation-status-projection/src/model.rs:977-994 | which pairs of axes give each known state, and no others do |
| PropagationLaws.MapStateMonotone | crates/constellation-status-projection/src/model.rs:977-994 | less availability or more impact never gives a milder known state |
| PolicyValidation.Validate | crates/constellation-status-projection/src/model.rs:413-554 | accepts exactly the policies that are well formed, canonical and acyclic |
| PolicyValidation.ValidateComponents | crates/constellation-status-projection/src/model.rs:444-491 | comparing with the previous key and the ids seen so far decides order and distinctness of the whole list |
| PolicyValidation.ValidateDependencies | crates/constellation-status-projection/src/model.rs:510-551 | accepts exactly ordered edges between declared components with admissible behaviour |
| PolicyValidation.AcceptedIff | crates/constellation-status-projection/src/model.rs:413-554 | the accepted policies written out: times, sizes, order, distinct outputs, endpoints, behaviours and no cycle |
| PolicyValidation.CanonicalUnique | crates/constellation-status-projection/src/model.rs:444-551 | two valid policies with the same declarations list them in the same order |
| PolicyValidation.WithoutInformationalValid | crates/constellation-status-projection/src/model.rs:532-550 | a valid policy stays valid without its informational edges |
| StatusArtifacts.FloorTime | crates/constellation-status-projection/src/projector.rs:479-481 | the largest multiple of the granularity that is not later |
| StatusArtifacts.MinimumSupport | crates/constellation-status-projection/src/projector.rs:147-163 | the least lifetime of the visible known components, and whether there is one |
| StatusArtifacts.FreshUntil | crates/constellation-status-projection/src/projector.rs:164-174 | a window beyond generation time exists only with support and ends within support and maximum age less the clock uncertainty |
| StatusArtifacts.WindowOpensIff | crates/constellation-status-projection/src/projector.rs:164-174 | the window opens exactly when support less uncertainty reaches an expressible later time within the counter, and ends at the last such time |
| StatusArtifacts.Rows | crates/constellation-status-projection/src/projector.rs:96-189 | one row per declared output, blanked when the window is empty |
| StatusArtifacts.Present | crates/constellation-status-projection/src/projector.rs:147-236 | window, rows, aggregate state and digests follow from the evaluations |
| StatusArtifacts.Project | crates/constellation-status-projection/src/projector.rs:53-237 | an artifact exactly for valid policies, presenting the evaluation of the whole graph |
| ProjectionLaws.ProjectsUnique | crates/constellation-status-projection/src/projector.rs:53-237 | the artifact is a function of policy, inputs and moment |
| ProjectionLaws.ArtifactSelfConsistent | crates/constellation-status-projection/src/model.rs:733-813 | every projected artifact passes the window and row checks of artifact validation |
| ProjectionLaws.KnownIff | crates/constellation-status-projection/src/projector.rs:310-375 | a component knows its state exactly when it requires facts, all of them have matching live evidence, they agree, and their axes map to a known state |
| ProjectionLaws.SupportedIffBacked | crates/constellation-status-projection/src/projector.rs:322-356 | a requirement is supported exactly when a fact of its owner, schema, class and subject has evidence with the required selector and at least a millisecond left |
| ProjectionLaws.ArtifactShows | crates/constellation-status-projection/src/projector.rs:96-236 | one row for each declared output and no other, with what the disclosure allows; the root's state as the aggregate; the granular time |
| ProjectionLaws.MaintenanceIff | crates/constellation-status-projection/src/projector.rs:319-327 | a combined evaluation is in maintenance exactly when a declared assertion is active for the component |
| ProjectionLaws.DigestsCover | crates/constellation-status-projection/src/model.rs:565-597 | the policy digest covers the disclosed surface; the basis digest, exactly when disclosed, policy, inputs and whole milliseconds of support |
| ProjectionLaws.LifetimeIsMinimum | crates/constellation-status-projection/src/projector.rs:421-426 | a combined lifetime is bounded exactly when all contributing ones are, and is their minimum |
| ProjectionLaws.LifetimesGrowAlongWalks | crates/constellation-status-projection/src/projector.rs:421-426 | along hard and soft edges lifetimes never shrink |
| ProjectionLaws.TransitiveSupport | crates/constellation-status-projection/src/projector.rs:147-189 | everything a shown state rests on, through any chain, is supported, and the window ends within each such support |
| ProjectionLaws.AgeingIsSafe | crates/constellation-status-projection/src/projector.rs:310-453 | a state still bounded later was the same earlier, with at least as much lifetime |
| ProjectionLaws.InformationalEdgesInert | crates/constellation-status-projection/src/projector.rs:398-427 | deleting informational edges changes no state, mode or lifetime |
| ProjectionLaws.InformationalEdgesUnpublished | crates/constellation-status-projection/src/model.rs:565-597 | the artifact is the same if and only if no basis digest is disclosed or there was nothing to delete |
| ClockSoundness.AdmissionSoundIff | crates/constellation-status-projection/src/adapter.rs:44-186 | an admitted exchange is sound, whatever its true timing, exactly when it fits the certificate's window less one millisecond |
| ClockSoundness.AdmittedIff | crates/constellation-status-projection/src/adapter.rs:132-186 | which exchanges are admitted: a measurement not before the evaluation, a stated lifetime within the certificate that outlasts the exchange, and some trust |
| ClockSoundness.AdmittedUntilIsLatest | crates/constellation-status-projection/src/adapter.rs:168-186 | the deadline is the latest whole millisecond after admission that lifetime less elapsed time and trust allow |
| ClockSoundness.AdmissionWithinSource | crates/constellation-status-projection/src/adapter.rs:44-186 | with the source's margin an admitted deadline lies before the source's expiry in true time |
| ClockSoundness.MarginIsNeeded | crates/pulse-runtime/src/reactor.rs:1810-1832 | every whole-window lifetime, trusted in full and admitted at once, has a true timing that overruns the expiry |
| ClockSoundness.StatedLifetimeIsLargest | crates/pulse-runtime/src/reactor.rs:1810-1832 | the lifetime the source states is the largest that its support is sure to last, whatever its clock and tick; none exactly when no millisecond is sure |
| ClockSoundness.AdmittedIsRepresentable | crates/constellation-status-projection/src/adapter.rs:180-207 | admitted support fits the millisecond counter at every later moment |
| ClockSoundness.CurrentMeansSupported | crates/constellation-status-projection/src/render.rs:11-31 | a page shown as current is seen before the source expiry of everything its shown states rest on |
| ClockSoundness.CurrentIff | crates/constellation-status-projection/src/render.rs:11-31 | a page is shown as current exactly when every time the reader's clock allows lies in the window |
| Calendar.CivilIsCalendar | crates/constellation-status-projection/src/render.rs:85-96 | the closed form is the calendar that starts at 1970-01-01 and steps day by day, with valid dates |
| Calendar.CivilInverse | crates/constellation-status-projection/src/render.rs:85-96 | it and the day count are inverse to each other |
| Calendar.StampRoundTrip | crates/constellation-status-projection/src/render.rs:72-82 | the stamp has its fixed shape exactly before the year 10000 and then reads back to the second |
| DecimalLaws.PlainDecimalExact | crates/constellation-remediation-consumer/src/decider.rs:310-355 | an accepted plain decimal denotes exactly the number |
| DecimalLaws.PlainDecimalCanonical | crates/constellation-remediation-consumer/src/decider.rs:310-355 | equal values exactly when equal strings |
| DecimalLaws.PlainDecimalAccepts | crates/constellation-remediation-consumer/src/decider.rs:310-355 | of all numerals, accepted are exactly those with a digit before the point, a small exponent, a value below ten to the twentieth and at most thirty decimals |
| DecimalLaws.PlainDecimalPanicsIff | crates/constellation-remediation-consumer/src/decider.rs:310-323 | the conversion fails outright exactly for the exponent -2^63 of a numeral with a digit before the point |
| DecimalLaws.NegativeRefused | crates/constellation-remediation-consumer/src/decider.rs:310-402 | negative numbers have neither form |
| DecimalLaws.OnlyNumerals | crates/constellation-remediation-consumer/src/decider.rs:310-402 | any text either conversion answers for is a numeral with white space around it |
| DecimalLaws.PaddingIgnored | crates/constellation-remediation-consumer/src/decider.rs:310-402 | white space around a numeral changes neither conversion |
| DecimalLaws.MicroUsdCeilingExact | crates/constellation-remediation-consumer/src/decider.rs:360-402 | the exact ceiling of a million times the value, without overflow, and exactly when it is given |
| DecimalLaws.ChargesAgree | crates/constellation-remediation-consumer/src/decider.rs:404-428 | both charges or neither; the checked one is the ceiling of the reported one |
| ReadWindow.ScanPage | crates/constellation-remediation-resolver/src/lib.rs:573-597 | one page folds into the progress, or fails at the first bad record |
| ReadWindow.ScanIff | crates/constellation-remediation-resolver/src/lib.rs:573-597 | a page is taken exactly when its records are complete and in strict order within the bounds; its last record and the last one of the instance are kept |
| ReadWindow.FetchPage | crates/constellation-remediation-resolver/src/lib.rs:553-597 | one call answers with a page exactly when the frozen end, the size and the records are as asked |
| ReadWindow.ReadPages | crates/constellation-remediation-resolver/src/lib.rs:550-613 | an accepted read rests on admitted pages with moving cursors, the last of them complete |
| ReadWindow.ScanHonest | crates/constellation-remediation-resolver/src/lib.rs:573-597 | on honest records the fold follows the direct scan |
| ReadWindow.MiddlePage | crates/constellation-remediation-resolver/src/lib.rs:550-603 | a page that leaves records behind moves the cursor on by at least its length and keeps the scan exact |
| ReadWindow.Read | crates/constellation-remediation-resolver/src/lib.rs:540-613 | whatever the server does, an answer rests on the pages answered and lies in the window; against an honest server the read ends, succeeds and equals the direct scan |
| LifecycleLaws.StepRefinesHistory | crates/constellation-attention/src/engine.rs:89-166 | each decision is what the whole history says: counted presence beyond the bound, counted clear time of 120 s, or removal |
| LifecycleLaws.OpenSinceIsEarliest | crates/constellation-attention/src/engine.rs:103-150 | the interval start named by the history is the earliest one that only its own kind and unknown follow |
| LifecycleLaws.TriggerKeepsStart | crates/constellation-attention/src/engine.rs:109-121 | at a trigger the first sighting is the start of the presence that led to it, moved on by the excluded unknown runs |
| LifecycleLaws.ClearStart | crates/constellation-attention/src/engine.rs:124-140 | while active the clear interval on file starts where the history says |
| LifecycleLaws.StampsKept | crates/constellation-attention/src/engine.rs:103-166 | last sighting and last transition are the times of the latest such entries |
| LifecycleLaws.ClampsIdle | crates/constellation-attention/src/engine.rs:109-130 | the clamps to now never change a start |
| LifecycleLaws.ShortRunsInvisible | crates/constellation-attention/src/engine.rs:96-106 | deleting an unknown run of at most 90 s changes no decision |
| LifecycleLaws.DecisionsAlternate | crates/constellation-attention/src/engine.rs:89-166 | consecutive decisions differ |
| LifecycleLaws.SameActionLater | crates/constellation-attention/src/engine.rs:89-166 | times of the same action strictly increase |
| EventIdentity.SharedIdentities | crates/constellation-attention/src/intent.rs:72-74 | two transitions of any conditions share an identity exactly when prefix, action and time agree; the component is not part of it |
| EventIdentity.PrefixTells | crates/constellation-attention/src/intent.rs:72-74 | the component never matters; of site, rule and target class, two that agree fix the third |
| EventIdentity.IdentityEnds | crates/constellation-attention/src/intent.rs:72-74 | an identity ends in the action's name and the time |
| EventIdentity.ForgettingInvisible | crates/constellation-attention/src/engine.rs:979-993 | forgetting settled conditions at any time changes no decision |
| EventIdentity.TransitionsAlternate | crates/constellation-attention/src/engine.rs:89-166 | transitions alternate and begin with a trigger, forgotten in between or not |
| EventIdentity.IdentitiesFresh | crates/constellation-attention/src/intent.rs:72-74 | in an ordered history no two transitions of a condition share an identity |
| Paging.Condition.Observe | crates/constellation-attention/src/engine.rs:89-166 | the in-place update equals the lifecycle step that the history laws are about |
| Paging.Condition.Reconcile | crates/constellation-attention/src/engine.rs:496-535 | step, page decision and resolve reason of one pass |
| Paging.WindowEndFixed | crates/constellation-attention/src/remediation.rs:25-27 | the first sighting, and so the window end, never moves while active |
| Paging.HeldUntilDue | crates/constellation-attention/src/engine.rs:496-535 | a page is held exactly while no pass of the incident was due |
| Paging.PagedAtFirstDue | crates/constellation-attention/src/remediation.rs:41-57 | a page-class incident is paged at its first due pass and at no other; due means past the start of its presence plus the window, capped, as the history gives them |
| Paging.OnePagePerIncident | crates/constellation-attention/src/engine.rs:518-535 | at most one page per incident |
| Paging.RecoveredWithinWindowMeans | crates/constellation-attention/src/engine.rs:505-519 | when exactly a resolve is marked so, and that no page was decided for its incident |
| Paging.RecoveredWithinWindowHistory | crates/constellation-attention/src/engine.rs:505-519 | the same read off the history: the clear interval began before the start of the presence plus the window |
| Delivery.Sort | crates/constellation-attention/src/engine.rs:863-875 | the plan is permuted into order: triggers first, then condition, then role |
| Delivery.Evaluator.Apply | crates/constellation-attention/src/engine.rs:557-862 | the state takes every decision; the plan holds exactly the called-for items, in order, one for each place |
| Delivery.Evaluator.MakePlan | crates/constellation-attention/src/engine.rs:427-875 | reconciling, writing, displacing, following up and pending items for every condition |
| Delivery.Evaluator.SubmitAll | crates/constellation-attention/src/engine.rs:896-977 | submission in plan order with the state saved after every answer |
| Delivery.Evaluator.Evaluate | crates/constellation-attention/src/engine.rs:258-993 | a pass refuses a clock that moved back, saves the plan before submitting, and what the file holds after a crash at any point |
| DeliveryLaws.TriggersFirst | crates/constellation-attention/src/engine.rs:863-875 | every trigger is submitted before every resolve |
| DeliveryLaws.Logged | crates/constellation-attention/src/engine.rs:896-949 | each item submits its intent as planned, in plan order |
| DeliveryLaws.TransitionsSubmitted | crates/constellation-attention/src/engine.rs:571-671 | every transition and due page is submitted, under this pass's identity, to every route it concerns |
| FollowUpLaws.TransitionsAddressed | crates/constellation-attention/src/engine.rs:571-671 | with a transition or due page exactly the roles it concerns get a new intent, with its route, schema and network flag, and a call; the others keep theirs and get none |
| FollowUpLaws.FollowUpsExact | crates/constellation-attention/src/engine.rs:170-198 | without one an intent is sent again exactly when it is unheard, an owed page after 120 s or an owed notice after 900 s; under which identity, as a retry of which record, on which route; an accepted one never |
| FollowUpLaws.AnswerOnFile | crates/constellation-attention/src/engine.rs:928-949 | every answer is on file with its time; a record id is taken over when given and kept otherwise |
| FollowUpLaws.ForgottenIff | crates/constellation-attention/src/engine.rs:979-993 | a condition is forgotten exactly when it is inactive, has no presence open, no trigger pending and no intent owed |
| FollowUpLaws.ReportsOnlyLosses | crates/constellation-attention/src/engine.rs:672-698 | what is reported as dropped was submitted without a record, or was displaced while its acceptance was not known |
| FollowUpLaws.PlanOrder | crates/constellation-attention/src/engine.rs:863-875 | the order of a sorted plan written out |
| DeliveryLaws.TriggerConservation | crates/constellation-attention/src/engine.rs:672-698 | a displaced trigger is accepted, refused on purpose, retained ahead of every resolve, or reported |
| DeliveryLaws.NoPendingLeft | crates/constellation-attention/src/engine.rs:928-946 | a completed pass leaves no pending trigger |
| DeliveryLaws.LoggedIsPlanned | crates/constellation-attention/src/engine.rs:896-949 | whatever a pass submits for a role is what it planned for that role |
| DeliveryLaws.DroppedIsPlanned | crates/constellation-attention/src/engine.rs:683-697 | whatever a pass reports as dropped is its pending or a superseded trigger |
| DeliveryLaws.PendingConservation | crates/constellation-attention/src/engine.rs:679-682 | an older pending trigger is retained ahead of every resolve or reported if and only if no other unretained trigger of the role is displaced |
| DeliveryLaws.StillUnanswered | crates/constellation-attention/src/engine.rs:877-949 | after a crash every unanswered item is in the file as planned |
| DeliveryLaws.NextPassOnUnanswered | crates/constellation-attention/src/engine.rs:170-198 | what the next pass does with an unanswered intent, case by case |
| DeliveryLaws.CrashRecovery | crates/constellation-attention/src/engine.rs:877-949 | the next completed pass submits an unanswered item again under the same identity if and only if it resumes it |
| DeliveryLaws.NoticeResentIffNoPageDue | crates/constellation-attention/src/engine.rs:701-713 | without a transition an unanswered notice is resent if and only if no held page goes out |
| DeliveryLaws.RetainedOnce | crates/constellation-attention/src/engine.rs:183-187 | with an idempotent NQ a resumed item, its first submission lost or not, has never two records, and one once its resubmission is answered with a record |
| DeliveryExamples.TriggerCanBeLost | crates/constellation-attention/src/engine.rs:679-682 | six passes of the evaluator, five of them crashing, after which a trigger is neither retained ahead of the resolve nor reported |
| DeliveryExamples.HeldPageDelaysNotice | crates/constellation-attention/src/engine.rs:701-713 | a held page that keeps an unanswered notice waiting |
| EvaluatorRuns.LifeIsHistory | crates/constellation-attention/src/engine.rs:258-271 | over every run of passes, crashes included, each lifecycle state on file is the one its history gives, and that history is in order of time |
| EvaluatorRuns.TransitionIsDecision | crates/constellation-attention/src/engine.rs:427-535 | each transition of a run is the decision of that history at its entry |
| EvaluatorRuns.RunIdentitiesFresh | crates/constellation-attention/src/engine.rs:258-993 | over every run no two transitions of a condition share an identity |
| Consumer.Select | crates/constellation-remediation-consumer/src/report.rs:63-189 | a candidate exactly for a current report of the enrolled condition, present, its page held, with the margin left |
| Consumer.Pass.Save | crates/constellation-remediation-consumer/src/store.rs:233-237 | the file is replaced or not, never in between, whatever stops the pass |
| Consumer.Pass.TakeActive | crates/constellation-remediation-consumer/src/store.rs:134-144 | the episode joins the closed ones, of which the newest 256 stay |
| Consumer.Pass.Close | crates/constellation-remediation-consumer/src/pass.rs:344-356 | a close is warranted by what AG, the clock or the disk answered for its outcome, and is durable or not made |
| Consumer.Pass.AgStep | crates/constellation-remediation-consumer/src/pass.rs:802-825 | a step is asked at the program counter AG reported last; it moved exactly when AG carried it out or then reports another program counter |
| Consumer.Pass.Advance | crates/constellation-remediation-consumer/src/pass.rs:860-893 | drives on exactly when AG moved, and closes as refused otherwise |
| Consumer.Pass.Authorize | crates/constellation-remediation-consumer/src/pass.rs:884-894 | authorization is asked inside the window only |
| Consumer.Pass.FenceAndDispatch | crates/constellation-remediation-consumer/src/pass.rs:921-928 | fence saved, then dispatch, directly after a reading inside the window |
| Consumer.Pass.Authorized | crates/constellation-remediation-consumer/src/pass.rs:895-968 | recovery is asked first; only an issuance not accepted goes on to the guards of a dispatch |
| Consumer.Pass.RecoverFirst | crates/constellation-remediation-consumer/src/pass.rs:905-972 | what AG's recovery answers decides: drive on when it advanced, go to the guards of a dispatch when nothing was accepted, wait otherwise |
| Consumer.Pass.Unaccepted | crates/constellation-remediation-consumer/src/pass.rs:912-924 | what an unaccepted issuance leads to, by fence and clock: wait, close as not accepted, close as expired, or dispatch |
| Consumer.Pass.Confirm | crates/constellation-remediation-consumer/src/pass.rs:929-966 | after a failed dispatch: drive on unless recovery finds it unaccepted, then close on a refusal and wait otherwise |
| Consumer.Pass.AskCompletion | crates/constellation-remediation-consumer/src/pass.rs:1142-1190 | completion is asked only with a sample past the dwell |
| Consumer.Pass.TryComplete | crates/constellation-remediation-consumer/src/pass.rs:1134-1190 | and only after a bound current answer of the resolver |
| Consumer.Pass.Postcondition | crates/constellation-remediation-consumer/src/pass.rs:1050-1198 | keeps the run good from a settlement reported as a success or as past, proves under the occurrence AG holds, and ends as completed or unproven only |
| Consumer.Pass.Act | crates/constellation-remediation-consumer/src/pass.rs:846-1026 | every branch keeps the run good, which outcomes each report allows, and which reports end the episode at once |
| Consumer.Pass.Settled | crates/constellation-remediation-consumer/src/pass.rs:984-1019 | a settlement without success ends the episode as failed; one with success goes on to its proof |
| Consumer.Pass.Unproven | crates/constellation-remediation-consumer/src/pass.rs:1200-1209 | unproven waits inside the window and closes at its end |
| Consumer.Pass.RecordSettlement | crates/constellation-remediation-consumer/src/pass.rs:994-1014 | a missing settlement is taken from what AG reported for the campaign; a recorded one stays |
| Consumer.Pass.SettlementTime | crates/constellation-remediation-consumer/src/pass.rs:1104-1107 | the dwell is measured from the recorded time or, without one, from a reading after AG reported the settlement as past |
| Consumer.Pass.Drive | crates/constellation-remediation-consumer/src/pass.rs:827-1028 | so does the bounded drive loop |
| Consumer.Pass.OpenEpisode | crates/constellation-remediation-consumer/src/pass.rs:459-490 | opening needs both clock readings, an unseen episode, a new campaign, a current precondition and the prior campaign out of the way |
| Consumer.Pass.Consider | crates/constellation-remediation-consumer/src/pass.rs:360-491 | selection, seen check and window guard come before any opening |
| Consumer.Pass.Run | crates/constellation-remediation-consumer/src/pass.rs:97-171 | every run of passes, stopped anywhere, is good and only adds steps |
| ConsumerLaws.FenceHolds | crates/constellation-remediation-consumer/src/store.rs:42-44 | once dispatched, an open episode is fenced |
| ConsumerLaws.AtMostOneDispatch | crates/constellation-remediation-consumer/src/pass.rs:895-928 | no campaign is dispatched twice in any run |
| ConsumerLaws.ExpiredMeansUndispatched | crates/constellation-remediation-consumer/src/pass.rs:921-924 | an episode closed as expired before dispatch is dispatched neither before nor after |
| ConsumerLaws.OutcomesWarranted | crates/constellation-remediation-consumer/src/pass.rs:827-1209 | each outcome rests on its own evidence: running out of time on a reading past the window, a refused or unaccepted dispatch on a fenced episode and AG's recovery, the others on AG's last report or answer |
| ConsumerLaws.FailureWasReported | crates/constellation-remediation-consumer/src/pass.rs:1016-1018 | closed as failed only when AG's last report has the campaign settled without success |
| ConsumerLaws.RefusalRests | crates/constellation-remediation-consumer/src/pass.rs:802-825 | closed as refused only after AG, last reported at that program counter, failed the step and was not found to have moved |
| ConsumerLaws.OpeningPrepared | crates/constellation-remediation-consumer/src/pass.rs:712-768 | since the last save the precondition was current, and the database missing or archived when AG reported its authority as resolved |
| ConsumerLaws.LastOpeningKept | crates/constellation-remediation-consumer/src/store.rs:127-144 | until the next opening the state remembers the last window and episode |
| ConsumerLaws.GuardAfterWindow | crates/constellation-remediation-consumer/src/pass.rs:397-404 | each opening is guarded after every earlier window's end |
| ConsumerLaws.NoEpisodeTwice | crates/constellation-remediation-consumer/src/pass.rs:394-404 | no episode is opened twice although old ones are forgotten |
| ConsumerLaws.WindowsIncrease | crates/constellation-remediation-consumer/src/pass.rs:397-404 | window ends strictly increase when each guard is read inside the window it opens |
| ConsumerLaws.CloseReadingsSuffice | crates/constellation-remediation-consumer/src/report.rs:157-165 | readings less than the margin apart ensure that |
| ConsumerLaws.FarReadingsBreakOrder | crates/constellation-remediation-consumer/src/pass.rs:375-404 | for all readings the margin apart or more, a report and a state for which the pass opens an episode whose window ends no later than the last |
| ConsumerLaws.WindowsIncreaseIff | crates/constellation-remediation-consumer/src/pass.rs:375-404 | every opening moves the window end forward exactly when the two readings are less than the margin apart |
| ConsumerLaws.DispatchRests | crates/constellation-remediation-consumer/src/pass.rs:905-928 | each dispatch directly follows a recovery that found nothing accepted, asked at a consumed authorization, a reading inside the window and the saved fence of an opened episode |
| ConsumerLaws.DispatchWindowsDisjoint | crates/constellation-remediation-consumer/src/pass.rs:921-928 | dispatches fall in disjoint, increasing windows |
| ConsumerLaws.OneDispatchPerEpisode | crates/constellation-remediation-consumer/src/store.rs:21-44 | at most one dispatch per episode |
| ConsumerLaws.SettlementKept | crates/constellation-remediation-consumer/src/pass.rs:994-1014 | across passes and crashes a recorded settlement time is one AG reported for the campaign |
| ConsumerLaws.CompletionSound | crates/constellation-remediation-consumer/src/pass.rs:984-1198 | closed as completed only after completion was asked of AG on a bound current answer, a settlement reported as a success or as past, and a sample the dwell after it, crash in between or not |
| ConsumerLaws.ContinuationAfterSuccess | crates/constellation-remediation-consumer/src/pass.rs:1059-1083 | a continuation is asked only when AG's last report has the campaign settled with success, under an occurrence that is on file |
| ConsumerLaws.CompletedMeansSuccess | crates/constellation-remediation-consumer/src/pass.rs:984-1198 | if AG holds continuations only when asked, every episode closed as completed had its settlement reported as a success before |

## Left out

- Identity and binding guards of admission (request, response, certificate and selector digests): equality checks over types of other crates.
- Text shapes, lengths and digest formats in policy and artifact validation; HTML; the publisher's file handling.
- `validate_inputs` and the disclosure details: guards that refuse before anything is computed.
- `judge` and the resolution record of the resolver: a pure table over the window that the read returns.
- How the evaluator's inputs become observations, and the reading of rules and configuration: each pass gets arbitrary readings.
- The reasoning phase of the model decider: one step that closes the episode as something other than completed, waits, or begins the campaign.
- Journal contents, file paths, process spawning, timeouts and sleeping: an outside call answers arbitrarily or stops the pass.
- Legacy page re-rendering, dry runs and unreadable intent files in the evaluator's follow-ups.
- `reset_clock`, relabelling of inputs, the watcher roster and the pruning of intent files.
- The bytes of intents: an intent is its identity, action, route, schema and delivery record.
- Liveness: that a held page or a pending episode is eventually dealt with depends on passes being run.
- Consumer.Pass.Consider: takes the guard's clock reading also before the first opening, where the code needs none.
- PolicyValidation.Validate: leaves out schema, token, text and disclosure checks, which look at one field each.
- PolicyValidation.ValidateComponents: leaves out token, selector and reingestion checks of a component's own fields.
- StatusArtifacts.Rows: leaves out the owner details that a disclosure may add to a row.
- StatusArtifacts.Project: leaves out refusals of malformed inputs and details, which happen before the evaluation.
- Delivery.Evaluator.MakePlan: leaves out legacy page re-rendering and unreadable intent files.
- DeliveryLaws.PendingConservation: the if-and-only-if needs an identity no other intent of the role has, as `RunIdentitiesFresh` gives for transitions.
- DeliveryLaws.CrashRecovery: the if-and-only-if needs the same; resuming implies resubmission without it.
