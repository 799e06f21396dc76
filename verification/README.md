# Verified model of the orchestrator, its event streams and discovery ingestion

This project models the logic of six components in Dafny and proves what their code promises.
`dafny verify dfyconfig.toml` checks all of it.

- **The plan engine.** The patch language over an ordered plan (`Plans`), the repair of loose planner
  output (`PatchInput`, `PatchMeaning`), the JSON scanner (`JsonScanner`, `JsonText`), and the loop that plans, executes
  specialist steps, replans and finalizes, pausing for a human and resuming in later sessions (`Engine`,
  `EngineRuns`, `EngineTheorems`, `EnginePlanning`, `EngineClashes`, `EngineSessions`, `EngineLoop`). A run
  is a function of the replies at its suspension points, with the requests that each step raises, and of
  the operators' answers between its sessions; specialists, quality assurance, planner and operators are
  arbitrary. `EngineLoop` holds the object that updates its plan in place, proved against those functions.
- **Requests to humans.** The two repositories behind one interface, the request budget, the engine's own
  view of its requests, and the handlers that answer or remove a request (`Hitl`, `HitlRepositories`,
  `HitlService`, `Inboxes` in `HitlInbox.dfy`, `HitlHandlers`). Each raise and each handler is one atomic
  step.
- **Server-sent events.** The writer and the incremental parser of both clients (`Sse`), in the format of
  section 9.2.6 of the WHATWG HTML Living Standard, except that fields are trimmed where the standard
  strips one space.
- **Discovery ingestion.** The lease on a source and its health (`Sources`, `Leases`), the retry loop
  (`Retry`) and the worker pool (`WorkerPool`).
- **The semaphore** in front of long-running routes (`Semaphore.dfy`), as a system of interleaved events.
- **Keywords and scoring.** Normalization, duplicate keys and the keyword table (`Keywords`,
  `KeywordTable.dfy`), relevance scores over exact reals (`Scoring`, `ScoringBatch`).

Clocks, specialist results, planner texts, fetch results, schedules, query orders and fresh ids are
parameters. `Text` holds the string operations of the source language, `Basics` what several modules need. The
characters that count as white space, as letters and in JSON are also listed one by one (`SpaceCodes`,
`LowerCodes`, `GrammarCharacters`).

## What the code does not promise

Where a promise of the code or its documentation fails, a lemma gives an input or the exact condition.

- The loop plans for ever when a finalize step exists, none is pending and nothing else is pending, unless
  an open request stops a specialist step first (`EndsIff`, `DoneFinalizeStepNeverEnds`;
  orchestrator-engine.ts, lines 1006-1017). A plan that starts with a pending finalize step loses it when
  the engine moves it under an id that the plan holds already and a finished finalize step stays behind
  (`RevisionLosesFinalIff`, `ClashingPlanNeverEnds`; lines 959-968).
- The engine stores a run as completed with specialist work left over exactly when a session begins with an
  answer that rejects the run and only emits an event (`CompletedWithWorkLeftIff`,
  `EmittingRejectionLeavesWork`; lines 457-484); the handler of such an answer stores the same
  (`HandlerCompletesPausedIff`).
- The planner can put steps in progress, and then more than one can be (`FreshRunInProgressIff`,
  `ActiveStepMakesTwo`).
- The engine appends its own finalize step without looking at the ids, so the event replays differently
  when a specialist step has that id (`EnsureFinalizeReplaysIff`).
- An id brought by the planner can clash with a generated one (`AllAdditionsLandIff`,
  `OwnIdCanClashWithGeneratedOne`).
- The scanner misses the places of the JSON in the planner's prose exactly when a bracket in the prose is
  closed later (`ScannerFindsThePlacesIff`, `StrayBracketSwallowsADocument`).
- An event without a name, or with an empty one, is named differently by the two clients
  (`ClientsAgreeIff`, `NamelessFrameDiffers`).
- With two pending requests the repositories disagree (`RaiseAgreesIff`); after a denied raise beside a
  pending request the stored status is running although the run waits (`RaiseIsLawfulIff`).
- A response to a denied request makes it count against the budget, which it exceeds when the budget is
  used up (`ResponseKeepsBudgetIff`, `AnsweredDenialExceedsBudget`).
- With the in-memory repository the handlers read a stored state that is stale after an answer until the
  engine stores the next one; a settled request can then change its status (`SettledInMemoryIff`,
  `EveryMemoryState`, `AnsweredRequestCanBeRemovedInMemory`).
- A fast acquire can overtake a woken waiter and exceed the capacity (`OverbookedIff`,
  `CapacityCanBeExceeded`).
- A failure streak counts failures across stale marks (`FailureStreakIsRunIff`); a lease whose job dies is
  never given up (`LeaseNeverExpires`).
- Sources are marked as stale by what they were when they were selected: a mark that comes late can land on
  a source in flight (`HeldSourceIsUntouchedIff`) and bring failures back after a success
  (`StaysAccurateIff`, `LateMarkBringsFailuresBack`).
- A worker limit below one processes nothing (`RunJob`).
- A keyword of hyphens has an empty duplicate key (`KeyNormalizesIff`, `HyphenHasEmptyKey`).
- The score shown can reach the threshold of an item suppressed by its unrounded score, and miss the
  threshold of a scored one (`ShownAndStatusDisagreeIff`, `ScoredItemShownBelow`).

## Model

| member | source | states |
|---|---|---|
| `JsonScanner.ExtractJsonCandidates` | packages/agents-server/src/services/orchestrator-engine.ts:201-234 | The outer loop, with the inner one as a method of its own, returns exactly the segments of the text, left to right: a bracket whose segment closes yields the segment and is skipped whole, any other bracket is skipped alone. |
| `JsonScanner.SegmentLengthIsFirstClosing` | packages/agents-server/src/services/orchestrator-engine.ts:211-230 | The inner loop stops at the first prefix after which the scan has closed, and reports nothing exactly when no prefix closes. |
| `JsonScanner.SegmentsStandThere` | packages/agents-server/src/services/orchestrator-engine.ts:201-234 | Every segment is what stands in the text at its start. |
| `JsonText.ValueIsNeutral` | packages/agents-server/src/services/orchestrator-engine.ts:213-226 | Inside a segment, the text of any JSON value of RFC 8259 leaves the depth counter and the quote flags where they were, although only the opening bracket's own kind is counted. |
| `JsonText.SegmentOfDocument` | packages/agents-server/src/services/orchestrator-engine.ts:207-230 | An object or array text followed by anything is cut off exactly at its own closing bracket. |
| `JsonText.ScannerFindsEveryDocument` | packages/agents-server/src/services/orchestrator-engine.ts:201-234 | For any JSON objects and arrays separated by text, in which an opening bracket may occur only when nothing behind it ever closes it, the scanner returns exactly their texts, in order. |
| `JsonText.ScannerFindsThePlacesIff` | packages/agents-server/src/services/orchestrator-engine.ts:201-234 | For any JSON objects and arrays and any text between them: the segments that the scanner finds start exactly where the documents do if and only if no opening bracket in the text between is ever closed, there or in what follows. |
| `JsonText.RightTextFromTheWrongPlace` | packages/agents-server/src/services/orchestrator-engine.ts:201-234 | Why places and not texts: behind a gap that closes a bracket the scanner can return a document's text from elsewhere. |
| `JsonText.StrayBracketSwallowsADocument` | packages/agents-server/src/services/orchestrator-engine.ts:207-230 | Why the separating text may not hold a bracket that is closed: one stray brace around a document is returned in its place. |
| `Sse.ParseSse` | src/lib/agent-sse.ts:130-187 | However a text is split into chunks, the parser of either client (the second is flex-sse.ts, lines 117-170) hands on the events that the lines of the whole text spell out, and nothing for an unfinished line. For the first client a name in the data goes before the one of the event line, even an empty one, and 'message' stands in for both; for the second the first of the two that is not empty counts, and then 'log'. |
| `Sse.ReadConcat` | src/lib/agent-sse.ts:140-186 | Reading one text after another is reading both at once with the open fields and the unfinished line carried over. |
| `Sse.TruncationDispatchesPrefix` | src/lib/agent-sse.ts:140-186 | Any text cut off anywhere dispatches a prefix of what the whole text dispatches. |
| `Sse.SseWriter.constructor` | packages/agents-server/src/utils/sse.ts:42 | The stream starts with an empty comment and a blank line, and no frame. |
| `Sse.SseWriter.WriteRaw` | packages/agents-server/src/utils/sse.ts:44-51 | A chunk is appended whole or not at all; a connection found ended closes the writer. |
| `Sse.SseWriter.SendNamed` | packages/agents-server/src/utils/sse.ts:96-104 | The wire stays the prologue followed by the frames sent, numbered 1, 2, 3, ...; a frame is appended with the next number, as the event, id and data lines with a blank line behind them, or not at all once the writer is closed. |
| `Sse.StreamSnoc` | packages/agents-server/src/utils/sse.ts:96-104 | Sending a frame appends it to the stream under the next number. |
| `Sse.ReadFrame` | src/lib/agent-sse.ts:153-183 | A frame with trimmed one-line fields is dispatched once, with its name, number and payload, and the rest of the text is read as if it stood alone. |
| `Sse.ReadStreamPrefix` | src/lib/agent-sse.ts:140-186 | A stream cut off after n characters dispatches exactly the frames that end within them. |
| `Sse.WriteThenParse` | src/lib/agent-sse.ts:130-187 | Writing then parsing is the identity under every chunking: a stream cut off anywhere dispatches exactly its complete frames, in order, with ids 1, 2, 3, ..., and never part of a frame. |
| `Sse.SurvivesIffClean` | src/lib/agent-sse.ts:165-167 | A frame comes back unchanged if and only if its name and payload are trimmed and on one line. |
| `Sse.ClientsAgreeIff` | src/lib/flex-sse.ts:145 | On any text the two clients hand on the same events if and only if the name that the first client finds for each of them is not empty; otherwise the second goes on to the next name, and to another default. |
| `Sse.WrittenEventsAgreeIff` | src/lib/flex-sse.ts:129-168 | For every stream that the writer sends with clean fields: both clients hand on one event per frame, and the same ones if and only if no payload that carries a name carries an empty one and every other frame has a name. |
| `Sse.WrittenEventsAre` | src/lib/agent-sse.ts:153-173 | What either client (the second is flex-sse.ts, lines 132-157) hands on of a stream of clean frames, cut off and split anywhere: event k has the id k, the payload of frame k, and the name in that payload, or else the name of the frame; when that name is empty it is empty in the first client, and in the second the name of the frame or 'log'. |
| `Sse.DataAloneIsOneEvent` | src/lib/agent-sse.ts:155-165 | Data without an event line is one event without an id, under the name in the data or else 'message' in the first client and 'log' in the second. |
| `Sse.DataLinesAreOneEvent` | src/lib/agent-sse.ts:155-156 | Several data lines are one event whose data is the lines with a line feed between them. |
| `Sse.CrLfIsLf` | src/lib/agent-sse.ts:151 | Lines that end with a carriage return and a line feed are read like lines that end with a line feed. |
| `Sse.OtherLinesAreIgnored` | src/lib/agent-sse.ts:180-184 | A comment, and any other line that is none of the three fields, changes nothing. |
| `Sse.NamelessFrameDiffers` | src/lib/flex-sse.ts:145 | A frame without a name is named differently by the two clients. |
| `Plans.Plan.ApplyPlanPatch` | packages/agents-server/src/services/orchestrator-engine.ts:171-199 | The three loops leave the plan that the patch means: additions, then updates, then removals. |
| `Plans.Plan.AddSteps` | packages/agents-server/src/services/orchestrator-engine.ts:173-186 | Steps are appended in order unless their id is already there, also when an earlier addition brought it. |
| `Plans.Plan.UpdateStep` | packages/agents-server/src/services/orchestrator-engine.ts:187-195 | The first step with the id gets the given status and note; a missing field leaves the old one, and an unknown id changes nothing. |
| `Plans.Plan.RemoveSteps` | packages/agents-server/src/services/orchestrator-engine.ts:196-198 | Exactly the steps with a listed id go; the others keep their order. |
| `Plans.AppliedIds` | packages/agents-server/src/services/orchestrator-engine.ts:171-199 | The ids of a patched plan: surviving steps in their old order, then the new ones in the order of first mention. |
| `Plans.AppliedMembers` | packages/agents-server/src/services/orchestrator-engine.ts:171-199 | An id is in the patched plan exactly when it is not removed and was there or is added; distinct ids stay distinct. |
| `Plans.AppliedSteps` | packages/agents-server/src/services/orchestrator-engine.ts:171-199 | Every step of a patched plan is the old step with its id, or else the first added one, with the last status and the last note that the updates give for it. |
| `Plans.ApplyTwice` | packages/agents-server/src/services/orchestrator-engine.ts:171-199 | Applying a patch a second time changes nothing, on every plan, even one with repeated ids. |
| `PatchInput.UniqueId` | packages/agents-server/src/services/orchestrator-engine.ts:45-56 | The search for a free numbered id terminates and returns the first one from the starting number on; the id is recorded as taken. |
| `PatchInput.FirstFree` | packages/agents-server/src/services/orchestrator-engine.ts:47-55 | From any number on there is a free id after at most as many steps as there are taken ids ahead, and all numbers before it are taken. |
| `PatchInput.FewIdsAreSkipped` | packages/agents-server/src/services/orchestrator-engine.ts:50-53 | Pigeonhole: at most as many ids are skipped as there are ids in the plan. |
| `PatchInput.NormalizePlanPatchInput` | packages/agents-server/src/services/orchestrator-engine.ts:34-169 | The loops over additions, updates and removals yield the normalized patch, or nothing, of which the rows below say what it holds. |
| `PatchMeaning.NormalizedIffUsable` | packages/agents-server/src/services/orchestrator-engine.ts:155-168 | There is a patch if and only if some addition is recognized, some update finds its id, some removal is not empty, or the note is not blank. |
| `PatchMeaning.NormalizedContents` | packages/agents-server/src/services/orchestrator-engine.ts:12-158 | From the raw input to the fields of every step: a patch holds one step for each recognized addition, in order. A text names finalization when, trimmed and in lower case, it is final or finalize or has finish or complete in it, and otherwise the capability of that name; the status is in progress for in_progress, inprogress and active, done for done, complete and completed, skipped for skipped, in any case, and pending for everything else; the note is the planner's or the one of the kind; a JSON Patch path counts by its start. The id is the planner's, or auto, the kind and the first number after the steps of that kind that is not taken. Updates, in which pending counts and any other text means no change, and removals that are not empty stand in order. |
| `PatchMeaning.UpdateNamesItsStep` | packages/agents-server/src/services/orchestrator-engine.ts:126-153 | From the texts of an update: it keeps an id that is not empty; without one it gets the id of the first step of the kind it names, and is dropped when there is none; one that names no kind keeps even an empty id; its note is kept, and its status is what its text says. |
| `PatchInput.CollectSteps` | packages/agents-server/src/services/orchestrator-engine.ts:87-125 | The loop over additions yields the steps of its usable items in order; generated ids are recorded as taken while the planner's own are not. |
| `PatchInput.NamesAreStable` | packages/agents-server/src/services/orchestrator-engine.ts:12-17 | A step name that is recognized once is recognized again as the same capability or as finalization. |
| `PatchInput.GeneratedIdsAreFresh` | packages/agents-server/src/services/orchestrator-engine.ts:45-56 | Every generated id is new to the plan and differs from every other generated id of the patch. |
| `PatchInput.AllAdditionsLandIff` | packages/agents-server/src/services/orchestrator-engine.ts:87-125 | In a plan with distinct ids every step of a normalized patch reaches the plan if and only if the ids that the planner gave are pairwise different, not in the plan, and none of the ids generated for the other steps. |
| `PatchInput.OwnIdCanClashWithGeneratedOne` | packages/agents-server/src/services/orchestrator-engine.ts:106 | An id that the planner brings can equal one generated before it, and then the later step is lost. |
| `Engine.NextPendingFound` | packages/agents-server/src/services/orchestrator-engine.ts:994-997 | The next step is pending, there is one whenever any step is pending, and it is a finalize step only when no specialist step is pending. |
| `Engine.NextPendingComesNext` | packages/agents-server/src/services/orchestrator-engine.ts:994-997 | On positions: the next step stands at a pending position with no pending specialist step before it; it is a finalize step only when no specialist step is pending anywhere, and then no pending step stands before it; there is none exactly when nothing is pending. |
| `Engine.SetFirstMembers` | packages/agents-server/src/services/orchestrator-engine.ts:622-628 | In a plan with distinct ids a status change replaces the one step and nothing else. |
| `EngineLoop.Orchestrator.RefreshHitlDerivedState` | packages/agents-server/src/services/orchestrator-engine.ts:550-557 | The new state is kept, and the run stops awaiting an answer when its pending record is gone. |
| `EngineLoop.Orchestrator.SignalHitlRequest` | packages/agents-server/src/services/orchestrator-engine.ts:559-575 | A granted raise refreshes the state and makes the run await an answer exactly when the request is pending. |
| `EngineLoop.Orchestrator.EvaluateResolvedHitlRequests` | packages/agents-server/src/services/orchestrator-engine.ts:498-511 | Each answered request is dealt with once, in order, up to the first rejection that ends the run. |
| `EngineLoop.Orchestrator.TakeAsks` | packages/agents-server/src/services/orchestrator-engine.ts:1035-1051 | Within a step each raise is granted or denied by a counter that starts at the requests that are not denied, and is signalled at once; the step ends with a refresh. |
| `EngineLoop.Orchestrator.BeginSession` | packages/agents-server/src/services/orchestrator-engine.ts:583-593 | A session first rules on the answers and may end there; otherwise it signals an open request again. |
| `Inboxes.AskKeepsAttentive` | packages/agents-server/src/services/orchestrator-engine.ts:550-581 | Every raise keeps the law that the engine awaits an answer exactly while a request is pending; it is granted exactly below the limit, appended with its status, and the counter stays the number of requests that are not denied. |
| `Inboxes.StepKeepsAttentive` | packages/agents-server/src/services/orchestrator-engine.ts:1035-1051 | Whatever a step raises, the law and the budget hold after it, and a request that was pending is still awaited. |
| `Inboxes.AwaitingIsPending` | packages/agents-server/src/services/orchestrator-engine.ts:550-557 | Under the law the engine awaits an answer if and only if some request of its run is stored as pending. |
| `Inboxes.EvaluateFindsFirst` | packages/agents-server/src/services/orchestrator-engine.ts:498-511 | The ruling is that of the first answered request, not dealt with before, whose rejection ends the run; without one every answer is dealt with. |
| `Inboxes.OpenedIsAttentive` | packages/agents-server/src/services/orchestrator-engine.ts:583-593 | A session that no answer ends starts under the law, whatever state was loaded. |
| `Inboxes.AttentiveRulesNothing` | packages/agents-server/src/services/orchestrator-engine.ts:1053-1055 | The ruling after a step never ends a run: all answers were dealt with when the session began. |
| `EngineLoop.Orchestrator.EmitPlanUpdate` | packages/agents-server/src/services/orchestrator-engine.ts:596-609 | Every plan update event raises the version by one and carries the patch. |
| `EngineLoop.Orchestrator.EnsureFinalizeStep` | packages/agents-server/src/services/orchestrator-engine.ts:611-620 | A plan without a finalize step gets one at its end, with an event; any other plan is left alone. |
| `EngineLoop.Orchestrator.SetStepStatusById` | packages/agents-server/src/services/orchestrator-engine.ts:622-628 | The first step with the id gets the status, and the note unless it is empty, with an event; an unknown id does nothing. |
| `EngineLoop.Orchestrator.GetNextPendingStep` | packages/agents-server/src/services/orchestrator-engine.ts:994-997 | On positions: the first pending specialist step, or without one the first pending step, or nothing when no step is pending. |
| `EngineLoop.Orchestrator.CountRevisionCycles` | packages/agents-server/src/services/orchestrator-engine.ts:946-947 | Revision cycles are the generation steps done, less the first. |
| `EngineLoop.Orchestrator.RepositionFinalize` | packages/agents-server/src/services/orchestrator-engine.ts:959-968 | Unfinished finalize steps that no longer stand last are replaced by one new finalize step at the end. |
| `EngineLoop.Orchestrator.AddRevisionIfNeeded` | packages/agents-server/src/services/orchestrator-engine.ts:940-971 | When a revision is needed and cycles remain, the numbered revision steps are added and finalization moves behind them; a finalize step is there afterwards. |
| `EngineLoop.Orchestrator.PlanWithLLM` | packages/agents-server/src/services/orchestrator-engine.ts:855-938 | The planner's patch or a fallback, the finalize step, and a second fallback when no step has a capability. |
| `EngineLoop.Orchestrator.TakeStep` | packages/agents-server/src/services/orchestrator-engine.ts:1019-1064 | A step is set in progress; finalization is entered, or the specialist's raises and result end the run by rejection, pause it with the step back to pending while a request is open, or complete the step. |
| `EngineLoop.Orchestrator.RunLoop` | packages/agents-server/src/services/orchestrator-engine.ts:991-1160 | From every plan with distinct ids whose finalization is reachable the loop terminates, whatever the specialists, the quality assurance and the operators do, and ends in the state that the run of that many suspension points ends in. |
| `EngineLoop.Orchestrator.RunSession` | packages/agents-server/src/services/orchestrator-engine.ts:291-1160 | A whole session on a stored plan, which is dropped when it has no active steps, ruled on, and planned when it is empty, ends in the state that the run of its suspension points ends in. |
| `EngineLoop.SessionStartsWith` | packages/agents-server/src/services/orchestrator-engine.ts:291-330 | A session goes on with the stored plan and version if and only if a step of it is pending or in progress, and otherwise plans from nothing, unless an answer rejects the run at once; either way it counts its own events and executions only. |
| `EngineRuns.SetStatusEffect` | packages/agents-server/src/services/orchestrator-engine.ts:622-628 | A status change touches one step, adds one event and keeps the ids. |
| `EngineRuns.EnsureFinalizeEffect` | packages/agents-server/src/services/orchestrator-engine.ts:611-620 | Afterwards there is a finalize step, specialist steps and finished finalize steps are untouched, and ids stay distinct. |
| `EngineRuns.RepositionEffect` | packages/agents-server/src/services/orchestrator-engine.ts:959-968 | Repositioning touches no specialist step and no finished finalize step; every finalize step it brings is pending. |
| `EngineRuns.AddRevisionEffect` | packages/agents-server/src/services/orchestrator-engine.ts:940-971 | The plan keeps all specialist steps and finished finalize steps and gains exactly the revision steps whose ids were free. |
| `EngineRuns.RevisionsAre` | packages/agents-server/src/services/orchestrator-engine.ts:940-957 | What a revision plans, field by field: a generation step and a check behind it, pending, under the number of the cycle, which is one or else the number of generation steps done; and only when one is needed and cycles remain. |
| `EngineRuns.RepositionMoves` | packages/agents-server/src/services/orchestrator-engine.ts:959-968 | When the last step is not a finalize step, exactly the finalize steps that are not done go, and one new pending one, named by the next version, stands at the end if that id is free; otherwise nothing changes. |
| `EngineRuns.AddRevisionKeepsWork` | packages/agents-server/src/services/orchestrator-engine.ts:940-971 | Planning a revision moves steps from the not yet planned to the pending ones: the sum does not grow. |
| `EngineRuns.EndStep` | packages/agents-server/src/services/orchestrator-engine.ts:1035-1066 | How a specialist step ends: by a rejection with the plan as it is; by a pause with the step pending again, exactly when the run awaits an answer; and otherwise done, with replanning next; the reply alone says whether a revision is needed. |
| `EngineRuns.RevisionFollowsReply` | packages/agents-server/src/services/orchestrator-engine.ts:940-957 | Over the two suspension points from a specialist's reply to the next planning: the plan gains the generation and check steps of the next cycle, whose ids were free, if and only if that reply asks for a revision and cycles remain, and no other specialist step. |
| `EngineRuns.AdvanceKeepsGood` | packages/agents-server/src/services/orchestrator-engine.ts:998-1070 | Every suspension point keeps ids distinct and the current step in progress in the plan; finalization runs only when no specialist step is pending. |
| `EngineRuns.AdvanceWork` | packages/agents-server/src/services/orchestrator-engine.ts:998-1070 | Executing a specialist step uses up one unit of the remaining work, and nothing else changes it. |
| `EngineRuns.AdvanceProgress` | packages/agents-server/src/services/orchestrator-engine.ts:998-1070 | Every suspension point of a run that is neither over nor stuck lowers the measure: pending specialist steps plus revision ids not yet in the plan. |
| `EngineTheorems.EnsureFinalizeReplaysIff` | packages/agents-server/src/services/orchestrator-engine.ts:611-620 | The event of the direct append replays to the same plan if and only if a finalize step existed or the appended id was free. |
| `EngineTheorems.SetFirstIsUpdate` | packages/agents-server/src/services/orchestrator-engine.ts:622-628 | The direct change of a status is what replaying its update event does. |
| `EngineTheorems.AddRevisionExtends` | packages/agents-server/src/services/orchestrator-engine.ts:940-971 | The events of a revision replay to the revised plan. |
| `EngineTheorems.ReplayTheorem` | packages/agents-server/src/services/orchestrator-engine.ts:596-628 | At every suspension point of every run, folding the emitted patches over the starting plan gives the current steps, and the version is the starting version plus the number of patches. |
| `EngineTheorems.AdvanceIsSafe` | packages/agents-server/src/services/orchestrator-engine.ts:998-1070 | Finalization stays reachable: no step that the engine adds or moves can take away the last pending finalize step. |
| `EngineTheorems.EntersNext` | packages/agents-server/src/services/orchestrator-engine.ts:1019-1032 | The loop enters the step whose turn it is by position: a specialist is put to work and recorded as executed, or finalization begins. |
| `EngineTheorems.ExecutedInTurn` | packages/agents-server/src/services/orchestrator-engine.ts:994-1032 | Over every run, every step that was executed had its turn when it was entered: it was pending, and no pending specialist step stood before it. |
| `EngineTheorems.EndsWhenFinalsArePending` | packages/agents-server/src/services/orchestrator-engine.ts:991-1070 | A run whose finalize steps are all pending at the start, or can finish otherwise, ends within the measure. |
| `EngineTheorems.QuietRunNeverEnds` | packages/agents-server/src/services/orchestrator-engine.ts:1006-1017 | With a finalize step but none pending, the run in which nobody objects never ends. |
| `EngineTheorems.EndsIffFinalizeReady` | packages/agents-server/src/services/orchestrator-engine.ts:991-1070 | When no step holds an id that the engine could still mint, every behaviour of specialists, quality assurance and operators ends within some bound if and only if the plan has a pending finalize step or none at all, or a request is pending that stops the first pending specialist step. |
| `EngineTheorems.ExecutedWork` | packages/agents-server/src/services/orchestrator-engine.ts:998-1070 | Steps executed plus work remaining is constant over every run that has not ended. |
| `EngineTheorems.ExecutesAtMost` | packages/agents-server/src/services/orchestrator-engine.ts:940-971 | From every start a session executes at most the pending specialist steps and two steps per revision cycle. |
| `EngineTheorems.AdvanceDone` | packages/agents-server/src/services/orchestrator-engine.ts:1051-1064 | A step that is done stays done, and none becomes done while the run awaits an answer. |
| `EngineTheorems.DoneStaysDone` | packages/agents-server/src/services/orchestrator-engine.ts:998-1089 | Done is never left over a whole session. |
| `EngineTheorems.AdvanceInProgress` | packages/agents-server/src/services/orchestrator-engine.ts:1019-1064 | Besides the steps in progress at the start only the current step is in progress; a pause at a step and a completion leave none. |
| `EngineTheorems.AtMostOneInProgress` | packages/agents-server/src/services/orchestrator-engine.ts:998-1089 | At most one step is in progress at every suspension point of a session that starts with none. |
| `EngineTheorems.AtMostOneInProgressIff` | packages/agents-server/src/services/orchestrator-engine.ts:998-1089 | Every session from a plan has at most one step in progress at all its suspension points if and only if the plan has none, or has one and nothing to do. |
| `EngineSessions.AdvanceIsConsistent` | packages/agents-server/src/services/orchestrator-engine.ts:1051-1089 | Every suspension point keeps what an open request means: finalization is entered, and a run completes, only without one; a pause leaves a pending specialist step. |
| `EngineSessions.AdvanceKeepsAttentive` | packages/agents-server/src/services/orchestrator-engine.ts:1035-1062 | At every suspension point the run awaits an answer exactly while a stored request is pending, the requests that are not denied stay within the limit or what there was before, and no step is followed by a rejection. |
| `EngineSessions.SessionKeepsBudget` | packages/agents-server/src/services/orchestrator-engine.ts:1035-1051 | Over a whole session the requests that are not denied never exceed the limit, or what there was at its start. |
| `EngineSessions.NothingDoneWhilePending` | packages/agents-server/src/services/orchestrator-engine.ts:1051-1064 | No step becomes done at a suspension point that leaves a request pending. |
| `EngineSessions.PausedCanStart` | packages/agents-server/src/services/orchestrator-engine.ts:1056-1062 | What a paused run stores is a plan that a new session can be started on, with finalization still reachable, whatever answers came in, unless they reject the run. |
| `EngineSessions.WholeRun` | packages/agents-server/src/services/orchestrator-engine.ts:991-1089 | Over a whole run with any number of pauses, answers and resumes: done is never left, at most one step is in progress, a paused step is back to pending and the run can start again, and a run completes only with no pending specialist step and no stored request pending. |
| `EngineSessions.StoredStatusIff` | packages/agents-server/src/services/orchestrator-engine.ts:431-480 | What is stored when a session ends: completed after finalization (line 1156) and after a rejection that only emits an event, failed after any other rejection, and awaiting after a pause (line 1086). |
| `EngineSessions.CompletedWithWorkLeftIff` | packages/agents-server/src/services/orchestrator-engine.ts:457-484 | The engine stores a run as completed with specialist work left over if and only if some session begins with an answer that rejects the run and asks for an event only. |
| `EngineSessions.EmittingRejectionLeavesWork` | packages/agents-server/src/services/orchestrator-engine.ts:457-484 | A run with one step to do and one open request, answered by any such rejection, is stored as completed with its step still to do. |
| `EngineSessions.HandlerCompletesPausedIff` | server/api/hitl/resume.post.ts:66-104 | The handler of answers stores a paused run, whose plan has specialist work pending, as completed if and only if its last response rejects the request and asks for an event only. |
| `EngineSessions.WholeRunReplays` | packages/agents-server/src/services/orchestrator-engine.ts:596-628 | Over a whole run with all its sessions the emitted patches, one session after the other, replay to the plan at the end, and the version counts them. |
| `EngineSessions.WholeRunKeepsBudget` | packages/agents-server/src/services/orchestrator-engine.ts:1035-1051 | Over a whole run, pauses and answers included, the requests that are not denied never exceed the limit, or what there was at the start, provided nobody responds to a denied request. |
| `EngineSessions.RestoredIff` | packages/agents-server/src/services/orchestrator-engine.ts:291-313 | A paused run is taken over as it is; a completed one is planned from nothing unless a finalize step is left pending. |
| `EngineSessions.PauseWithoutWorkGetsStuckIff` | packages/agents-server/src/services/orchestrator-engine.ts:1019-1028 | Why a session with an open request needs a pending specialist step: from every plan without one but with finalize steps pending it pauses with one of these in progress, and a later session is stuck if and only if that was the only one. |
| `EnginePlanning.PlannedFromNothing` | packages/agents-server/src/services/orchestrator-engine.ts:855-938 | What planning makes of nothing, step by step: the finalize step alone when the planner throws; strategy, generation, check and the finalize step when its answer holds no usable patch; otherwise the steps of its patch, followed by those three when none has a capability, and a finalize step wherever there is none. |
| `EnginePlanning.PlannedIsGoodIff` | packages/agents-server/src/services/orchestrator-engine.ts:855-938 | Planning from nothing leaves a plan with distinct ids and a finalize step that the loop can take over if and only if the planner gives no specialist step the id of the engine's own finalize step. |
| `EnginePlanning.FreshRunReplays` | packages/agents-server/src/services/orchestrator-engine.ts:906-937 | A run from nothing: all its events, the planner's patch and the fallbacks among them, replay to its plan. |
| `EnginePlanning.FreshRunEndsIff` | packages/agents-server/src/services/orchestrator-engine.ts:973-1017 | When the planner's patch holds no id that the engine could still mint and gives no specialist step the engine's own finalize id: a fresh run ends under every behaviour if and only if the patch holds a pending finalize step or none at all, or a request is pending that stops its first specialist step. |
| `EngineClashes.RevisionLosesFinalIff` | packages/agents-server/src/services/orchestrator-engine.ts:940-971 | A revision loses the last pending finalize step if and only if it moves the open finalize steps, the id of the new one is taken, and a finished finalize step stays behind. |
| `EngineClashes.EndsIff` | packages/agents-server/src/services/orchestrator-engine.ts:991-1070 | Without any condition on ids that the engine could mint: every behaviour ends within some bound if and only if a pending request stops the first specialist step, or the plan has a pending finalize step or none at all and no behaviour leads to such a revision. |
| `EngineClashes.FreshRunEndsExactly` | packages/agents-server/src/services/orchestrator-engine.ts:855-1017 | The same for every fresh run, as a condition on the planner's patch, when it gives no specialist step the engine's own finalize id. |
| `EngineClashes.ClashingPlanNeverEnds` | packages/agents-server/src/services/orchestrator-engine.ts:959-968 | A patch with a pending finalize step and a finished one under the id that the engine mints five updates later: after one objection the loop plans for ever. |
| `EngineClashes.DoneFinalizeStepNeverEnds` | packages/agents-server/src/services/orchestrator-engine.ts:1006-1017 | A patch whose only finalize step is called done: the loop plans for ever. |
| `EngineSessions.PlannedCanStart` | packages/agents-server/src/services/orchestrator-engine.ts:855-938 | Planning from nothing leads to a plan that a session can be started on when the planner's patch keeps the engine's finalize id free, leaves finalization reachable and puts no step in progress. |
| `EngineSessions.FreshWholeRun` | packages/agents-server/src/services/orchestrator-engine.ts:855-1089 | The promises of a whole run, and the exact condition for work left over, from the first planning on, under the condition on the patch in the row above. |
| `EngineSessions.FreshRunExecutesAtMost` | packages/agents-server/src/services/orchestrator-engine.ts:855-971 | A run from nothing executes in its first session at most the planned specialist steps and two steps per revision cycle. |
| `EngineSessions.FreshRunInProgressIff` | packages/agents-server/src/services/orchestrator-engine.ts:113-121 | A run from nothing has at most one step in progress if and only if the planner puts none in progress, or one where nothing is left to do. |
| `EngineSessions.ActiveStepMakesTwo` | packages/agents-server/src/services/orchestrator-engine.ts:113-121 | A patch that calls one of two specialist steps active leads to two steps in progress. |
| `Hitl.StepRecords` | packages/agents-server/src/services/hitl-repository.ts:42-133 | What each operation records, in both repositories: a raise its request at the end; a denial the status and the reason, and a response the status and itself, on the request that they name and on no other. |
| `Hitl.StepKeepsSame` | packages/agents-server/src/services/hitl-repository.ts:42-191 | One raise, denial or response keeps the two repositories observationally equal, with pending id and denied count determined by the requests. |
| `Hitl.RepositoriesAgree` | packages/agents-server/src/services/hitl-repository.ts:242-325 | Over every sequence of raises, denials and responses with at most one pending request, the two repositories show the same ids, statuses, responses, pending id and denied count. |
| `Hitl.FirstPendingIsPending` | packages/agents-server/src/services/hitl-repository.ts:165 | The pending id read off the rows is that of the first pending request, and there is none exactly when nothing is pending. |
| `Hitl.RaiseAgreesIff` | packages/agents-server/src/services/hitl-repository.ts:254 | Raising a pending request keeps them equal if and only if none is pending: memory reports the newest, the database the oldest. |
| `Hitl.ReasonsAgreeIff` | packages/agents-server/src/services/hitl-repository.ts:127-133 | A response keeps equal states equal in every field if and only if the request had no denial reason: memory clears the reason, the database keeps it. |
| `HitlRepositories.InMemoryHitlRepository.GetRunState` | packages/agents-server/src/services/hitl-repository.ts:295-307 | A run seen for the first time has the empty state; no state changes. |
| `HitlRepositories.InMemoryHitlRepository.Create` | packages/agents-server/src/services/hitl-repository.ts:247-257 | The run of the request takes the step of a raise, also under a known id, and every other run keeps its state; the request map agrees with the snapshots unless the id belonged to another run. |
| `HitlRepositories.InMemoryHitlRepository.UpdateStatus` | packages/agents-server/src/services/hitl-repository.ts:259-273 | The request changes in the map and in its run's snapshot alike, pending id and denied count are recomputed, other runs keep their state, and an unknown id changes nothing. |
| `HitlRepositories.InMemoryHitlRepository.AppendResponse` | packages/agents-server/src/services/hitl-repository.ts:275-288 | The run of the request takes the step of a response; other runs keep their state. |
| `HitlRepositories.InMemoryHitlRepository.SetRunState` | packages/agents-server/src/services/hitl-repository.ts:309-324 | The run has the given state, the request map takes its records, and other runs keep their state; map and snapshots agree unless the state forgets requests or takes those of other runs. |
| `HitlRepositories.DatabaseHitlRepository.Create` | packages/agents-server/src/services/hitl-repository.ts:42-77 | A new row changes the state of its own run only, as the step of a raise; a known id gets the new status and reason in the run that it has; nothing is stored with any run. |
| `HitlRepositories.DatabaseHitlRepository.UpdateStatus` | packages/agents-server/src/services/hitl-repository.ts:79-108 | Updating the row changes the state of its run only, and the new state is stored with that run. |
| `HitlRepositories.DatabaseHitlRepository.AppendResponse` | packages/agents-server/src/services/hitl-repository.ts:110-134 | The response and the resolved row take the state of their run through the step of a response, and the new state is stored with that run. |
| `HitlRepositories.DatabaseHitlRepository.SetRunState` | packages/agents-server/src/services/hitl-repository.ts:179-191 | The stored status becomes awaiting when a request is pending, running when the run was awaiting or new, and stays otherwise. |
| `HitlRepositories.RestatusedStep` | packages/agents-server/src/services/hitl-repository.ts:79-108 | Selecting a run's rows and updating one row commute: one run's state changes. |
| `HitlRepositories.RespondStep` | packages/agents-server/src/services/hitl-repository.ts:110-134 | A response reaches the state of the run that its request belongs to and no other. |
| `HitlService.HitlContext.RaiseRequest` | packages/agents-server/src/services/hitl-service.ts:39-119 | A request is granted exactly while fewer than the limit are not denied, the step's view changes as in the in-memory repository, and the counter keeps agreeing with the requests. |
| `HitlService.RaiseInMemory` | packages/agents-server/src/services/hitl-service.ts:39-119 | A whole raise over the in-memory repository: afterwards it shows the step's view of the run, the step of a raise, and other runs keep their state. |
| `HitlService.RaiseInDatabase` | packages/agents-server/src/services/hitl-service.ts:39-119 | A whole raise over the database repository: it shows the step of a raise, stores the step's view with the run, and other runs keep their state and what is stored with them. |
| `HitlService.AcceptedAfter` | packages/agents-server/src/services/hitl-service.ts:39-153 | How each operation changes the number of requests that are not denied. |
| `HitlService.BudgetHolds` | packages/agents-server/src/services/hitl-service.ts:50-118 | Over every run the requests that are not denied never exceed the limit, or their number at the start, provided nobody responds to a denied request. |
| `HitlService.DeniedCountIsExact` | packages/agents-server/src/services/hitl-repository.ts:165-177 | The stored denied count is the number of denied requests. |
| `HitlService.AcceptedAreCounted` | packages/agents-server/src/services/hitl-repository.ts:165-175 | What counts against the budget is the number of requests that are not denied. |
| `HitlService.ResponseKeepsBudgetIff` | packages/agents-server/src/services/hitl-service.ts:125-153 | On a run within its limit a response keeps it within the limit if and only if the budget is not used up or the request was not denied. |
| `HitlService.AnsweredDenialExceedsBudget` | packages/agents-server/src/services/hitl-service.ts:125-153 | A response to the only request, a denied one, exceeds a limit of zero. |
| `HitlService.LastResponseDecides` | packages/agents-server/src/services/hitl-service.ts:189-206 | In both repositories the last response decides, from its own fields: the request is rejected if and only if the response says no, or says neither yes nor no and is a rejection; approved if and only if it says yes, or neither and is an approval; and otherwise undecided. |
| `HitlService.DecisionIsOfLastResponse` | packages/agents-server/src/services/hitl-service.ts:189-206 | The same in any state: a request is approved or rejected if and only if it is answered and the last response to it says so. |
| `Inboxes.RejectionIsOfLastResponse` | packages/agents-server/src/services/orchestrator-engine.ts:425-494 | What the engine rules on a request in any state: nothing unless it is answered and its last response rejects it without asking to resume or continue; an event only when that response asks to emit, and a failure otherwise. |
| `HitlHandlers.HitlApi.Resume` | server/api/hitl/resume.post.ts:55-104 | The guards in their order, every response applied, the next status from the last decision and its action, and one audit entry; a refusal changes nothing. |
| `HitlHandlers.HitlApi.Remove` | server/api/hitl/remove.post.ts:50-90 | The guards in their order, the request denied with the reason, the run cancelled with no pending id, and one audit entry; a refusal changes nothing. |
| `HitlHandlers.HandlersAcceptIff` | server/api/hitl/resume.post.ts:55-64 | On a run with one pending request at a time, exactly that request can be answered or removed. |
| `HitlHandlers.ResumeStoresStatusIff` | server/api/hitl/resume.post.ts:63-84 | What an accepted answer stores, from the fields of its last response: completed if and only if it rejects and its action is emit; failed if and only if it rejects and its action is none of emit, resume and continue; otherwise awaiting or running as a request is still pending or not. Completed and failed are what the engine would rule. |
| `HitlHandlers.HandlersRefuseIff` | server/api/hitl/resume.post.ts:55-64 | Each refusal of the two handlers (the second is remove.post.ts, lines 50-61) from what is stored: no id at hand, no request with the id, a request that is settled, and, for answers, another request that the run waits for. |
| `HitlHandlers.HandlersWrite` | server/api/hitl/remove.post.ts:63-90 | What the two handlers write beside the requests: an answer the pending id of the repository, a removal no pending id and the status cancelled, and each one audit entry. |
| `HitlHandlers.ResumeIsLawful` | server/api/hitl/resume.post.ts:66-104 | Answering keeps the law that the status is awaiting exactly when the stored pending id is set and names the only pending request. |
| `HitlHandlers.RemoveIsLawful` | server/api/hitl/remove.post.ts:50-90 | Removing keeps that law, denies that request only and leaves the run cancelled. |
| `HitlHandlers.RaiseIsLawfulIff` | packages/agents-server/src/services/orchestrator-engine.ts:559-581 | Raising a request, granted or denied, keeps that law if and only if nothing was pending. |
| `HitlHandlers.SettledStays` | server/api/hitl/resume.post.ts:59-61 | Over the database repository a resolved or denied request keeps its status through both handlers. |
| `HitlHandlers.EveryStateIsLawful` | server/api/hitl/resume.post.ts:55-104 | Over the database repository every state that session starts, answers, removals, and raises while nothing is pending can lead to satisfies the law. |
| `HitlHandlers.SettledInMemoryIff` | server/api/hitl/remove.post.ts:50-64 | Over the in-memory repository and store a settled request keeps its status through a handler if and only if the handler is not called with its id while the stored state still has it as pending, denied before an answer or resolved before a removal. |
| `HitlHandlers.NextInMemory` | packages/agents-server/src/services/hitl-repository.ts:259-288 | Every event over the in-memory repository keeps the status awaiting exactly while a pending id is stored, and that id the repository's; an accepted answer or removal makes the stored state stale, a raise or the start of a session renews it. |
| `HitlHandlers.EveryMemoryState` | packages/agents-server/src/services/hitl-repository.ts:242-325 | Over every run of the in-memory repository with one pending request at a time that law holds, and the stored state is stale if and only if an answer or removal was accepted since the engine last stored one. |
| `HitlHandlers.AnsweredRequestCanBeRemovedInMemory` | server/api/hitl/remove.post.ts:55-64 | With the in-memory repository the guard reads a stale state: an answered request can still be removed and turns from resolved to denied. |
| `Semaphores.Semaphore.constructor` | packages/agents-server/src/utils/concurrency.ts:6-9 | The capacity is the limit rounded down, at least one; zero counts as one. |
| `Semaphores.Semaphore.Acquire` | packages/agents-server/src/utils/concurrency.ts:19-24 | A free permit is granted at once, otherwise the client queues up; the permits used are the holders. |
| `Semaphores.Semaphore.Resume` | packages/agents-server/src/utils/concurrency.ts:25-26 | A woken client takes its permit. |
| `Semaphores.Semaphore.Release` | packages/agents-server/src/utils/concurrency.ts:29-34 | The first client in the queue is woken; the cap on the permits never applies. |
| `Semaphores.NextIsLawful` | packages/agents-server/src/utils/concurrency.ts:11-35 | Every acquire, resumption and release keeps the laws: permits are conserved, waiters are woken in order of arrival, no permit is free beside a queue unless a woken waiter will take it, and holders and woken exceed the capacity by at most the number of overtakings. |
| `Semaphores.EveryRun` | packages/agents-server/src/utils/concurrency.ts:1-35 | The laws hold after every interleaving, without overtaking the holders never exceed the capacity, and nobody waits once everybody who got in has left. |
| `Semaphores.ClientsAreConserved` | packages/agents-server/src/utils/concurrency.ts:44-51 | A client is present from its acquire to its release, whatever the others do. |
| `Semaphores.OverbookedIff` | packages/agents-server/src/utils/concurrency.ts:19-26 | Letting all woken clients run exceeds the capacity if and only if fewer permits are left than there are woken clients. |
| `Semaphores.CapacityCanBeExceeded` | packages/agents-server/src/utils/concurrency.ts:20-25 | With one permit and three clients a fast acquire can overtake a woken waiter and two clients hold it. |
| `Sources.HealthIsHistory` | server/utils/discovery-repository.ts:494-521 | The failure counter is the failures since the last success, plus one if the first event since then was a stale mark; the status is healthy, warning or error for zero, one or two, and three or more. |
| `Sources.StreaksAreTrailingRuns` | server/utils/discovery-repository.ts:106-118 | Success and stale streaks are the lengths of the trailing runs of these events. |
| `Sources.FailureStreakIsRunIff` | server/utils/discovery-repository.ts:508-510 | A failure streak is the failure counter; it is the trailing run of failures if and only if no stale mark came since the last success. |
| `Sources.SourceTable.Claim` | server/utils/discovery-repository.ts:446-462 | The guarded update takes the lease exactly when the source exists, is not in flight and is due. |
| `Sources.SourceTable.CompleteFetch` | server/utils/discovery-repository.ts:478-555 | Completion ends the lease, sets the next fetch to the completion plus the retry delay if given and else the interval, and updates health and times from the row as it was read before; the fallback release (lines 1196-1256) reads and writes the same row. |
| `Sources.SourceTable.SelectStale` | server/utils/discovery-repository.ts:1263-1283 | Exactly the sources that are not in flight and whose last completion, or creation if none, is not after the cutoff are selected. |
| `Sources.SourceTable.MarkStale` | server/utils/discovery-repository.ts:1290-1329 | Every selected source gets the health that a stale mark makes of the row as it was selected, whatever became of it since; everything else stays. |
| `Leases.RowTellsItsHistory` | server/utils/discovery-repository.ts:446-555 | Over every interleaving of jobs and markers a row tells its history: it is in flight if and only if a job holds it; otherwise its status is that of the last completion, success or failure; completion time and failure reason are those of the last completion, no reason after a success; the next fetch is that time plus the retry delay, or else the interval; the last success is the time of the last successful completion; without a completion nothing has changed. |
| `Leases.ClaimTakesHoldIff` | server/utils/discovery-repository.ts:446-462 | A claim takes hold if and only if the source is there, not in flight, and due, and then changes its status and start and nothing else. |
| `Leases.SelectedIff` | server/utils/discovery-repository.ts:1263-1283 | A selection holds exactly the sources not in flight whose last completion, or else creation, is not after the cutoff. |
| `Leases.HistoryIsOfTheMoves` | server/utils/discovery-repository.ts:494-521 | The history of a source is the list of its completions, as successes and failures, and of its marks, in the order of the moves. |
| `Leases.NextIsLawful` | server/utils/discovery-repository.ts:446-555 | Every claim, completion, read, selection and mark, by any job or marker, keeps the lease of each row in agreement with the log of its claims and completions. |
| `Leases.AtMostOneClaimant` | server/utils/discovery-repository.ts:446-462 | Under every interleaving of jobs and markers a source has at most one uncompleted claimant, and it is in flight exactly when it has one. |
| `Leases.ClaimsKeepTheirDistance` | server/utils/discovery-repository.ts:394-404 | Claims and completions of a source alternate, by the same job, and a claim comes no earlier than the previous completion plus the retry delay if given, else plus the interval. |
| `Leases.StaysAccurateIff` | server/utils/discovery-repository.ts:1258-1329 | A completion or a mark keeps a source's health the function of its history if and only if the row it was computed from still agrees with the present one in what the event looks at. |
| `Leases.UndisturbedIsUpToDate` | server/utils/discovery-repository.ts:1258-1329 | That is so whenever nothing else wrote the source between the read or selection and the write, under every interleaving with other moves. |
| `Leases.HealthFollowsHistory` | server/utils/discovery-repository.ts:494-521 | In every table reached by writes that are all up to date a source's health is the function of its history stated above. |
| `Leases.TimelyHealthFollowsHistory` | server/utils/discovery-repository.ts:494-521 | The same for every interleaving, with a condition on the moves alone: nobody writes the source who read or selected it before another write. |
| `Leases.LateMarkBringsFailuresBack` | server/utils/discovery-repository.ts:1263-1320 | Two failures, a selection, a success, and then the mark: the counter is two where the history gives one. |
| `Leases.LeaseNeverExpires` | server/utils/discovery-repository.ts:455-459 | A lease never expires: while its job does not finish the source stays with the job, and at most its health changes. |
| `Leases.HeldSourceIsUntouchedIff` | server/utils/discovery-repository.ts:1313-1320 | Nothing at all can change a source that a job holds if and only if no pending mark of it, selected before the lease, would change its health. |
| `Retry.DelaySecondsAreCovered` | server/jobs/discovery/ingest-sources.ts:231-236 | Delay-seconds of a Retry-After header (section 10.2.3 of RFC 9110) become the least number of minutes that covers them. |
| `Retry.DatesAreCovered` | server/jobs/discovery/ingest-sources.ts:237-242 | A date is waited for, rounded up to a minute; a past date means no wait. |
| `Retry.NumbersAreReadFirst` | server/jobs/discovery/ingest-sources.ts:231-236 | Text behind the number of a Retry-After header is not looked at. |
| `Retry.NegativeMeansNoWait` | server/jobs/discovery/ingest-sources.ts:233-236 | A negative number means no wait. |
| `Retry.SecondsAreCovered` | server/jobs/discovery/ingest-sources.ts:227-229 | A header that is a number of seconds becomes the least number of minutes that covers it, and none below zero. |
| `Retry.NothingSuggestedIff` | server/jobs/discovery/ingest-sources.ts:220-245 | A header suggests nothing if and only if it is absent, blank, or neither a number nor a date. |
| `Retry.AttemptsTell` | server/jobs/discovery/ingest-sources.ts:276-308 | What the log holds of an attempt: how it failed, and a retry time if and only if the failure passes, one of the network, the server, the quota or a time-out, or status 429. |
| `Retry.BackoffDoubles` | server/jobs/discovery/ingest-sources.ts:264 | Without other suggestions the delay starts at a minute and doubles with each attempt, up to the cap. |
| `Retry.DelayBounds` | server/jobs/discovery/ingest-sources.ts:264-274 | The delay is at least the capped back-off, the capped suggestion and the capped header, equals one of them, or the cap when one of them exceeds it, and is between one minute and the cap. |
| `Retry.FetchWithRetries` | server/jobs/discovery/ingest-sources.ts:556-724 | Between one and the maximum number of attempts; an attempt is followed by another if and only if it is not the last allowed and its failure is one of the network, the server, the quota, a time-out, or status 429; waits are within the bounds; all waits together are at most the cap times the attempts less one. |
| `WorkerPool.Pool.Refill` | server/jobs/discovery/ingest-sources.ts:908-913 | Sources are launched in the order of the query until the pool is full or the queue is empty. |
| `WorkerPool.Pool.Complete` | server/jobs/discovery/ingest-sources.ts:902-904 | Completed tasks leave the pool, each counted once. |
| `WorkerPool.Settle` | server/jobs/discovery/ingest-sources.ts:853-857 | Each task adds one to exactly one of succeeded, failed and skipped. |
| `WorkerPool.RunJob` | server/jobs/discovery/ingest-sources.ts:882-922 | Whatever the order of completion: with at least one worker every due source is launched once and processed equals due equals succeeded, failed and skipped together; without a worker nothing is processed; at every wait the pool is within its limit and full, or the queue is empty. |
| `Keywords.SameKeyIff` | packages/shared/src/discovery.ts:103-134 | Two accepted keywords have the same duplicate key if and only if their lists of words, the maximal runs free of white space and hyphens, are equal up to case. |
| `Keywords.RefusedIff` | packages/shared/src/discovery.ts:107-134 | A keyword is refused if and only if it is blank, or longer than forty characters once trimmed and collapsed, or holds a character that is not printable ASCII, in this order; otherwise it is stored trimmed, collapsed and with its words. |
| `Keywords.KeyIsJoin` | packages/shared/src/discovery.ts:103-105 | The duplicate key is the words joined by single spaces, and has the same words. |
| `Keywords.CanonicalTokens` | packages/shared/src/discovery.ts:107-134 | Trimming, collapsing and lower-casing change nothing about the words but their case. |
| `Keywords.NormalizeIsIdempotent` | packages/shared/src/discovery.ts:107-134 | Normalizing the cleaned or the canonical form again gives the same keyword. |
| `Keywords.KeyNormalizesIff` | packages/shared/src/discovery.ts:103-134 | The duplicate key can itself be entered, and is then a fixed point, if and only if the keyword has a word: one made of hyphens has the empty key. |
| `Keywords.HyphenHasEmptyKey` | packages/shared/src/discovery.ts:103-134 | A single hyphen is accepted and has the empty key, which is not. |
| `KeywordTables.KeywordRepository.CreateKeyword` | server/utils/discovery-repository.ts:1660-1701 | Invalid keywords, a full table and duplicates are refused in this order; otherwise one row is added. |
| `KeywordTables.KeywordRepository.UpdateKeyword` | server/utils/discovery-repository.ts:1703-1755 | Invalid keywords, unknown ids and duplicates of other rows are refused in this order; otherwise the row holds the new keyword, also where the code returns early because nothing changes. |
| `KeywordTables.KeywordRepository.DeleteKeyword` | server/utils/discovery-repository.ts:1757-1770 | Exactly the client's own row goes, and its id is returned; otherwise nothing happens. |
| `KeywordTables.EveryTableIsLawful` | server/utils/discovery-repository.ts:1660-1755 | Every table that requests can lead to has pairwise different aliases for each client and at most twenty rows of each. |
| `KeywordTables.LawfulMeans` | server/utils/discovery-repository.ts:1673-1679 | In such a table no two keywords of a client have the same words. |
| `KeywordTables.CreateRefusedIff` | server/utils/discovery-repository.ts:1660-1682 | A new keyword is refused as invalid if and only if it cannot be normalized, then for the limit if and only if the client has twenty, and then as a duplicate if and only if the client has one with the same words up to case. |
| `KeywordTables.UpdateRefusedIff` | server/utils/discovery-repository.ts:1703-1725 | A change is refused as invalid if and only if it cannot be normalized, then as unknown if and only if the client has no such row, and then as a duplicate if and only if another row of the client has the same words up to case; the row itself may keep its words. |
| `KeywordTables.AcceptedIsStored` | server/utils/discovery-repository.ts:1684-1770 | An accepted request leaves its own row with the cleaned keyword in lower case and with its words, or without the row, and every other row as it was. |
| `Scoring.NormalizedWeightsAreShares` | server/utils/discovery/scoring.ts:127-138 | Configured weights become shares that are not negative and add up to one; shares stay as they are. |
| `Scoring.NormalizingKeepsProportions` | server/utils/discovery/scoring.ts:133-137 | The proportions between the weights are kept. |
| `Scoring.ComputeKeywordScore` | server/utils/discovery/scoring.ts:185-222 | The loop's counters are the sizes of two sets, the case-folded keywords and those that occur in the text, and the matched keywords are reported once each. |
| `Scoring.KeywordScoreCounts` | server/utils/discovery/scoring.ts:185-222 | The score from the texts: of the keywords that are not blank, told apart trimmed and in lower case, those count that occur in the lower-case title, a space, and the body; what the score misses to one, times the keywords and the matches plus two, is twice the keywords missed, and without a match it is zero. |
| `Scoring.MatchedStand` | server/utils/discovery/scoring.ts:193-209 | The keywords reported as matching are those that are not blank, occur in the text, and were not seen before up to case and white space around them: each trimmed, in their order. |
| `Scoring.ScoreDependsOnKeys` | server/utils/discovery/scoring.ts:193-217 | The score depends only on the set of case-folded keywords: order, repetition, case and surrounding white space do not matter. |
| `Scoring.BoostedIsOneMinusShortfall` | server/utils/discovery/scoring.ts:218-221 | The score in closed form: one minus twice the missing keywords over the total times the matches plus two. |
| `Scoring.MoreMatches` | server/utils/discovery/scoring.ts:218-221 | The score is strictly increasing in the number of matches. |
| `Scoring.BoostedBounds` | server/utils/discovery/scoring.ts:211-221 | The score lies between the coverage and one, is one exactly at full coverage and zero exactly without a match. |
| `Scoring.OneMoreKeyword` | server/utils/discovery/scoring.ts:218-221 | Another keyword raises the score if it occurs in the text and lowers it if it does not. |
| `Scoring.TotalIsBetween` | server/utils/discovery/scoring.ts:262-266 | The total lies between the least and the greatest component. |
| `Scoring.TotalIsMonotone` | server/utils/discovery/scoring.ts:262-266 | Raising a component never lowers the total. |
| `Scoring.EachComponentHasItsWeight` | server/utils/discovery/scoring.ts:262-266 | Raising one component raises the total by that much times its own weight, for each of the three; with nothing scored the total is zero. |
| `Scoring.RoundedIsNearest` | server/utils/discovery/scoring.ts:268 | The score shown has four decimals and is the nearest such number, the greater one halfway. |
| `Scoring.ShownAndStatusDisagreeIff` | server/utils/discovery/scoring.ts:268-275 | For every threshold: a suppressed item is shown with a score that reaches the threshold if and only if its total misses the threshold, but the next number of four decimals by at most half a unit; a scored item is shown below the threshold if and only if its total reaches the threshold, but misses that number by more than half a unit. |
| `Scoring.NeverShownBelowIff` | server/utils/discovery/scoring.ts:268-275 | No scored item is shown below the threshold if and only if the next number of four decimals is at most half a unit away; thresholds of four decimals are among these. |
| `ScoringBatch.ToScoreResult` | server/utils/discovery/scoring.ts:250-285 | One item's result from its components, its threshold status and its matched keywords. |
| `ScoringBatch.SanitizedStand` | server/utils/discovery/scoring.ts:320-324 | The ids that are not blank, trimmed, in order. |
| `ScoringBatch.MissingStand` | server/utils/discovery/scoring.ts:367-373 | The ids that are not found, in order. |
| `ScoringBatch.DefectsStand` | server/utils/discovery/scoring.ts:405-418 | The items without content or with a blank body, in order, each with its reason. |
| `ScoringBatch.IdsOfStand` | server/utils/discovery/scoring.ts:382-397 | The ids of a client's items, in order. |
| `ScoringBatch.UniqueInOrder` | server/utils/discovery/scoring.ts:367 | Each id once, in the order of first occurrences. |
| `ScoringBatch.LengthCheck` | server/utils/discovery/scoring.ts:367-373 | Comparing the lengths of the found items and the unique ids is enough to know that every id was found. |
| `ScoringBatch.GroupByClient` | server/utils/discovery/scoring.ts:382-390 | Clients are grouped in the order of their first items, each with its ids in order, repeats included. |
| `ScoringBatch.ResultsById` | server/utils/discovery/scoring.ts:405-426 | Unusable items are listed in the order found, every other one has its result under its id. |
| `ScoringBatch.ScoreItems` | server/utils/discovery/scoring.ts:353-435 | Each result stands at the position of its id, repeats included; otherwise the failure names exactly the missing ids, else the first disabled client with its ids, else the unusable items. |

## Left out

- Calls of language models, prompts, tools, streaming and their time-outs: their results are parameters.
- Results, reports, telemetry, log messages and events other than plan updates.
- A database repository of requests beside the in-memory store of runs, which a setting allows: each repository goes with its own store.
- Sessions that find a snapshot of a run that died inside a step: runs resume from pauses.
- Raises under an id that the run knows already; ids come from a generator of unique ids.
- The order in which unawaited saves reach the runs table; every save is taken to arrive in order.
- Requests raised concurrently within one step, and responses that arrive while a session is under way: answers reach a run between its sessions.
- Reads and writes within one handler or one raise that interleave with another one of the same run.
- JSON decoding of planner patches and event data, and the schema checks of requests; the model starts from the decoded fields.
- Characters outside the basic plane count as one, where the source counts two code units; lower-casing is that of ASCII.
- Decoding bytes to text, back-pressure, heartbeats and reconnection of event streams.
- Ties in creation times of request rows: rows are in the order of their creation.
- Looking up a run by its thread, operators and notes in the audit log.
- The in-memory repository's map of responses by request, which nothing reads.
- `Sources.SourceTable.CompleteFetch`: the row in the table of ingestion runs, which the completion inserts and the fallback release does not, is not modelled.
- Classifying a result without a failure reason, which the loop never asks for, and values of a Retry-After header that are not numbers or text.
- Inline scoring, adapters and parsing of feeds; a fetch result says whether its items could be stored.
- `WorkerPool.RunJob`: tasks are atomic between waits, and a task that throws is one that fails.
- The decay of recency with age and floating-point rounding: recency is a component, and arithmetic is over reals.
- Source addresses and their normalization, highlighting, email intake and assets.
- Feature flags of the keyword operations, and the database's own uniqueness constraint, which the checks before it imply here.
- The user interface, stores, routing, services and middleware.
