# Decision engine: verified models of its core

This project models the stateful and algorithmic cores of a decision-workflow engine and proves what
they promise. Everything is stated for all inputs, all runs or all histories of operations.

## What is modelled

**Recovering JSON from model responses** (`Text`, `JsonSyntax`, `StringLaws`, `MeaningLaws`,
`JsonDecoder`, `DecoderLaws`, `DecoderSoundness`, `RootScanner`, `ScannerLaws`, `RootLaws`, `OpenerLaws`,
`MemberReader`, `MemberReaderLaws`, `RefusalLaws`, `KeyExtractor`, `KeyExtractorLaws`). A response is free text with a JSON value somewhere in it, possibly cut off. The
syntax is RFC 8259, sections 2, 4, 5, 6 and 7, as concrete trees that keep every choice of blanks, escapes
and numeral spelling; `Print` writes such a tree and `Meaning` says what it denotes. The decoder is a
recursive descent reader in the shape of Python's `json` module. On top of it stand the stack scanner that
picks the first root, the sequential reader that salvages the completed members of a cut object, and the
second extractor that counts depth. "Every way to write a value" is a quantification over valid trees,
"every cut" one over prefixes of the printed text. What a tree denotes does not rest on `Meaning` alone:
`StringLaws` writes strings with tables of its own and proves the round trip, `MeaningLaws` restates the
readers' laws through the relation "is a way to write", and `DecoderSoundness` and `OpenerLaws` go the other
way, from what was read to what stands in the text.

**The workflow of a project** (`Phases`, `Policy`, `Workflow`, `GatewayLaws`, `PhaseOutcome`,
`WorkflowLaws`, `BudgetLaws`, `VerdictLaws`, `ReachLaws`, `ProjectState`). `Workflow` is the state machine: what invalidation, a phase run, the
resumable runner, the operator's edits and the kill switch do to the recorded state. `ProjectState.State`
is the object the program mutates; each of its methods is proved equal to the state machine's step on a
snapshot. The laws are then proved about the state machine, over arbitrary histories; `VerdictLaws` and `ReachLaws`
say case by case, with the phases named, what is on record about each phase after every operation. `admitted`, `stamps`
and `clock` record history only. What lies outside (the time, the evidence loader, the attempts of a model
call with their times and answers, the exit gates) is a parameter of each operation and ranges over everything; an answer that reports success
has text.

**The decision log** (`EventLog`, `Replay`, `ReplayLaws`). The append path with its cache of last events and its memory
fallback, chain verification, and projection of the log with its boundaries and differences. SHA-256 and
the canonical JSON of an event are not interpreted; the hash results are stated as "or a collision is at
hand" rather than under an injective hash.

**Clarifications and constraints** (`Ordering`, `Authority`, `AuthorityLaws`, `Clarifications`,
`ConstraintRanking`). Questions and answers over their life, which recorded answer is current, and the
ranking and bounded rendering of the operator's constraints. `Ordering` is Python's order on integers,
strings and tuples, and its stable `sorted`.

**Markdown tables** (`Tables`, `MarkdownTable`, `CitationColumns`, `CitationLaws`). The table printer and
the table reader, and the removal of citation columns that say nothing.

**The provider circuit breaker** (`CircuitBreaker`): the pruned window against the full failure history.

## Where the code and its promises differ

- Cleaning citation columns twice is not always cleaning them once. It is exactly unless the text, short
  of a last table that vanishes whole, ends with a blank line that has something before it
  (`CitationLaws.IdempotentExactly`); `NotIdempotent` and `NotIdempotentBeforeTable` give an input of each
  kind, and `CitationLaws.CleaningTwice` says what a second pass does to every text.
- `events_between` compares times only. When the later boundary is before the first event it lists every
  event after the first boundary, because no upper cutoff is known (`Replay.ListsEverything`); and of events
  that share a cutoff time it misses those behind the first boundary and adds those behind the second
  (`Replay.MissesTies`). `Replay.BetweenIsTheSlice` gives the exact condition on an ordered log.
- A memory fallback log passes `verify_chain` only while no event of the project went to the database
  before one that fell back; `EventLog.MemoryLogVerifies` gives the exact condition and
  `EventLog.FallbackAfterStore` a failing run.
- The depth-counting extractor can step over a name when an earlier quotation mark makes an overlapping
  occurrence. `KeyExtractorLaws.ExtractorsAgree` says exactly when the two extractors agree, and
  `KeyExtractorLaws.NameSteppedOver` gives an input. The running program does not meet it: its callers ask
  for identifiers only, for which `KeyExtractorLaws.IdentifiersAgree` holds.
- The invalidation map is a fallback: invalidation goes over the rest of the template. Freshness therefore
  holds for every pair of phases of both templates, and needs no assumption about hand edits.
- A table without columns is printed but does not read back (`MarkdownTable.NoColumns`).
- A text in which a lone high surrogate stands right before a low one cannot be written as a JSON string:
  however it is escaped, the two read back as one code point. `StringLaws.StringRoundTrip` holds exactly for
  all other texts.
- Python's decoder takes `NaN`, `Infinity` and `-Infinity` for numbers (`DecoderSoundness.ConstantsRead`).
  Apart from them it reads nothing but JSON (`DecoderSoundness.DecodeSound`).

## Model

| member | source | states |
|---|---|---|
| JsonDecoder.StringAgrees | mas/llm_client.py:747-802 | a string literal decodes to the escapes it was written with, and a cut one is refused |
| JsonDecoder.NumeralComplete | mas/llm_client.py:747-802 | a numeral followed by something that cannot continue it decodes whole |
| JsonDecoder.NumeralCut | mas/llm_client.py:747-802 | a numeral that touches the cut decodes to a shorter numeral or is refused |
| DecoderLaws.ValueAgrees | mas/llm_client.py:747-802 | every way to write a value decodes to its meaning and ends where it ends; a cut one is refused or is a shortened numeral |
| StringLaws.StringRoundTrip | mas/llm_client.py:755-763 | any text, spelled with any mix of plain characters, the eight short escapes and four-digit escapes in either case, reads back as itself iff no high surrogate stands right before a low one in it |
| StringLaws.EverySpelling | mas/llm_client.py:755-763 | every valid literal is such a spelling of the text it reads as, and of no other |
| MeaningLaws.WritesMeaning | mas/llm_client.py:755-763 | a valid writing is a way to write exactly one value: the three words, a numeral as it stands, a spelled text, items in order, later members replacing earlier ones of their name |
| MeaningLaws.StringIsRead | mas/llm_client.py:755-763 | the decoder reads the characters of any spelling, between quotes, as the text |
| DecoderSoundness.DecodeSound | mas/orchestrator.py:2283-2306 | whatever the decoder accepts is a written value, the three constants included, and what it returns is what that value denotes |
| DecoderSoundness.LoadsSound | mas/llm_client.py:755-763 | reading a whole text accepts one written value between blanks |
| DecoderSoundness.ConstantsRead | mas/llm_client.py:755-763 | the constants are read as numbers |
| Text.SkipSpaces | mas/orchestrator.py:2252-2324 | the whitespace loop stops at the first visible character |
| RootScanner.FirstStructuralOpener | mas/llm_client.py:812-832 | the opener search returns the earliest structural opener, or none |
| OpenerLaws.OpenerIsStructural | mas/llm_client.py:837-864 | after text without a tick an opener is structural iff nothing visible precedes it, or what follows it goes on like its kind of container, or the last 160 characters introduce it |
| OpenerLaws.FenceOpens | mas/llm_client.py:837-864 | after one fence mark the fence is open iff nothing or "json", in any case, follows the mark |
| OpenerLaws.FencedOpener | mas/llm_client.py:837-864 | so there an opener is structural iff the fence is open, or it is one of the other two |
| OpenerLaws.FenceCloses | mas/llm_client.py:837-864 | a second mark closes the fence |
| OpenerLaws.RootIsReported | mas/llm_client.py:747-802 | unless the response is JSON as it stands, its root is a start of the text from the first structural opener on, whether it parses or not, and all of that text if no bracket ends it; without an opener there is none |
| RootScanner.FirstJsonRoot | mas/llm_client.py:747-802 | the stack loop returns the specified root: whole-text shortcut, complete fragment, or incomplete tail |
| ScannerLaws.ScanContainer | mas/llm_client.py:770-802 | over any printed container the stack first empties exactly at its last character |
| ScannerLaws.ScanPieces | mas/llm_client.py:770-802 | escapes inside a string never open, close or end anything |
| RootLaws.PlausibleOpener | mas/llm_client.py:837-864 | every valid container is structurally plausible at its opener |
| RootLaws.Shortcut | mas/llm_client.py:747-769 | reading the stripped text whole succeeds only if it is the container and spaces |
| RootLaws.RootSelection | mas/llm_client.py:747-881 | for every container, every way to write it, every prefix in which no opener is structural and no quote comes first, and every suffix, the selected root is exactly it and parses to its value |
| MeaningLaws.ResponseIsRead | mas/llm_client.py:747-881 | for the same responses, in terms of what was written: the response parses to a value iff the container is a way to write it |
| OpenerLaws.ParsedStands | mas/llm_client.py:747-802 | whatever a response parses to is written in it: alone between spaces, or at the earliest structural opener |
| OpenerLaws.MismatchEndsRoot | mas/llm_client.py:770-802 | a closer that does not match the innermost open bracket ends the root there, incomplete |
| RootLaws.RootCutAt | mas/llm_client.py:747-802 | after such a prefix, a cut container yields the incomplete root from its opener to the cut or nothing, never a nested value |
| RootLaws.PlainTextIsInert | mas/llm_client.py:812-832 | text without openers and quotes is such a prefix |
| RootLaws.ProseIsInert | mas/llm_client.py:812-864 | so is prose with an opener in it that nothing introduces and no value follows |
| MemberReader.CompletedFirstObjectMembers | mas/orchestrator.py:2252-2324 | the index loop computes the specified member reading of the first root |
| MemberReaderLaws.ReadIsSalvage | mas/orchestrator.py:2270-2324 | on any cut of an object's members the reader returns exactly the structural salvage |
| MemberReaderLaws.TruncatedObject | mas/orchestrator.py:2252-2324 | a response that breaks off in its first object gives exactly the salvage, or nothing if nothing visible follows the brace |
| MemberReaderLaws.SalvageIsPrefix | mas/orchestrator.py:2270-2324 | the salvage is the map of exactly the completed members in order, the numeral at the cut possibly shortened |
| MemberReaderLaws.TruncationSafe | mas/orchestrator.py:2252-2324 | for every object, writing, prefix and cut: nothing, or exactly the completed members |
| MeaningLaws.TruncationRecovers | mas/orchestrator.py:2252-2324 | the same in terms of what was written: nothing, or a map that the completed members are a way to write, the next numeral possibly shortened |
| MemberReaderLaws.CompleteObject | mas/orchestrator.py:2252-2324 | a complete first object is recovered whole, whatever follows |
| MeaningLaws.ObjectIsRecovered | mas/orchestrator.py:2252-2324 | a complete first object gives exactly the map it is a way to write |
| RefusalLaws.ReadsThrough | mas/orchestrator.py:2270-2324 | complete members are read one after the other, whatever follows them |
| RefusalLaws.MalformedObject | mas/orchestrator.py:2252-2324 | an incomplete object that goes wrong after complete members, with no name, a bad escape or control character in a closed name, no colon, no value or no delimiter, gives nothing: unlike one that merely ends |
| RefusalLaws.MalformedAtOnce | mas/orchestrator.py:2252-2324 | so does one that goes wrong in its first member |
| RefusalLaws.CompleteButNoObject | mas/orchestrator.py:2252-2269 | a complete root that is no object, or does not parse, gives nothing |
| MemberReaderLaws.ArrayRoot | mas/orchestrator.py:2252-2324 | objects inside a first array are never promoted, complete or cut |
| KeyExtractor.JsonContainerDepthBefore | mas/orchestrator.py:2487-2514 | the counting loop returns the specified depths before a position |
| KeyExtractor.ExtractTopLevelJsonValue | mas/orchestrator.py:2463-2486 | the search loop returns the value after the first occurrence of the quoted key at depth one |
| KeyExtractorLaws.DepthIsStack | mas/orchestrator.py:2487-2514 | after text that leaves the counters at zero, they equal the open braces and brackets on the scanner's stack as long as it is open |
| KeyExtractorLaws.ExtractorsAgree | mas/orchestrator.py:2463-2524 | on an object and on every cut of it, where the quoted key stands at depth one only as one member's name and the reader returns a map: the extractor returns what the map has for it if the search meets the name and nothing otherwise; so they agree iff it meets the name or the map has nothing, and always for a key that ends safely |
| KeyExtractorLaws.IdentifiersAgree | mas/orchestrator.py:2422-2457 | for keys made of letters, digits and underscores, as all callers use, the two agree |
| KeyExtractorLaws.EmptyExtractorsAgree | mas/orchestrator.py:2463-2524 | on an empty object and its cuts, with no quote before it, neither finds anything |
| KeyExtractorLaws.NameSteppedOver | mas/orchestrator.py:2463-2486 | an object in which the search misses a name that the reader has |
| CircuitBreaker.PruneEarlier | mas/llm_client.py:59-69 | pruning at an earlier moment loses nothing that is still recent later |
| CircuitBreaker.RecentCounts | mas/llm_client.py:59-69 | pruning keeps as many entries as there are failures less than the cooldown ago |
| CircuitBreaker.Breaker.constructor | mas/llm_client.py:49-57 | no failures on record |
| CircuitBreaker.Breaker.RecordFailure | mas/llm_client.py:59-64 | the history grows by the failure and the pruned list keeps showing the same recent failures |
| CircuitBreaker.Breaker.IsOpen | mas/llm_client.py:66-69 | open exactly when at least threshold failures of the unpruned history are less than the cooldown ago |
| CircuitBreaker.Breaker.Reset | mas/llm_client.py:71-72 | the key's history is empty, other keys keep theirs |
| EventLog.VerifyChain | mas/decision_events.py:715-730 | ok iff every stored hash is the recomputed one; break_at is the least index where it is not |
| EventLog.SplitUnique | mas/decision_events.py:85-88 | a hash input splits into previous hash and body in one way |
| EventLog.TamperEvident | mas/decision_events.py:64-88 | two verified logs ending in one hash have equal length and bodies, or a collision is at hand |
| EventLog.EditIsDetected | mas/decision_events.py:715-730 | changing one body breaks the chain there, or right after it if its hash is recomputed, or a collision is at hand |
| EventLog.DecisionLog.constructor | mas/decision_events.py:30-37 | empty memory and cache |
| EventLog.DecisionLog.FetchLastEvent | mas/decision_events.py:109-136 | cache, then database, then memory; exactly a database row of an uncached project is cached |
| EventLog.DecisionLog.AppendEvent | mas/decision_events.py:143-228 | refused iff the project or the type is missing; otherwise the event holds the content, names the previous event and is hashed over its hash; the new state whatever storage does |
| EventLog.AppendChains | mas/decision_events.py:143-228 | one append keeps each project's events chained, and cache and memory consistent with them |
| EventLog.ChainContinuity | mas/decision_events.py:109-228 | after any appends on any projects under any storage behaviour, a project's returned events hold the contents given, in order; each names the one before by id and is hashed over its hash; the first begins at what the lookup gave, with no id and the empty hash where it gave nothing |
| EventLog.MemoryLogVerifies | mas/decision_events.py:715-730 | a memory log verifies iff it is empty, or no stored event precedes a fallen-back one and the first was sealed over no hash; or a collision is at hand |
| EventLog.MemoryOnlyVerifies | mas/decision_events.py:109-228 | in memory-only mode verification succeeds in every reachable state |
| EventLog.RunVerifies | mas/decision_events.py:109-228 | the same condition for every run of the process |
| EventLog.FallbackAfterStore | mas/decision_events.py:143-228 | storing one event and failing to write the next leaves a memory log that does not verify |
| Replay.ProjectConcat | mas/decision_events.py:322-377 | projection composes over concatenation |
| Replay.ProjectKeeps | mas/decision_events.py:322-377 | a projection has exactly the fields it started with and those some event writes: no event ever removes a field |
| ReplayLaws.SingleIsLastGiven | mas/decision_events.py:322-377 | name, type, risk, kill switch and current phase each hold the last value an event gave them |
| ReplayLaws.RowIsLastGiven | mas/decision_events.py:322-377 | a phase's status and confidence, an action's approval and a cap are the last ones given |
| ReplayLaws.OutcomesAreCounted | mas/decision_events.py:322-377 | recorded outcomes are counted |
| ReplayLaws.IdentityStays | mas/decision_events.py:322-377 | every view keeps the project it is of |
| Replay.StateAt | mas/decision_events.py:389-427 | the view at a boundary is the projection of the selected events |
| Replay.Truncate | mas/decision_events.py:403-409 | the loop keeps everything up to the first event of that id |
| Replay.DiffStates | mas/decision_events.py:430-499 | the difference of two boundaries is the specified comparison of their views |
| Replay.DiffPatches | mas/decision_events.py:430-499 | dropping removed and setting added and changed turns the first view into the second |
| Replay.AddedAndRemoved | mas/decision_events.py:430-453 | on any log and for any two boundaries: a field is added iff only events selected for the second write it, removed iff only events selected for the first do |
| Replay.SelectedIsPrefix | mas/decision_events.py:389-427 | a boundary of an ordered log selects a prefix: empty iff it is before the first event, everything iff nothing follows it |
| Replay.ForwardDiffRemovesNothing | mas/decision_events.py:430-499 | on any log, if the second boundary takes in all events the first does, nothing is removed |
| Replay.LaterCovers | mas/decision_events.py:389-427 | on any log, a later time, a longer run up to an event and the whole log take in all events of the earlier boundary |
| Replay.TimeBoundaryIsEventBoundary | mas/decision_events.py:389-427 | on an ordered log a time boundary is the event boundary at that time iff the next event does not share the time |
| Replay.BetweenIsTheSlice | mas/decision_events.py:455-499 | on an ordered log the listed events are exactly the slice between the two boundaries iff: no event behind either shares its cutoff time; or the second is not behind the first; or, where it is before the first event, nothing is later than the first boundary's last event |
| Replay.BetweenWhenIncreasing | mas/decision_events.py:455-499 | with strictly increasing times: iff the second boundary is not before the first event or nothing follows the first |
| Replay.ListsEverything | mas/decision_events.py:455-499 | comparing a time before the first event with itself lists every event |
| Replay.MissesTies | mas/decision_events.py:455-499 | from an event to the next one with the same time nothing is listed, though one event was applied |
| Replay.DiffBetweenBoundaries | mas/decision_events.py:430-499 | between two untied boundaries of an ordered log: nothing removed, the difference leads from one state to the other, and exactly the slice is listed |
| Replay.DiffBetweenEvents | mas/decision_events.py:430-499 | the same between two events, named by id or by time |
| Phases.CollectDownstreamPhases | mas/tools/scoring.py:104-120 | the breadth-first walk returns exactly the map's entry, in its order |
| Phases.MapIsTheRest | mas/config.py:350-359 | the map gives each strategic phase the rest of the template, but the quality index nothing |
| Phases.DownstreamIsLater | mas/workflow_templates.py:138-146 | a phase of the template is downstream of another exactly when it comes later |
| Policy.CheckBudget | mas/policy.py:196-245 | allowed iff all five caps hold, time counted from the recorded start; a denial names the first breached cap |
| Policy.PolicyGate | mas/policy.py:363-428 | allowed iff not killed, within budget, breaker closed, and approved where approval is required; a denial names the first of these that fails |
| Policy.PhaseGate | mas/policy.py:88-148 | phases never need approval; sealing and calibration writes do on a project at risk |
| Workflow.FirstUnfinished | mas/orchestrator.py:2067-2078 | every phase before it is finished and it is not |
| PhaseOutcome.InvalidateAllEffect | mas/tools/scoring.py:134-163 | the phases gone over lose their output; every other phase is exactly as it was |
| PhaseOutcome.ConeEffect | mas/state.py:995-1036 | Strategy and its derived phases lose their output; every other phase is exactly as it was |
| PhaseOutcome.PrerequisiteFailureEffect | mas/orchestrator.py:2044-2064 | the phase fails without output, what is downstream loses its output, the rest is as it was |
| PhaseOutcome.DecideOutcome | mas/orchestrator.py:2816-3180 | whatever the answers: completed with output, full confidence and no failure, or failed with a failure and zero confidence; no other phase is touched |
| PhaseOutcome.RunPhaseOutcome | mas/orchestrator.py:2578-3195 | every phase run ends completed or failed, never running; other phases are as they were or have lost output, and only those in reach |
| PhaseOutcome.StrategyCompletion | mas/orchestrator.py:2598-2610 | after a Strategy run, completed iff structured output is present; derived phases have none |
| PhaseOutcome.OutputProvenance | mas/orchestrator.py:2845-3180 | a phase's output was there when its run started or is what a provider's usable answer to one of its calls brought |
| VerdictLaws.DecideIsVerdict | mas/orchestrator.py:2816-3180 | what each pair of answers makes of the phase's whole entry, failure by failure |
| VerdictLaws.RunVerdict | mas/orchestrator.py:2578-3195 | a phase run case by case: a missing prerequisite, a closed gate, a phase that is none and blocked evidence each fail it, in this order and without a call; otherwise the answers decide its entry and their usage is charged |
| VerdictLaws.PrerequisitesByName | mas/orchestrator.py:80-86 | a completed report had strategy and monitoring finished; completed monitoring and quality index had strategy |
| ReachLaws.RunElsewhere | mas/orchestrator.py:2578-3195 | what the run leaves on record about every other phase, and when the project moves to the phase |
| ReachLaws.ManualElsewhere | mas/api.py:1059-1097 | the same for a manual run: later phases are wiped first, no other phase moves |
| VerdictLaws.InvalidationWipes | mas/tools/scoring.py:134-163 | every later phase loses its outputs and is stale if it had anything on record; no other moves; exactly those are reported |
| VerdictLaws.ConeEntries | mas/state.py:995-1036 | the three derived phases are forgotten, and stale if they had anything on record; of Strategy only the status is left |
| VerdictLaws.EditOutcome | mas/api.py:1169-1201 | the whole entry of an edited phase, what is wiped or forgotten behind it, and where the project stands |
| VerdictLaws.InputReopens | mas/api.py:1102-1165 | an edit of the brief or data wipes all phases, one of observations or timers monitoring and the report, in the readiness template everything; no other phase moves |
| VerdictLaws.InputRestarts | mas/api.py:1102-1165 | the project then stands at the first of these that had anything on record |
| VerdictLaws.ReportConfigurationStales | mas/api.py:1102-1165 | a new report configuration keeps the report and makes it stale |
| WorkflowLaws.EditFinishes | mas/api.py:1169-1201 | a hand edit finishes only its phase, at a new moment, and no later phase is finished afterwards |
| WorkflowLaws.InputRetreats | mas/api.py:1102-1165 | an input edit makes no phase finished |
| WorkflowLaws.ManualKeepsFresh | mas/api.py:1059-1097 | a manual phase run keeps completion times in template order |
| WorkflowLaws.TurnOutcome | mas/orchestrator.py:3228-3299 | whatever was stored: one turn finishes its phase or halts on it, earlier phases stay finished, later ones stay without output |
| VerdictLaws.TurnVerdict | mas/orchestrator.py:3228-3299 | a turn finishes its phase iff the phase run completed and the exit gate passed or found no structural failure; a structural failure leaves it failed for that |
| VerdictLaws.RunnerHeedsGates | mas/orchestrator.py:3198-3301 | every gated phase the runner newly finished had a gate that passed or found no structural failure |
| ReachLaws.TurnElsewhere | mas/orchestrator.py:3228-3299 | what a turn leaves on record about every other phase; the project stands at its phase |
| WorkflowLaws.RunWorkflowSettles | mas/orchestrator.py:3198-3301 | from every stored state the runner returns a complete workflow, or the first unfinished phase is the one that halted it, failed, with no output after it; completion order is kept |
| WorkflowLaws.Freshness | mas/orchestrator.py:3198-3301 | over all histories, a finished phase was completed after every finished phase before it in the template |
| WorkflowLaws.FreshnessOfTheMap | mas/config.py:350-359 | over all histories, of two finished phases the one that a change of the other invalidates was completed later |
| BudgetLaws.RunPhaseAdmits | mas/orchestrator.py:2578-3195 | a phase run makes at most two model calls, refused ones included, all for its phase; none is let through once killed |
| GatewayLaws.ExecutedLaws | mas/runtime/provider_gateway.py:733-768 | the attempts that reach a provider are those before the first closed gate, up to the first that ends the call |
| GatewayLaws.AnswerLaws | mas/runtime/provider_gateway.py:733-925 | a call's usage is that of exactly the attempts made; it succeeds iff the last of them does, with its text; it is refused iff the gate stopped it before an attempt |
| BudgetLaws.CallUses | mas/policy.py:457-473 | a call adds exactly the tokens and cost of the attempts that reached a provider; a failed one counts, a success starts the failures over |
| BudgetLaws.UsageIsConserved | mas/policy.py:457-473 | over all histories the counters are where they started plus what the calls let through spent |
| BudgetLaws.CompletionIsEarned | mas/orchestrator.py:2612-2814 | a completed run had its prerequisites finished, an open gate at entry and a provider reached through the gate in its first call |
| BudgetLaws.RunnerCallsInOrder | mas/orchestrator.py:3198-3301 | from every stored state the runner calls no model for a phase while an earlier one is unfinished |
| BudgetLaws.BudgetBounds | mas/policy.py:196-245 | over all histories: calls, tokens and cost spent by the calls let through, and consecutive failures, against their caps; the counters are what was spent |
| BudgetLaws.KilledStaysSilent | mas/policy.py:281-300 | once killed, no history lets a call through or clears the switch |
| BudgetLaws.KillStops | mas/policy.py:281-300 | whatever comes before and after it, triggering the switch ends all calls |
| ProjectState.State.constructor | mas/state.py:1068-1085 | a new project, every phase of its template pending |
| ProjectState.State.InvalidateDownstream | mas/tools/scoring.py:134-163 | the loop's new state and the reported phases, those that had anything on record |
| ProjectState.State.InvalidateStrategyDependencyCone | mas/state.py:995-1036 | the loop's new state and the reported phases |
| ProjectState.ConeStep | mas/state.py:995-1036 | clearing one derived phase does not change what later ones had on record |
| ProjectState.State.TriggerKillSwitch | mas/policy.py:281-300 | the switch is set and nothing else moves |
| ProjectState.State.StartWallClock | mas/policy.py:476-485 | the clock starts once |
| ProjectState.State.RecordConsumption | mas/policy.py:457-473 | tokens, cost and calls add up; failures count or start over |
| ProjectState.State.RunAttempts | mas/runtime/provider_gateway.py:733-925 | the loop over the attempts returns the specified answer and how many reached a provider |
| ProjectState.State.CallModel | mas/orchestrator.py:2764-2814 | one logical call: its answer, its usage on the counters, and whether it was let through |
| ProjectState.State.PhasePrerequisitesMet | mas/orchestrator.py:2027-2041 | met iff every prerequisite is finished |
| ProjectState.State.RecordPrerequisiteFailure | mas/orchestrator.py:2044-2064 | the new state of a failed prerequisite |
| ProjectState.State.AcceptAnswer | mas/orchestrator.py:2845-3120 | parse, one repair, store and settle amount to the specified decision and calls |
| ProjectState.StepsAccept | mas/orchestrator.py:2845-3120 | the repair step, the store step and the final step make up the decision |
| ProjectState.State.ExecutePhase | mas/orchestrator.py:2764-3195 | the phase from its model call on |
| ProjectState.State.RunPhaseNode | mas/orchestrator.py:2578-3195 | the new state of a phase run |
| ProjectState.State.GetFirstUnfinishedPhase | mas/orchestrator.py:2067-2074 | the loop finds the first unfinished phase |
| ProjectState.State.RunTurn | mas/orchestrator.py:3228-3299 | one loop turn, with its exit gate |
| ProjectState.State.RunWorkflowSequence | mas/orchestrator.py:3198-3301 | the new state of a whole run |
| ProjectState.State.RunSinglePhase | mas/api.py:1059-1097 | the new state of a manual run |
| ProjectState.State.PatchProjectInput | mas/api.py:1102-1165 | the new state of an input edit |
| ProjectState.State.PatchPhaseOutput | mas/api.py:1169-1201 | the new state of an output edit |
| ProjectState.State.MarkPhaseStaleNow | mas/api.py:1768-1781 | the phase is cleared, and stale if it had anything on record |
| Ordering.SortLaws | mas/orchestrator.py:836-845 | the sort returns the same elements in key order, equal keys in input order |
| Ordering.SortForgetsOrder | mas/orchestrator.py:836-845 | rearranging the input does not change the sorted keys |
| Ordering.TextOrderMeaning | mas/orchestrator.py:836-845 | a text comes before another iff it is a proper prefix or the first difference is a smaller character |
| Ordering.TupleOrderMeaning | mas/orchestrator.py:836-845 | the same for tuples, item by item |
| ConstraintRanking.RankCandidates | mas/orchestrator.py:833-854 | the loop computes the specified ranking |
| ConstraintRanking.RankingLaws | mas/orchestrator.py:833-854 | sorted, no repeated dedupe key, and every candidate with a key is represented by one ranked no later |
| ConstraintRanking.RankedInOrder | mas/orchestrator.py:833-854 | of two ranked entries the earlier has the higher priority; then source rank, stable key, position and text decide, the smaller first |
| ConstraintRanking.RankingForgetsOrder | mas/orchestrator.py:833-854 | input order changes the ranking at most among ties on the whole key |
| ConstraintRanking.AddGroup | mas/orchestrator.py:910-924 | a group adds its header and whole lines as long as they fit, and says whether all did |
| ConstraintRanking.RenderProjection | mas/orchestrator.py:899-935 | the rendering is the specified one |
| ConstraintRanking.RenderingFits | mas/orchestrator.py:899-935 | the longest run of whole pieces within the budget |
| ConstraintRanking.PiecesFollowRanking | mas/orchestrator.py:899-935 | the pieces are the two headers, each if its group has entries, and one line an entry with source and text, in ranking order |
| ConstraintRanking.HardComeFirst | mas/orchestrator.py:905-907 | the ranking is the hard entries followed by the descriptive ones |
| ConstraintRanking.HardByPriority | mas/orchestrator.py:905-907 | hard is priority 50 and more |
| ConstraintRanking.LargerBudgetExtends | mas/orchestrator.py:899-935 | a larger budget extends the text of a smaller one |
| Authority.GroupAnswers | mas/clarifications.py:305-309 | the grouping loop: questions in first-met order with all their records |
| Authority.CurrentAuthoritativeAnswers | mas/clarifications.py:296-338 | the loops compute the specified current answers |
| AuthorityLaws.WinnerSpeaks | mas/clarifications.py:311-336 | a question has a current answer iff some answer is alone or undisputedly newest, and then it is such an answer |
| AuthorityLaws.WinnerIsLeast | mas/clarifications.py:311-336 | among newest records that agree the one with the least id speaks |
| AuthorityLaws.CurrentLaws | mas/clarifications.py:296-338 | strictly in order of the question, at most one each, exactly the winners |
| AuthorityLaws.WinnerForgetsOrder | mas/clarifications.py:311-336 | a group's winner does not depend on record order, up to normalized fields |
| AuthorityLaws.OrderIsNeverAuthority | mas/clarifications.py:296-338 | any rearrangement of the records gives the same current answers, up to normalized fields |
| AuthorityLaws.OlderChangesNothing | mas/clarifications.py:296-338 | a strictly older record in a fully timed group changes nothing |
| AuthorityLaws.NewestDecides | mas/clarifications.py:296-338 | a strictly newest record alone decides its question; other questions are as before |
| Clarifications.FindQuestion | mas/clarifications.py:516-521 | the first question of that id in the last cycle that has one; none iff there is none |
| Clarifications.State.NextOrdinal | mas/clarifications.py:683-685 | one more than the answers on record |
| Clarifications.State.RecordClarificationAnswer | mas/clarifications.py:230-251 | the new state, or the refusal with nothing changed |
| Clarifications.State.MarkClarificationUnavailable | mas/clarifications.py:254-268 | the new state, or the refusal with nothing changed |
| Clarifications.State.SupersedeOpenQuestions | mas/clarifications.py:291-293 | every open question is superseded, no other changes |
| Clarifications.State.CreateClarificationCycle | mas/api.py:631-646 | the same gaps keep the cycle; otherwise a new one follows the superseded rest |
| Clarifications.AnswerMarks | mas/clarifications.py:230-268 | an answer makes the meant question answered, a waiver unavailable; no other question moves, and exactly the numbered record is appended; a blank answer is refused |
| Clarifications.ResolutionMarks | mas/clarifications.py:230-268 | a superseded question is refused |
| Clarifications.UnknownRefused | mas/clarifications.py:516-521 | so is one that is in no cycle |
| Clarifications.CountsOwn | mas/clarifications.py:683-685 | the ordinal counts the records of the same question |
| Clarifications.CycleOutcome | mas/api.py:631-646 | the same gaps leave everything; otherwise all open questions are superseded and a cycle of the open drafts is appended |
| Clarifications.Lifecycle | mas/clarifications.py:230-293 | in every reachable state open questions lie in the last cycle, superseded is never left, and answer identities never repeat |
| Clarifications.AnswerBecomesCurrent | mas/clarifications.py:230-338 | an answer recorded at a later time is exactly the current one of its question |
| Clarifications.UnavailableRemovesAuthority | mas/clarifications.py:254-338 | marking it unavailable later leaves the question without a current answer |
| Tables.LinesOfUnlines | mas/exporters.py:3541-3556 | joined lines split back, except that an empty last line is lost |
| Tables.LinesBreak | mas/exporters.py:3541-3556 | lines end at each of the ten boundary characters, a carriage return together with a line feed |
| Tables.SeparatorForm | mas/exporters.py:3651-3654 | a separator cell is, spaces aside, three or more dashes with an optional colon at either end |
| MarkdownTable.ConsumeTable | mas/exporters.py:4335-4350 | the loop computes the specified rows and end |
| MarkdownTable.RowRoundTrip | mas/exporters.py:4391-4393 | a printed row of plain cells splits back into its cells |
| MarkdownTable.CleanCell | mas/exporters.py:4521-4522 | a printed cell is trimmed and has no pipe |
| MarkdownTable.CellContent | mas/exporters.py:4521-4522 | a printed cell is the text between its outer spaces, each line feed a space and each pipe a slash |
| MarkdownTable.RowsPadded | mas/exporters.py:4506-4518 | every printed row holds its cells, filled up with empty ones to the widest row |
| MarkdownTable.QuotedRow | mas/exporters.py:4353-4359 | a printed row behind a quotation mark splits back too |
| MarkdownTable.NotATable | mas/exporters.py:4335-4350 | without a second line, a pipe in the first or a rule in the second nothing is read |
| MarkdownTable.TableReadsBack | mas/exporters.py:4335-4393 | a printed table standing in other lines reads back, short of rules and blank rows, to exactly its end |
| MarkdownTable.TableRoundTrip | mas/exporters.py:4506-4518 | the printed lines read back as the cleaned, padded rows iff no body row is blank or a rule |
| MarkdownTable.NoColumns | mas/exporters.py:4506-4518 | a table without columns does not read back |
| MarkdownTable.PlainCell | mas/exporters.py:4525-4529 | a cell without a backtick or doubled marker has no inline markdown |
| MarkdownTable.MarkedCell | mas/exporters.py:4525-4529 | bold and code marks around a cell go |
| MarkdownTable.InlineCode | mas/exporters.py:4525-4529 | code inside a cell loses its ticks, from the left |
| CitationColumns.StayingColumns | mas/exporters.py:3566-3581 | the loops find the columns that stay |
| CitationColumns.CleanTableBlock | mas/exporters.py:3559-3595 | the loop computes the specified cleaned block |
| CitationColumns.RemoveEmptyCitationColumns | mas/exporters.py:3541-3556 | the loop computes the specified cleaned text |
| CitationLaws.SplitUndoesFormat | mas/exporters.py:3636-3648 | splitting a formatted row of trimmed, pipe-free cells gives the cells back |
| CitationLaws.OpenRow | mas/exporters.py:3636-3648 | so does a row without its last pipe |
| CitationLaws.OnlyTables | mas/exporters.py:3559-3564 | a block that does not start with a row and a separator row stays as it is |
| CitationLaws.TableLineForm | mas/exporters.py:3541-3556 | a line belongs to a table iff its first visible character is a pipe |
| CitationLaws.CutContent | mas/exporters.py:3559-3595 | a cleaned block that loses columns keeps exactly those that say something, and its rows read back as the kept cells of exactly the rows that still say something, in order |
| CitationLaws.CleaningKeepsColumns | mas/exporters.py:3559-3595 | exactly the columns that say something stay, in order, with their content |
| CitationLaws.BlockIdempotent | mas/exporters.py:3559-3595 | cleaning a block twice is cleaning it once |
| CitationLaws.LinesIdempotent | mas/exporters.py:3541-3595 | cleaning lines twice is cleaning them once |
| CitationLaws.CleaningTwice | mas/exporters.py:3541-3595 | a second pass over a text changes nothing except that a final newline goes |
| CitationLaws.IdempotentExactly | mas/exporters.py:3541-3595 | cleaning twice is cleaning once iff the text, short of a last table that vanishes, does not end with a blank line that has something before it |
| CitationLaws.NotIdempotent | mas/exporters.py:3541-3556 | a text with a final blank line on which it is not |
| CitationLaws.NotIdempotentBeforeTable | mas/exporters.py:3541-3595 | a text with a blank line before a vanishing last table on which it is not |
| CitationLaws.VanishingBlock | mas/exporters.py:3559-3595 | a block leaves nothing iff it is a table all of whose columns are empty citation columns |

## Left out

- JSON numbers keep their spelling as the value: conversion to Python numbers and its digit limit are not modelled.
- The recursion limit of Python's decoder; the model decodes any depth.
- The Unicode digit test and the prose words before an opener are parameters (`RootScanner.Lexicon`), constrained only where a law needs it.
- The repair of known payload shapes, the parsing of a payload into a phase's fields and its schema are one parameter: what an answer amounts to once read (`Workflow.Reading`).
- Which provider candidates a call tries, retries or skips, and after which delays: the attempts it would make, with their times and answers, are a parameter of the call.
- ProjectState.State.constructor: the normalization of a state that is loaded again, which drops statuses of phases outside the template and fails a persisted Strategy with a broken contract, is not an operation here.
- The semantic cache of the provider gateway, off by default.
- ProjectState.State.RunPhaseNode: leaves out the seal, language and score fields, attestations, summaries' text and log events; summaries are recorded as present or not.
- ProjectState.State.PatchPhaseOutput: takes a payload that has been validated; refusals of malformed payloads change nothing.
- WorkflowLaws.Freshness: moments are counted by a ghost clock; the wall-clock time of completion is kept but not ordered.
- BudgetLaws.BudgetBounds: caps are fixed over the history; endpoints that change caps, breakers or approvals are not operations of it.
- The graph-library path of the orchestrator; the sequential runner is the one that counts.
- Overlapping appends to the log and runs beside edits; operations come one at a time.
- EventLog.DecisionLog.AppendEvent: identifiers and timestamps come with the step; database SQL is reduced to what a lookup and an insert answer.
- Replay.StateAt: event fields beyond the projected ones are dropped, and the limit on how many events are read is not modelled.
- Clarifications.State.RecordClarificationAnswer: question objects are values in the cycles, so aliasing of a question between cycles is not captured; the digest behind an answer id is kept as its question and ordinal.
- Which gaps a generated cycle finds: the patterns are not modelled and the generated questions are a parameter.
- Authority.CurrentAuthoritativeAnswers: reads normalized fields; lower-casing and time-zone conversion happen before the model.
- ConstraintRanking.RankCandidates: the dedupe normal form of a text is a parameter, and the extraction of candidates is not modelled.
- MarkdownTable.TableRoundTrip: redaction of unsafe strings is a parameter, and cells with inline markdown or line boundaries are outside it, as reading strips the one and splits at the other.
- CitationColumns.RemoveEmptyCitationColumns: which headers name a citation column and which cells say nothing are parameters, constrained only in that a blank cell says nothing.
- HTTP routes, authentication, uploads, document rendering, SDK clients and telemetry: input and output without such laws.
