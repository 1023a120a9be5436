# Verified models of the contract and evidence checkers

The Python checkers under `scripts/` decide whether Go DTOs, TypeScript types and
the OpenAPI document describe the same wire format, and whether recorded
evidence (test logs, benchmark runs, build selections, captured streams) is
honest. This project models the algorithms that carry those decisions and proves
what their verdicts mean.

| file | models |
|---|---|
| `TsText`, `TsGrammar`, `TsPrint`, `TsTypes` | the TypeScript union splitter on characters, the grammar it agrees with, its bridge to syntax trees, and the parsed sources |
| `GoAliases` | Go type aliases and the in-place pass that fills them in |
| `WireChecker`, `WireMeaning`, `AliasMeaning`, `WireSound`, `WireConverse`, `WireLimits`, `Canonical` | the Go-to-TypeScript check, the JSON semantics of both sides, what alias expansion preserves, soundness in both directions, where it stops, and a TypeScript source for every Go source |
| `OpenApiChecker`, `JsonSchema`, `OpenApiNodes`, `OpenApiLeaves`, `OpenApiSound`, `OpenApiAgreement`, `OpenApiConverse`, `OpenApiInhabited`, `OpenApiLimits`, `ScalarLaws`, `CanonicalDocument` | the same for the OpenAPI document, with a JSON Schema semantics, the three-way agreement at every node, what the scalar tables hold, and a document for every Go source |
| `Scheduler`, `SchedulerLaws` | the lookahead batch scheduler and the fixture generator of the benchmark |
| `RunEvidence`, `RunExample` | the benchmark's clock, process phases and raw Go events |
| `GoTestLog`, `GoTestLanguage`, `GoTestCounts` | the test-log evaluator, the language of logs it passes, and what its counts are |
| `SharedEvents`, `SharedVerdicts` | green, invalid and "target red" verdicts on protocol suites |
| `WriteClosure` | the in-place closure of functions that reach a SQL writer |
| `SelectedInputs`, `CaptureBoundary`, `Strings` | producer and consumer of selected build inputs, and the checks of a capture around them; Python's split and join |
| `BoundedWalk`, `WalkLaws`, `JsonWalks`, `JsonLaws` | budgeted tree walks, worklist walks over JSON, and what lies where |
| `SseFrames`, `SseStandard` | the event-stream decoder, and the standard's line-by-line dispatch it agrees with |

Loops of the source are methods with loop invariants, proved against functions;
the results below are about those functions. Semantics (`Emits`, `Accepts`,
`Conforms`, `PassingLog`, `Reaches`) are defined without reference to the
checkers. `Emits` follows Go's `encoding/json`, with Go's own list of scalar names,
byte slices as base64 text and the empty values of `omitempty`; `Conforms` follows
JSON Schema draft 2020-12; the stream format is that of sections 9.2.5 and 9.2.6 of
the HTML Living Standard.

## What the proofs found

- The null gap of nil slices and maps is documented at
  `scripts/check_contract_drift.py:23-24`. A second one is not: an `omitempty`
  pointer to another pointer, slice or map can also write null unchecked
  (`WireLimits.DoublePointerGap`).
- `[]uint8` passes the check against `number[]`, but Go writes it as a base64
  string (`WireLimits.ByteSliceGap`). The null gaps and byte slices are all there
  is: a clean table is sound exactly when it is null-ready and no paired field's
  type holds a byte slice (`WireSound.WireSoundIffReady`). The converse direction
  holds exactly without byte slices (`WireConverse.WireConverseIffNoBytes`).
- The checks can always be met: every Go source of scalars, string types and declared
  structs has a TypeScript source that passes and is null-ready
  (`Canonical.CanonicalPasses`), and a document that passes and is exact
  (`CanonicalDocument.CanonicalDocumentIsExact`).
- The document takes values TypeScript does not exactly when a component left
  open has a conforming value (`OpenApiConverse.OpenConverseIffClosed`). Where
  struct nesting is well-founded every component has one, so the document takes
  nothing more exactly when every paired component is closed
  (`OpenApiInhabited.OpenConverseIffAllClosed`).
- The fixture generator's formula divides by zero below 5 employees, except that 2
  to 4 employees serve at most 80 messages (`Scheduler.AllDefinedWhen`). No
  admitted scale comes near: they have 20, 100 and 1000 employees
  (`scripts/r5_current_benchmark_evidence.py:30`).
- A string enum with null in its type list passes all checks and rejects null
  (`OpenApiLimits.NullableEnumGap`): the null rules force null into the type list
  and the enum rules keep it out of the enum.
- The merged fields of an object-only union admit more than its branches, as the
  source says (`AliasMeaning.MergedAcceptsMore`); every value of a branch is kept
  (`AliasMeaning.DenotedIsAdmitted`).
- A union whose first printed member is empty loses it when split again, because
  it looks like a leading pipe (`TsText.SplitJoin` is exact about this).
- Every honest capture of selected inputs passes the consumer's comparison
  (`CaptureBoundary.CaptureLinks`), because the boundary check admits no Go source
  outside the production directories. The classification on its own would take a
  package in the root directory that the consumer refuses; no capture holds one
  (`CaptureBoundary.RootNeedsBoundary`).
- The raw event check passes over a test `start` and a package `run` in silence
  (`RunEvidence.StrayKeepsOrder`); its elapsed bounds survive that.
- A target-red verdict is possible with exit code 0 as well as 1
  (`SharedEvents.RedAtEitherExit`).
- An emitted input lies at most 1881 places after its ordinal
  (`Scheduler.OrderIsFifoAndNear`).

## Model

| member | source | states |
|---|---|---|
| TsText.TsMembers | scripts/check_contract_drift.py:458-492 | the loop over characters with stack, quote and escape fails exactly on unbalanced text and otherwise returns the trimmed stretches between top-level pipes |
| TsText.SplitJoin | scripts/check_contract_drift.py:458-492 | joining trimmed balanced members without a top-level pipe and splitting again returns them, except an empty first one of several |
| TsText.MembersSplitToThemselves | scripts/check_contract_drift.py:458-492 | every member of any split is balanced, trimmed and splits to itself |
| TsGrammar.SplitterIsGrammar | scripts/check_contract_drift.py:458-492 | the splitter fails exactly on the texts outside the grammar of literals with escapes, four kinds of bracketed groups and other characters, and otherwise returns the trimmed stretches between the pipes outside them, the empty one before a leading pipe dropped |
| TsGrammar.StripExact | scripts/check_contract_drift.py:458-492 | trimming takes white space off both ends, all of it, and nothing else |
| TsGrammar.SpaceIff | scripts/check_contract_drift.py:458-492 | white space is one of 29 characters |
| TsPrint.ReadPrinted | scripts/check_contract_drift.py:458-523 | for types without empty members and parsed object fields: printing a type tree and reading it back with the splitter and the text tests gives the tree, at every depth; opaque text such as an inline object type is kept as it is |
| TsPrint.TypeSolid | scripts/check_contract_drift.py:458-492 | the splitter finds exactly the printed members, with or without a leading pipe |
| TsPrint.ReadSuffix | scripts/check_contract_drift.py:519-523 | stripping the array suffix of a balanced member leaves the element's text |
| TsPrint.ReadArray | scripts/check_contract_drift.py:519-523 | unwrapping `Array` leaves the element's text |
| TsPrint.ReadRecord | scripts/check_contract_drift.py:567-576 | unwrapping `Record` leaves the value's text for every spelling of white space around the key and in front of the value |
| GoAliases.ResolveAlias | scripts/check_contract_drift.py:202-211 | the loop terminates on every alias table and returns the end of the chain, or fails on a cycle or a target that is no identifier |
| GoAliases.ResolveIff | scripts/check_contract_drift.py:202-211 | it succeeds with a name exactly when finitely many steps through identifiers lead to that name and it is no alias |
| GoAliases.IdentifierIff | scripts/check_contract_drift.py:209-210 | an alias target is followed exactly if it is a letter or underscore and then letters, digits and underscores |
| GoAliases.FillAliases | scripts/check_contract_drift.py:282-293 | the pass that grows the tables it looks targets up in gives every alias what it stands for, and reports nothing exactly when every alias stands for something |
| GoAliases.FilledOnce | scripts/check_contract_drift.py:282-293 | the filled tables do not depend on the order of the aliases |
| WireChecker.TsReferenceName | scripts/check_contract_drift.py:400-410 | the loop with a seen set terminates on every alias table and equals following identifier aliases until none is left, failing exactly on a cycle |
| ScalarLaws.ReferenceStep | scripts/check_contract_drift.py:400-410 | a name stands for what its alias says exactly if that is a single word starting with a letter or underscore, without a leading pipe |
| WireChecker.CompareStruct | scripts/check_contract_drift.py:613-672 | the errors of a struct pair are those of the field sets and of each shared field, in order |
| WireChecker.PairErrorsMean | scripts/check_contract_drift.py:686-703 | the errors of one pair are empty exactly when both sides declare it with equal field names and no field reports anything, whatever the order of the fields |
| WireChecker.CheckPairs | scripts/check_contract_drift.py:675-704 | nothing is reported exactly when there are no source problems and every pair passes; otherwise the source problems and those of every pair, in order |
| WireChecker.CleanPair | scripts/check_contract_drift.py:675-704 | a table without errors has, for every pair, equal field sets and no error on any field |
| ScalarLaws.ScalarKeyword | scripts/check_contract_drift.py:155-164 | a field of a Go scalar without `omitempty` passes against a single word exactly for the words of its kind: `string` for string, uuid.UUID and time.Time, `boolean` or a boolean literal for bool, `number` for the twelve numeric names |
| ScalarLaws.StringTypeKeyword | scripts/check_contract_drift.py:577-584 | a field of a named string type passes against a single word exactly for `string` |
| ScalarLaws.ScalarLiteral | scripts/check_contract_drift.py:577-596 | a field of a Go scalar passes against a number literal exactly for the numbers, against a quoted literal exactly for the strings, and never against a template literal |
| ScalarLaws.UndefinedOnlyOptional | scripts/check_contract_drift.py:526-549 | `undefined` may stand only at the top of an optional field's type |
| Canonical.CanonicalPasses | scripts/check_contract_drift.py:526-704 | for every Go source of scalars, string types and declared structs, the canonical TypeScript source passes the check, is null-ready, and without byte slices admits everything Go writes |
| AliasMeaning.ExpandSound | scripts/check_contract_drift.py:823-836 | what an expanded member of any form admits, the written type admits, on cyclic tables too |
| AliasMeaning.ExpansionPreservesMeaning | scripts/check_contract_drift.py:823-836 | on every alias table a type denotes exactly the values its expanded members do, for all JSON values, objects included, where an object union is read branch by branch |
| AliasMeaning.DenotedIsAdmitted | scripts/check_contract_drift.py:413-455 | every value a type denotes branch by branch is admitted when its object unions are read as merged fields, at every depth |
| AliasMeaning.NullMeaning | scripts/check_contract_drift.py:541-551 | in every reading a type admits null exactly when null is among its expanded members, which is what the null checks look at |
| AliasMeaning.AcyclicExpandsFully | scripts/check_contract_drift.py:823-836 | on an acyclic table no alias is left after expansion |
| AliasMeaning.MergedValuesContain | scripts/check_contract_drift.py:437-454 | the merged values of a key contain the members of every branch that can carry it |
| AliasMeaning.MergedAcceptsBranch | scripts/check_contract_drift.py:413-455 | the merged fields of an object-only union admit every closed object that some branch admits |
| AliasMeaning.MergedAcceptsMore | scripts/check_contract_drift.py:421-423 | two branches and an object admitted by their merged fields but by neither branch |
| WireSound.StringLikeAccepts | scripts/check_contract_drift.py:495-511 | a member that passes the string test admits every string, through any aliases |
| WireSound.ScalarAccepts | scripts/check_contract_drift.py:577-596 | every value of a Go scalar is admitted by any member list its projection check passes |
| WireSound.NodeSound | scripts/check_contract_drift.py:526-610 | one clean, null-ready node without byte slices admits every value Go emits for it, through pointers, slices, maps and nested structs |
| WireSound.NodeReady | scripts/check_contract_drift.py:526-610 | one clean node that admits all Go values is null-ready and holds no byte slice |
| WireSound.StructAccepts | scripts/check_contract_drift.py:597-610 | a nested struct's values are admitted by every name that refers to its pair |
| WireSound.WireSoundIffReady | scripts/check_contract_drift.py:526-704 | for a clean, closed, non-opaque table: every value of every field fits its TypeScript type, at every depth, if and only if the declared types are null-ready and hold no byte slice |
| WireSound.StructOnTheWire | scripts/check_contract_drift.py:613-704 | every JSON object a paired Go struct marshals to is admitted by its TypeScript interface, in a null-ready table without byte slices |
| WireConverse.EmitsLoosely | scripts/check_contract_drift.py:5-24 | everything Go writes is loosely what Go writes, so the two results bracket the TypeScript type |
| WireConverse.NodeConverse | scripts/check_contract_drift.py:526-610 | a checked type without byte slices admits nothing its Go type cannot write, up to integrality and omitted empties: no other kind, no null where none is emitted |
| WireConverse.StructConverse | scripts/check_contract_drift.py:613-704 | every object a clean pair's interface admits is loosely one its Go struct writes: no extra field, no always-written field missing, at any depth, in tables without byte slices |
| WireConverse.WireConverseIffNoBytes | scripts/check_contract_drift.py:526-704 | for a clean, closed table: everything any field's type admits is loosely what Go writes, if and only if no field's type holds a byte slice |
| WireLimits.NilSliceGap | scripts/check_contract_drift.py:23-24 | the documented gap: a clean table with a slice field whose nil value TypeScript rejects |
| WireLimits.DoublePointerGap | scripts/check_contract_drift.py:640-655 | the undocumented gap: a clean table with an `omitempty` pointer to a pointer that writes a null TypeScript rejects |
| WireLimits.ByteSliceGap | scripts/check_contract_drift.py:155-164 | the gap of byte slices: a clean, null-ready table with `[]uint8` against `number[]`, unsound because Go writes base64 text |
| OpenApiChecker.CheckProperties | scripts/check_contract_drift.py:1114-1163 | the errors of the shared properties, one field after another |
| OpenApiChecker.ComponentClean | scripts/check_contract_drift.py:1047-1164 | a pair without errors has an object component with exactly the Go fields, exactly the always-written ones required, and no error on any property |
| ScalarLaws.ScalarProperty | scripts/check_contract_drift.py:866-887 | a property of a Go scalar passes against a plain schema exactly for the type of its kind and, for uuid.UUID and time.Time, the formats `uuid` and `date-time` |
| ScalarLaws.FormatRequired | scripts/check_contract_drift.py:990-1002 | a passing property of uuid.UUID or time.Time, behind pointers or not, has its format at the plain schema its composites lead to |
| ScalarLaws.PropertyPresence | scripts/check_contract_drift.py:1114-1135 | a passing property is optional in TypeScript exactly if Go may omit it, and only then names `undefined` |
| ScalarLaws.EnumIsDistinct | scripts/check_contract_drift.py:1003-1024 | the enum of a passing scalar lists no value twice |
| ScalarLaws.NodeDialect | scripts/check_contract_drift.py:922-940 | no passing node uses `nullable` or, without a composite, a conditional keyword, and its type has nonempty members besides null and undefined |
| ScalarLaws.WireComponentsClosed | scripts/check_contract_drift.py:1194-1198 | the seven public wire components are closed wherever they pass |
| CanonicalDocument.CanonicalDocumentIsExact | scripts/check_contract_drift.py:888-1164 | for every such Go source the canonical document passes both checks, takes whatever Go writes and TypeScript admits, and takes nothing TypeScript does not admit |
| JsonSchema.NullConforms | scripts/check_contract_drift.py:791-803 | null conforms to a schema of the fragment exactly when its keywords say so, through composites and references |
| JsonSchema.CompositeConforms | scripts/check_contract_drift.py:924-939 | a non-null value conforms to a composite of nulls and one alternative exactly when it conforms to the alternative |
| JsonSchema.ResolvedConforms | scripts/check_contract_drift.py:1201-1220 | what conforms to the resolved component conforms to every pure reference chain leading to it |
| OpenApiSound.EdgeConforms | scripts/check_contract_drift.py:888-1044 | a value on a clean field or element that both sides admit conforms to its schema |
| OpenApiSound.OpenApiSoundIffReady | scripts/check_contract_drift.py:888-1164 | for tables both checks pass: whatever Go writes and TypeScript admits conforms to the document, at every depth, if and only if every reachable null meets a schema that takes null |
| OpenApiSound.StructConforms | scripts/check_contract_drift.py:1047-1164 | every object a paired struct marshals to, and its TypeScript fields admit, conforms to its component |
| OpenApiNodes.NullTypedEnumRejectsNull | scripts/check_contract_drift.py:990-1024 | a clean scalar node with an enum never takes null, whatever its type list says |
| JsonSchema.NullableTakesNull | scripts/check_contract_drift.py:791-803 | a nullable schema takes null when it has no enum or null is an alternative of anyOf |
| OpenApiLimits.NullableEnumGap | scripts/check_contract_drift.py:990-1024 | a table both checks pass whose document rejects a null the other two sides agree on |
| OpenApiLimits.ReadyTable | scripts/check_contract_drift.py:675-1164 | a concrete table meets every premise of the main results, is ready for null on both counts, and is sound on both |
| OpenApiAgreement.StringsAgree | scripts/check_contract_drift.py:839-854 | the strings TypeScript admits at a clean node are exactly those the enum allows |
| OpenApiAgreement.BooleansAgree | scripts/check_contract_drift.py:857-863 | the booleans TypeScript admits at a clean node are exactly those the enum allows |
| OpenApiAgreement.NullDecided | scripts/check_contract_drift.py:907-915 | TypeScript admits null exactly when the schema is nullable; it agrees with JSON Schema's own null exactly when a nullable schema takes null |
| OpenApiLeaves.SurvivorNotStringLike | scripts/check_contract_drift.py:495-511 | an alias left over by expansion lies on a cycle and so never passes the string test |
| OpenApiAgreement.EdgeAgrees | scripts/check_contract_drift.py:888-1044 | at a field or element that passes both checks the schema has the type of everything Go writes, and TypeScript admits exactly the values of that kind that the enum allows, or exactly the objects of the pair the schema refers to, or exactly the collections of such elements, and agrees with the schema on null exactly when a nullable schema takes null |
| OpenApiAgreement.ThreeWay | scripts/check_contract_drift.py:1047-1164 | schema-required, always written by Go and not optional in TypeScript coincide for every non-opaque field, whatever other fields hold, and its three types agree on null, kinds, literals and components at every nested node |
| OpenApiConverse.OpenConverseIffClosed | scripts/check_contract_drift.py:1047-1164 | for tables both checks pass: every value that conforms to a component is admitted by its TypeScript fields, literals taken exactly, at every depth, if and only if no open component has a conforming value |
| OpenApiInhabited.ComponentInhabited | scripts/check_contract_drift.py:1047-1164 | where struct nesting is well-founded, every component of a pair that passes both checks has a conforming value |
| OpenApiInhabited.OpenConverseIffAllClosed | scripts/check_contract_drift.py:1047-1164 | where struct nesting is well-founded, everything that conforms to a component is admitted by its TypeScript fields if and only if every paired component is closed |
| OpenApiInhabited.NestingFounds | scripts/check_contract_drift.py:888-1044 | struct nesting is well-founded wherever the document takes every reachable null and no Go struct holds itself by value |
| OpenApiInhabited.ClosedDecides | scripts/check_contract_drift.py:1194-1198 | two concrete tables that meet every premise and differ in closedness only: one has the converse, the other has not |
| Scheduler.SelectFresh | scripts/r5_current_benchmark_evidence.py:347-352 | the first loop picks the earliest entries of distinct mailboxes, up to the window size |
| Scheduler.SelectFill | scripts/r5_current_benchmark_evidence.py:353-356 | the second loop tops the window up with the earliest other entries |
| Scheduler.TakeWindow | scripts/r5_current_benchmark_evidence.py:347-359 | one round emits the chosen entries in buffer order and keeps the rest in order |
| Scheduler.ExpectedSchedulerOrder | scripts/r5_current_benchmark_evidence.py:342-360 | the nested loops terminate, fail exactly when some input has no mailbox, and otherwise return the order the results below are about |
| Scheduler.OrderIsPermutation | scripts/r5_current_benchmark_evidence.py:342-360 | for every message count and mailbox function each ordinal is emitted exactly once |
| Scheduler.OrderIsFifoAndNear | scripts/r5_current_benchmark_evidence.py:342-360 | each mailbox's ordinals come out in increasing order over the whole run, and ordinal k between positions k-99 and k+1881 |
| Scheduler.WindowStartsWithSmallest | scripts/r5_current_benchmark_evidence.py:344-359 | everything below a window's first ordinal has been emitted before |
| Scheduler.LeavesInTime | scripts/r5_current_benchmark_evidence.py:344-359 | the entry in buffer slot i leaves within i+1 windows, so within 100 |
| Scheduler.WindowDiversity | scripts/r5_current_benchmark_evidence.py:347-359 | a window holds as many distinct mailboxes as its size and the buffer allow |
| Scheduler.WindowIsMostDiverse | scripts/r5_current_benchmark_evidence.py:347-359 | no equally large choice from the buffer holds more distinct mailboxes |
| Scheduler.SlicesAreWindows | scripts/r5_current_benchmark_evidence.py:375-376 | for a count divisible by 20 every window is full and the output's consecutive slices of 20 are the windows |
| SchedulerLaws.BufferIsFull | scripts/r5_current_benchmark_evidence.py:344-346 | before every window the buffer holds exactly 100 ordinals, or all that are left |
| SchedulerLaws.WindowTakes | scripts/r5_current_benchmark_evidence.py:347-359 | a window takes exactly the first 20 entries that bring a new mailbox and, if there are fewer, the first others that make 20 |
| SchedulerLaws.FirstOfItsMailbox | scripts/r5_current_benchmark_evidence.py:342-360 | in a run of at least 100 messages an ordinal below 100 that is the first of its mailbox, with fewer than 20 mailboxes before it, is among the first 20 emitted |
| SchedulerLaws.OrderStarts | scripts/r5_current_benchmark_evidence.py:336-360 | for 20 employees and at least 100 messages the order starts 0, 5, 10, 15, 19 |
| Scheduler.MailboxRanges | scripts/r5_current_benchmark_evidence.py:336-340 | wherever a mailbox is defined the tenants' mailbox ranges are disjoint and inputs numbered 19 modulo 20 land on shared mailboxes |
| SchedulerLaws.BlocksShareMailbox | scripts/r5_current_benchmark_evidence.py:336-340 | blocks of five consecutive inputs share a mailbox, except for the last of every 20 |
| SchedulerLaws.FirstMailboxes | scripts/r5_current_benchmark_evidence.py:336-340 | the first 80 mailboxes of 20 employees: 16 personal ones in turn, and four shared ones |
| Scheduler.AllDefinedWhen | scripts/r5_current_benchmark_evidence.py:336-340 | no division by zero exactly for no messages, from 5 employees on, or for 2 to 4 employees and at most 80 messages |
| Scheduler.SecondTenantCounted | scripts/r5_current_benchmark_evidence.py:336-340 | how many of the first n inputs go to the second tenant, for every n |
| Scheduler.TenantDistribution | scripts/r5_current_benchmark_evidence.py:459-461 | for counts divisible by 100 the generator meets the declared tenant counts |
| RunEvidence.DeadlineIsTightest | scripts/r5_current_benchmark_evidence.py:222-233 | a moment is within the accepted deadline exactly when it is within the budget, the admission and every approved deadline |
| RunEvidence.CheckPhases | scripts/r5_current_benchmark_evidence.py:556-563 | the loop accepts exactly the phase times that never decrease from the origin and, for a success, are all known and before the deadline |
| RunEvidence.ValidateProcess | scripts/r5_current_benchmark_evidence.py:541-576 | the tests of process and cleanup accept exactly the processes and cleanups of `ProcessAccepted` |
| RunEvidence.ValidateEvents | scripts/r5_current_benchmark_evidence.py:589-627 | the loop over raw events accepts exactly the declarative event grammar and returns the recorded order and output |
| RunEvidence.AcceptedRun | scripts/r5_current_benchmark_evidence.py:541-627 | in an accepted success the phases are in order and all phases and events lie in one interval from the origin to below the budget, the admission end and every owner deadline; events lie between Go start, Go exit and cleanup; the recorded events are one full run whose elapsed times fit; both exits are 0, nothing timed out, and nothing was left open or present |
| RunEvidence.RunLength | scripts/r5_current_benchmark_evidence.py:222-233 | a moment is in time exactly if it lies within 300, 1800 or 10800 seconds of the origin, by scale, and within every other limit |
| RunExample.AcceptedExample | scripts/r5_current_benchmark_evidence.py:541-627 | a concrete run passes clock, process and event checks |
| RunExample.RunIsAcceptedIff | scripts/r5_current_benchmark_evidence.py:589-627 | that run is accepted exactly if its events lie between Go start and Go exit and its test took at most 0.1 seconds longer than its events are apart |
| RunExample.OtherExitsAreRefused | scripts/r5_current_benchmark_evidence.py:574-576 | with any other Go or runner exit than 0 it is no success |
| RunExample.ChildDeadlineIff | scripts/r5_current_benchmark_evidence.py:547-549 | nor is it one with an unknown or earlier child deadline |
| RunExample.KilledIsAFailure | scripts/r5_current_benchmark_evidence.py:541-627 | a killed run with unknown exit is accepted as a failure and not as a success |
| RunEvidence.EventsAcceptedIff | scripts/r5_current_benchmark_evidence.py:599-608 | under an accepted process the checks against origin, deadline and parent wait add nothing to those against Go start, Go exit and cleanup |
| RunEvidence.StrayKeepsOrder | scripts/r5_current_benchmark_evidence.py:612-620 | a test `start` or package `run` anywhere leaves the recorded order and output unchanged |
| GoTestLog.HandleEnd | scripts/check_go_test_evidence.py:113-124 | one package event moves that package's automaton only |
| GoTestLog.HandleTest | scripts/check_go_test_evidence.py:125-143 | one test event moves that test's automaton only |
| GoTestLog.Evaluate | scripts/check_go_test_evidence.py:70-167 | the loop over lines has the verdict and counts of the uncapped automata, and records every problem up to 100; the cap never changes the verdict |
| GoTestLanguage.PassesIffInLanguage | scripts/check_go_test_evidence.py:70-167 | the evaluator passes exactly the declarative trace language: package and test shapes, containment, required and allowed tests, exit code |
| GoTestLanguage.FoldShows | scripts/check_go_test_evidence.py:81-143 | for any log, passing or not, the records of a package depend only on that package's own events |
| GoTestLanguage.PackageOrderDecides | scripts/check_go_test_evidence.py:81-167 | permuting lines while keeping each package's own order changes neither verdict nor counts |
| GoTestLanguage.TestsCommute | scripts/check_go_test_evidence.py:81-167 | swapping adjacent events of different tests of a package changes neither verdict nor counts |
| GoTestCounts.CountsOfPassing | scripts/check_go_test_evidence.py:144-167 | in a passing log nothing failed or is missing, and passed, skipped, started and packages are the numbers of tests whose events are a complete passing or skipped run, of tests with events, and of packages with events |
| GoTestCounts.CountsOfAny | scripts/check_go_test_evidence.py:144-167 | in any log each count is the number of tests or packages whose own events leave that record; the observed allowed skips are exactly the allowed tests recorded as skipped |
| GoTestCounts.CompleteIsRecorded | scripts/check_go_test_evidence.py:113-143 | in any log a complete run of a test in a package started once and ended at most once is recorded with its last action |
| SharedEvents.ClassifyEvents | scripts/check_r5_protocol.py:295-327 | no error is reported exactly when every event is in scope, nothing in a subtest failed or was skipped, the package passed once and each expected test ran once and passed |
| SharedEvents.ClassifyShared | scripts/check_r5_protocol.py:404-482 | the status, the admitted targets and the green flag of every event list |
| SharedEvents.CleanHasNoFailure | scripts/check_r5_protocol.py:295-327 | a clean structural check leaves no failing or skipped event in any scope |
| SharedEvents.GreenHasNoFailure | scripts/check_r5_protocol.py:404-482 | a green product has no failed or skipped event, no infrastructure word, and every required path ran once and passed |
| SharedEvents.RedFailuresAreDeclared | scripts/check_r5_protocol.py:404-482 | in a target-red verdict every failing test is an admitted declared target or lies above one, and every diagnostic of an admitted target starts with its own marker |
| SharedEvents.RedHidesNothing | scripts/check_r5_protocol.py:404-482 | a target-red verdict excuses only failures of those tests and of the package: nothing skipped, every expected test ran once, no foreign diagnostic, one package end |
| SharedEvents.RedAtEitherExit | scripts/check_r5_protocol.py:404-482 | a concrete run of one declared failing target is target red at exit code 1 and at exit code 0 |
| SharedVerdicts.GreenIff | scripts/check_r5_protocol.py:404-482 | a suite is green exactly if the structure is clean with exit code 0, no infrastructure word occurs, every declared path ran once and passed, and the package printed no diagnostic |
| SharedVerdicts.RedIff | scripts/check_r5_protocol.py:404-482 | a suite is target red exactly if no infrastructure word occurs, declared paths, outputs and failing leaves are in order, something failed, every event is in scope with nothing skipped and every expected test ran once, and the exit code is 0 or 1 |
| SharedVerdicts.TargetsAreMarked | scripts/check_r5_protocol.py:404-482 | an admitted target has diagnostics, and each starts with its nonempty marker and a colon |
| SharedVerdicts.OutputsAreMarked | scripts/check_r5_protocol.py:404-482 | in a target-red run the package prints no diagnostic, and what a failing test prints starts with its marker and a colon |
| SharedVerdicts.ActionsNext | scripts/check_r5_protocol.py:295-327 | an event adds to a test's record exactly if it names the test and its action is run, pass, fail or skip |
| SharedVerdicts.FailuresAre | scripts/check_r5_protocol.py:404-482 | a test counts as failed exactly if an event of the package with its nonempty name fails |
| SharedVerdicts.ParentIsFirst | scripts/check_r5_protocol.py:295-327 | a subtest belongs to the test before its first slash |
| WriteClosure.Sweep | scripts/check_r5_transactions.py:49-54 | one in-place sweep adds only functions that reach a writer, and reports no change exactly at a fixpoint |
| WriteClosure.Classify | scripts/check_r5_transactions.py:41-54 | the loop terminates with exactly the functions from which a direct writer is reachable through name-matched calls |
| WriteClosure.OrderDoesNotMatter | scripts/check_r5_transactions.py:41-54 | the order and multiplicity of the inventory do not change who reaches a writer |
| WriteClosure.ContainsResolvedClosure | scripts/check_r5_transactions.py:47-54 | the closure contains the result for every call relation inside the name-matched one |
| SelectedInputs.ClassifyRows | scripts/r5_selected_source_binding_v2.py:188-249 | the loop over listed files keeps the path-to-fields map and the generated records, and fails where one file does |
| SelectedInputs.ClassifiesIff | scripts/r5_selected_source_binding_v2.py:188-249 | a listing is classified exactly if every file is admissible by itself: a Go name or a test main, no `..` or backslash, authorized below the root, in the cache and ending in `-d` for a generated main, and no other local file outside the root |
| SelectedInputs.ForeignAddsNothing | scripts/r5_selected_source_binding_v2.py:224-246 | a file outside the root that is no test main changes neither the map nor the generated records |
| SelectedInputs.EntriesExact | scripts/r5_selected_source_binding_v2.py:215-223 | a path has a field exactly if a listed file below the root has that path and that field |
| SelectedInputs.GeneratedExact | scripts/r5_selected_source_binding_v2.py:224-227 | the generated records are those of the test mains outside the root, in order, with their paths below the cache |
| SelectedInputs.RebuildSelected | scripts/r5_selected_binding_consumer.py:405-426 | the consumer's loop over recorded local packages rebuilds the map by string operations |
| SelectedInputs.PrefixIsUnder | scripts/r5_selected_binding_consumer.py:409-422 | for canonical names the textual prefix test is the component test and leaves the canonical relative path |
| SelectedInputs.CanonicalRelativeIff | scripts/r5_selected_binding_consumer.py:114-117 | a relative path is canonical exactly if no part is empty, `.` or `..` and it holds no backslash |
| SelectedInputs.GeneratedOnce | scripts/r5_selected_binding_consumer.py:411-421 | each generated test main of a local package matches exactly one generated record |
| SelectedInputs.RecordAgrees | scripts/r5_selected_binding_consumer.py:405-426 | the consumer makes the producer's entry for every file of a local package in a production directory |
| SelectedInputs.LinkageAgrees | scripts/r5_selected_binding_consumer.py:404-438 | what an honest listing classifies to is rebuilt unchanged if every local package lies in a production directory, and refused otherwise |
| SelectedInputs.SmallCaptureLinks | scripts/r5_selected_binding_consumer.py:404-438 | a concrete honest listing with a source file, a file of the standard library and a cached test main is classified and passes the linkage comparison |
| SelectedInputs.RootPackageIsRefused | scripts/r5_selected_binding_consumer.py:247-268 | a local package in the root directory would always be refused |
| CaptureBoundary.CheckBoundary | scripts/r5_archive_boundary.py:206-219 | the three loops accept exactly the trees in which every unpinned build input lies below a production directory and no excluded one and every Go source has a canonical name, and return the Go sources |
| CaptureBoundary.CapturedTreeIsPlaced | scripts/r5_archive_boundary.py:206-216 | in a captured tree every unpinned file of fourteen source suffixes lies below a production directory and in none of twelve output and cache directories |
| CaptureBoundary.SelectedIsDeclared | scripts/r5_selected_source_binding_v2.py:319-325 | what a capture selects for embedding is named by a static directive, and the Go it selects is in the tree, unpinned and canonically named |
| CaptureBoundary.CaptureInputs | scripts/r5_selected_source_binding_v2.py:274-325 | a capture succeeds exactly when the boundary check, the classification, the embed check and the coverage check do, with the classification's outcome |
| CaptureBoundary.CapturedIsLinkable | scripts/r5_selected_source_binding_v2.py:62-70 | every local package of a capture lies in a production directory, if every listed directory holds a Go file of its own |
| CaptureBoundary.CaptureLinks | scripts/r5_selected_binding_consumer.py:404-438 | every honest capture's map is rebuilt unchanged: it always passes the linkage comparison |
| CaptureBoundary.RootIsNotCaptured | scripts/r5_archive_boundary.py:206-216 | no capture lists a package in the root directory |
| CaptureBoundary.SmallCaptureIsTaken | scripts/r5_selected_source_binding_v2.py:274-325 | that listing is captured |
| CaptureBoundary.RootNeedsBoundary | scripts/r5_selected_source_binding_v2.py:188-249 | a concrete honest listing that the classification alone takes, the consumer refuses, and no capture holds |
| BoundedWalk.Visit | scripts/r5_source_inventory.py:153-187 | the recursive walk on a shared budget succeeds exactly when the remaining budget covers the subtree and no entry is a link, special, named go.mod or too deep |
| BoundedWalk.VisitAll | scripts/r5_source_inventory.py:128-208 | a series of walks on one budget succeeds exactly when all entries together are at most 4096 and each is admissible |
| BoundedWalk.ListingOrder | scripts/r5_source_inventory.py:128-208 | size and admissibility of a tree do not change when the entries of any of its directories, at any depth, are listed in another order |
| BoundedWalk.WalksIgnoreOrder | scripts/r5_source_inventory.py:128-208 | neither of the two conditions for a series of walks depends on the listing order anywhere in the trees |
| WalkLaws.AdmissibleIff | scripts/r5_source_inventory.py:153-187 | a subtree is admissible exactly if everything in it lies at most 32 levels deep, is a file or a directory, and is not named go.mod |
| WalkLaws.SizeIsNumberOfPlaces | scripts/r5_source_inventory.py:153-187 | the size of a subtree is the number of places in it |
| BoundedWalk.TopologyIgnoresOrder | scripts/r5_archive_boundary.py:99-152 | the entry count, the failure condition and the collected names do not depend on the listing order at any depth |
| BoundedWalk.Topology.Visit | scripts/r5_archive_boundary.py:99-152 | the walk fails or collects exactly the named files and directories outside the root .git, within budget and depth |
| BoundedWalk.NamesAreThePaths | scripts/r5_archive_boundary.py:99-152 | the collected names are exactly the paths to files, or to directories, outside the root .git |
| WalkLaws.WalkableIff | scripts/r5_archive_boundary.py:99-152 | the archive walk gets through an entry exactly if everything in it is a file or a directory and no directory is opened more than 64 levels down |
| WalkLaws.CountedIsSize | scripts/r5_archive_boundary.py:99-152 | the archive walk counts every entry outside the root .git once |
| JsonWalks.CheckNesting | scripts/check_http_contract.py:93-102 | the worklist loop accepts exactly the values nested at most 64 levels |
| JsonWalks.DeepChain | scripts/check_http_contract.py:93-102 | a refused value has a chain of nested values longer than the limit |
| JsonWalks.ChainTooDeep | scripts/check_http_contract.py:93-102 | a value with such a chain is refused |
| JsonLaws.NestingIff | scripts/check_http_contract.py:93-102 | a value is accepted exactly if nothing lies more than 64 levels below it |
| JsonWalks.SecretFields | scripts/check_http_contract.py:106-123 | every forbidden name is reported exactly as often as it occurs at any depth |
| JsonLaws.SecretsAreThePlaces | scripts/check_http_contract.py:106-123 | a forbidden name is reported once for every place where a member has it, and no other name is reported |
| SseFrames.SseErrors | scripts/check_http_contract.py:138-161 | the frame loop counts the objects among the decoded payloads, and an error per bad payload, per forbidden field, and for a stream without objects |
| SseFrames.EndingsAlike | scripts/check_http_contract.py:138-142 | streams written with LF, CRLF or CR throughout normalise to the same text |
| SseFrames.FrameDecodes | scripts/check_http_contract.py:145-152 | a payload of any lines, with any leading spaces, survives one frame |
| SseFrames.DecodeUndoesEncode | scripts/check_http_contract.py:126-161 | encoding any CR-free payloads as frames and decoding, in any line ending and with an unterminated tail, returns them in order |
| SseStandard.DecodeIsStandard | scripts/check_http_contract.py:126-161 | on every stream, with any mixture of line endings, the decoder returns exactly the payloads the standard's line-by-line algorithm dispatches |
| SseStandard.StreamPasses | scripts/check_http_contract.py:126-161 | a stream has no error exactly if the standard dispatches something and every payload is an object without forbidden fields; the complete events are the payloads that are objects |

## Left out

- Parsing of Go, TypeScript, YAML and JSON texts and regular expressions: sources enter as parsed values; only the union splitter, member tests, path texts and the stream decoder work on characters.
- TsPrint.ReadPrinted: covers types without empty members and without parsed object fields, because the object scanner is not part of this model; word characters are the ASCII ones.
- WireSound.WireSoundIffReady: leaves opaque Go types and untabled nested structs out by its closedness condition, and reads number literals as all numbers, as the checker does. Embedded structs, custom marshalers and tag options other than `omitempty` do not reach the parsed fields.
- OpenApiSound.OpenApiSoundIffReady: covers documents inside `Fragment`; keywords the checker does not inspect are excluded there, and `format` is an annotation.
- OpenApiAgreement.ThreeWay: reads number literals as all numbers, because the checker does not compare them with enums.
- GoAliases.FillAliases: the duplicate checks while merging, which make the three tables disjoint, are its precondition; identifiers are the ASCII ones.
- WireChecker.CompareStruct: the sorted order of field names is a parameter, any enumeration of the shared names; which label an error gets is not stated beyond its place in the list.
- OpenApiChecker.CheckProperties: components of a missing pair endpoint and non-list `required` values are excluded by the parsed form of the document.
- RunEvidence.ValidateEvents: the package, selector, field names and time stamp of an event are one flag, since they are fixed texts and a date format; fatal words are an abstract predicate; times of fractional seconds are already nanoseconds.
- RunEvidence.ValidateProcess: receipt bindings and types of fields are left out, since they compare fixed shapes and hashes.
- SharedEvents.ClassifyShared: diagnostics, infrastructure words and build noise are abstract text predicates; collecting declared targets and their conflicts is not part of this model.
- GoTestLog.Evaluate: lines are already decoded JSON events with their shape recorded; loading and validating a suite is not part of this model; of the problems only their number is stated, not their texts.
- WriteClosure.Classify: SQL string matching is the `direct` flag, and the per-function result records filled afterwards are left out.
- SelectedInputs.ClassifyRows: the records of external, toolchain and native files are left out (they never reach the local map), with the tests for their own directories; so are module identity and archive markers; a package enters as one record per listed file.
- CaptureBoundary.CaptureLinks: assumes what `go list` promises (canonical local names, one package per import path, nothing foreign below the root, and in every listed directory a Go file of its own).
- CaptureBoundary.CheckBoundary: the pinned archive's own bytes, module and workspace markers, archive imports, and the repeated reads are left out; they only refuse more.
- CaptureBoundary.CaptureInputs: the comparison of root against explicit packages and of variant directories, and the second capture afterwards, are left out; they only refuse more.
- BoundedWalk.VisitAll: the tree is a fixed value; checks for files that change during a walk are left out.
- SseFrames.SseErrors: header checks, the byte order mark and invalid UTF-8 are left out; judging one payload is a parameter, whose two halves are in `JsonWalks`.
- JsonWalks.CheckNesting: the parser's duplicate-key and number checks come before the modelled loop.
- Digests, seals and receipts, and the comparison of build variants: equality of hashes and exact shapes, settled by reading one branch.
- Pinned maintenance scripts, subprocesses, Git, Go and PostgreSQL runs, and network access: input and output only.
