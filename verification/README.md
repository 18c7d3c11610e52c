# Quality Flow: verified model

Quality Flow runs test suites as ordered commands over a scoped run context. This project models its
engine and the checkers, compilers and registries around it in Dafny and proves what they promise.

* **Run context.** Python's dictionaries and lists are cells of an explicit heap (`ObjectHeap`), so that
  `local.global` and `global.runEnvelope` are shared objects and not copies. `PathText` holds the two
  tokenisers, `RunContexts` the context object, `ForestPaths` and `ContextPaths` reading after writing and
  removing, `WriteErrors` when a write succeeds, `PathSpelling` the other ways to write a path,
  `ItemImmutability`, `StoredAliases` and `ContextAliases` what a test item can and cannot change,
  `ContextHandover` making, serialising and rebuilding a context.
* **Constant planner.** `ConstantPlanner` is the static checker and `PlannerAcceptance` says exactly what it
  accepts; `CommandListings` relates the order in which it plans to the orders in which the engine may
  list tied commands; `PlannerSoundness` and `SuiteSoundness`
  prove it sound against the run over the aliased heap, by comparison with a plain interpreter that has one
  variable per definition; `CommandEffects` says what single commands do and `SuiteScopes` what the items of
  a suite share; `TargetWrites` says what a write to a path of the user's choosing leaves alone;
  `PlannerTies`, `PlannerLimits` and `TargetLimits` show where the promise stops and when exactly it holds;
  `CommandPolicy` is the check made before a command runs; `SendVerify` and `SendVerifySteps` are a command generator whose
  output the planner judges.
* **Events.** `EventBus` is the bus and its stream, `EventDelivery` and `EventOrder` every interleaving of
  publishers, subscribers and readers, `SuiteRunner` the run loop that feeds the bus.
* **Dataset perimeters.** `Perimeters` normalises, `PerimeterIdempotence` normalises again,
  `PerimeterQueries` resolves parameters and compiles the filter to three-valued expressions,
  `PerimeterProgress` says which overrides are used and when compiling fails, `PerimeterMeaning` what the
  words of a written perimeter mean, and `PerimeterAcceptance` which perimeters are accepted.
* **Hook migration.** `HookCollapse` is one group of one suite as a change of two tables, `HookMigration`
  the whole run, `HookPhases` the order of the phases in it.
* **Mock servers.** `MockRouting`, `MockMatching`, `MockRegistry`, `MockListeners`, `RoutePaths`,
  `OpenApiImport` and `OpenApiDocuments`.
* **Trees and rows.** `JsonAsserts`, `AssertErrors`, `HttpInputTree`, `HttpInputNodes`, `TemplateFlatten`,
  `TemplatePaths`, `TemplateRows` and `TemplateSources`.

Outside the model and given from outside: what commands, tests and the database do (`Effects`, `TestRun`),
Python's `str`, `json.dumps`, number and date parsing (`Python`, `ser`, `text`), the comparisons that the
database makes (`Compare`), and the order in which a database lists tied rows (`Scan`, `IsListing`). Which
comparisons the query builder refuses (`Takes`) is that of SQLAlchemy 2.0, which the repository pins.

## Where the code does not keep the promise

Each of these is a lemma with its input or its exact condition.

* A test item can change the global scope through `$.local.global...` (`AliasWritesReachGlobal`). Only
  `local.global` and `global.runEnvelope` are aliases; there is no `local.runEnvelope`. It can also change an
  object of the global scope that a command has stored elsewhere, as an assert stores its actual value
  (`StoredObjectIsShared`); the stored values that are harmless, new objects such as the artifact of an
  assert included, are exactly those of `StoredValuesDecide`.
* A path with two positions in a row cannot be made where the first is missing, because lists are filled up
  with dictionaries (`WriteSucceedsExactly`). A removal under an unknown root is ignored, a write refused
  (`OtherRootsAreRefused`). A constant that holds the text of its own path is read as null (`OwnPathReadsNull`).
* The planner orders commands by order and id, the engine lists them by order alone. A deletion that ties
  with a command that reads the definition or declares its slot is accepted and can run wrongly
  (`TiedDeletionBreaks`); `TiesDecide` is the exact condition.
* receiveQueue and queryDatabase declare a result constant and never write it, saveTable and exportDataset
  do not without rows, and the planner accepts references to it; `SectionRunsExactly` is the exact condition,
  and covers deletions that the planner does not see.
* receiveQueue and queryDatabase write a target that the planner does not look at. It can be a planned
  constant, which the next command then reads with the wrong value (`OverwrittenConstantIsRead`);
  `TargetDecides` says exactly which targets leave the planned constants in place. The policy refuses
  setVariable for a target that it does not write (`IdleTargetIsRefused`).
* after-each and after-all are checked against the definitions from before the tests, so a deletion inside
  a test is missed (`DeletedInheritedIsMissed`). Negative orders escape the duplicate check
  (`NegativeOrderClashes`), and `NegativeOrdersDecide` is the exact condition.
* The `send_verify` chain is rejected as it is numbered (`ChainAsNumberedIsRejected`), and its asserts read a
  constant that the read step does not write (`AssertReadsWhatWasNotWritten`).
* A test whose success cannot be recorded counts as completed and as failed (`CountersBalance`); the end
  event is not published when the final update raises (`OneStartOneEnd`).
* Two publishing threads can swap frames (`TwoPublishersSwap`).
* Endpoints and paths are normalised more than once, and the normal form is not always stable: a space
  survives at an end (`EndpointNormalFormIsExact`, `NormalFormIsExact`, `SpacedPathIsImportedTwice`). A
  server configured with such an endpoint starts and cannot be found (`FoundExactly`), and its stale entry
  would answer only texts that the router never passes (`StaleEntryAnswers`, `RouterLookupIsExact`). A start
  that fails midway leaks its listeners (`FailedStartLeaks`).
* The migration's text speaks of items of kind hook, the collapse selects by hook phase alone
  (`RolesAfterMigration`).
* An override name with spaces is accepted and ignored by the resolver (`SpacedOverrideIsIgnored`,
  `OverrideIsUsedExactly`). The program does not come to this: its callers strip the names beforehand
  (app/elaborations/models/dtos/test_suite_dto.py:24-35).
* A perimeter that normalises and resolves can still fail to compile although the table has its columns: a
  parameter without a value is compared with null (`UnsetParameterIsRefused`, `CompileFailsExactly`).

## Model

| member | source | states |
|---|---|---|
| ObjectHeap.AssignNestedValue | app/elaborations/services/suite_runs/run_context.py:287-322 | the cursor loop that creates containers on its way computes the recursive write, including the containers left behind when it raises |
| ObjectHeap.RemoveNestedValue | app/elaborations/services/suite_runs/run_context.py:325-346 | the removal loop computes the recursive removal; removing what is not there changes nothing |
| ObjectHeap.Pad | app/elaborations/services/suite_runs/run_context.py:282-284 | padding a list keeps its items, makes room for the index and appends only new empty objects |
| ForestPaths.AssignKeepsEntry | app/elaborations/services/suite_runs/run_context.py:287-322 | frame of a write that succeeds or fails halfway: every entry elsewhere keeps its value, except a null on the way |
| ForestPaths.AssignKeepsCell | app/elaborations/services/suite_runs/run_context.py:287-322 | an object whose place is not on the written path is not touched |
| ForestPaths.AssignKeepsForest | app/elaborations/services/suite_runs/run_context.py:287-322 | a write keeps every object in one place |
| ForestPaths.RemoveIsExact | app/elaborations/services/suite_runs/run_context.py:325-346 | removing a property makes exactly that subtree missing; every other path reads what it read |
| PathText.SegmentTokens | app/elaborations/services/suite_runs/run_context.py:207-231 | the writer's character loop over one segment computes the recursive scan |
| PathText.SplitRef | app/elaborations/services/suite_runs/run_context_resolver.py:14-29 | the resolver's split loop, with its bracket level, computes the recursive split |
| PathText.ResolveReference | app/elaborations/services/suite_runs/run_context_resolver.py:59-86 | the resolver's loops compute the lookup of a reference in a scope |
| PathText.WriterReadsCanonical | app/elaborations/services/suite_runs/run_context.py:194-240 | the writer reads every canonical path text as exactly its keys |
| PathText.ResolverReadsCanonical | app/elaborations/services/suite_runs/run_context_resolver.py:14-86 | the resolver reads the same text as the same keys, although it tokenises differently |
| RunContexts.RunContext.WriteContextPath | app/elaborations/services/suite_runs/run_context.py:349-376 | a write changes the context, or raises, as the value-level write says, guards and root replacement included |
| RunContexts.RunContext.RemoveContextPath | app/elaborations/services/suite_runs/run_context.py:379-398 | a removal changes the context as the value-level removal says |
| RunContexts.RunContext.Read | app/elaborations/services/suite_runs/run_context_resolver.py:59-86 | an expression is resolved against the scope built from the context |
| ContextPaths.WriteThenRead | app/elaborations/services/suite_runs/run_context.py:349-376 | a successful write to a canonical path is what resolving that path then finds |
| ContextPaths.WriteKeepsOtherReads | app/elaborations/services/suite_runs/run_context.py:282-376 | a path that resolved before and is not comparable with the written place resolves to the same value, list padding included |
| ContextPaths.RemoveThenRead | app/elaborations/services/suite_runs/run_context.py:379-398 | after a removal the path and all below it are missing, and every path elsewhere reads as before |
| WriteErrors.WriteSucceedsExactly | app/elaborations/services/suite_runs/run_context.py:287-322 | a write succeeds if and only if each key meets a container of its kind, a null, or nothing; but of two positions in a row the second is refused where the first was missing, because padding makes dictionaries |
| WriteErrors.WriteIsDoneExactly | app/elaborations/services/suite_runs/run_context.py:349-376 | the outcome of a write to a canonical path, in every case: the guards, a path that fits, or the error of a segment |
| WriteErrors.RemovalIsExact | app/elaborations/services/suite_runs/run_context.py:325-346 | removing a position of a list moves the later items up, removing a name takes it out of its dictionary, and nothing else changes |
| WriteErrors.WholeScopeIsReplaced | app/elaborations/services/suite_runs/run_context.py:368-375 | a write to a scope itself replaces its entries by those of an object, and anything but an object raises |
| PathSpelling.SpellingsAgree | app/elaborations/services/suite_runs/run_context.py:194-204 | a path reads the same with "$.", with "$" and without, and with space around it |
| PathSpelling.ShortNamesAreConstants | app/elaborations/services/suite_runs/run_context.py:362-398 | a name below the envelope, the global or the local scope that is none of their own entries is that of a constant, for writing and removing |
| PathSpelling.VarsAreGlobalConstants | app/elaborations/services/suite_runs/run_context.py:243-376 | $.vars is another name for the constants of the global scope, for writing, removing and reading |
| PathSpelling.ResponseIsCommands | app/elaborations/services/suite_runs/run_context.py:256-279 | $.response is another name for the commands of the result scope |
| PathSpelling.OtherRootsAreRefused | app/elaborations/services/suite_runs/run_context.py:243-253 | a write under any other root raises and changes nothing; a removal does nothing and does not raise |
| ItemImmutability.StepKeepsFrozen | app/elaborations/services/suite_runs/run_context.py:349-398 | one write or removal of a test item leaves every object of the global scope and of the envelope as it is, if the stored value is none of them and the path does not step through local.global |
| ItemImmutability.TestItemImmutability | app/elaborations/services/suite_runs/run_context.py:349-398 | over any run of such writes and removals, all paths below the global scope and the envelope read as before |
| StoredAliases.StoredValuesDecide | app/elaborations/services/suite_runs/run_context.py:179-376 | after a test item has stored an object, existing or newly made, as an assert stores its artifact, all further allowed runs leave the frozen scopes as they are if and only if the object is not theirs and none of its new parts holds one of theirs |
| StoredAliases.StoredObjectIsShared | app/elaborations/services/operations/assert_command_executor.py:36-55 | an object of the global scope that was stored below the result or local scope is changed at its global path by a write below the stored place, in a test item as well |
| ContextAliases.CreatedIsSealed | app/elaborations/services/suite_runs/run_context.py:47-96 | a new context meets the condition of the immutability result, whatever event and variables it is given |
| ContextAliases.CreatedIsForest | app/elaborations/services/suite_runs/run_context.py:47-96 | a new context meets the condition of the read-after-write results, whatever event and variables it is given, with the aliased scopes named as seen from the local scope |
| ContextAliases.CreatedIsApart | app/elaborations/services/suite_runs/run_context.py:47-96 | a new context meets the condition of the soundness results: nothing but the scope objects holds a scope object or a constants dictionary, unless the given variables are held elsewhere |
| ContextAliases.AliasWritesReachGlobal | app/elaborations/services/suite_runs/run_context.py:58-65 | a write through $.local.global is read back at $.global, in a test item as well: the guard does not see the alias |
| ContextAliases.GlobalWriteIsBlocked | app/elaborations/services/suite_runs/run_context.py:354-360 | the same write to $.global itself raises in a test item and changes nothing |
| CommandPolicy.TargetsAreTheWrites | app/elaborations/services/operations/command_policy_validator.py:14-29 | the collected targets are exactly the place that the executor of the command writes, and the places that are named and never written |
| CommandPolicy.CollectedExactly | app/elaborations/services/operations/command_policy_validator.py:14-29 | which places are collected of any configuration, complete or not: an attribute of nothing but space names none |
| CommandPolicy.PlannedPlaces | app/elaborations/services/operations/command_policy_validator.py:14-29 | the place that a planned command may write: the target of receiveQueue and queryDatabase, the constant of the others |
| CommandPolicy.IdleTargetIsRefused | app/elaborations/services/operations/command_policy_validator.py:14-60 | a command is refused for a place that it would never write |
| CommandPolicy.AimedTargetsPass | app/elaborations/services/operations/command_policy_validator.py:50-60 | the check passes exactly the paths to which the soundness results assign an aim |
| CommandPolicy.AcceptedWritesGoThrough | app/elaborations/services/operations/command_policy_validator.py:50-60 | the place that an accepted configuration writes is not refused by the run context, whatever is written there |
| CommandPolicy.ValidateTargets | app/elaborations/services/operations/command_policy_validator.py:62-72 | the check passes if and only if no place that the configuration writes or names has an error, and otherwise gives the error of one of them |
| CommandPolicy.ValidateTargetRoots | app/elaborations/services/operations/command_policy_validator.py:50-60 | the error is that of the first target that has one, and none only if no target has one |
| CommandPolicy.PolicyIsTheWriteGuard | app/elaborations/services/operations/command_policy_validator.py:50-60 | the policy accepts a path exactly when the run context does not refuse it, with the same error, for every path and value |
| CommandPolicy.PlannedTargetsPass | app/elaborations/services/operations/command_policy_validator.py:14-60 | a command that the planner accepts in a test passes the policy there if and only if its own target does |
| ConstantPlanner.Plan | app/elaborations/services/constants/command_constant_definition_registry.py:491-532 | the planning loop computes the fold over the sorted commands and reports the declared definitions in order |
| ConstantPlanner.CommandsAreSorted | app/elaborations/services/constants/command_constant_definition_registry.py:491-532 | commands are planned in the order of (order, id), each exactly once |
| PlannerAcceptance.AcceptsExactly | app/elaborations/services/constants/command_constant_definition_registry.py:112-532 | a command is accepted if and only if its references are visible in its section and of a type that its code takes, its form fields fit, what it deletes may be deleted, and what it declares may be set there and is new; and exactly that definition is then added or marked as deleted |
| PlannerAcceptance.RejectionIsExact | app/elaborations/services/constants/command_constant_definition_registry.py:389-488 | which error a rejected command gets: for its first unfit reference, else its first unfit form field, else what it declares or deletes |
| PlannerAcceptance.SectionAcceptedExactly | app/elaborations/services/constants/command_constant_definition_registry.py:491-532 | a section is accepted if and only if each command in the order of (order, id) is acceptable after those before it and the live inherited definitions |
| PlannerAcceptance.InheritedIsReadable | app/elaborations/services/constants/command_constant_definition_registry.py:389-420 | a command that only reads, of a code without type restriction, may read every live inherited definition in the scopes that its section sees |
| PlannerAcceptance.LaterSectionsRead | app/elaborations/services/constants/command_constant_definition_registry.py:549-601 | what before-all leaves is readable in before-each and after-all, and what before-each leaves or inherited in the tests and in after-each |
| PlannerAcceptance.SuiteAcceptedExactly | app/elaborations/services/constants/command_constant_definition_registry.py:549-601 | a suite is accepted if and only if before-each and after-all are on what before-all leaves, and the tests and after-each on what before-each leaves |
| PlannerAcceptance.DeclarationsAreReported | app/elaborations/services/constants/command_constant_definition_registry.py:420-532 | the reported definitions are exactly those that the commands declare, by their fields |
| ConstantStore.WriteConstant | app/elaborations/services/operations/command_data_resolver.py:106-110 | writing $.scope.constants.name binds that constant and no other, in any scope |
| ConstantStore.ReadConstant | app/elaborations/services/operations/command_data_resolver.py:96-103 | resolving $.scope.constants.name finds the bound value, or nothing when it is unbound |
| ConstantStore.RemoveConstant | app/elaborations/services/suite_runs/run_context.py:379-398 | removing $.scope.constants.name unbinds that constant and no other |
| PlannerSoundness.ExecuteCommands | app/elaborations/services/operations/command_data_resolver.py:96-110 | the loop over a run context object, with its reads, its constants and its targets, leaves the state, the trace and the status of the recursive run |
| CommandEffects.SetVariableBinds | app/elaborations/services/operations/init_constant_command_executor.py:15-24 | setVariable binds its constant to its value and changes no other |
| CommandEffects.DeleteVariableUnbinds | app/elaborations/services/operations/delete_constant_command_executor.py:1-40 | deleteVariable unbinds the constant of its definition and changes no other |
| CommandEffects.ActionBindsResult | app/elaborations/services/operations/command_data_resolver.py:106-110 | which command codes bind their result constant: receiveQueue and queryDatabase never, saveTable and exportDataset when they have a result, the others always |
| CommandEffects.OwnPathReadsNull | app/elaborations/services/operations/command_data_resolver.py:96-103 | a constant is read as it is, but one that holds the text of its own path is read as null |
| CommandListings.DeclarationIsNew | app/elaborations/services/constants/command_constant_definition_registry.py:453-488 | an accepted declaration is writable and shares its scope and name with no live definition |
| CommandListings.Commute | app/elaborations/services/constants/command_constant_definition_registry.py:272-532 | two tied commands, neither deleting what the other reads or whose slot it declares, can be taken in the other order, with the same definitions afterwards |
| CommandListings.ListingIsLawful | app/elaborations/services/alembic/suite_item_command_service.py:12-22 | without such ties every listing by order alone passes the checks on scope, visibility and clashes, and ends with the definitions that the planner reports |
| PlannerSoundness.StepAgrees | app/elaborations/services/constants/command_constant_definition_registry.py:389-532 | one command that passes these checks, run on the context, does what it does on one variable per definition and keeps the two in step, a write to a harmless target included |
| PlannerSoundness.PlannedCommandsRun | app/elaborations/services/constants/command_constant_definition_registry.py:272-532 | soundness: accepted commands, in every order in which tied commands may be listed, never read a missing constant or trip a guard; each reads the value last written by the declaring command, and the context ends up holding what the planner reports; targets are written on the way, and can only fail on the shape of what they meet |
| PlannerSoundness.SkippersAreLoose | app/elaborations/services/operations/save_table_command_executor.py:24-30 | whatever the effects are, the commands that may finish without writing their constant are those of four executors |
| TargetWrites.AimedAssign | app/elaborations/services/suite_runs/run_context.py:287-322 | a write below a scope object, aliases followed, changes no constant but the one that its keys aim at, and keeps the scope objects apart from everything else |
| TargetWrites.TargetWriteSpares | app/elaborations/services/suite_runs/run_context.py:349-376 | the same for a target path in the user's spelling, the response root included; such a write fails only on the shape of what it meets |
| TargetLimits.OverwrittenConstantIsRead | app/elaborations/services/operations/receive_queue_command_executor.py:85-86 | the planner accepts and the policy passes a target that is a planned constant, and the next command reads the rows in place of the declared value |
| TargetLimits.TargetDecides | app/elaborations/services/suite_runs/run_context.py:349-376 | after a write to a target the context still holds every variable of the interpreter if and only if no variable of the constant aimed at had another value, or was null and written into |
| PlannerTies.TiesDecide | app/elaborations/services/alembic/suite_item_command_service.py:12-22 | for accepted commands that do not fail, write what they declare and have no target: the run is right throughout in every listing if and only if no deletion ties with a command that reads the deleted definition or declares its slot |
| SuiteSoundness.ValidateSuite | app/elaborations/services/constants/command_constant_definition_registry.py:549-601 | the checks of the five sections give the first error, or none |
| SuiteSoundness.RunKeeps | app/elaborations/services/constants/command_constant_definition_registry.py:389-532 | whatever becomes of its commands, an accepted section keeps the constants that it was not to delete |
| SuiteSoundness.ItemAgrees | app/elaborations/services/test_suites/test_suite_executor_thread.py:116-206 | one item, entered with its local constants and left again, agrees with the plain interpreter in every listing, and when it finishes its definitions hold for the next item |
| SuiteSoundness.TestAgrees | app/elaborations/services/test_suites/test_suite_executor_thread.py:209-446 | before-each does what it means after before-all; when it finishes, so do the test and after-each, whether the test fails or not; the definitions of before-all stay as they were |
| SuiteSoundness.AcceptedSuiteRuns | app/elaborations/services/test_suites/test_suite_executor_thread.py:209-446 | an accepted suite, with failing items, aborting tests and every listing of tied commands: no test is executed when before-all fails, else all up to the first that fails and aborts; when before-all finishes, every executed before-each and after-all do what they mean after it, whatever other tests did; after-each and after-all set to work in any case; and no item whose hooks have finished reads a missing constant or trips a guard |
| SuiteSoundness.TestsExecuted | app/elaborations/services/test_suites/test_suite_executor_thread.py:300-446 | for every suite and any effects: no test runs when before-all fails; otherwise the executed tests are all, or those up to the first with a failed item and its abort set |
| SuiteScopes.LocalsAreFresh | app/elaborations/services/test_suites/test_suite_executor_thread.py:300-400 | a test starts without local constants, whatever tests before it have set |
| SuiteScopes.ItemsReadOn | app/elaborations/services/test_suites/test_suite_executor_thread.py:310-395 | within a test each item finds what the one before it has left outside the local scope |
| SuiteScopes.ResultsAreShared | app/elaborations/services/test_suites/test_suite_executor_thread.py:290-420 | across a suite the first executed test finds what before-all has left, each further one what the one before it has left, and after-all what the last one has left |
| SuiteScopes.TestsAreGuarded | app/elaborations/services/test_suites/test_suite_executor_thread.py:116-206 | a test cannot set a constant of the global scope or the envelope and leaves it as it was |
| SuiteScopes.HooksAreNotGuarded | app/elaborations/services/test_suites/test_suite_executor_thread.py:116-206 | a hook can, and binds exactly that constant |
| PlannerLimits.DeletedInheritedIsMissed | app/elaborations/services/constants/command_constant_definition_registry.py:577-601 | a suite is accepted although its test deletes an inherited constant that after-each then misses |
| PlannerLimits.SectionRunsExactly | app/elaborations/services/constants/command_constant_definition_registry.py:577-601 | a section checked against one set of definitions but started with another, with harmless targets: for commands that do not raise and write their constant always or never, the run agrees with the interpreter if and only if no command refers to a definition that was deleted since or is never written |
| PlannerLimits.TiedDeletionBreaks | app/elaborations/services/alembic/suite_item_command_service.py:12-22 | deleting a constant and setting it anew at the same order is accepted; listed in the other order, the new constant is removed and the next command misses it |
| PlannerLimits.NegativeOrderClashes | app/elaborations/services/constants/command_constant_definition_registry.py:453-488 | setVariable for an inherited constant is accepted if and only if its order is negative, and then two live definitions of the constant are left |
| PlannerLimits.NegativeOrdersDecide | app/elaborations/services/constants/command_constant_definition_registry.py:453-532 | in an accepted section of any orders there are never two live definitions of one constant if and only if no command of negative order declares an inherited constant |
| SendVerify.GenerateCommands | app/templating/templates/send_verify.py:101-264 | the generator loop yields the chain, or the first error |
| SendVerify.ChainIsNumbered | app/templating/templates/send_verify.py:101-264 | the generated orders are 0, 1, 2, ... |
| SendVerify.ChainIsWellScoped | app/templating/templates/send_verify.py:101-264 | definition ids and names are distinct and every reference is declared by an earlier command |
| SendVerifySteps.ChainIsRead | app/templating/templates/send_verify.py:101-264 | every command of the chain at its place: the payload is set and sent, the wait follows unless it is of no length, and each entry with a target has a read step from the queue or the database and an assert step for equality or existence |
| SendVerifySteps.AcceptedExactly | app/templating/templates/send_verify.py:84-264 | commands are generated if and only if there is a queue, an inline payload, no negative wait, and entries with a known target, operator and what they need, in any case and spacing |
| SendVerify.ShiftedChainIsAccepted | app/elaborations/services/constants/command_constant_definition_registry.py:491-532 | with orders from 1 the planner accepts every generated chain in a test |
| SendVerify.ChainAsNumberedIsRejected | app/elaborations/services/constants/command_constant_definition_registry.py:535-546 | as generated it rejects every chain: order 0 becomes 1 and the first two commands tie |
| SendVerify.AssertReadsWhatWasNotWritten | app/templating/templates/send_verify.py:101-264 | the rows are stored at the target, and the declared constant that the assert reads is still missing |
| ContextHandover.CreatedIsStandard | app/elaborations/services/suite_runs/run_context.py:47-96 | a new context has the scope objects that a hand-over expects, whatever event and variables it was given |
| ContextHandover.NewContextIs | app/elaborations/services/suite_runs/run_context.py:47-96 | the entries of the four scope objects of a new context, one by one |
| ContextHandover.ConstantCommandsKeepStandard | app/elaborations/services/suite_runs/run_context.py:349-398 | every permitted write or removal of a constant keeps it so |
| ContextHandover.HandoverRoundTrip | app/elaborations/services/suite_runs/run_context.py:439-474 | rebuilding a context from its payload gives the same view under all six names, path by path, the same run id, invocation id, visible sources and last result, and the sharing of local, global and envelope |
| ContextHandover.MissingPartsAreMade | app/elaborations/services/suite_runs/run_context.py:452-474 | whatever a payload lacks is made anew: empty constants, and a last result of no item and no data |
| EventBus.ExecutionEventBus.Record | app/elaborations/services/suite_runs/execution_event_bus.py:52-54 | the locked part records the frame in the bounded history and copies the subscribers |
| EventBus.ExecutionEventBus.PublishExecutionEvent | app/elaborations/services/suite_runs/execution_event_bus.py:38-60 | a publication offers the frame to each subscriber in turn and drops it only where a queue is full |
| EventBus.ExecutionEventBus.Subscribe | app/elaborations/services/suite_runs/execution_event_bus.py:89-94 | a subscriber is registered and given the history in one step |
| EventBus.ExecutionEventBus.Unsubscribe | app/elaborations/services/suite_runs/execution_event_bus.py:97-103 | the queue leaves the list, and an empty list leaves the table |
| EventBus.StreamExecutionEvents | app/elaborations/services/suite_runs/execution_event_bus.py:106-131 | the stream shows the whole snapshot, stops there if it holds the end, and otherwise shows what it reads up to the end |
| EventBus.LiveStreamEnds | app/elaborations/services/suite_runs/execution_event_bus.py:115-131 | a live stream shows every answer of its queue in turn, a heartbeat for a timeout, up to and including the first frame that ends the execution, and nothing after it |
| EventDelivery.StepKeeps | app/elaborations/services/suite_runs/execution_event_bus.py:38-103 | every interleaved step keeps the delivery invariant |
| EventDelivery.EveryFrameOnce | app/elaborations/services/suite_runs/execution_event_bus.py:38-103 | under every interleaving the snapshot is the last 500 frames before joining, and each later frame until leaving is delivered once, dropped once or in flight, never two of these |
| EventDelivery.DropMeansFull | app/elaborations/services/suite_runs/execution_event_bus.py:53-60 | a lost frame was offered at a moment when 1000 frames were waiting in the queue |
| EventDelivery.SizesAreExact | app/elaborations/services/suite_runs/execution_event_bus.py:20-60 | in every reachable state the snapshot is the last 500 frames before joining, at most 1000 frames wait, and a frame is put exactly when fewer do |
| EventDelivery.PublicationReachesAll | app/elaborations/services/suite_runs/execution_event_bus.py:53-60 | one publication reaches every subscriber of its execution whose queue is not full, and no other queue |
| EventOrder.OnePublisherInOrder | app/elaborations/services/suite_runs/execution_event_bus.py:38-60 | with one publishing thread a subscriber is given frames in publish order |
| EventOrder.StreamIsContiguous | app/elaborations/services/suite_runs/execution_event_bus.py:106-131 | with one publisher and no drop, snapshot and read frames are one gapless stretch of the log |
| EventOrder.TwoPublishersSwap | app/elaborations/services/suite_runs/execution_event_bus.py:52-60 | two publishing threads can deliver in the other order than the history records |
| SuiteRunner.ResolveTestsToExecute | app/elaborations/services/suite_runs/suite_executor_thread.py:72-94 | all tests, the target, or the tests up to it; none when the target is unknown |
| SuiteRunner.SuiteRun.RunTest | app/elaborations/services/suite_runs/suite_executor_thread.py:185-290 | one turn publishes, counts and stops as its exceptions say |
| SuiteRunner.SuiteRun.Execute | app/elaborations/services/suite_runs/suite_executor_thread.py:147-337 | the run publishes exactly the specified trace |
| SuiteRunner.TestsRunAreAPrefix | app/elaborations/services/suite_runs/suite_executor_thread.py:185-290 | the started tests, and those with a result, are prefixes of the selected ones |
| SuiteRunner.LoopEndsAt | app/elaborations/services/suite_runs/suite_executor_thread.py:185-290 | the loop ends at the end of the list, at the first failing test that aborts or at an exception that escapes, and not before |
| SuiteRunner.OneStartOneEnd | app/elaborations/services/suite_runs/suite_executor_thread.py:147-337 | one start event, first; one end event, last, exactly when the final update succeeds |
| SuiteRunner.ProgressIsExact | app/elaborations/services/suite_runs/suite_executor_thread.py:170-290 | progress is published once before the tests and once after each started one, with the number completed so far out of the number selected |
| SuiteRunner.CountersBalance | app/elaborations/services/suite_runs/suite_executor_thread.py:216-305 | completed plus failed is the number of started tests exactly when no success failed to be recorded and no exception escaped; each of those adds one |
| SuiteRunner.StatusIsExact | app/elaborations/services/suite_runs/suite_executor_thread.py:297-337 | the end event carries the counters, and the status is error exactly when something failed, with the first message that is not empty |
| SuiteRunner.TraceIsExact | app/elaborations/services/suite_runs/suite_executor_thread.py:147-337 | every event of a run at its place: the start, the first progress, for each test its start with its index, its result (none, or the first exception of running it and recording its success) and the progress; and where an exception escapes no result |
| SuiteRunner.EndIsExact | app/elaborations/services/suite_runs/suite_executor_thread.py:297-337 | the end event gives the number of tests run without an exception and the total, is well if and only if nothing raised, and has the message of the first test that raised |
| SuiteRunner.UnknownTargetIsReported | app/elaborations/services/suite_runs/suite_executor_thread.py:72-94 | an unknown target is reported and nothing is run |
| SuiteRunner.SelectionIs | app/elaborations/services/suite_runs/suite_executor_thread.py:72-94 | all tests, or the first with the requested id, after the ones before it when these are wanted, or none |
| HookCollapse.Migration.CollapsePhase | alembic/versions/b1c2d3e4f5a6_2026052811_qsm_047_test_suites_foundation.py:215-274 | one group is listed, renumbered, re-parented and its donors deleted with the cascade |
| HookCollapse.Migration.CollapseHooksFourToTwo | alembic/versions/b1c2d3e4f5a6_2026052811_qsm_047_test_suites_foundation.py:277-292 | every listed suite is collapsed on both sides |
| HookCollapse.CollapseMerges | alembic/versions/b1c2d3e4f5a6_2026052811_qsm_047_test_suites_foundation.py:215-274 | a group of two or more keeps its first item and all its commands, numbered 0, 1, ... in the order of phase, position and order, however ties are broken |
| HookMigration.CollapseFrame | alembic/versions/b1c2d3e4f5a6_2026052811_qsm_047_test_suites_foundation.py:215-274 | every other group keeps its rows |
| HookMigration.MigrationIsSound | alembic/versions/b1c2d3e4f5a6_2026052811_qsm_047_test_suites_foundation.py:277-292 | afterwards each suite has at most one item a side, no command is lost or altered, and rows outside the hooks are as before |
| HookMigration.SecondRunIsIdle | alembic/versions/b1c2d3e4f5a6_2026052811_qsm_047_test_suites_foundation.py:277-292 | a second run changes nothing |
| HookMigration.RolesAfterMigration | alembic/versions/b1c2d3e4f5a6_2026052811_qsm_047_test_suites_foundation.py:200-292 | at most one setup and one teardown item a suite; an item with a hook phase has such a role exactly when it is of kind hook |
| HookMigration.Upgrade | alembic/versions/b1c2d3e4f5a6_2026052811_qsm_047_test_suites_foundation.py:312-321 | the two steps of the upgrade in place: no suite is left with two items of one hook role |
| HookPhases.PhasesDecide | alembic/versions/b1c2d3e4f5a6_2026052811_qsm_047_test_suites_foundation.py:80-274 | after the migration the commands of one side belong to one item, and before-all comes before before-each, after-each before after-all, within a phase the lower position, and within that the lower order |
| HookPhases.FirstSurvives | alembic/versions/b1c2d3e4f5a6_2026052811_qsm_047_test_suites_foundation.py:215-274 | one item is left on each side that had any: a before-all (after-each) one when there was one, and of its phase one with the least position |
| HookPhases.RolesByPhase | alembic/versions/b1c2d3e4f5a6_2026052811_qsm_047_test_suites_foundation.py:200-212 | hooks of the before phases have the setup role, hooks of the after phases the teardown role, all else the test role |
| Perimeters.Normalize | app/data_sources/services/dataset_perimeter_compiler.py:51-160 | the normaliser with its loops yields the specified perimeter, or the first error |
| Perimeters.NormalizeParameters | app/data_sources/services/dataset_perimeter_compiler.py:60-78 | parameters are taken in order and a repeated name is an error |
| Perimeters.NormalizeColumns | app/data_sources/services/dataset_perimeter_compiler.py:80-93 | columns are taken in order and a repeated or blank one is an error |
| PerimeterIdempotence.ColumnsAreTheTexts | app/data_sources/services/dataset_perimeter_compiler.py:80-93 | the normalised columns are the stripped texts of the given ones, all of them and in order |
| PerimeterIdempotence.SortsAreTheWritten | app/data_sources/services/dataset_perimeter_compiler.py:137-158 | the normalised sort has the written fields and directions, in order |
| PerimeterIdempotence.DefaultStays | app/data_sources/services/dataset_parameter_resolver.py:98-116 | a coerced and printed default is coerced and printed to itself, for all six types |
| PerimeterIdempotence.FilterReadsBack | app/data_sources/services/dataset_perimeter_compiler.py:95-141 | a normalised filter, the rewritten legacy form included, is read back as it is |
| PerimeterIdempotence.NormalizeIsIdempotent | app/data_sources/services/dataset_perimeter_compiler.py:51-160 | normalising what normalising returned succeeds with the same result |
| PerimeterQueries.Resolve | app/data_sources/services/dataset_parameter_resolver.py:37-86 | every parameter is resolved from its override, default or binding, or the first error is raised |
| PerimeterQueries.ResolvedValues | app/data_sources/services/dataset_parameter_resolver.py:65-86 | each parameter has the coerced override if one is given, else its default or its binding |
| PerimeterProgress.OverrideIsUsedExactly | app/data_sources/services/dataset_parameter_resolver.py:55-83 | every override that passes the unknown-name check is the value of its parameter when its name has no spaces around it, and otherwise changes nothing |
| PerimeterProgress.SpacedOverrideIsIgnored | app/data_sources/services/dataset_parameter_resolver.py:55-83 | such an override that is accepted and ignored |
| PerimeterProgress.CompileFailsExactly | app/data_sources/services/dataset_perimeter_compiler.py:163-258 | after normalising and resolving, compiling fails if and only if the table lacks a column or a condition compares, by other than equality, with a literal null or boolean or with a parameter that is left null |
| PerimeterProgress.UnsetParameterIsRefused | app/data_sources/services/dataset_perimeter_compiler.py:225-250 | a parameter without default or override is resolved to null and its comparison is refused, although the table has the column |
| PerimeterQueries.CompileKeepsMeaning | app/data_sources/services/dataset_perimeter_compiler.py:163-351 | on every row the compiled condition has the three-valued truth of the written filter, grouped or legacy, with the resolved parameters |
| PerimeterMeaning.FilterHoldsExactly | app/data_sources/services/dataset_perimeter_compiler.py:95-212 | the query keeps a row if and only if all entries of the written filter are true of it, or, when the filter says OR in any case and spacing, one is; without a word for the logic it is all |
| PerimeterMeaning.EntryIsRead | app/data_sources/services/dataset_perimeter_compiler.py:298-352 | an entry is a group when its kind says so, true when all (under OR, one) of its conditions are, and otherwise a condition |
| PerimeterMeaning.LogicIsRead | app/data_sources/services/dataset_perimeter_compiler.py:95-103 | the logic is OR when it is spelled so, AND when it is spelled so or left out, and an error otherwise |
| PerimeterMeaning.ConditionIsRead | app/data_sources/services/dataset_perimeter_compiler.py:214-258 | what a condition says of a row, by the word of its operator |
| PerimeterMeaning.ConditionAcceptedExactly | app/data_sources/services/dataset_perimeter_compiler.py:261-296 | exactly which written conditions are accepted, with the operators that each parameter type supports |
| PerimeterAcceptance.FilterAcceptedExactly | app/data_sources/services/dataset_perimeter_compiler.py:95-141 | a written filter is accepted if and only if its logic is AND or OR or left out and each of its entries is a group of at least one condition or a single condition, every one with a field, a known operator and a value that fits the parameters; in the old form the same of its conditions |
| PerimeterAcceptance.ParameterAcceptedExactly | app/data_sources/services/dataset_perimeter_compiler.py:354-405 | a parameter is accepted if and only if it is named, has a known type and a known binding, and its default can be coerced |
| PerimeterAcceptance.PerimeterAcceptedExactly | app/data_sources/services/dataset_perimeter_compiler.py:51-160 | a perimeter is accepted if and only if its parameters fit and their names differ, its columns are named and differ, its filter fits them, and each sort fits |
| PerimeterMeaning.PerimeterIsRead | app/data_sources/services/dataset_perimeter_compiler.py:51-160 | each part of a perimeter is read from its own key, and is empty when the key is missing |
| PerimeterMeaning.ParameterIsRead | app/data_sources/services/dataset_perimeter_compiler.py:354-389 | a parameter by its name and the word of its type |
| PerimeterMeaning.DefaultIsRead | app/data_sources/services/dataset_perimeter_compiler.py:354-389 | a written default is coerced to the type of its parameter and printed |
| PerimeterMeaning.DefaultIsResolved | app/data_sources/services/dataset_parameter_resolver.py:131-157 | what each kind of default is resolved to, for each type: the clock for $now and $today |
| PerimeterMeaning.BooleanTextIsRead | app/data_sources/services/dataset_parameter_resolver.py:188-206 | the words for true and false, in any case and spacing, and no others |
| PerimeterMeaning.NumbersAreCoerced | app/data_sources/services/dataset_parameter_resolver.py:159-206 | which numbers are integers, numbers and booleans |
| PerimeterMeaning.NumberTextIsRead | app/data_sources/services/dataset_parameter_resolver.py:173-186 | the text of a number is an integer when it is integral |
| PerimeterMeaning.ZoneIsRead | app/data_sources/services/dataset_parameter_resolver.py:208-235 | how texts are read as datetimes and dates, with a final Z for a zero offset |
| PerimeterMeaning.DatesAreCoerced | app/data_sources/services/dataset_parameter_resolver.py:208-235 | printed dates and datetimes are read back, a datetime has its day and a day its midnight |
| PerimeterMeaning.SortIsRead | app/data_sources/services/dataset_perimeter_compiler.py:137-158 | a sort is ascending unless it says desc, and any other word is an error |
| PerimeterMeaning.StatementIsRead | app/data_sources/services/dataset_perimeter_compiler.py:163-212 | the query selects the columns of the perimeter, or all when it names none, in the order of its sort |
| MockRouting.EqualContains | app/mock_servers/services/runtime/mock_runtime_dispatcher.py:41-60 | equality implies containment |
| MockRouting.ContainsReflexive | app/mock_servers/services/runtime/mock_runtime_dispatcher.py:41-60 | containment is reflexive |
| MockRouting.ContainsTransitive | app/mock_servers/services/runtime/mock_runtime_dispatcher.py:41-60 | containment is transitive |
| MockRouting.LoweredKeys | app/mock_servers/services/runtime/mock_runtime_dispatcher.py:37-38 | lowered header names are in normal form, so lowering them again changes none |
| MockRouting.FindMatchingApiRoute | app/mock_servers/services/runtime/mock_runtime_dispatcher.py:92-116 | the search returns the first route that accepts the request |
| MockRouting.ChosenIsLeast | app/mock_servers/services/runtime/mock_runtime_loader.py:190 | the chosen route is the accepting one with the least (priority, order, id), and there is one whenever any accepts |
| MockRouting.LoadOrderIsIrrelevant | app/mock_servers/services/runtime/mock_runtime_loader.py:190 | the order in which routes are loaded does not matter |
| MockRouting.RelaxingLosesNothing | app/mock_servers/services/runtime/mock_runtime_dispatcher.py:81-89 | switching routes from equals to contains loses no request |
| MockMatching.AcceptsExactly | app/mock_servers/services/runtime/mock_runtime_dispatcher.py:63-116 | a route accepts exactly the requests with its method in any case, its path once normalised, each of its parameters and headers with the expected text, and a fitting body |
| MockMatching.TextIsContained | app/mock_servers/services/runtime/mock_runtime_dispatcher.py:41-60 | an expected text is contained in exactly the texts that have it somewhere |
| MockMatching.ObjectIsContained | app/mock_servers/services/runtime/mock_runtime_dispatcher.py:41-60 | an expected object is contained in exactly the objects with its keys and containing values, further keys aside |
| MockMatching.ListIsContained | app/mock_servers/services/runtime/mock_runtime_dispatcher.py:41-60 | an expected list is contained in exactly the lists in which each of its items is contained in some item |
| MockMatching.EqualityIsRead | app/mock_servers/services/runtime/mock_runtime_dispatcher.py:81-89 | what equality of bodies is, for each kind of value |
| MockMatching.LowestPriorityAnswers | app/mock_servers/services/runtime/mock_runtime_loader.py:190 | of the accepting routes the one with the least priority number answers, then order, then id |
| MockRegistry.MockServerRuntimeRegistry.GetServerByEndpoint | app/mock_servers/services/runtime/mock_server_runtime_registry.py:24-30 | the lookup by normalised endpoint |
| MockRegistry.MockServerRuntimeRegistry.StartServer | app/mock_servers/services/runtime/mock_server_runtime_registry.py:54-70 | the locked part of a start, with the state it leaves when creating a listener raises |
| MockRegistry.MockServerRuntimeRegistry.StopServerLocked | app/mock_servers/services/runtime/mock_server_runtime_registry.py:77-88 | a stop drops the server, its own index entry and its listeners |
| MockRegistry.IndexAlwaysAgrees | app/mock_servers/services/runtime/mock_server_runtime_registry.py:47-98 | in every reachable state, whatever endpoints were loaded, each index entry under a stable text names a live server with that endpoint |
| MockRegistry.LookupIsExact | app/mock_servers/services/runtime/mock_server_runtime_registry.py:24-30 | a lookup by a text with a stable normal form answers a live server with the requested endpoint, and fails only without an entry |
| MockRegistry.SlashFreeIsStable | app/mock_servers/api/mock_runtime_api.py:112-136 | every text without a slash, as the router passes it, has a stable normal form |
| MockRegistry.RouterLookupIsExact | app/mock_servers/api/mock_runtime_api.py:112-136 | so every lookup of the program answers a live server with the requested endpoint, and fails only without an entry |
| MockRegistry.FoundExactly | app/mock_servers/services/runtime/mock_server_runtime_registry.py:24-70 | a started server is found by some text of the router if and only if its endpoint is stable and holds no slash |
| MockRegistry.EndpointNormalFormIsExact | app/mock_servers/services/runtime/mock_server_runtime_registry.py:20-21 | normalising again changes an endpoint exactly when a space is left at one of its ends |
| MockRegistry.StopClearsExactly | app/mock_servers/services/runtime/mock_server_runtime_registry.py:77-84 | a stop clears the entry of a start exactly when the endpoint is in normal form |
| MockRegistry.StaleEntryAnswers | app/mock_servers/models/dtos/mock_server_dto.py:6-10 | the configured endpoint "/ / a" is loaded as " a": no text of the router finds the server, and after a restart its entry answers another server, to a text that is not stable |
| MockRegistry.FailedStartLeaks | app/mock_servers/services/runtime/mock_server_runtime_registry.py:54-70 | the listeners made before a failing one run for good: no later start or stop reaches them |
| MockRegistry.OrphansExactly | app/mock_servers/services/runtime/mock_server_runtime_registry.py:54-88 | in every reachable state a listener runs outside all servers' lists if and only if some start raised after making one |
| MockListeners.ListenersAreExact | app/mock_servers/services/runtime/mock_server_runtime_registry.py:47-98 | while no start raises, each live server has exactly the listeners of its queues, all running, none shared, and none else runs |
| MockListeners.StopIsExact | app/mock_servers/services/runtime/mock_server_runtime_registry.py:77-98 | a stop takes away the server, its listeners and its own index entry, and nothing else |
| MockListeners.StartIsExact | app/mock_servers/services/runtime/mock_server_runtime_registry.py:54-70 | a start puts the server under its id and endpoint with new listeners, and leaves the other servers as they are |
| JsonAsserts.NormalizeRows | app/elaborations/services/asserts/json_data_assert_evaluators.py:16-24 | rows are taken in order; the first element that is not an object is the error |
| JsonAsserts.BuildMultiset | app/elaborations/services/asserts/json_data_assert_evaluators.py:45-55 | the counter holds each row key as often as it occurs, or the first row without the keys is the error |
| JsonAsserts.EvaluateContains | app/elaborations/services/asserts/json_data_assert_evaluators.py:145-166 | the loop over the counts decides containment |
| JsonAsserts.EvaluateEquals | app/elaborations/services/asserts/json_data_assert_evaluators.py:169-188 | the comparison of the counts decides equality |
| JsonAsserts.ContainsDecidesPairing | app/elaborations/services/asserts/json_data_assert_evaluators.py:145-166 | passes exactly when the actual rows pair one-to-one into the expected rows, agreeing on all compare keys |
| JsonAsserts.EqualsDecidesPairing | app/elaborations/services/asserts/json_data_assert_evaluators.py:169-188 | passes exactly when such a pairing is also onto |
| JsonAsserts.OrderIsIrrelevant | app/elaborations/services/asserts/json_data_assert_evaluators.py:145-188 | neither assert looks at the order of the rows |
| JsonAsserts.MutualContainment | app/elaborations/services/asserts/json_data_assert_evaluators.py:145-188 | containment both ways is equality |
| AssertErrors.ShapesAreChecked | app/elaborations/services/asserts/json_data_assert_evaluators.py:16-24 | the errors for missing keys, data that is no array and items that are no objects, in this order |
| AssertErrors.KeysAreChecked | app/elaborations/services/asserts/json_data_assert_evaluators.py:45-55 | the first row without all keys is the error, actual rows first; otherwise the asserts fail only for what they compare |
| AssertErrors.OneObjectIsAList | app/elaborations/services/asserts/json_data_assert_evaluators.py:58-90 | a single expected object is compared as a list of one |
| HttpInputTree.CoercedIsTree | app/elaborations/models/dtos/configuration_command_dto.py:346-358 | coercion yields trees whose scalars have all become valid nodes |
| HttpInputTree.CoercionIsIdempotent | app/elaborations/models/dtos/configuration_command_dto.py:318-358 | coercing a coerced tree gives the same tree |
| HttpInputTree.NodeRoundTrip | app/elaborations/models/dtos/configuration_command_dto.py:391-404 | a serialised node is read back as that node |
| HttpInputTree.SerializedHasNoKind | app/elaborations/models/dtos/configuration_command_dto.py:391-409 | no serialised plain object is taken for a node |
| HttpInputTree.TreeRoundTrip | app/elaborations/models/dtos/configuration_command_dto.py:346-409 | coercing what a tree serialises to gives that tree |
| HttpInputTree.StoredTreeIsReadBack | app/elaborations/models/dtos/configuration_command_dto.py:318-409 | coercing what any coerced input serialises to gives the coerced input |
| HttpInputNodes.LiteralIsRead | app/elaborations/models/dtos/configuration_command_dto.py:272-334 | what a literal node takes from its object |
| HttpInputNodes.RuntimeValueIsRead | app/elaborations/models/dtos/configuration_command_dto.py:272-334 | a runtime value needs a definition under either of its names, and may have a field path |
| HttpInputNodes.SourceIsRead | app/elaborations/models/dtos/configuration_command_dto.py:272-334 | a source needs its code, a built-in value one of two resolvers |
| HttpInputNodes.PlainObjectIsRead | app/elaborations/models/dtos/configuration_command_dto.py:346-358 | an object of no such kind is coerced field by field |
| HttpInputNodes.OtherDataIsRead | app/elaborations/models/dtos/configuration_command_dto.py:337-358 | lists are coerced item by item, null stays, other scalars become literals |
| HttpInputNodes.NodeIsWritten | app/elaborations/models/dtos/configuration_command_dto.py:391-404 | how each node is written |
| TemplateFlatten.FlattenTemplateValue | app/elaborations/services/operations/send_message_template_service.py:29-40 | the flattening loop computes the recursive flattening |
| TemplateFlatten.FlattenIsPaths | app/elaborations/services/operations/send_message_template_service.py:29-40 | the flattened keys are exactly the dotted paths that lead somewhere, each with the value there |
| TemplatePaths.TextIsRead | app/elaborations/services/operations/send_message_template_service.py:8-26 | the forEach text of every path that can be written down is read as that path |
| TemplateRows.AppendMatch | app/elaborations/services/operations/send_message_template_service.py:43-54 | leaves are appended in document order, nested lists opened |
| TemplateRows.WalkFrom | app/elaborations/services/operations/send_message_template_service.py:66-95 | the walk appends the rows of the recursive walk |
| TemplateRows.OneRowPerLeaf | app/elaborations/services/operations/send_message_template_service.py:57-95 | for every forEach text, one row for each leaf that its path reaches and no other, in document order |
| TemplateRows.RowFields | app/elaborations/services/operations/send_message_template_service.py:57-95 | a row holds the leaf's field, failing that the field of the nearest ancestor that has it |
| TemplateRows.BuildSendMessagePayloads | app/elaborations/services/operations/send_message_template_service.py:140-164 | one payload for each row, in order |
| TemplateRows.PayloadIsExact | app/elaborations/services/operations/send_message_template_service.py:155-163 | a payload holds the constants and, of the row, only the selected fields |
| TemplateSources.DatasetIsRead | app/elaborations/services/operations/send_message_template_service.py:98-106 | a dataset gives one row for each record with a field, in order; a single record its row; anything else none |
| TemplateSources.ArrayIsRead | app/elaborations/services/operations/send_message_template_service.py:98-115 | a list gives what the path reaches in each element, in order; another value what it reaches there, but nothing for a JSON array |
| RoutePaths.NormalFormIsExact | app/mock_servers/services/openapi_import_service.py:25-33 | normalising a path twice is normalising it once exactly when the first result is not empty and does not end in a space |
| RoutePaths.PathIsRead | app/mock_servers/services/openapi_import_service.py:25-33 | a path is read without the space around it and the slashes at its end, with one in front; several slashes alone are an empty path |
| OpenApiImport.ImportOpenapiJson | app/mock_servers/services/openapi_import_service.py:216-251 | the nested loops import and skip as the fold over the operations says |
| OpenApiImport.EveryOperationOnce | app/mock_servers/services/openapi_import_service.py:219-249 | each valid operation is imported or skipped exactly once: the first of each unknown route is imported, numbered from 1 |
| OpenApiImport.ImportedAreDistinct | app/mock_servers/services/openapi_import_service.py:237-249 | imported routes are pairwise distinct and none was known, for paths in normal form |
| OpenApiImport.ReimportExactly | app/mock_servers/services/openapi_import_service.py:40-49 | importing again adds nothing if and only if the route of every imported operation is among the imported routes as they are read back |
| OpenApiImport.ReimportAddsNothing | app/mock_servers/services/openapi_import_service.py:40-49 | importing again adds nothing, for paths in normal form |
| OpenApiImport.SpacedPathIsImportedTwice | app/mock_servers/services/openapi_import_service.py:25-49 | a path with a space before its final slash is imported twice as one route, and again by the next import |
| OpenApiDocuments.EveryOperationIsListed | app/mock_servers/services/openapi_import_service.py:219-240 | an operation is imported or skipped if and only if some path of the document writes it, as an object under one of the seven methods |
| OpenApiDocuments.MethodsInOrder | app/mock_servers/services/openapi_import_service.py:232-240 | the operations of a path come in the order get, post, put, delete, patch, head, options |
| OpenApiDocuments.PathsInOrder | app/mock_servers/services/openapi_import_service.py:219-240 | the paths come in the order of the document |
| OpenApiDocuments.KnownExactly | app/mock_servers/services/openapi_import_service.py:40-49 | a route is known if and only if one that is there has its method, in any case and spacing, and a path with the same normal form |
| OpenApiDocuments.ImportedExactly | app/mock_servers/services/openapi_import_service.py:237-251 | the imported routes are the unknown operations at their first places, numbered from 1 with their method, path and content; all others are reported as skipped |

## Left out

- PlannerSoundness.PlannedCommandsRun: is stated for orders that are not negative, for names without dots, brackets or digits only, and for targets that aim outside the constants of the scopes or at a constant that is no planned one; a target that replaces a scope object or all its constants is not covered. The objects that commands produce are in the heap from the start and are none of the context's own dictionaries; objects are compared by identity, so a write into the value of a constant does not count as a change of the constant. The planned order is taken to be the stored one; a stored 0, which is planned at its position in the list, is not covered. `NegativeOrdersDecide` shows why orders must not be negative.
- PlannerAcceptance.SectionAcceptedExactly: no two commands share both order and id.
- MockListeners.ListenersAreExact: is stated for runs in which no start raises; `OrphansExactly` says what a start that raises leaves.
- HttpInputNodes.RuntimeValueIsRead: the fields of a node are texts or missing; `OtherFieldsAreRefused` gives one other case.
- SuiteSoundness.AcceptedSuiteRuns: its conditions on ties, deletions, unwritten constants and targets are sufficient; `TiesDecide`, `SectionRunsExactly` and `TargetDecides` are the exact ones, for one section or one command. A target that cannot be written ends its item with an error, where the interpreter goes on. What an item does after its own hook has failed is not stated, except that it leaves the definitions of before-all alone.
- PlannerTies.TiesDecide: no command declares the definition that a tied command deletes; ids are otherwise free. No command writes a target.
- PlannerLimits.NegativeOrdersDecide: commands do not declare an inherited definition again under its own id.
- TargetLimits.TargetDecides: the aliases `local.global` and `global.runEnvelope` are in place, and the target does not replace a scope object or all its constants.
- ContextPaths.WriteThenRead: is stated for contexts in which every object has one place (the aliased scopes have the place seen from the local scope), because a value stored in two places is changed through both.
- ItemImmutability.TestItemImmutability: stored values do not belong to the frozen scopes and hold none of their objects; `StoredValuesDecide` shows that the condition is exact for the first value stored.
- StoredAliases.StoredValuesDecide: the new objects are all part of the stored value, under keys that a path text can name.
- ContextHandover.HandoverRoundTrip: the visible sources and the last result are dictionaries, as the context always keeps them.
- PerimeterIdempotence.NormalizeIsIdempotent: floats are reals, so NaN and the infinities are not covered; dates are only required to be read back as printed.
- PerimeterQueries.CompileKeepsMeaning: the values that the database compares are given by one comparison for both readings; the limit clause and the text of the query are not modelled.
- SuiteRunner.SuiteRun.Execute: logging is taken not to raise, and results and artifacts are not part of the events.
- HookCollapse.CollapseMerges: commands that tie in phase, position and order may come in any order, as the database leaves them.
- HttpInputTree.TreeRoundTrip: form bodies, authorization and the other parts of a configuration are not modelled.
- TemplateFlatten.FlattenIsPaths: is stated for keys without dots that stay distinct when stripped, because other keys collide in the flattened row.
- MockRegistry.IndexAlwaysAgrees: says nothing of entries under texts that are not stable; `StopClearsExactly` says which of them are left behind.
- OpenApiImport.ReimportAddsNothing: is stated for paths in normal form (`NormalFormIsExact`); `ReimportExactly` is the exact condition; building the response of a route and the warnings for templated paths are not modelled.
- JsonAsserts.ContainsDecidesPairing: the stored expected payload is taken as given; loading it is not modelled.
- Text is ASCII: Unicode digits, spaces and case are not modelled.
- The recursion of resolve_dynamic_value through dictionaries and lists: a constant path is a single text.
- The mock-server sections of the constant graph and the persistence of planned definitions: they call the same planner.
- Scope contracts of operations, the schema assert and the single-value asserts: single comparisons.
- The text of server-sent events, heartbeat timing, threads, sessions, drivers, HTTP and the user interface.
- The mock dispatcher's effects (persisting invocations, background tasks): the context they hand over is modelled in ContextHandover.
