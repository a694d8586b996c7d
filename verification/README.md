# Verified model of open-rfc

`open-rfc` is a TypeScript client for SAP RFC. This project models the parts of it whose
correctness is hard to see by reading: the metadata graph algorithm, the promise-driven
lifecycles, the classic wire codec, and the ownership of pooled connections. It is written in
Dafny 4.11; `dfyconfig.toml` names all of its files.

How the modules fit together:

- **Metadata graph.** `MetadataNodes`, `MetadataReferences` and `MetadataFunctions` turn flat rows
  into type nodes, resolve references and parameters, and settle the function they belong to.
  `FinishOrder`, `Components`, `Condensation` and `LongestChains` are the two-pass component search
  with its explicit stacks, the condensation, the reachability worklist and the in-degree queue, on
  arrays as in the source; `Descents` states the depth without any numbering of components.
  `Metadata` and `Normalizer` put the graph together and prove that it is accepted exactly when its
  rows are acceptable. `ClosureContents`, `ParameterTypes`, `ClosureGraph` and `NormalizedRows` say
  of the rows alone which are accepted and what graph they give. `Projection`, `ProjectionDepth`,
  `Unfolding`, `ProjectionFit` and `ModernMetadata` unfold it into descriptor trees under a depth
  and a descriptor budget. `Graphs` holds paths and reachability.
- **Retirement.** `RetirementGraph` is the recorded wait-for relation with its search; `Retirement`
  is the step system of generations and runtimes (the two copies differ in one flag) and the class
  that owns the map; `JointRetirement` runs both copies together. `RetirementPaths` and
  `JointRetirementPaths` follow single retirements.
- **Transactions.** `ControlReturn` judges the RETURN parameter, and `ReturnTypes` says by which
  characters; `Transaction` is the step system of
  the one-shot unit of work, `TransactionRuntime` the mutable object, `TransactionPaths` follows its
  operations to their end, and `LateCalls` a run past a call that outlived its bound.
- **Session contexts.** `SessionContext` is the step system of pinned, reference-counted leases,
  `SessionContextReleases` counts the leases that are given up unreleased, `SessionContextProgress`
  brings a retirement to its end, `SessionContextPaths` follows single contexts, and
  `SessionContextRuntime` is the mutable object.
- **Codec.** `Text` and `Scalars` encode and decode values, and `WireForms` says byte by byte to
  what; `ClassicResult`, `ClassicDecoder` and `ClassicLoops` group a reply into records, scan it
  beforehand, and prove that both agree, and `ReplyContents` says what an accepted one holds;
  `XrfcNames` reads the parameter name out of an xRFC value, `TagEscapes` spells out its escape;
  `Invocation`, `RequestSize`, `RepeatedNames`, `RequestedOutputs` and `InvocationLoops` measure,
  build and decode a call; `RequestContents` says what a built request holds, and
  `OutputContents` which outputs a reply gives.
  `Wrappers` holds two result types and `Totals` sums over sequences.
- **Connections.** `FailurePolicy`, `CpicSession`, `CpicErrors` and `DirectCpicSession` relate the
  error policy to what the session does to itself, and `CpicPaths` follows single operations;
  `Leases` follows one lease through client, pool and owner, `LeaseProgress` brings all of them back,
  and `LeasePaths` follows replacements and releases.
- **Diagnostics.** `Dispatcher` is the bounded queue with its drain, flush and close, and
  `DispatcherPaths` follows its calls.

A lifecycle is modelled twice. As a step system, every stretch of code between two awaits is one
event, what settles next is open, and theorems quantify over all runs. As a class, each method is
such a stretch on mutable fields and is proved to change the object exactly as its event does, so a
history of calls is a run. What an operation comes to is stated apart from both: from any state in
which it can be called, the exact state that the events of the operation lead to, one after another.

## What does not hold as promised

Five promises fail for the code as it is. Each has a concrete run or input, and a theorem that says
of every run or input exactly when the promise is kept.

- A STRING that starts with U+FEFF loses it: the decoder drops a byte order mark
  (`Scalars.MarkIsLost`); every other STRING survives (`Scalars.StringSurvivesIff`).
- The check that an encoded length changed after the request was measured can fire on unchanged
  input, when metadata repeats a parameter name (`RepeatedNames.RepeatedNameChangesLength`). It
  fires exactly when the first parameter that the building pass stops at has another width than the
  last parameter of its name (`RepeatedNames.LengthChangesIff`). With distinct names among the
  parameters that send an input it never fires, and with a repeated one no request is ever sent
  (`RequestSize.BuiltOnlyWithDistinctNames`).
- An error of a CPIC session can say that the connection stays reusable although the session is
  closed: for a declared exception (`CpicErrors.OverlappingCallersCanDisagree`) and for a reset that
  is turned away (`CpicErrors.OverlappingLogonsCanDisagree`). It does so exactly when the session was
  ended behind the operation's back, which `CpicErrors.ErrorsAgreeWithSession` says of the events of
  the run. `CpicSession.TurnTakersSeeAgreement` is what a caller can do: start nothing while another
  operation is under way.
- A session context's lease is released at most once in any case, but exactly once if and only if the
  scheduler never fails before a release (`SessionContextReleases.RetiredReleasedExactlyOnce`). Runs
  that lose a lease are given for each of the three kinds of release.
- Retirements of one kind never wait for each other in a ring (`Retirement.NoDeadlock`), but runtimes
  and generations together can (`JointRetirement.KindsCanDeadlock`), because a runtime's wait for its
  own generation is in neither of the two recorded relations. They do so exactly when a generation's
  hook waits for a runtime whose waits lead back to it (`JointRetirement.DeadlockIff`), and exactly
  from a call on whose target's waits already lead to its caller (`JointRetirement.DeadlockingCall`).
  A caller avoids it by retiring no runtime from a generation's hook
  (`JointRetirement.RuleAvoidsDeadlock`).

Where comments and code differ the code is modelled. One assumption is taken from the documented
contract of a caller's function: the transaction classifier calls a failure recoverable only when no
work is left running on the session (src/lifecycle/transaction-runtime.ts:125-132). Work that has
outlived its bound may have settled by then.

## Model

| member | source | states |
|---|---|---|
| `FinishOrder.FinishingOrder` | src/metadata/recursive-metadata.ts:1246-1266 | the first pass finishes every node exactly once, in an order in which an edge into a later finished node implies a way back |
| `Components.FindComponents` | src/metadata/recursive-metadata.ts:1241-1289 | two nodes get the same component number if and only if each reaches the other; every node is in exactly one component, listed in ascending order; no edge leads from a higher number to a lower one |
| `Components.Collect` | src/metadata/recursive-metadata.ts:1268-1289 | the second pass collects exactly the unassigned nodes that lead to the start, and nothing else changes number |
| `Condensation.Condense` | src/metadata/recursive-metadata.ts:1298-1308 | component c refers to component d exactly when some node of c refers to some node of d and they differ; all references lead forward |
| `Condensation.CyclicComponents` | src/metadata/recursive-metadata.ts:1291-1296 | a component is called cyclic exactly when its nodes lie on a cycle, single nodes with a self reference included |
| `Condensation.ReachableComponents` | src/metadata/recursive-metadata.ts:1309-1319 | the worklist finds exactly the components some chain from a root ends in |
| `LongestChains.LongestDepth` | src/metadata/recursive-metadata.ts:1309-1342 | the in-degree queue takes every reachable component exactly once and returns the length of the longest chain of components from a root; the fallback for a component without a depth is never needed |
| `Descents.LongestChainIsLongestDescent` | src/metadata/recursive-metadata.ts:1298-1342 | that length does not depend on the numbering: it is the length of the longest descent from a root, each node reaching the next and not reached from it |
| `Metadata.GraphComponents` | src/metadata/recursive-metadata.ts:1231-1350 | the analysis is refused, with the depth limit, exactly when the longest descent from a root exceeds the limit; otherwise it reports that depth and the cyclic components |
| `Metadata.ReachableNodes` | src/metadata/recursive-metadata.ts:1560-1572 | the worklist over type names finds exactly the nodes reachable from the roots |
| `Metadata.FinalNodes` | src/metadata/recursive-metadata.ts:1352-1405 | a field reference is flagged cyclic if and only if its target reaches the owning node; nothing else is flagged |
| `Metadata.UnflaggedAcyclic` | src/metadata/recursive-metadata.ts:1361-1377 | deleting the flagged references leaves an acyclic graph |
| `Normalizer.FinalCycles` | src/metadata/recursive-metadata.ts:1459-1474 | the cycle entries hold exactly the nodes on cycles, two nodes in one entry if and only if they reach each other; no entry is reached from a later one, and the names of an entry are in the order of the nodes |
| `Normalizer.NoCyclesIffAcyclic` | src/metadata/recursive-metadata.ts:1459-1474 | there is no cycle entry if and only if the type graph is acyclic |
| `Normalizer.FinalParameters` | src/metadata/recursive-metadata.ts:1407-1457 | a parameter is flagged exactly when its type lies on a cycle |
| `MetadataNodes.GroupRows` | src/metadata/recursive-metadata.ts:770-786 | rows are accepted if and only if no type recurs after another has begun, and then grouped into the maximal runs of one type |
| `MetadataNodes.GroupsPartition` | src/metadata/recursive-metadata.ts:770-786 | the groups are the rows, in order, nothing lost and nothing twice |
| `MetadataNodes.BuildFields` | src/metadata/recursive-metadata.ts:819-866 | a type's rows are accepted exactly when totals and timestamp repeat, names are distinct and every field begins where the last has ended, within the totals and in both layouts; the error names a fault that is there |
| `MetadataNodes.FieldsFaultRefutes` | src/metadata/recursive-metadata.ts:819-866 | rows with any of the faults the errors name are not acceptable, so acceptance is an equivalence |
| `MetadataNodes.AcceptableFieldsLaidOut` | src/metadata/recursive-metadata.ts:833-847 | accepted fields are ordered, pairwise disjoint and in bounds in both layouts, with distinct names |
| `MetadataNodes.BuildNode` | src/metadata/recursive-metadata.ts:789-880 | the node of a group: its kind from the anonymous row, the total of an anonymous scalar from its own extent; refused only for a fault the code names |
| `MetadataNodes.BuildNodes` | src/metadata/recursive-metadata.ts:766-882 | the closure is accepted with exactly the nodes its rows describe, or refused for a fault of the kind its code names |
| `MetadataNodes.TypesFaultRefutes` | src/metadata/recursive-metadata.ts:766-882 | a fault of any kind excludes acceptance, node and edge limits included |
| `MetadataNodes.NodesForAreSound` | src/metadata/recursive-metadata.ts:766-882 | the nodes of accepted rows have distinct names, are laid out, and hold as many references as the rows |
| `MetadataReferences.RefineTableNodeKinds` | src/metadata/recursive-metadata.ts:884-930 | an elementary node becomes a table exactly when a table field or an unambiguous table parameter refers to it |
| `MetadataReferences.ValidateNodeTargets` | src/metadata/recursive-metadata.ts:932-946 | accepted if and only if every reference names an existing node of its kind |
| `MetadataReferences.IndirectMap` | src/metadata/recursive-metadata.ts:948-962 | accepted if and only if every indirect row has a dashed path and a key of its own |
| `MetadataReferences.ResolveFieldPath` | src/metadata/recursive-metadata.ts:964-989 | the loop over the segments returns what following the references one segment at a time gives, errors included |
| `MetadataReferences.ResolvedIsOk` | src/metadata/recursive-metadata.ts:1033-1202 | a parameter that resolves has the reference its class and type demand, and its type exists with the demanded kind and is a root |
| `MetadataReferences.ProvisionalParameters` | src/metadata/recursive-metadata.ts:991-1221 | accepted exactly when every parameter resolves, none is declared twice, the edge limit holds and every indirect row is used; the values, roots and edges are those of the rows |
| `MetadataReferences.ParametersFaultRefutes` | src/metadata/recursive-metadata.ts:991-1221 | every fault an error names excludes acceptance |
| `MetadataReferences.ParametersForAreOk` | src/metadata/recursive-metadata.ts:991-1221 | accepted parameters are in row order, their types exist and are distinct roots |
| `MetadataFunctions.FunctionIdentity` | src/metadata/recursive-metadata.ts:605-646 | accepted if and only if at most one identity is declared, the parameters belong to one function, and that is the declared one where the declaration is given; the error is the first of the four that applies |
| `Normalizer.Normalize` | src/metadata/recursive-metadata.ts:1481-1602 | the normalization succeeds if and only if the rows and the declared function are acceptable, and then returns the graph of their nodes, parameters, roots and function with its exact flags, cycles and depth |
| `Normalizer.AcceptedGraphIsSound` | src/metadata/recursive-metadata.ts:1481-1602 | an accepted graph is closed, laid out and within its limits; every node is reachable from a root, every indirect row is used, every parameter is resolved as its row demands, and all belong to the function it names |
| `ClosureContents.NodesAreRows` | src/metadata/recursive-metadata.ts:766-930 | the nodes of an accepted closure are the types of its rows, in order: each row is one field, its reference a table exactly for type h, a structure exactly for u and v, and its target the type the row names; a node takes kind, totals and timestamp from its first row |
| `ParameterTypes.ResolvedSays` | src/metadata/recursive-metadata.ts:1033-1202 | a parameter resolves if and only if its type fits, and then refers to the type its row leads to: the target of the indirect row with its type and path for a dashed path, the named type for an empty one, what the named field of that type refers to otherwise; it adds at most that root and one edge |
| `ClosureGraph.GroupsFit` | src/metadata/recursive-metadata.ts:789-880 | the types of contiguous rows are accepted if and only if every row ends within its type and any two rows of one type have different names, agree on totals and timestamp and do not overlap |
| `ClosureGraph.TargetsMet` | src/metadata/recursive-metadata.ts:932-946 | all targets are met if and only if every row of type h names a table and every row of type u or v a structure, said of the rows |
| `ClosureGraph.ParametersSay` | src/metadata/recursive-metadata.ts:991-1221 | all parameters together: one for each row and in its order, their types once each in the order of first mention, and the edges counted once each |
| `NormalizedRows.GraphHoldsRows` | src/metadata/recursive-metadata.ts:1481-1602 | the graph that is returned, said of the rows alone: its nodes are the types, its edges the references between them, every parameter refers to the type its row leads to, the roots are the requested ones and then the parameters' in order of first mention, or else all types, and the edge count is the number of referring rows and parameters |
| `NormalizedRows.AcceptableIff` | src/metadata/recursive-metadata.ts:1481-1602 | a closure is accepted if and only if its rows describe one function, contiguous types within the limits that are laid out, references that are met, distinct parameters that fit, with every indirect row used, every requested root declared, every type reachable from a root and no descent from a root too long |
| `Projection.ProjectionSize` | src/compat/modern-metadata.ts:292-307 | the descriptor counter is the size of the emitted tree, and the budget is decided on that size: a larger budget changes nothing, a smaller one is exceeded |
| `Projection.FieldsAreOrdered` | src/compat/modern-metadata.ts:319-327 | the fields of a structure are emitted in ascending position, those of one position in the order they came in, none lost and none repeated; there is only one such order |
| `ProjectionFit.ProjectsIff` | src/compat/modern-metadata.ts:292-562 | a projection succeeds if and only if the parameters have an unfolding that is no deeper than the depth bound and no larger than the budget, and then it is that unfolding |
| `ProjectionDepth.AcyclicDepthBoundsPaths` | src/metadata/recursive-metadata.ts:1321-1342 | in an acyclic graph no path from a root has more nodes than the depth |
| `ProjectionDepth.ParametersWithinDepth` | src/compat/modern-metadata.ts:299-307 | with the depth bound at the longest path, no projection of parameters fails for depth or for a missing or wrong type |
| `Unfolding.ProjectionUnfolds` | src/compat/modern-metadata.ts:363-562 | a successful projection is the unfolding of the graph: each descriptor stands for one reference, its children for the fields of the type referred to in ascending position, those of one position as they come, with the right lengths |
| `Unfolding.UnfoldingIsUnique` | src/compat/modern-metadata.ts:363-562 | a graph has at most one unfolding, so no bound can change what a projection returns |
| `ModernMetadata.ValidateProjectionGraph` | src/compat/modern-metadata.ts:564-638 | accepted if and only if there is no cycle entry, every root and target exists with its kind, nothing is flagged, every parameter matches its class, and one function is named; the result is its name, and each of the three refusals for functions has its own code |
| `ModernMetadata.NormalizedIsValidIff` | src/compat/modern-metadata.ts:564-638 | a normalized graph is refused by the validation if and only if it has a cycle or names no function, having neither an identity nor a parameter |
| `ModernMetadata.TypesAloneNameNoFunction` | src/compat/modern-metadata.ts:628-637 | the graph of a closure without parameters names a function if and only if one was declared |
| `ModernMetadata.AcceptedGraphIsNormalized` | src/compat/modern-metadata.ts:640-690 | every graph the normalizer accepts meets what the projection relies on |
| `ModernMetadata.NormalizedWithinDepth` | src/compat/modern-metadata.ts:299-307 | a normalized graph without cycles, projected with room for max(1, its depth), never raises the depth limit |
| `ModernMetadata.OrderIsStable` | src/compat/modern-metadata.ts:640-690 | parameters come out in position order, those of one position in the order given, exceptions left out |
| `ModernMetadata.ToModernMetadata` | src/compat/modern-metadata.ts:640-690 | a cyclic graph is refused as cyclic, an acyclic one without a function as such; otherwise the result is the projection of the ordered parameters, named and grouped by class, it is the unfolding of the graph, and its size is within the budget |
| `ModernMetadata.GroupingKeepsSize` | src/compat/modern-metadata.ts:662-689 | grouping by class neither loses nor repeats a projected parameter: the grouped tree has the size that was counted |
| `ModernMetadata.ProjectionContext.ProjectField` | src/compat/modern-metadata.ts:415-461 | the recursive method with its counter computes the specified outcome and leaves the counter at the specified value |
| `RetirementGraph.JoinWouldCycle` | src/destination/configuration-generation.ts:112-124 | the visited-set search answers true if and only if the owner is reachable from the target |
| `RetirementGraph.AllowedEdgeKeepsAcyclic` | src/destination/configuration-generation.ts:126-149 | an edge the search allows closes no cycle |
| `RetirementGraph.RefusedEdgeClosesCycle` | src/destination/configuration-generation.ts:126-149 | an edge the search refuses would close one |
| `RetirementGraph.RemovalKeepsAcyclic` | src/destination/configuration-generation.ts:138-149 | settlement removes exactly one edge and keeps the relation acyclic |
| `RetirementGraph.MemberWithoutWait` | src/destination/configuration-generation.ts:112-149 | in an acyclic relation every nonempty set has a member that waits for none of the set |
| `Retirement.AlwaysAcyclic` | src/destination/configuration-generation.ts:323-403 | the wait-for relation is acyclic in every reachable state, for generations and for runtimes |
| `Retirement.NoDeadlock` | src/destination/configuration-generation.ts:323-403 | of generations alone and of runtimes alone: among any retirements that have begun and not settled, one is finished or was handed no promise of another one of them |
| `Retirement.AcknowledgedExactlyOnCycle` | src/destination/configuration-generation.ts:323-403 | a caller gets an acknowledgement instead of the promise exactly when its own hooks are being waited for |
| `Retirement.FirstRetireIsNotPutOff` | src/destination/configuration-generation.ts:323-403 | the call that starts a retirement always gets the real promise |
| `Retirement.NothingHandedOutAfterRetire` | src/destination/configuration-generation.ts:414-454 | once retirement has begun nothing is admitted and no connection is handed out, over every continuation |
| `Retirement.SettledHasDrained` | src/destination/configuration-generation.ts:323-403 | a settled retirement has no open in flight, and attempts equal successes plus failures |
| `RetirementPaths.LateOpenIsDisposed` | src/destination/configuration-generation.ts:414-454 | a connection that arrives once the generation retires is disposed in a context of its own and counts as failed |
| `RetirementPaths.RetirementSettles` | src/destination/configuration-generation.ts:323-403 | a retirement waits for both of its hooks, finishes and settles, and nothing else changes |
| `RetirementPaths.HookRetiresAnother` | src/destination/configuration-generation.ts:323-403 | a hook that starts another retirement is handed its promise and waits for it, and that retirement's hooks run below the caller's |
| `RetirementPaths.HookJoinsAnother` | src/destination/configuration-generation.ts:323-403 | a hook that joins one under way waits for it as well, unless the target waits for the caller already: then nothing changes |
| `Retirement.Registry.TrackJoin` | src/destination/configuration-generation.ts:126-149 | the wait is recorded if and only if it closes no cycle; otherwise nothing changes |
| `Retirement.Registry.RetireGeneration` | src/destination/configuration-generation.ts:323-403 | the object changes as one step does and returns the specified promise |
| `JointRetirement.JointStepKeepsInvariant` | src/destination/runtime.ts:345-400 | with runtimes and generations together every stretch keeps both relations acyclic, and every wait within one kind is recorded by that kind |
| `JointRetirement.DeadlockIff` | src/destination/runtime.ts:345-400 | runtimes and generations deadlock if and only if a hook of a generation holds the promise of a runtime whose waits lead back to that generation |
| `JointRetirement.DeadlockingCall` | src/destination/runtime.ts:345-400 | a step makes a deadlock if and only if it is a call that hands its caller the promise of a retirement under way whose waits already lead to that caller |
| `JointRetirement.RuleAvoidsDeadlock` | src/destination/runtime.ts:345-400 | where no hook of a generation retires a runtime, no run deadlocks |
| `JointRetirementPaths.RuntimeRetiresItsGeneration` | src/destination/runtime.ts:345-400 | a runtime that is retired runs its hook and retires its generation in its own context, and its retirement is over only when the generation's is |
| `JointRetirement.KindsCanDeadlock` | src/destination/runtime.ts:345-400 | a run in which both recorded relations are acyclic and a generation, a runtime and its generation wait for each other |
| `ControlReturn.InspectControlReturn` | src/lifecycle/transaction-runtime.ts:533-577 | the loop with its early rejection computes the verdict on the whole RETURN |
| `ControlReturn.ApprovedIff` | src/lifecycle/transaction-runtime.ts:533-577 | approved if and only if RETURN is nonempty, all row types are legal and none is A, E or X |
| `ReturnTypes.JudgedBySaying` | src/lifecycle/transaction-runtime.ts:511-577 | said of the characters: approved exactly if RETURN has rows and every one is a structure of text whose type, white space aside, is blank or I, S or W in either case; refused, for the rows of type A, E or X in their order, if all can be read and there are any |
| `Transaction.StepKeepsInvariant` | src/lifecycle/transaction-runtime.ts:647-1547 | every stretch between two awaits keeps the invariant |
| `Transaction.LeaseRulesHold` | src/lifecycle/transaction-runtime.ts:647-1547 | in every run no lease sees two pieces of work at once, a second control function, a reset before an approved control, a hand-over while work is unsettled, or anything after the hand-over; at most one control function is invoked |
| `Transaction.HandedOverIsFinal` | src/lifecycle/transaction-runtime.ts:1294-1367 | what was handed over is never touched again |
| `Transaction.ClosedHasReleasedAll` | src/lifecycle/transaction-runtime.ts:1080-1103 | once closed, every lease ever acquired, late ones included, has been handed over and none is outstanding |
| `Transaction.ClosedStaysClosed` | src/lifecycle/transaction-runtime.ts:916-964 | a closed runtime stays closed |
| `Transaction.TerminalOutcomeIsFinal` | src/lifecycle/transaction-runtime.ts:1049-1069 | a terminal outcome never changes and no control function follows it |
| `Transaction.NoControlAfterAmbiguity` | src/lifecycle/transaction-runtime.ts:1026-1047 | after an ambiguous failure no control function is ever sent |
| `Transaction.CompletionNeedsApproval` | src/lifecycle/transaction-runtime.ts:1116-1235 | an outcome becomes committed or rolled back only through a reply whose RETURN is approved |
| `Transaction.NoLeaseIsStranded` | src/lifecycle/transaction-runtime.ts:1374-1470 | from every reachable state some continuation hands over every acquired lease |
| `TransactionPaths.WorkStartsAlone` | src/lifecycle/transaction-runtime.ts:647-1547 | in every run whatever is sent on the lease is sent while nothing else runs on it: a call or a control function before any control function, a reset after exactly one that was approved |
| `TransactionPaths.ControlsAreAskedFor` | src/lifecycle/transaction-runtime.ts:861-1116 | a commit is sent only where a commit was requested of active work, a rollback where a rollback or a close of active work was, or a cancelled call returned; at every other step neither count moves |
| `TransactionPaths.NoCommitWithoutRequest` | src/lifecycle/transaction-runtime.ts:861-1235 | a run in which no commit is requested sends none and never ends as committed |
| `TransactionPaths.RequestIsSent` | src/lifecycle/transaction-runtime.ts:861-964 | a requested commit goes out as a commit, a requested rollback and a close of open work as a rollback |
| `TransactionPaths.ApprovedEndsReusable` | src/lifecycle/transaction-runtime.ts:1116-1235 | an approved control function is followed by a reset, and when that succeeds the work is closed with the outcome asked for and its lease handed over as reusable |
| `TransactionPaths.FailedResetEvicts` | src/lifecycle/transaction-runtime.ts:1116-1235 | a reset that fails, or is never made, evicts the lease; the outcome stands |
| `TransactionPaths.UnapprovedEvicts` | src/lifecycle/transaction-runtime.ts:1116-1235 | a control function whose RETURN is not approved ends the work and evicts the lease without a reset |
| `TransactionPaths.StoppedCallRollsBack` | src/lifecycle/transaction-runtime.ts:1071-1235 | a close or a cancel during a call waits for it; when it returns, a rollback follows |
| `TransactionPaths.StoppedFailureEvicts` | src/lifecycle/transaction-runtime.ts:1071-1271 | when it fails, nothing more is sent, the outcome is ambiguous and the lease is evicted |
| `TransactionPaths.CloseDuringClassification` | src/lifecycle/transaction-runtime.ts:732-859 | a close while a failure is being classified waits for the verdict |
| `TransactionPaths.OutlivedControlIsReleasedLate` | src/lifecycle/transaction-runtime.ts:1424-1470 | a control function that outlives its bound is ambiguous, and its lease is evicted only after it has settled, once |
| `TransactionPaths.LateLeaseIsEvicted` | src/lifecycle/transaction-runtime.ts:1374-1403 | a lease that comes after its acquire was given up is evicted and never used |
| `TransactionPaths.CloseBeforeOpen` | src/lifecycle/transaction-runtime.ts:1080-1103 | a close during begin waits for the acquire and leaves nothing open |
| `LateCalls.RecoveredCallCanCommit` | src/lifecycle/transaction-runtime.ts:795-825 | a run in which a call outlives its bound, settles, is classified recoverable, and the unit of work is committed and its lease handed over as reusable after the wait |
| `TransactionRuntime.Runtime.FinishControl` | src/lifecycle/transaction-runtime.ts:1116-1235 | the object changes exactly as the specified step does |
| `TransactionRuntime.Runtime.ConcludeControl` | src/lifecycle/transaction-runtime.ts:1116-1235 | approval leads to the reset, refusal and an unusable reply to an eviction |
| `TransactionRuntime.Runtime.LateAcquireSettled` | src/lifecycle/transaction-runtime.ts:1374-1403 | a late lease is evicted and counted exactly once |
| `TransactionRuntime.Runtime.ConvergenceEnded` | src/lifecycle/transaction-runtime.ts:1424-1444 | a converged operation is released now, one that outlives the bound is left to a late release |
| `TransactionRuntime.Runtime.ReleaseLate` | src/lifecycle/transaction-runtime.ts:1446-1470 | the late release happens once, never as reusable |
| `SessionContext.StepKeepsInvariant` | src/lifecycle/session-context-runtime.ts:513-1370 | every stretch between two awaits keeps the invariant |
| `SessionContext.MonitorIsExact` | src/lifecycle/session-context-runtime.ts:825-835 | at every await the pinned leases are the sum of ready, ending, retiring and fatal cleaning, and every counter is the exact count of its entries and openings |
| `SessionContext.ReleasesAreSound` | src/lifecycle/session-context-runtime.ts:1072-1128 | no lease is released twice, and a reusable release only follows a fulfilled reset while the runtime is open |
| `SessionContext.RetiredHoldsNothing` | src/lifecycle/session-context-runtime.ts:1336-1370 | on reaching retired every counter is zero |
| `SessionContextReleases.LostLeasesAreFaults` | src/lifecycle/session-context-runtime.ts:1072-1208 | in every reachable state the leases of contexts, of rolled back openings and of late acquires that were given up unreleased are exactly as many as the scheduler has failed before a release |
| `SessionContextReleases.RetiredReleasedExactlyOnce` | src/lifecycle/session-context-runtime.ts:1336-1370 | a retired runtime has released every lease, late ones included, exactly once if and only if the scheduler never failed before a release |
| `SessionContextReleases.FaultLosesRelease` | src/lifecycle/session-context-runtime.ts:1199-1208 | a release lost to a scheduler fault is never made up for in any continuation, whichever of the three kinds it is |
| `SessionContextReleases.ContextLeaseCanBeLost` | src/lifecycle/session-context-runtime.ts:1089-1128 | a run that ends retired without the release of a context that was reset |
| `SessionContextReleases.RolledBackLeaseCanBeLost` | src/lifecycle/session-context-runtime.ts:1199-1208 | a run that ends retired without the release of a lease that was rolled back |
| `SessionContextReleases.LateLeaseCanBeLost` | src/lifecycle/session-context-runtime.ts:1199-1208 | a run that ends retired without the release of a lease that came late |
| `SessionContextProgress.RetirementCanFinish` | src/lifecycle/session-context-runtime.ts:786-835 | from every reachable state the runtime can still be retired without a further scheduler fault, and has then released every lease if and only if there was none before |
| `SessionContextPaths.NestedEndsRestore` | src/lifecycle/session-context-runtime.ts:513-784 | however deep begins are nested, as many ends leave the context as it was |
| `SessionContextPaths.LastEndReleases` | src/lifecycle/session-context-runtime.ts:722-982 | the last end takes the context out, resets it, and after a fulfilled reset hands its lease over for reuse; the counts go back by that one context |
| `SessionContextPaths.FailedResetEvicts` | src/lifecycle/session-context-runtime.ts:935-982 | a reset that fails or is never made evicts the lease |
| `SessionContextPaths.FatalOperationEvicts` | src/lifecycle/session-context-runtime.ts:626-1070 | a fatal operation takes the context out with all its references, evicts its lease, and then the owner is told |
| `SessionContextPaths.RetirementOvertakesReset` | src/lifecycle/session-context-runtime.ts:935-1128 | a reset fulfilled only after retirement began no longer makes the lease reusable |
| `SessionContextPaths.TakenIsEvicted` | src/lifecycle/session-context-runtime.ts:1013-1042 | a context taken by retirement waits for the operation running on it, and then its lease is evicted |
| `SessionContextPaths.BeginAddsContext` | src/lifecycle/session-context-runtime.ts:545-624 | a begin that gets a usable lease adds one context with one reference and pins one lease |
| `SessionContextPaths.RefusedLeaseIsEvicted` | src/lifecycle/session-context-runtime.ts:575-624 | a lease that is unusable, or comes once the runtime retires, is evicted and adds no context |
| `SessionContextPaths.RetirementCompletesIff` | src/lifecycle/session-context-runtime.ts:1336-1370 | retirement is over exactly when every begin is done, every context has gone and every late lease has been dealt with |
| `SessionContextRuntime.Runtime.RetireRuntime` | src/lifecycle/session-context-runtime.ts:786-819 | closes the gate and claims every ready context, one after another, as one specified step |
| `SessionContextRuntime.Runtime.FinishReset` | src/lifecycle/session-context-runtime.ts:935-982 | the reset after the last end; only its success in an open runtime allows reuse |
| `SessionContextRuntime.Runtime.CallRelease` | src/lifecycle/session-context-runtime.ts:1089-1128 | the disposition is decided at the last instant, against the state of the runtime then |
| `Text.CheckScalarText` | src/values/unicode-scalar.ts:1-20 | the index loop accepts exactly the text without isolated surrogates |
| `Text.Utf16RoundTrip` | src/protocol/classic-rfc.ts:81-114 | UTF-16 little endian (section 2.1 of RFC 2781) decodes to the code units that were encoded |
| `Text.Utf8RoundTrip` | src/client/classic-invocation.ts:1492-1498 | UTF-8 (section 3 of RFC 3629) decodes to the text that was encoded |
| `Text.Utf8IsCanonical` | src/client/classic-invocation.ts:1613-1626 | the strict decoder accepts nothing but what the encoder writes |
| `Scalars.AbapCharRoundTrip` | src/protocol/classic-rfc.ts:81-128 | fixed text decodes to the text padded with spaces, and trimmed text to the text without trailing spaces |
| `Scalars.RoundTrip` | src/client/classic-invocation.ts:1368-1643 | whatever encodes decodes to its canonical form: CHAR without trailing spaces, NUMC left zero padded, RAW right zero padded, integers, dates, times and XSTRING unchanged |
| `Scalars.StringSurvivesIff` | src/client/classic-invocation.ts:1492-1498 | a STRING survives unchanged if and only if it does not start with U+FEFF |
| `Scalars.MarkIsLost` | src/client/classic-invocation.ts:1613-1626 | the one-character text U+FEFF comes back empty |
| `Scalars.DecodeThenEncode` | src/client/classic-invocation.ts:1525-1643 | decoding and encoding again gives the same bytes exactly in the rebuildable cases, kind by kind |
| `Scalars.LengthIsExact` | src/client/classic-invocation.ts:578-693 | the length computed beforehand is the length of the encoding |
| `Scalars.LengthRejectsAlike` | src/client/classic-invocation.ts:578-693 | what has a length but no encoding is only a text field wider than the encoder's limit |
| `WireForms.EncodedIff` | src/client/classic-invocation.ts:1368-1523 | a value is encoded if and only if it may be sent, and byte by byte: text as its code units, low byte first, filled up with spaces; digits right aligned after zeros; integers low byte first in two's complement; strings as UTF-8 with a zero at the end; raw bytes filled up with zeros |
| `WireForms.DecodedIff` | src/client/classic-invocation.ts:1525-1643 | bytes are decoded to a value if and only if they are the form of that value, for each kind said byte by byte |
| `WireForms.DecodedUtf8` | src/client/classic-invocation.ts:1613-1626 | the strict decoder accepts exactly the forms of section 3 of RFC 3629 of well-formed text, one after another |
| `XrfcNames.TagNameIff` | src/values/recursive-xrfc.ts:837-889 | a tag is accepted if and only if it is the escape of a nonempty name, and that name is the result: the escape is reversible and has one spelling |
| `XrfcNames.UnescapeTag` | src/values/recursive-xrfc.ts:858-889 | the index loop over the escapes computes the specified name or refuses the tag |
| `TagEscapes.TagNamesIff` | src/values/recursive-xrfc.ts:837-889 | a tag names a parameter if and only if it is the name with every character in its own escape: itself, an underscore and a dash for a slash, or two hexadecimal digits after the mark |
| `XrfcNames.NameInIff` | src/values/recursive-xrfc.ts:892-931 | a value belongs to a parameter if and only if its XML is well-formed UTF-8 of an admissible size that starts with the escaped name in brackets; the refusal of a byte order mark is implied |
| `XrfcNames.NameSurvives` | src/values/recursive-xrfc.ts:837-931 | XML written with the escaped name as its top-level tag is read back under that name |
| `ClassicResult.GroupingIsPartition` | src/protocol/classic-rfc.ts:392-572 | grouping succeeds with these records if and only if the fields are the records spelled out one after another, all sound, no name claimed twice |
| `ClassicDecoder.ScanAgreesWithGrouping` | src/protocol/classic-rfc.ts:263-344 | after the scan has passed, no row is rejected, and the scan's total is the size of the decoded rows |
| `ClassicDecoder.RejectionsUnreachable` | src/protocol/classic-rfc.ts:404-540 | once the scans have passed, the row-size, row-count and xRFC-length rejections of the decoder cannot happen |
| `ClassicDecoder.AcceptedIffPartition` | src/protocol/classic-rfc.ts:374-572 | a reply is accepted if and only if the scans pass and its fields are a partition into sound records |
| `ClassicDecoder.ReplyCollectsPartition` | src/protocol/classic-rfc.ts:374-572 | the decoded reply collects those records, and the scan's total is the bytes of their rows |
| `ClassicDecoder.EveryFieldAccountedFor` | src/protocol/classic-rfc.ts:374-572 | scalars take two fields, tables two and their rows, xRFC parameters two and their chunks; with the ignored and requested ones that is every field |
| `ReplyContents.ReplyMirrorsFields` | src/protocol/classic-rfc.ts:110-572 | an accepted reply holds, in order, the bytes of the fields behind each name: rows in the width and number of the header's two little-endian numbers, each byte of a compressed row its field's and every further one the field's last, and the chunks of an xRFC value one after another |
| `ReplyContents.RecordSoundIff` | src/protocol/classic-rfc.ts:392-572 | which records are sound, without the checks in their order: padded names, headers of eight bytes, the declared number of rows, none empty or too wide, no empty chunk |
| `ReplyContents.AcceptedIffFits` | src/protocol/classic-rfc.ts:374-572 | a reply is accepted if and only if its fields spell sound records with distinct names and their number, bytes and decoded bytes are within the limits |
| `ClassicDecoder.EncodingSaysWhatOccurs` | src/protocol/classic-rfc.ts:486-550 | the encoding label names exactly the kinds of row that occur |
| `ClassicDecoder.RowsSizeIsDecodedSize` | src/protocol/classic-rfc.ts:300-335 | counted without decoding, a table has the size its decoded rows have |
| `ClassicLoops.ValuesFit` | src/protocol/classic-rfc.ts:245-261 | the loop with its early exit decides whether all values fit the limit |
| `ClassicLoops.PreflightTables` | src/protocol/classic-rfc.ts:263-344 | the scanning loop computes the specified scan, errors included |
| `ClassicLoops.DecodeRows` | src/protocol/classic-rfc.ts:486-560 | the loop with its two flags and its first-row width computes the specified table |
| `ClassicLoops.DecodeChunks` | src/protocol/classic-rfc.ts:404-426 | the chunk loop returns the specified chunks or the first fault |
| `ClassicLoops.DecodeClassicResult` | src/protocol/classic-rfc.ts:374-572 | the index loop over the groups computes the specified reply, errors included |
| `Dispatcher.StepKeepsInvariant` | src/diagnostics/structured-diagnostics.ts:505-600 | every uninterrupted stretch keeps the invariant |
| `Dispatcher.DeliveryIsOrderlyAndComplete` | src/diagnostics/structured-diagnostics.ts:505-600 | in every run each valid emit counts once as accepted, filtered or dropped; accepted = delivered + write failures + queued + in flight; the sink sees 1, 2, 3, ...; a nonempty queue has a drain scheduled or running |
| `Dispatcher.FlushWaitsForEarlierEvents` | src/diagnostics/structured-diagnostics.ts:547-550 | a flush is answered only when everything accepted before it has been through the sink |
| `Dispatcher.EveryFlushIsAnswered` | src/diagnostics/structured-diagnostics.ts:547-600 | from every reachable state the drain can go on until every flush that waits has been answered, each after the last accepted event, and a close that waited closes the sink |
| `Dispatcher.SinkClosesLast` | src/diagnostics/structured-diagnostics.ts:552-568 | the sink is closed only after everything was written and is never written to afterwards |
| `DispatcherPaths.OneEventGoesThrough` | src/diagnostics/structured-diagnostics.ts:505-600 | an event given to an idle dispatcher goes to the sink under the next number, is counted as delivered or failed, and the dispatcher is idle again |
| `DispatcherPaths.DrainGoesInOrder` | src/diagnostics/structured-diagnostics.ts:579-600 | a write that settles is counted as what it was; then the oldest queued event follows, or the drain ends, answers every flush and lets a close go on |
| `DispatcherPaths.IdleCloses` | src/diagnostics/structured-diagnostics.ts:552-568 | a close of an idle dispatcher closes the sink, and a failure of that is counted |
| `Dispatcher.RfcDiagnosticDispatcher.EmitEvent` | src/diagnostics/structured-diagnostics.ts:505-531 | the object changes as the specified step does and says what became of the event |
| `Dispatcher.RfcDiagnosticDispatcher.Drain` | src/diagnostics/structured-diagnostics.ts:579-600 | the drain changes the object exactly as the specified step does |
| `CpicErrors.ErrorsAgreeWithSession` | src/client/direct-cpic-session.ts:1635-1911 | over every interleaving an error says reusable exactly when the session is open at the throw, if and only if the session was not ended behind the operation's back: by an event of another operation or a close after its exchange began, the conversation going on, or before a reset with a logon decoded in between; an error that does not say so is always thrown by a closed session, and one that does with nothing sent or with a complete reply that declares an exception |
| `CpicErrors.ErrorOfARun` | src/client/direct-cpic-session.ts:1635-1911 | every error of a run is thrown by one of its events, so the condition covers all of them |
| `CpicSession.TurnTakersSeeAgreement` | src/client/direct-cpic-session.ts:1635-1911 | for callers that start nothing while another operation is under way the error and the session always agree |
| `CpicErrors.OverlappingCallersCanDisagree` | src/client/direct-cpic-session.ts:1786-1911 | a run in which a declared exception is thrown as reusable by a closed session |
| `CpicErrors.OverlappingLogonsCanDisagree` | src/client/direct-cpic-session.ts:1099-1134 | a run in which the availability check of a reset throws an error that says reusable in a closed session |
| `CpicSession.RefreshFollowsItsReset` | src/client/direct-cpic-session.ts:1099-1134 | a refresh always directly follows its own reset: no foreign exchange in between |
| `CpicSession.StepKeepsInvariant` | src/client/direct-cpic-session.ts:1000-1955 | every uninterrupted stretch keeps the invariant |
| `CpicPaths.LogonFails` | src/client/direct-cpic-session.ts:1000-1082 | a logon that is answered with anything but success ends the session and throws an error that says no connection was established |
| `CpicPaths.DeclaredExceptionIsThrown` | src/client/direct-cpic-session.ts:1786-1911 | a declared exception is thrown as such, once, and the session goes on as it was |
| `CpicPaths.OtherErrorsEndSession` | src/client/direct-cpic-session.ts:1786-1911 | a runtime error, a message or a malformed envelope ends the session first; the error names which, and its origin |
| `CpicPaths.HungUpIsFailure` | src/client/direct-cpic-session.ts:1786-1911 | a reply that hangs up is a failure even if the call succeeded, and ends session and conversation |
| `CpicPaths.FailedExchangeEndsSession` | src/client/direct-cpic-session.ts:1654-1835 | a failed exchange ends the session, and its error carries what the transport says of the failure |
| `CpicPaths.ResetSucceeds` | src/client/direct-cpic-session.ts:1099-1134 | a reset sends two requests, the refresh after the reset was answered, and gives the session back |
| `CpicPaths.FailedResetGivesSessionBack` | src/client/direct-cpic-session.ts:1099-1134 | an exception in the first reply, or a refresh that cannot be encoded, gives it back at once |
| `DirectCpicSession.Session.StartExchange` | src/client/direct-cpic-session.ts:1654-1700 | closed, available and encodable are checked in this order, and the object changes as the specified step does |
| `DirectCpicSession.Session.DecodeRegularResponse` | src/client/direct-cpic-session.ts:1837-1890 | the generation ends before the error leaves exactly where the policy does not call it reusable |
| `DirectCpicSession.Session.ResetServerContext` | src/client/direct-cpic-session.ts:1099-1134 | the compound operation claims the session until its refresh is over |
| `Leases.LeaseRulesHold` | src/destination/direct-destination-owner.ts:2236-2284 | in every interleaving each lease is handed to the pool at most once, never under an admitted operation, as reusable only if no admitted operation failed fatally, and no operation enters after the claim |
| `Leases.EveryLeaseIsReleasedOnce` | src/destination/direct-destination-owner.ts:2821-2846 | when everything has come to rest after closing, every lease ever issued, replacements included, was released exactly once |
| `LeaseProgress.NoLeaseIsStranded` | src/compat/node-rfc-pool.ts:562-640 | from every reachable state the pool can be closed and everything under way can end, and every lease ever issued has then been released exactly once |
| `LeasePaths.OperationsEnterOwnedLeases` | src/destination/direct-destination-owner.ts:2821-2846 | in every interleaving an operation enters only on a lease that nobody has claimed for release |
| `LeasePaths.LeasesAreHandedInIdle` | src/destination/direct-destination-owner.ts:2236-2284 | in every interleaving a lease is handed in once, when no operation runs on it, and for reuse only after a reset that succeeded and no fatal failure |
| `LeasePaths.FatalHandsIn` | src/compat/node-rfc-client.ts:898-996 | a fatal failure takes the lease from its client and hands it in, not for reuse, before anything replaces it |
| `LeasePaths.FatalIsReplaced` | src/compat/node-rfc-client.ts:898-996 | the client then gets one other lease and is as it was when it was new |
| `LeasePaths.RefusedReplacementIsHandedIn` | src/compat/node-rfc-client.ts:898-996 | a replacement that fails its check, or whose client was closed meanwhile, is handed in and not installed |
| `LeasePaths.UnpublishedLeaseIsHandedIn` | src/compat/node-rfc-pool.ts:434-515 | a lease that comes after the pool was closed, or is given up, is handed in at once and reaches no client |
| `LeasePaths.ReleaseClaimsBatch` | src/compat/node-rfc-pool.ts:517-598 | a release claims each client of the batch in order, moving its lease into a claim of its own, or does nothing at all |
| `LeasePaths.CloseClaimsAll` | src/compat/node-rfc-pool.ts:608-640 | closing claims every leased client, once |
| `LeasePaths.ReusableIsReset` | src/destination/direct-destination-owner.ts:2236-2284 | a lease released with room in the pool is reset once its operations are over, and handed in for reuse exactly when the reset succeeded |
| `LeasePaths.OthersAreEvicted` | src/destination/direct-destination-owner.ts:2236-2284 | if the pool is closing or closed or has no room, or the client is not reusable, the lease is evicted without a reset |
| `Leases.LeasedMeansClaimable` | src/compat/node-rfc-pool.ts:517-536 | a client the pool counts as leased can always be claimed, so a checked batch never stops half way; a claimed client starts no further operation |
| `Leases.StepKeepsInvariant` | src/compat/node-rfc-client.ts:898-996 | every stretch of replacement, release, batch release and close-all keeps the invariant |
| `Leases.PooledLeases.ValidateBatch` | src/compat/node-rfc-pool.ts:517-536 | the loop accepts exactly the batches of distinct clients this pool has leased |
| `Leases.PooledLeases.ReleaseBatch` | src/compat/node-rfc-pool.ts:562-598 | all of the batch is claimed, or nothing changes |
| `Leases.PooledLeases.FatalFailure` | src/compat/node-rfc-client.ts:898-996 | the head of the fatal replacement changes the object as the specified step does |
| `Leases.PooledLeases.RecycleClaim` | src/compat/node-rfc-pool.ts:544-560 | a claim is recycled once its client's operations are over, as reusable only if the client is |
| `RequestSize.SizeIsExact` | src/client/classic-invocation.ts:797-1061 | whenever a request is built, the measured lengths are, as a multiset, the lengths of its fields; the limits hold of the request itself |
| `RequestSize.MaximumDecidesOnTrueSize` | src/client/classic-invocation.ts:797-1061 | a configured maximum lets exactly those requests through whose true size is within it |
| `RequestSize.LengthChangesOnlyOnRepeatedNames` | src/client/classic-invocation.ts:1792-1962 | the checks for a changed length fire only when two parameters that send an input share a name |
| `RequestSize.BuiltOnlyWithDistinctNames` | src/client/classic-invocation.ts:1792-1962 | no request is built with a repeated name, and with distinct names no length ever changes |
| `RepeatedNames.LengthChangesIff` | src/client/classic-invocation.ts:1792-1962 | a request fails because a length changed if and only if it can be measured and fits, and the first parameter the building pass stops at encodes to another width than the last parameter of its name that was measured in its place |
| `RepeatedNames.PlanHoldsLast` | src/client/classic-invocation.ts:868-1061 | what the measuring pass keeps under a name is the measure of the last parameter of that name |
| `RepeatedNames.BuildingSays` | src/client/classic-invocation.ts:1803-1962 | the building pass stops at a parameter exactly with the complaint read off the metadata and the input |
| `RepeatedNames.RepeatedNameChangesLength` | src/client/classic-invocation.ts:1792-1962 | a whole request with two imports of one name and different widths that fails so |
| `RequestSize.EncodableMeansInputsDistinct` | src/protocol/cpic.ts:1667-1825 | the encoder's check for repeated names is a check of the parameters that send an input |
| `RequestContents.RequestHoldsInputs` | src/client/classic-invocation.ts:1792-1962 | a built request spells, in metadata order, the outputs that are asked for, each import and xRFC value the encoding of what was given or of the initial value, and each table one row for each row given, the i-th the encoding of the i-th |
| `InvocationLoops.PreflightRequest` | src/client/classic-invocation.ts:797-1061 | the measuring pass accepts exactly what can be measured and fits, and returns its plan |
| `InvocationLoops.AddFields` | src/client/classic-invocation.ts:820-864 | adding equal fields at once decides the limits as adding them one by one |
| `InvocationLoops.AddChunks` | src/client/classic-invocation.ts:922-933 | the chunk loop by offset counts the chunks of the encoding |
| `InvocationLoops.BuildLists` | src/client/classic-invocation.ts:1803-1962 | the loop over the parameters builds the specified lists, or stops with the specified error |
| `InvocationLoops.BuildRows` | src/client/classic-invocation.ts:1910-1940 | every row is encoded and checked against the measured width |
| `RequestedOutputs.CaptureMakesSelectionsAgree` | src/client/classic-invocation.ts:1144-1231 | after capture, evaluating the request without the input selects exactly the outputs the request named |
| `RequestedOutputs.RequestAsksForSelection` | src/client/classic-invocation.ts:1803-1896 | the request names exactly the selected outputs, in metadata order |
| `RequestedOutputs.DecodeReturnsExactlyTheSelection` | src/client/classic-invocation.ts:2087-2300 | fields that decode return exactly the requested outputs, each from the only value of its name in the grouped reply, and the deactivated outputs with their initial values; all values of the reply name different parameters |
| `RequestedOutputs.DecodedOutputsAreTheRequested` | src/client/classic-invocation.ts:2087-2300 | together: the keys decoded from the fields of a reply are the outputs the request named and the deactivated ones |
| `OutputContents.OutputsMirrorReply` | src/client/classic-invocation.ts:2087-2300 | a reply is decoded if and only if no name comes twice, every value names a parameter it may be brought for and, if wanted, is the form of some value, every wanted output has come, and what is left out has an initial value; the outputs are then exactly those values, byte forms and table rows included, and the initial ones |
| `OutputContents.CapturedExactly` | src/client/classic-invocation.ts:1144-1231 | a call is captured if and only if every name it gives is a parameter's and no export is supplied; what is supplied counts as activated, and what is not requested as deactivated |
| `InvocationLoops.DecodeOutputs` | src/client/classic-invocation.ts:2087-2300 | grouping the fields and looping over scalars, tables and xRFC values compute the specified outputs, errors included |

## Left out

- Proxy, accessor, prototype and symbol hardening of JavaScript inputs, and the row, property and
  byte budgets of their snapshots: the model starts from immutable values.
- The date, time and format flag of a declared function (src/metadata/recursive-metadata.ts:617-630),
  of which only the name matters elsewhere.
- Texts, decimals, default values and timestamps of parameters that the normalizer only copies.
- Packed decimal, decimal float, structure and xRFC codecs: such values come with their encoding, of
  which only the length is used; of an xRFC value also the name in its top-level tag is read.
- FLOAT (type F) and the compact temporal types: they have no kind of their own among the scalars, and
  in a call they stand among the values that come with their encoding.
- What the recursive metadata resolves: the names are given with the call, and a value sent under such
  a name comes with its encoding.
- INT8 in its string mode and the BCD output modes: the integer is modelled, not its presentation.
- Row wrappers of scalar tables (an object with an empty key): rows are their values.
- The legacy, non-recursive projection (src/compat/modern-metadata.ts:121-273).
- Sockets, APPC framing, the setup exchange and timers: an exchange ends in one nondeterministic step
  with the facts the session keeps about it; a deadline is one expiry step, re-arming is not modelled.
- Callbacks, abort signals, monitor snapshots beyond the counters named above, error messages, error
  aggregation and credential redaction.
- Direct (unpooled) clients, context leases of the destination owner and its metadata refresh: the
  lease model covers pooled application leases and their replacements.
- Sinks of the dispatcher other than its write and close calls: file rollover, timestamps and
  correlation identifiers.
- Retire hooks themselves: how many of the two lanes have one does not matter to the proofs, a lane
  without one is a hook that returns at once.
- Joint retirement lets a hook end while it holds a promise it was handed, and a runtime's repository
  hook retire anything: its runs include those of the code.
- MetadataNodes.BuildNode: does not fix which of several faults in one group is reported, because
  the claim is that the code names a fault that is there.
- MetadataReferences.ProvisionalParameters: does not fix which of several faulty rows is reported,
  because the claim is that the code names a fault that is there.
- Normalizer.Normalize: does not name the error of a refusal; the stages it calls do.
- ModernMetadata.ToModernMetadata: does not say apart from the specified projection which limit or fault
  stops a projection that fails; when it succeeds, and with what, is said apart from it.
- ClassicLoops.DecodeClassicResult: which of the faults of a refused reply is reported is said by the
  specified decoding alone; which replies are accepted, and with what, is said apart from it.
- InvocationLoops.DecodeOutputs: which fault is reported is said by the specified decoding alone.
- InvocationLoops.PreflightRequest: does not name the error of a refusal, because the measuring pass
  stops at the first limit and the specification decides on the whole request.
- Safe-integer checks on lengths that the field and chain limits already exclude.
