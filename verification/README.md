# The Cortex RMVM kernel and the components that feed it

RMVM is a small register machine for plans written by a planner. A plan is a list of steps; each step
names an output register and one of seven operations: FETCH a handle, APPLY_SELECTOR over the
manifest, RESOLVE a conflict, FILTER, JOIN, PROJECT, and ASSERT. A static check decides whether a plan
may run. The run carries provenance, taint, minimum trust and join depth with every register, gates
each assertion on them, and commits the assertions to a Merkle root with one inclusion proof each. The
output is rendered from the assertions and from guarded narrative templates.

Around the kernel stand the gRPC service that turns events into handles and manifests, the validators
that clients run on a plan first, the deterministic fallback plan, and the brain store with its
branches, merges, suppressions and attachments.

This project models these parts in Dafny and proves what they promise together: what information
reaches an assertion, that the static check and the run agree, which changes to a plan or a manifest do
not show in the response, that the Merkle proofs are complete and sound, that cost and fanout stay in
budget, and what the service and the store keep over every history.

## Layout

- `Wrappers`, `Text`, `Sorting`, `Proto`, `Handles`: results, strings in map-key order, a stable sort,
  the wire messages, and the pure functions on values and handles.
- `Merkle`, `Narrative`, `NarrativeGrammar`: the proof builder against a recursive reference tree; the
  template guard and its documented grammar.
- `Semantics`: the check, the opcodes, the run and the response as functions of their inputs.
- `Kernel`: the loops of the kernel, each proved to compute the function of `Semantics`.
- `Runs`, `InformationFlow`, `Noninterference`, `Gates`, `Admission`, `Grounding`, `StaticDynamic`,
  `ValueOrigin`, `CostBound`, `Budgets`, `ThreeSteps`, `Permutation`, `Renaming`, `DeadStep`, `Swap`,
  `Resolution`, `Citations`, `Opcodes`, `Commitment`, `Witnesses`: theorems about runs.
- `Service`, `PlannerGuard`, `Fallback`, `BrainStore`: the components around the kernel. The service
  and the store are classes whose methods update their fields in place.

`dafny verify dfyconfig.toml` checks everything. Code the kernel calls but does not define (SHA-256, the
Protobuf encoder, x^1.2, printing of floats, decimal digits outside ASCII) is the record `Primitives`;
every theorem holds for all of its values, or states what it needs of them (`IsCostPower`, `Injective`,
one row costs one unit). The Merkle theorems do not assume a collision-free hash: without `Injective`
they end in "or here are two different pairs with the same hash".

Most theorems about requests speak of those that end in OK. `Fallback.FallbackAlwaysOk` shows that such
requests exist, for every history of the service.

## Where the code and its documentation disagree

The model follows the code.

- The specification builds narrative templates from prose `[a-zA-Z\s.,!?]+`, bindings and macros. The
  guard (`crates/rmvm-kernel/src/kernel.rs:857-866`) deletes bindings, then macros, and admits only
  lower-case prose in what is left. It is stricter on capitals: of the documented templates it refuses
  exactly those with a capital outside bindings and macros
  (`NarrativeGrammar.GuardRefusesCapitalsExactly`; `Narrative.UpperCaseRefused` shows one). It is laxer
  where deleting a binding completes a macro: `NarrativeGrammar.ForgedMacroAccepted`, and
  `AcceptedInGrammarExactly` there says which accepted templates are in the grammar. Empty prose is accepted too.
- The specification caps every plan at 128 operations and join depth 3. The kernel takes whatever
  positive budget the manifest carries (`crates/rmvm-kernel/src/kernel.rs:1108`).
  `Witnesses.BeyondDocumentedCaps` shows OK requests beyond both caps; `Budgets.OpsCapExactly` and
  `Budgets.DepthCapExactly` say for which budgets a cap holds of every accepted plan.

## Behaviour a reader may not expect

- `matched_count` of a struct selector is the size of the manifest, not the number of matches
  (`crates/rmvm-kernel/src/kernel.rs:433`). `Opcodes.MatchedCountExactly` says when the two agree, and
  `Opcodes.MatchedCountMiscounts` shows that they need not.
- Readiness is looked at by FETCH alone, so a selector may select an archived or offline handle
  (`Admission.OpStallsExactly`).
- Explicit citations are not compared with the provenance, and an anchor may be any string
  (`Citations.CitePrefixMeans`). Lineage is therefore stated for provenance and for handle citations.
- The check counts a step's output as defined before it looks at the operands
  (`crates/rmvm-kernel/src/kernel.rs:207`), so definition before use is a property of OK runs, not of
  accepted plans (`StaticDynamic.OperandsMissingExactly`).
- The tree duplicates the last node of an odd level, unlike the tree of section 2.1 of RFC 6962, so a root
  binds its leaves only for a known leaf count (`Merkle.RootBinds`, `Merkle.SharedRootExactly`).
- An output name may contain a line break, so the trace root does not determine the steps: every plan
  shares its trace text with a plan of one step, and `Commitment.TextDeterminesExactly` says for which
  plans the text is unambiguous. `Witnesses.LineBreakForgesTrace` shows two OK requests with one trace
  root. Between two plans without line breaks the root does decide (`Commitment.TraceRootBinds`).
- A macro passes the guard and is rendered verbatim (`Narrative.MacroPassesVerbatim`).

## Model

| member | source | states |
|---|---|---|
| InformationFlow.FlowExact | crates/rmvm-kernel/src/kernel.rs:150-176 | In a run past step i, the provenance and taint of the register step i wrote are exactly the refs and taints of the handles supplied by the sources reachable backwards through the operand graph, and its trust is their minimum, or unspecified when some reachable source supplied no handle |
| InformationFlow.FetchFlow | crates/rmvm-kernel/src/kernel.rs:320-368 | A FETCH register carries the metadata of the one handle it read, and a partial fetch of an unready handle carries an empty provenance with unspecified trust |
| InformationFlow.SelectorFlow | crates/rmvm-kernel/src/kernel.rs:384-417 | A selector register carries the union of refs and taints and the minimum trust of all matching handles, whatever it keeps as data |
| InformationFlow.StepMerges | crates/rmvm-kernel/src/kernel.rs:459-736 | Every operation that is not a source merges its operands: union of provenance and taint, minimum of trust |
| InformationFlow.SourcesThroughOperands | crates/rmvm-kernel/src/kernel.rs:150-176 | The sources behind a step that is not a source are exactly those behind its operands |
| Gates.GatesHoldForEveryLeaf | crates/rmvm-kernel/src/kernel.rs:674-736 | In an OK request every preference, decision or procedure assertion rests on at least one handle and on no empty source, all handles behind it are manifest handles of tier 2 or more without web or mixed taint, and outside degraded mode nothing behind it or cited by handle has broken lineage |
| Gates.LeavesShowInMetadata | crates/rmvm-kernel/src/kernel.rs:1131-1151 | Enough trust and no untrusted taint on a register mean that every handle behind it has them |
| Gates.CitationsUnbroken | crates/rmvm-kernel/src/kernel.rs:756-765 | Accepted citations name no handle of broken lineage outside degraded mode |
| Noninterference.StepsCannotTell | crates/rmvm-kernel/src/kernel.rs:146-176 | Two manifests with distinct refs that supply all sources behind a step alike (the same handles; for a selector the same return type; for a struct selector the same size) give the same register and the same assertion there, under any budgets and options that let both runs pass |
| Noninterference.SizeIsTheOnlyLeak | crates/rmvm-kernel/src/kernel.rs:428-440 | With the same matching handles a struct selector tells two manifests apart if and only if their sizes differ |
| Noninterference.SameSelection | crates/rmvm-kernel/src/kernel.rs:384-390 | Manifests with distinct refs and the same matching handles select the same list, whatever else they list |
| Admission.AssertIssuesExactly | crates/rmvm-kernel/src/kernel.rs:661-736 | ASSERT issues if and only if its type is known, each bound register comes from FETCH or PROJECT and has a value at the path, no bound register has broken lineage, every citation can be made, and a gated type has a binding and only bound registers that each pass trust and taint alone |
| Admission.PolicyPointwise | crates/rmvm-kernel/src/kernel.rs:694-709 | The trust and taint gate on the merged metadata is the conjunction of the gate on every bound register, with at least one binding |
| Runs.GatherFacts | crates/rmvm-kernel/src/kernel.rs:674-693 | A successful ASSERT holds under each name the value its own binding reads, exactly the union of the bound registers' provenance and taint, and the minimum of their trust |
| Grounding.AssertionsGrounded | crates/rmvm-kernel/src/kernel.rs:603-736 | In an OK request every asserted value is a field of a manifest handle in that assertion's provenance, or the size, within max_fanout, of a handle set some step behind the assertion wrote; a manifest with struct selectors adds only its size and type-checked parameters of such a call behind the assertion |
| ValueOrigin.AssertedValuesExactly | crates/rmvm-kernel/src/kernel.rs:603-693 | In an OK request each assertion has exactly the fields its ASSERT binds, and each states the value its own path reads from the register at the root of the bound chain of projections, written by a step behind the assertion |
| ValueOrigin.ReadsAtRoot | crates/rmvm-kernel/src/kernel.rs:603-659 | A field of a projection reads the same value, at the same path, from the root of the chain: PROJECT never renames |
| ValueOrigin.ProjectedFieldsShareHandle | crates/rmvm-kernel/src/kernel.rs:612-648 | All fields of a projection of handles, but for the count, come from one handle, each at its own path |
| Grounding.RunGrounded | crates/rmvm-kernel/src/kernel.rs:150-176 | Every reachable register holds only manifest handles that are in its provenance, in ref order, within max_fanout, and only struct fields grounded in the steps behind its writer |
| Grounding.WrittenGrounded | crates/rmvm-kernel/src/kernel.rs:150-176 | The same for what each step writes, by induction over the operand graph |
| Grounding.StructSelectorGrounded | crates/rmvm-kernel/src/kernel.rs:428-440 | Every field a struct selector writes is the manifest size or a parameter of the call that passed its type check |
| Opcodes.MatchedCountExactly | crates/rmvm-kernel/src/kernel.rs:428-440 | `matched_count` is the number of matching handles if and only if every handle of the manifest matches; a parameter of that name replaces it |
| Opcodes.MatchedCountMiscounts | crates/rmvm-kernel/src/kernel.rs:428-440 | With one handle that does not match, nothing is selected and the count is one |
| Grounding.JoinGrounded | crates/rmvm-kernel/src/kernel.rs:562-593 | What JOIN writes comes from its two sides, in ref order and within max_fanout |
| StaticDynamic.RunMatchesCheck | crates/rmvm-kernel/src/kernel.rs:196-300 | In an OK request every operand is written by a strictly earlier step, and the join depth carried at run time is the one the check computed and within max_join_depth |
| StaticDynamic.OperandsMissingExactly | crates/rmvm-kernel/src/kernel.rs:206-267 | In a statically accepted plan a step the run reaches lacks an operand if and only if it reads its own output |
| StaticDynamic.SelfReadNeverOk | crates/rmvm-kernel/src/kernel.rs:459-462 | A plan with a step that reads its own output never ends in OK |
| StaticDynamic.SelfReadPassesCheck | crates/rmvm-kernel/src/kernel.rs:207-257 | The check admits such a plan: a single RESOLVE of its own output passes it and is then rejected by the run |
| StaticDynamic.CheckComputesDepth | crates/rmvm-kernel/src/kernel.rs:227-297 | The depth map of the check equals the number of joins on the deepest path through the plan |
| StaticDynamic.RunComputesDepth | crates/rmvm-kernel/src/kernel.rs:545-600 | So does the depth the run carries |
| StaticDynamic.DepthBounded | crates/rmvm-kernel/src/kernel.rs:263-277 | No register of an accepted plan exceeds max_join_depth |
| Admission.StallsExactly | crates/rmvm-kernel/src/kernel.rs:120-181 | A request stalls on a handle if and only if it passes the id and static checks and the run reaches a FETCH of that handle, not ready, without partial results allowed |
| Admission.AcceptedRejections | crates/rmvm-kernel/src/kernel.rs:183-318 | A request that passed the static check is never rejected for an unknown handle, an unknown selector or its cost |
| Admission.SelectorStopsExactly | crates/rmvm-kernel/src/kernel.rs:376-447 | An accepted selector call stops only on more than max_fanout matches, on no match for a single handle, or on an unspecified return type, with the code of each; never on its parameters |
| Admission.FilterFanoutUnreachable | crates/rmvm-kernel/src/kernel.rs:528-533 | The fanout limit of FILTER is never met at run time |
| Admission.OpStallsExactly | crates/rmvm-kernel/src/kernel.rs:325-347 | FETCH of an unready handle is the only operation that stalls; selectors, joins and filters never look at readiness |
| CostBound.OkRunWithinCost | crates/rmvm-kernel/src/kernel.rs:189-304 | With any non-negative monotone power, the summed cost of the rows an OK request really handled is at most max_total_cost |
| CostBound.SelectorRowsWithinEstimate | crates/rmvm-kernel/src/kernel.rs:391-447 | A selector call that succeeds puts no more rows in its register than the static estimate |
| CostBound.ActualWithinStatic | crates/rmvm-kernel/src/kernel.rs:189-304 | On every prefix the actual cost is at most the static cost |
| CostBound.OkRunWithinFanout | crates/rmvm-kernel/src/kernel.rs:391-396 | Every handle set any step of an OK request writes has at most max_fanout elements |
| CostBound.OkRunJoinTests | crates/rmvm-kernel/src/kernel.rs:565-592 | All joins of an OK request together compare at most max_ops * max_fanout^2 pairs |
| Permutation.ResponseIgnoresManifestOrder | crates/rmvm-kernel/src/kernel.rs:87-181 | Permuting the handles and selectors of a manifest with distinct refs leaves the whole response identical: results, roots, proofs, rendering, stall or error |
| Permutation.SelectedReordered | crates/rmvm-kernel/src/kernel.rs:384-390 | A selector matches the same handles in the same order in a permuted manifest |
| Permutation.SharedRefShowsOrder | crates/rmvm-kernel/src/kernel.rs:1100-1102 | Without distinct refs the order shows: for any manifest with two ready handles that share a ref and differ in a field, and room for three steps, two orders of its handles give different responses to the plan that asserts the field, each with the value of the handle listed last |
| Permutation.SharedNameShowsOrder | crates/rmvm-kernel/src/kernel.rs:1104-1106 | Without distinct selector names too: for any manifest with a set selector and one of unspecified return type under one name, the call succeeds or is rejected by which of them is listed last |
| Renaming.RenamingPreservesMeaning | crates/rmvm-kernel/src/kernel.rs:120-318 | An injective renaming of registers that keeps blank names blank keeps the status, error or stall, the assertions, the semantic root, the inclusion proofs, the narrative and the rendering of assertions |
| Renaming.ExecOpRenamed | crates/rmvm-kernel/src/kernel.rs:459-736 | An operation depends on the contents of its operand registers only, not on their names |
| Renaming.ValidateRenamed | crates/rmvm-kernel/src/kernel.rs:183-318 | The static verdict, with its error code, is the same before and after the renaming |
| DeadStep.DeadStepRemoval | crates/rmvm-kernel/src/kernel.rs:120-318 | Deleting from an OK plan a step that is no ASSERT and whose output is neither read later nor listed keeps it OK with the same assertions, semantic root, inclusion proofs and rendered output |
| DeadStep.ValidateWithout | crates/rmvm-kernel/src/kernel.rs:183-318 | Deleting such a step keeps the plan statically accepted |
| DeadStep.RenderWithout | crates/rmvm-kernel/src/kernel.rs:784-824 | The rendered output does not depend on registers that are not listed |
| Swap.SwapPreservesMeaning | crates/rmvm-kernel/src/kernel.rs:120-318 | Swapping two adjacent steps of an OK request, the second of which does not read the first and of which at most one asserts, keeps it OK with the same assertions, semantic root, inclusion proofs and rendered output |
| Swap.DependentSwapStops | crates/rmvm-kernel/src/kernel.rs:120-318 | When the second does read the first, the swapped plan never ends in OK |
| Swap.CheckSwapped | crates/rmvm-kernel/src/kernel.rs:196-297 | The check reaches the same state after the two steps in either order |
| Swap.RunSwapped | crates/rmvm-kernel/src/kernel.rs:146-176 | So do the registers and the assertions of the run |
| Resolution.WinnerExactly | crates/rmvm-kernel/src/kernel.rs:471-501 | RESOLVE picks a handle if and only if that candidate strictly beats all others on trust, then time; in every other case the conflict is ambiguous |
| Resolution.WinnerIgnoresOrder | crates/rmvm-kernel/src/kernel.rs:471-501 | The order of the candidates does not matter, although the sort breaks ties by ref |
| Resolution.ResolveExactly | crates/rmvm-kernel/src/kernel.rs:459-510 | RESOLVE on a register gives the dominating handle with the metadata of its input |
| Resolution.ScoreFollowsTime | crates/rmvm-kernel/src/kernel.rs:1135-1137 | The timestamp score follows time strictly for seconds in [-9223372036, 9223372035] and weakly above |
| Resolution.OvertakesExactly | crates/rmvm-kernel/src/kernel.rs:1135-1137 | A timestamp scores above some later one exactly when its seconds saturate low and its nanoseconds lift it back: the saturating score is not monotone there |
| Citations.CanonicalizationIsSetLike | crates/rmvm-kernel/src/kernel.rs:738-782 | Two citation lists with the same elements are both rejected, or give the same strictly ascending list |
| Citations.DefaultCitationsAreProvenance | crates/rmvm-kernel/src/kernel.rs:744-754 | Without explicit citations the result names exactly the provenance |
| Citations.CitePrefixMeans | crates/rmvm-kernel/src/kernel.rs:755-780 | Explicit citations are accepted exactly when none is empty and no handle citation has broken lineage, and give exactly their texts; provenance is not consulted and an anchor may be any string |
| Citations.CitationsAreSets | crates/rmvm-kernel/src/kernel.rs:120-181 | Reordering or repeating citations anywhere in a plan: both requests stop, or both return the same result with the same roots |
| Citations.DigestIgnoresCitationOrder | crates/rmvm-proto/src/lib.rs:20-30 | The digest of an assertion does not depend on the order of its citations |
| Citations.IssuedCitationsSorted | crates/rmvm-proto/src/lib.rs:20-26 | On what the kernel issues the encoder's sort changes nothing |
| Opcodes.FilterKeepsMatches | crates/rmvm-kernel/src/kernel.rs:512-542 | FILTER keeps each input handle as often as it occurs if it matches, and nothing else, in ref order |
| Opcodes.SelectorKeepsMatches | crates/rmvm-kernel/src/kernel.rs:384-390 | A selector matches each manifest handle as often as it is listed if its parameters fit, and nothing else, in ref order |
| Opcodes.JoinKeepsLinked | crates/rmvm-kernel/src/kernel.rs:564-586 | JOIN keeps exactly the refs that some linked pair mentions |
| Opcodes.JoinOutputExactly | crates/rmvm-kernel/src/kernel.rs:544-601 | With distinct refs JOIN writes exactly the handles on either end of a linked pair, in ref order |
| Handles.CheckParamsOk | crates/rmvm-kernel/src/kernel.rs:1053-1086 | The parameter check accepts exactly when every parameter is declared by the selector and has the declared type |
| Handles.WeakestTrustIsMinimum | crates/rmvm-kernel/src/kernel.rs:400-416 | The trust loop yields the minimum trust of the handles, attained by one of them |
| Merkle.BuilderMeetsReference | crates/rmvm-kernel/src/kernel.rs:890-907 | The level-by-level builder computes the root of the recursive reference tree over 2^height leaves whose missing right subtrees are copies of the left |
| Merkle.HeightIsCeilLog2 | crates/rmvm-kernel/src/kernel.rs:890-907 | The number of levels above the leaves is the rounded-up binary logarithm of the leaf count |
| Merkle.ProofsComplete | crates/rmvm-kernel/src/kernel.rs:908-927 | Every emitted proof has height-many siblings and folds, by the bits of its index, from its leaf to the root |
| Merkle.ProofsSound | crates/rmvm-kernel/src/kernel.rs:908-927 | Any sibling list of the right length that folds from a value at index i to the root is the emitted proof of leaf i, or exhibits two different pairs with the same hash |
| Merkle.ProofChecksExactly | crates/rmvm-kernel/src/kernel.rs:908-927 | With an injective pair hash a proof checks if and only if the value is leaf i and the siblings are the emitted ones |
| Merkle.RootBinds | crates/rmvm-kernel/src/kernel.rs:890-907 | Equal roots of equally many leaves mean equal leaves, or two different pairs with the same hash |
| Merkle.SharedRootExactly | crates/rmvm-kernel/src/kernel.rs:890-907 | With an injective pair hash two leaf lists share a root if and only if, once the taller is paired up to the height of the other, they agree after writing out the duplicated nodes |
| Merkle.SameHeightSharedRoot | crates/rmvm-kernel/src/kernel.rs:896-906 | Leaf lists of one height share a root if and only if they agree after writing out the duplicated nodes |
| Merkle.ParentAsLeafSharesRoot | crates/rmvm-kernel/src/kernel.rs:890-907 | [a, b] and [h(a, b)] share a root |
| Merkle.RepeatedLastLeafSharesRoot | crates/rmvm-kernel/src/kernel.rs:901-901 | [a, b, c] and [a, b, c, c] share a root, which is why binding needs equal leaf counts |
| Commitment.ResponseProofsCheck | crates/rmvm-kernel/src/kernel.rs:868-888 | In an OK request each inclusion proof carries its index and folds from the digest of its assertion to the semantic root |
| Commitment.SemanticRootBinds | crates/rmvm-kernel/src/kernel.rs:868-888 | Equal semantic roots of equally many assertions mean equal digests one by one, or two different pairs with the same hash |
| Commitment.TraceRootIs | crates/rmvm-kernel/src/kernel.rs:146-176 | The trace root of an OK request is the digest of its steps' indices, outputs and operation names, one line each |
| Commitment.TextDeterminesExactly | crates/rmvm-kernel/src/kernel.rs:173-173 | Among all plans whose steps carry operations, the trace text determines the outputs and opcodes of a plan if and only if it has no steps, or one step whose output name is not some text, ":", an operation name, a line break, "1:" and some text |
| Commitment.OneStepTwin | crates/rmvm-kernel/src/kernel.rs:173-173 | Every plan with steps shares its trace text with a plan of one step |
| Commitment.TraceTextDetermines | crates/rmvm-kernel/src/kernel.rs:173-173 | Two plans that share a trace text have the same outputs and opcodes when neither has a line break in an output name |
| Commitment.TraceRootBinds | crates/rmvm-kernel/src/kernel.rs:868-888 | Two OK requests with equal trace roots, neither with a line break in an output name, have the same outputs and opcodes, unless their trace texts differ and have the same digest |
| Witnesses.LineBreakForgesTrace | crates/rmvm-kernel/src/kernel.rs:868-888 | With one ready handle, a plan of one step and a plan of two both run to OK and have the same trace root |
| Merkle.BuildLevels | crates/rmvm-kernel/src/kernel.rs:894-906 | The two while loops yield one level per height, each the pairing of the one below, all with the same root |
| Merkle.RootAndInclusion | crates/rmvm-kernel/src/kernel.rs:890-927 | The loops return the root and, for each leaf in order, its sibling list |
| Narrative.NarrativeTheorem | crates/rmvm-kernel/src/kernel.rs:826-866 | An accepted template without "{{" is an alternation of prose characters and bindings, and renders to that text with each binding replaced by the cited field value and nothing else |
| Narrative.GuardAcceptsExactly | crates/rmvm-kernel/src/kernel.rs:857-866 | The guard accepts a template without "{{" if and only if all text outside bindings is prose |
| Narrative.GuardAdmitsOnlyProse | crates/rmvm-kernel/src/kernel.rs:857-866 | In an accepted template all text outside bindings is prose if and only if the template has no "{{" |
| NarrativeGrammar.GuardRefusesCapitalsExactly | crates/rmvm-kernel/src/kernel.rs:857-866 | On every template of the documented grammar (prose, bindings, macros) the guard refuses exactly those with a capital outside bindings and macros |
| NarrativeGrammar.GuardAcceptsAll | crates/rmvm-kernel/src/kernel.rs:857-866 | Which templates the guard accepts, of any form: those whose text without the bindings is a sequence of prose characters and whole macros |
| NarrativeGrammar.InGrammarExactly | crates/rmvm-kernel/src/kernel.rs:857-866 | A template is in the documented grammar if and only if every character outside its bindings and macros is of the documented prose class |
| NarrativeGrammar.AcceptedInGrammarExactly | crates/rmvm-kernel/src/kernel.rs:857-866 | A template is both accepted and in the grammar if and only if every character outside its bindings and macros is lower-case prose |
| NarrativeGrammar.ForgedMacroAccepted | crates/rmvm-kernel/src/kernel.rs:857-866 | A macro with any binding put after its first brace is accepted although it is not in the grammar |
| NarrativeGrammar.ForgedMacroExample | crates/rmvm-kernel/src/kernel.rs:857-866 | The same for "{{A[0].f}{macro.x}}" |
| Narrative.PlainTextExactly | crates/rmvm-kernel/src/kernel.rs:857-866 | A text without braces is accepted if and only if all of it is prose |
| Narrative.UpperCaseRefused | crates/rmvm-kernel/src/kernel.rs:863-865 | "Tea." is refused and "tea." is accepted, as is the empty text |
| Narrative.ScanSpellsTemplate | crates/rmvm-kernel/src/kernel.rs:857-866 | Splitting at the binding matches loses and invents nothing |
| Narrative.RenderingIsSubstitution | crates/rmvm-kernel/src/kernel.rs:826-855 | Rendering is segment-wise substitution, and every rendered binding resolves |
| Narrative.MacroPassesVerbatim | crates/rmvm-kernel/src/kernel.rs:859-866 | A macro passes the guard and is rendered verbatim, braces included |
| Narrative.RenderNarrativeTemplate | crates/rmvm-kernel/src/kernel.rs:826-855 | The loop over the matches renders the template |
| Kernel.ValidateParamSpecs | crates/rmvm-kernel/src/kernel.rs:1053-1068 | The loop reports the first bad parameter in key order |
| Kernel.CheckSteps | crates/rmvm-kernel/src/kernel.rs:196-297 | The loop over the steps computes the state, or the first error, of the static check |
| Kernel.RunStaticCheck | crates/rmvm-kernel/src/kernel.rs:183-318 | The static check as a loop gives the verdict the theorems speak about |
| Kernel.RunApplySelector | crates/rmvm-kernel/src/kernel.rs:370-457 | APPLY_SELECTOR as a filter, a sort and a metadata loop |
| Kernel.SummarizeMatched | crates/rmvm-kernel/src/kernel.rs:398-416 | The metadata loop collects all refs and taints and the weakest trust |
| Kernel.RunFilter | crates/rmvm-kernel/src/kernel.rs:512-542 | FILTER as a loop that stops at the first handle whose test fails |
| Kernel.PairLoops | crates/rmvm-kernel/src/kernel.rs:564-586 | The nested loops build the joined map with exactly one test per pair |
| Kernel.RunJoin | crates/rmvm-kernel/src/kernel.rs:544-601 | JOIN as nested loops into a map |
| Kernel.LookUpPaths | crates/rmvm-kernel/src/kernel.rs:612-648 | The lookup loop returns every wanted path with its value, or stops because some wanted path has none |
| Kernel.RunProject | crates/rmvm-kernel/src/kernel.rs:603-659 | PROJECT on a handle, on a set read through its first handle, and on a struct |
| Kernel.GatherBindings | crates/rmvm-kernel/src/kernel.rs:676-699 | The binding loop of ASSERT |
| Kernel.RunCanonicalizeCitations | crates/rmvm-kernel/src/kernel.rs:738-782 | Citation canonicalization as loops into a set |
| Kernel.RunOp | crates/rmvm-kernel/src/kernel.rs:150-172 | One operation of the interpreter |
| Kernel.RunSteps | crates/rmvm-kernel/src/kernel.rs:146-176 | The interpreter loop over registers, assertions and trace tokens |
| Kernel.MakeProof | crates/rmvm-kernel/src/kernel.rs:868-888 | The proof commits to the assertions by the Merkle root and to the trace by its digest |
| Kernel.RunRenderOutput | crates/rmvm-kernel/src/kernel.rs:784-824 | Verified blocks from the assertions, or from the listed registers when there are none, then the narrative blocks |
| Kernel.RunExecuteInner | crates/rmvm-kernel/src/kernel.rs:120-181 | A whole request, from the missing-part checks to the rendering |
| Kernel.RunExecute | crates/rmvm-kernel/src/kernel.rs:87-118 | The response with its status, error or stall |
| Handles.SortByRefExactly | crates/rmvm-kernel/src/kernel.rs:390-390 | Sorting by ref gives the same handles in ref order, and with distinct refs that is the only such list |
| Budgets.NormalizingExactly | crates/rmvm-kernel/src/kernel.rs:1108-1125 | Normalizing keeps each positive limit, puts 128, 3, 64 and 512 for the others, leaves alone exactly the budgets with positive limits, and is idempotent |
| Budgets.OpsCapExactly | crates/rmvm-kernel/src/kernel.rs:189-304 | Every accepted plan has at most `cap` steps if and only if the budget says so or `cap + 1` steps of any operation that always passes the check cost more than the budget |
| Budgets.TooDearWithoutSelectors | crates/rmvm-kernel/src/kernel.rs:225-283 | Without selectors the second case is: the cost budget is below `cap + 1` |
| Budgets.DepthCapExactly | crates/rmvm-kernel/src/kernel.rs:249-277 | Every accepted plan has join depth at most `cap` if and only if the budget says so or has no room for `cap + 1` joins, in operations or in cost; the plans that exceed it here are accepted, not run to OK |
| Budgets.DepthCosts | crates/rmvm-kernel/src/kernel.rs:249-277 | A register of join depth d has cost at least two units and one step for each of its d joins |
| Witnesses.BeyondDocumentedCaps | crates/rmvm-kernel/src/kernel.rs:1108-1125 | Under a manifest that asks for 129 operations and depth 4, a plan of 129 steps and one with a register of join depth 4 both run to OK |
| Witnesses.EmptyAssertsRun | crates/rmvm-kernel/src/kernel.rs:120-318 | Any number of ASSERTs that bind nothing runs to OK within the operation and cost budgets, with as many assertions |
| Witnesses.DeepJoinsRun | crates/rmvm-kernel/src/kernel.rs:544-601 | For every n within the budgets, a FETCH and n joins run to OK and write a register of join depth n |
| Witnesses.FetchesRun | crates/rmvm-kernel/src/kernel.rs:320-368 | Fetches of one ready handle run to OK under any distinct, non-blank names within the budgets |
| Service.AlwaysValid | crates/rmvm-grpc/src/lib.rs:51-211 | After every history each map key is the ref of its handle and one of H1 to H{next_handle_id}, and every handle is ready, confirmed and user-tainted |
| Service.NextRefFresh | crates/rmvm-grpc/src/lib.rs:67-68 | The next ref was never issued, as decimal printing is injective |
| Service.AppendNeverOverwrites | crates/rmvm-grpc/src/lib.rs:51-97 | An append adds at most one handle, under a new key, and leaves all others as they are |
| Service.RetiredForever | crates/rmvm-grpc/src/lib.rs:51-211 | A ref that was issued and is gone stays gone |
| Service.ForgottenNeverReappears | crates/rmvm-grpc/src/lib.rs:99-190 | A forgotten ref is in no later manifest, whatever happens in between |
| Service.HandlesConserved | crates/rmvm-grpc/src/lib.rs:51-211 | The handles present are those created minus those suppressed, over every history |
| Service.ResponsesReportCounts | crates/rmvm-grpc/src/lib.rs:164-190 | The responses report exactly those numbers, and a forget cites one anchor per handle it suppressed |
| Service.ForgetTwice | crates/rmvm-grpc/src/lib.rs:144-211 | Repeating a forget changes nothing and suppresses nothing |
| Service.ForgetReachesAppend | crates/rmvm-grpc/src/lib.rs:148-163 | A forget reaches a just appended handle exactly when every criterion it gives fits the append |
| Service.ManifestMembers | crates/rmvm-grpc/src/lib.rs:99-134 | A manifest lists exactly the handles of the map |
| Service.GrpcKernelService.constructor | crates/rmvm-grpc/src/lib.rs:40-46 | A service starts without handles |
| Service.GrpcKernelService.AppendEvent | crates/rmvm-grpc/src/lib.rs:51-97 | The new state and the response of an append |
| Service.GrpcKernelService.GetManifest | crates/rmvm-grpc/src/lib.rs:99-134 | A manifest request reads the state and leaves it alone |
| Service.GrpcKernelService.RemoveKeys | crates/rmvm-grpc/src/lib.rs:152-165 | The collecting loop finds exactly the keys to forget, in order |
| Service.GrpcKernelService.Forget | crates/rmvm-grpc/src/lib.rs:144-211 | The new state and the response of a forget |
| Text.DecimalInjective | crates/rmvm-grpc/src/lib.rs:67-68 | Different numbers print differently |
| PlannerGuard.StaticCheckExactly | portable-brain-proxy/crates/planner-guard/src/lib.rs:109-189 | The kernel's static check accepts exactly the plans the planner guard accepts that also keep op count, join depth, parameter types, total cost and listed outputs |
| PlannerGuard.OkPlansPassValidators | crates/rmvm-kernel/src/kernel.rs:120-318 | No false rejections: a plan the kernel runs to OK is accepted by the planner guard and by both SDK validators |
| PlannerGuard.SdkAgainstGuard | sdk/typescript/src/plan.ts:17-66 | The SDK validators differ from the guard exactly on self-reads and on blank, non-empty names |
| PlannerGuard.ValidatePlanAgainstManifest | portable-brain-proxy/crates/planner-guard/src/lib.rs:109-189 | The guard's loop accepts exactly when every step has a new non-blank output, an operation, known refs and operands among the outputs so far, its own included |
| PlannerGuard.SdkValidate | sdk/python/cortex_rmvm_sdk/plan.py:31-62 | The SDK loop accepts exactly when every step has a new non-empty output, known refs and operands among strictly earlier outputs |
| Fallback.FallbackAlwaysOk | portable-brain-proxy/crates/planner-guard/src/lib.rs:191-283 | After every history of appends and forgets the fallback plan for the service's manifest runs to OK with exactly one assertion under default options: the first handle's subject, or a count of zero when no handle is left |
| Fallback.ServiceHandlesTrusted | crates/rmvm-grpc/src/lib.rs:66-91 | Every handle the service lists is ready and passes the kernel's trust and taint gates |
| Fallback.WithHandles | portable-brain-proxy/crates/planner-guard/src/lib.rs:196-241 | The fetching plan succeeds on a manifest with handles |
| Fallback.WithoutHandles | portable-brain-proxy/crates/planner-guard/src/lib.rs:243-282 | The selecting plan succeeds on a manifest without handles |
| BrainStore.MergeDirectionsAgree | portable-brain-proxy/crates/brain-store/src/lib.rs:395-453 | Merging a into b with Theirs and b into a with Ours agree on the keys and on value and suppression under each |
| BrainStore.MergeIdempotent | portable-brain-proxy/crates/brain-store/src/lib.rs:395-453 | Running a successful merge again merges nothing and changes no branch |
| BrainStore.MergeCountsChanges | portable-brain-proxy/crates/brain-store/src/lib.rs:414-438 | The ids a merge counts are exactly those whose object it inserted or replaced; all others keep theirs |
| BrainStore.ManualConflictsExactly | portable-brain-proxy/crates/brain-store/src/lib.rs:423-444 | A manual merge fails exactly on a difference between common ids, and then names all of them in order |
| BrainStore.BranchThenMergeBack | portable-brain-proxy/crates/brain-store/src/lib.rs:373-393 | A fresh branch merges back without effect under every strategy |
| BrainStore.ForgetIsLocalAndFinal | portable-brain-proxy/crates/brain-store/src/lib.rs:455-492 | Forgetting touches the active branch only, leaves nothing to forget, and repeated suppresses nothing |
| BrainStore.AttachReplaces | portable-brain-proxy/crates/brain-store/src/lib.rs:494-507 | Attaching leaves the holder exactly the new grant and everyone else theirs |
| BrainStore.AuditGrowsBySuccesses | portable-brain-proxy/crates/brain-store/src/lib.rs:579-600 | Over every run of mutations the audit log only grows, by one entry for each success; a failed mutation stores nothing |
| BrainStore.ReplayInvariants | portable-brain-proxy/crates/brain-store/src/lib.rs:373-527 | Over every run there is at most one grant per agent and model, and no branch is lost |
| BrainStore.EffectLogsOnce | portable-brain-proxy/crates/brain-store/src/lib.rs:373-527 | A successful mutation appends exactly one audit entry |
| BrainStore.Store.Branch | portable-brain-proxy/crates/brain-store/src/lib.rs:373-393 | The stored brain after branching, unchanged on failure |
| BrainStore.Store.Merge | portable-brain-proxy/crates/brain-store/src/lib.rs:395-453 | The stored brain and the count after merging; a conflict leaves the stored brain as it was |
| BrainStore.Store.ForgetSuppress | portable-brain-proxy/crates/brain-store/src/lib.rs:455-492 | The stored brain and the count after suppressing |
| BrainStore.Store.Attach | portable-brain-proxy/crates/brain-store/src/lib.rs:494-507 | The stored brain after attaching |
| BrainStore.Store.Detach | portable-brain-proxy/crates/brain-store/src/lib.rs:509-527 | The stored brain after detaching, with the number of grants removed |
| BrainStore.MergeLoop | portable-brain-proxy/crates/brain-store/src/lib.rs:414-441 | The loop over the source objects merges, counts and collects the conflicts in key order |
| BrainStore.SuppressLoop | portable-brain-proxy/crates/brain-store/src/lib.rs:467-472 | The loop suppresses and counts exactly the matching objects |
| BrainStore.Retain | portable-brain-proxy/crates/brain-store/src/lib.rs:512-518 | Retaining drops and counts exactly the holder's grants |
| BrainStore.SlugsAreFixedPoints | portable-brain-proxy/crates/brain-store/src/lib.rs:674-694 | A slug has letters and digits in groups joined by single dashes; slugs are exactly the fixed points, so slugifying twice is slugifying once; the letters and digits of the input survive, lower-cased and in order |
| BrainStore.Slugify | portable-brain-proxy/crates/brain-store/src/lib.rs:674-694 | The loop with its dash flag computes the slug |

## Left out

- Resolution.ScoreFollowsTime: below second -9223372036 the score saturates and the law fails; `Resolution.OvertakesExactly` says exactly where.
- Fallback.FallbackAlwaysOk: assumes that the power of one row is one, which holds of x^1.2.
- CostBound.OkRunWithinCost: costs are reals and x^1.2 is any non-negative monotone function, so rounding of `f64`, infinities and NaN weights are not part of this model.
- Noninterference.StepsCannotTell: for manifests in which no ref is listed twice; a handle listed twice is selected twice and shows in a set count.
- Swap.SwapPreservesMeaning: says nothing of the trace root, and of two ASSERTs, whose assertions would change places.
- DeadStep.DeadStepRemoval: says nothing of the trace root, which lists the steps and does change.
- Renaming.RenamingPreservesMeaning: says nothing of the trace root, and of the verified blocks only when something was asserted, since otherwise they spell register names.
- Narrative.NarrativeTheorem: templates with "{{" are excluded, since macros pass the guard.
- SHA-256, hex text and the Protobuf encoding: parameters without laws; injectivity is assumed only where a lemma says so.
- The regex engine: the fixed patterns are leftmost scanners; which characters outside ASCII count as digits is a parameter.
- Integer widths of lengths and counters: list lengths are taken to fit `u32` and the service counters not to overflow `u64`; saturation and truncation in `timestamp_score` and `value_to_tier_rank` are modelled.
- Strings are sequences of code points ordered by code point, which is the order of their UTF-8 bytes.
- Library sorts are one stable insertion sort, a function on sequences.
- The gRPC transport, the async lock, the HTTP proxy, the command line and the SDK clients: no algorithm. A service request is one atomic step.
- JSON plan parsing, prompt building, error messages and hints: only status and error code are modelled.
- `context` entries of a manifest and the rendered sentence of a forget: nothing reads them.
- Files, encryption, signatures, UUIDs and clocks of the brain store: a mutation works on the loaded state and stores it only on success; ids and times of its records are not part of this model.
- Export, import and the choice between several brains: one brain with a fixed active branch is modelled.
- JSON values in the store are compared as canonical text.
- Privately tokenised handles, conditional rules and sink controls: described in the specification, absent from the code.
