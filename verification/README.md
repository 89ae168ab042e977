# Tetragon type-path resolution and small filters, in Dafny

This project models four pieces of Tetragon, the eBPF-based security observability agent.

1. **Field-path resolution over kernel BTF types** (`btf_*.dfy`). An operator names a nested field of a hook argument as a dotted path, such as `mm.arg_start`. The resolver walks the kernel's type graph and turns the path into a fixed array of `MaxBTFArgDepth` descriptors `{Offset, IsPointer, IsInitialized}`. The kernel-side reader follows this array.
   - The model follows the reference resolver in `pkg/btf/btf_test.go`, against which the tests compare the production resolver. It has one correction (see "## Findings"), and both the literal and the corrected resolver are modelled. It covers:
     - member lookup (`findMemberInBTFStruct`);
     - the intermediate and last path steps (`getConfigAndNextStruct`, `getConfigAndNextType`);
     - pointer padding (`addPaddingOnNestedPtr`, `resolveNestedPtr`);
     - the resolution loop (`manuallyResolveBTFPath`);
     - path construction (`buildPathFromString`, `buildExpectedBTFConfig`).
   - It also models the hook-argument lookup as far as the tests pin it down.
   - The type graph is a sequence of type records indexed by type id. Pointers refer to ids, so the graph may be cyclic.
   - `WellFormed` requires two things. First, every referenced id exists. Second, a pointer, typedef or qualifier that leads to another such link leads to a smaller id. The second condition makes the recursive walks terminate.
   - Real BTF numbering does not guarantee the second condition. The ids are therefore BTF's ids renumbered to meet it. Any table whose link chains are finite can be renumbered so; C cannot declare a pointer-only or typedef-only cycle.
2. **Binary-regex event filters** (`binary_regex.dfy`). These are `filterByBinaryRegex` and the three `OnBuildFilter` builders for the process, parent and ancestor levels. Regular-expression compilation and matching are parameters.
3. **The disabled policy-filter state** (`policyfilter_disabled.dfy`). This is the inert `State` used when policy filtering is off.
4. **The command-reference hooks** (`cmdref.dfy`). `linkHandler` rewrites the first `.md` link to `.html`. `filePrepend` returns the generated-file header.

Shared modules:
- `wrappers.dfy`: `Option` and `Result`.
- `btf_types.dfy`: the type graph, descriptors, errors, normalisation (`Normalize`, standing for `ResolveNestedTypes`) and pointer depth.

A Go panic in the reference resolver (an array index past `MaxBTFArgDepth`) is modelled as the failure `IndexOutOfRange`. A fatal test assertion (`fatalOnError`) is modelled as the failure carrying the checked error.

## Model

| member | source | states |
|---|---|---|
| BtfMembers.FirstNamed | pkg/btf/btf_test.go:286-290 | The inner scan returns the first member carrying the name. It finds nothing exactly when no member carries it. |
| BtfMembers.FindMember | pkg/btf/btf_test.go:279-302 | The lookup succeeds exactly when the scan meets some hit, and it returns the first hit in scan order. For each member in declaration order, the scan tries the member's own name, then the members of a nameless struct member, then the members of a union member. Otherwise the error names the member. |
| BtfMembers.HitsAreExactlyTheReachableNames | pkg/btf/btf_test.go:279-299 | A member can be returned exactly when it carries the name and either is a direct member or sits in a nameless struct member or a union member. |
| BtfMembers.FirstProvidingMemberWins | pkg/btf/btf_test.go:280-299 | The first member that offers any candidate decides the answer, whatever later members hold. A direct name match beats that member's nested members. |
| BtfMembers.LookupFailsIffNothingOffered | pkg/btf/btf_test.go:279-301 | The lookup fails exactly when no member offers a candidate at any of the three levels. |
| BtfMembers.NestedHitKeepsInnerOffset | pkg/btf/btf_test.go:285-290 | A field reached through a nameless struct member is returned as declared there. Its byte offset is the inner one; the enclosing member's offset is not added. |
| BtfResolve.GetBTFStruct | pkg/btf/btf_test.go:263-269 | Accepts a type exactly when it is directly a struct. Otherwise it reports that type as not a struct. |
| BtfResolve.PointerAndSetConfig | pkg/btf/btf_test.go:304-313 | Succeeds exactly on a direct pointer and yields its target. It keeps the slot's offset and sets both flags. A non-pointer is rejected. |
| BtfResolve.ConfigAndNextType | pkg/btf/btf_test.go:315-336 | On the last step it fails exactly when the lookup finds no member, naming it. Otherwise the descriptor has the member's byte offset and is initialised. IsPointer is set exactly for a normalised pointer or integer member. The next type is the pointer's target or the normalised type. |
| BtfTypes.Normalize | pkg/btf/btf_test.go:349 | The normal form lies at the end of the type's chain of typedef and qualifier layers: it is reached along that chain and is itself neither. A type that is neither is its own normal form. |
| BtfTypes.StrippedEndIsUnique | pkg/btf/btf_test.go:349 | A chain of typedef and qualifier layers has one end: two non-wrappers reached along it are the same type. |
| BtfTypes.NormalizeIsChainEnd | pkg/btf/btf_test.go:349 | Both directions: a type is the normal form exactly when it is reached along the wrapper chain and is not itself a wrapper. |
| BtfResolve.ConfigAndNextStruct | pkg/btf/btf_test.go:338-358 | The corrected intermediate step (see "## Findings"). It fails on a missing member. It also fails when the normalised member type, after chasing one pointer and normalising the target, is not a struct; this rules out scalars and unions. On success it yields that struct and the member's offset, initialised and flagged as a pointer exactly for a pointer member. |
| BtfResolve.ConfigAndNextStructAsWritten | pkg/btf/btf_test.go:338-358 | The intermediate step as written. It is the same as the corrected step, except that the pointer's target must itself be a struct, with no normalisation. |
| BtfResolve.AsWrittenStepDiffersOnlyOnWrappedTargets | pkg/btf/btf_test.go:352-357 | The two steps agree unless the pointer's target is a typedef or qualifier. Where such a wrapper hides a struct, the corrected step succeeds and the as-written step reports the wrapper as not a struct. |
| BtfResolve.ResolveNestedPtr | pkg/btf/btf_test.go:368-378 | Writes the pointer descriptor into slots `i..i+k-1`, where `k` is the number of directly nested pointer layers. It returns the first non-pointer type and `i+k`, and leaves every other slot alone. It fails only when the layers run past the array. |
| BtfResolve.Walk | pkg/btf/btf_test.go:389-409 | The corrected loop (see "## Findings"): the same as the literal loop, except that intermediate steps use the corrected step. A success returns the whole array and keeps every slot below its start index. |
| BtfResolve.WalkAsWritten | pkg/btf/btf_test.go:389-409 | The loop as written, with the literal intermediate step of line 398. A success returns the whole array and keeps every slot below its start index. |
| BtfResolve.WalkAsWrittenRefinesWalk | pkg/btf/btf_test.go:389-409 | Whatever the literal loop resolves, the corrected loop resolves to the same descriptors. The correction only turns failures into successes. |
| BtfResolve.ManuallyResolveBTFPath | pkg/btf/btf_test.go:380-410 | The corrected resolution. A success has exactly `MaxBTFArgDepth` slots. |
| BtfResolve.ManuallyResolveBTFPathAsWritten | pkg/btf/btf_test.go:380-410 | The resolution as written. A success has exactly `MaxBTFArgDepth` slots. |
| BtfResolve.ManualResolveAsWrittenRefines | pkg/btf/btf_test.go:380-410 | A literal success is a corrected success with the same descriptors. This carries the success-side lemmas (`ManualResolveLayout`, `ExpectedConfigLayout`) to the literal resolution. The start and depth properties get their own literal lemmas. |
| BtfResolve.ManualResolveAsWrittenStartsAtBase | pkg/btf/btf_test.go:380-388 | The literal resolution starts like the corrected one: the array-bound failure for too many pointer layers, `NotAStruct` on a non-struct base, or the literal loop from the slot after the pointer layers. |
| BtfResolve.WalkAsWrittenInBounds | pkg/btf/btf_test.go:389-409 | A path that fits the array never makes the literal loop index past it. |
| BtfResolve.ResolveDepthBoundAsWritten | pkg/btf/btf_test.go:380-410 | For the literal resolution: a padded path within the bound never fails with an out-of-range index. A path or pointer depth beyond the bound never resolves. |
| BtfResolve.ManualResolveStartsAtBase | pkg/btf/btf_test.go:380-388 | The loop starts after one pointer slot per pointer layer of the root, at the first non-pointer type. That type must be a struct, and too many layers fail at the array bound. |
| BtfResolve.WalkKeepsLayout | pkg/btf/btf_test.go:389-409 | The loop fills slots from its start index up to the end of the path. Earlier slots are kept and later slots are never touched. |
| BtfResolve.ManualResolveLayout | pkg/btf/btf_test.go:380-410 | In a successful resolution the pointer layers hold pointer descriptors, every slot up to the end of the path is initialised, and every later slot is the zero descriptor. The path fits the array. |
| BtfResolve.WalkRejectsLaterEmptySegment | pkg/btf/btf_test.go:391-396 | Once the root is a struct, an empty segment asks to dereference it and the loop fails. |
| BtfResolve.EmptySegmentAfterPaddingFails | pkg/btf/btf_test.go:389-396 | An empty segment after the root's pointer padding never resolves. |
| BtfResolve.WalkInBounds | pkg/btf/btf_test.go:389-409 | A path that fits the array never makes the loop index past it. |
| BtfResolve.ResolveDepthBound | pkg/btf/btf_test.go:380-410 | A padded path within the bound never fails with an out-of-range index. A path or pointer depth beyond the bound never resolves. |
| BtfPath.Split | pkg/btf/btf_test.go:413 | Splitting on `.` gives at least one piece. The pieces hold no dot, and joining them with dots gives back the input. |
| BtfPath.SplitJoin | pkg/btf/btf_test.go:413 | Splitting undoes joining for pieces without dots. |
| BtfPath.AddPaddingOnNestedPtr | pkg/btf/btf_test.go:360-366 | Prepends one empty segment per directly nested pointer layer and keeps the original path as the suffix. |
| BtfPath.BuildPathFromString | pkg/btf/btf_test.go:412-419 | The padded path is the pointer padding followed by the dotted components. A report naming the dotted path and the maximum is made exactly when the padded path is longer than `MaxBTFArgDepth`. |
| BtfPath.BuildExpectedBTFConfig | pkg/btf/btf_test.go:431-434 | The expected descriptors, computed with the corrected resolver. A resolved path fills the array. A path the depth check reports never resolves. |
| BtfPath.BuildExpectedBTFConfigAsWritten | pkg/btf/btf_test.go:431-434 | The expected descriptors as the helper computes them. A literal success agrees with the corrected reference. A path the depth check reports never resolves. |
| BtfPath.DepthReportMatchesResolution | pkg/btf/btf_test.go:412-434 | For the corrected helper: a path reported as too deep never resolves. A path that passes the check never indexes past the array. |
| BtfPath.DepthReportMatchesResolutionAsWritten | pkg/btf/btf_test.go:412-434 | The same two halves for the helper as written, which is what the tests run. |
| BtfPath.ExpectedConfigLayout | pkg/btf/btf_test.go:431-434 | A resolved dotted path fills one slot per pointer layer and one per component, in that order. All later slots are unused. |
| BtfHook.FindBTFFuncParamFromHook | pkg/btf/btf_test.go:224-243 | A hook name that names no function, whether it is absent or names a struct, is "not found". Otherwise the first function of that name gives its parameter at the index, or an out-of-range error at or beyond the parameter count. |
| BtfScenarios.HookLookupScenarios | pkg/btf/btf_test.go:217-243 | The test's four hook lookups. Parameter 0 of `wake_up_new_task` is `p`. `fake_hook` and the struct name `linux_binprm` are not found. Index 10 of `wake_up_new_task` is out of range. |
| BtfScenarios.DoublePointerHookScenario | pkg/btf/btf_test.go:481-490 | Argument 1 of `security_inode_copy_up` is the `struct cred **` parameter. |
| BtfScenarios.AnonymousMemberScenario | pkg/btf/btf_test.go:467-472 | `mm.arg_start` resolves through the anonymous struct of `mm_struct`. |
| BtfScenarios.PathIsAccessibleScenario | pkg/btf/btf_test.go:514-525 | Corrected half: `mm.pgd.pgd` resolves through the pointer member `pgd` and the `pgd_t` typedef into the struct it names, as the test requires of the production resolver. |
| BtfScenarios.AsWrittenPathIsAccessible | pkg/btf/btf_test.go:389-399 | As-written half: the literal resolver, and the helper over the dotted path, reject `mm.pgd.pgd` with "not a struct" at the `pgd_t` typedef. |
| BtfScenarios.AsWrittenDeepAttribute | pkg/btf/btf_test.go:389-399 | As-written half: the literal resolver rejects `mm.pgd.fail` at the `pgd_t` typedef before it looks for `fail`. |
| BtfScenarios.AsWrittenStepRejectsTypedefTarget | pkg/btf/btf_test.go:349-357 | On the kernel's shape of `pgd_t`, the as-written step at `pgd` reports the `pgd_t` typedef as not a struct. The corrected step reaches the struct behind it. |
| BtfScenarios.DoublePointerScenario | pkg/btf/btf_test.go:481-495 | `uid.val` from a `struct cred *` gets one padding slot, then `uid` through the `kuid_t` typedef and the integer leaf `val`. |
| BtfScenarios.UnknownAttributeScenarios | pkg/btf/btf_test.go:541-549 | On the corrected reference, `fail`, `mm.fail` and `mm.pgd.fail` each fail naming the attribute `fail`, as the test requires of the production resolver. On the third, the literal resolver stops earlier (`AsWrittenDeepAttribute`). |
| BtfScenarios.ScalarRootScenario | pkg/btf/btf_test.go:551-560 | A field step on an `int` root fails because the root is not a struct. |
| BtfScenarios.KernelScenarios | pkg/btf/btf_test.go:448-560 | The cut-down kernel table is well formed. The anonymous-member, double-pointer, unknown-attribute and scalar-root scenarios hold on it, on the corrected reference. |
| BinaryRegex.Selected | pkg/filters/binary_regex.go:32-39 | The process level inspects `[process]`, the parent level `[parent]` and the ancestor level the ancestor list. |
| BinaryRegex.FilterByBinaryRegex | pkg/filters/binary_regex.go:21-29 | Building succeeds exactly when every pattern compiles, and keeps the patterns in order. Otherwise it reports the first pattern that fails to compile. |
| BinaryRegex.Eval | pkg/filters/binary_regex.go:30-51 | The filter answers exactly `Accepts`. That means false on an empty selection or a nil first entry, and otherwise true exactly when some inspected binary is matched by some pattern. |
| BinaryRegex.OnBuildBinaryFilter | pkg/filters/binary_regex.go:56-66 | No pattern list gives no filters. A list gives exactly one process-level filter. If some pattern does not compile, it instead gives the compile error for the first such pattern. |
| BinaryRegex.OnBuildParentFilter | pkg/filters/binary_regex.go:70-80 | The same for the parent level: no filters, one parent-level filter, or the error for the first pattern that does not compile. |
| BinaryRegex.OnBuildAncestorFilter | pkg/filters/binary_regex.go:84-98 | The same for the ancestor level, except that with patterns present the ancestor check's error comes first, before any pattern is compiled. Otherwise the error is the one for the first pattern that does not compile. |
| BinaryRegex.PatternOrderIrrelevant | pkg/filters/binary_regex.go:43-50 | Two pattern lists with the same members accept the same events. |
| BinaryRegex.AncestorLevelReadsOnlyAncestors | pkg/filters/binary_regex.go:37-50 | An ancestor-level filter accepts exactly when some pattern matches some ancestor's binary. The process and the parent play no part. |
| BinaryRegex.SingleLevelReadsOneProcess | pkg/filters/binary_regex.go:32-50 | A process- or parent-level filter accepts exactly when that one process is present and some pattern matches its binary. |
| BinaryRegex.NilEventNeverMatches | pkg/filters/binary_regex.go:40-42 | An event without process information is never accepted, at any level. |
| BinaryRegex.AncestorFilterScenario | pkg/filters/binary_regex_test.go:206-289 | The test's six events with `bash` and `zsh`. The three without ancestors and the one with non-matching ancestors are refused, even when the process or parent binary matches. An ancestor `/bin/bash` last, or `/bin/zsh` first, is accepted. |
| PolicyFilterDisabled.DisabledState | pkg/policyfilter/disabled.go:16-18 | The state handed out refuses every policy removal except that of the no-filter policy, and finds no namespace for any state id. |
| PolicyFilterDisabled.AddPolicy | pkg/policyfilter/disabled.go:23-26 | Installing a policy always fails with the "disabled" error. |
| PolicyFilterDisabled.DelPolicy | pkg/policyfilter/disabled.go:28-33 | Removal succeeds exactly for the no-filter policy id, and otherwise reports the "disabled" error. |
| PolicyFilterDisabled.AddPodContainer | pkg/policyfilter/disabled.go:35-38 | Always succeeds. |
| PolicyFilterDisabled.UpdatePod | pkg/policyfilter/disabled.go:40-43 | Always succeeds. |
| PolicyFilterDisabled.DelPodContainer | pkg/policyfilter/disabled.go:45-47 | Always succeeds. |
| PolicyFilterDisabled.DelPod | pkg/policyfilter/disabled.go:49-51 | Always succeeds. |
| PolicyFilterDisabled.Close | pkg/policyfilter/disabled.go:56-58 | Always succeeds. |
| PolicyFilterDisabled.GetNsId | pkg/policyfilter/disabled.go:60-62 | No state id has a namespace: `(nil, false)`. |
| PolicyFilterDisabled.GetIdNs | pkg/policyfilter/disabled.go:64-66 | No namespace has a state id: `(0, false)`. |
| PolicyFilterDisabled.RunFailsExactlyOnRefused | pkg/policyfilter/disabled.go:16-58 | In any sequence of calls on the disabled state, a call fails exactly when it installs a policy or removes one other than the no-filter policy. It then fails with the "disabled" error. |
| CmdRef.FirstOccurrence | pkg/cmdref/cmdref.go:22 | The search finds the leftmost occurrence from a position, or proves there is none. |
| CmdRef.LinkHandler | pkg/cmdref/cmdref.go:18-23 | Without `.md` the string is returned unchanged. Otherwise only the first `.md` becomes `.html`. The text before it and everything after it stay as they were, and the length grows by 2. |
| CmdRef.LinkHandlerRewritesOnlyFirstLink | pkg/cmdref/cmdref.go:22 | The result's `.md` occurrences are exactly the input's later ones, shifted two places right. |
| CmdRef.FilePrepend | pkg/cmdref/cmdref.go:25-30 | Whatever the file name, the header is the autogenerated notice as one HTML comment, followed by an empty line. |
| CmdRef.NoticeIsOneComment | pkg/cmdref/cmdref.go:29 | The notice opens with `<!--`, ends with `-->`, and contains no earlier `-->`. |

## Left out

- The production resolver (`ResolveBTFPath`) is not modelled. The hook lookup (`findBTFFuncParamFromHookWithSpec`) is specified by what its tests assert.
- `ResolveNestedTypes` is specified, not transcribed. `Normalize` stands for it: it strips typedef and qualifier layers and never follows a pointer.
- The accessibility and error-case tests (`pkg/btf/btf_test.go:499-560`) run the production resolver. The scenarios replay those inputs on the (corrected) reference resolver. The reference reports an `int` root as "not a struct", so the production resolver's message text for that case is not modelled.
- `task_struct` has no members in the scenario table. The test's `sched_task_group.css.id` path (`pkg/btf/btf_test.go:511`) is not replayed; the scenario table holds only the types of the other paths.
- The test paths through `file` (`file.f_path.dentry.d_name.name`, `file.f_inode.i_dir_seq`) are not replayed, for the same reason.
- Locating, loading and caching the kernel's BTF file (`observerFindBTF`, `InitCachedBTF`, `btf.LoadSpec`) is left out: it is file-system and environment I/O. The loaded graph is a parameter.
- The BTF library's lookup by name is not modelled. It is taken to be the first function type with that name; duplicate names are not considered.
- A name that exists but is not a function is reported the same way as an absent name. The tests assert the same message for both.
- `MaxBTFArgDepth` is 10 here (`api.MaxBTFArgDepth`; the `api` package is not part of this model). The general lemmas do not depend on the value; the scenarios' slot counts do.
- `NoFilterPolicyID` is 0 here. The file defining it is not part of this model.
- The Go `regexp` engine is left out. Compiling and matching are parameters.
- `GetProcess`, `GetParent`, `GetAncestors` and `CheckAncestorsEnabled` are left out. An event is represented by what the accessors return, and the ancestor check is a parameter.
- BinaryRegex.Eval: the ancestor list holds only present processes. The Go loop would dereference a nil entry after the first, and that case is not modelled.
- BinaryRegex.FilterByBinaryRegex: the compile error is represented by the failing pattern. The engine's message wrapped by `failed to compile regexp` is not modelled.
- `RegisterPodHandlers` is left out: it wires a Kubernetes informer and does nothing in the disabled state.
- `GenMarkdown` is left out: it writes files through cobra and exits the process.
- Error message texts are represented by error constructors carrying the names the messages mention.
- BtfResolve.Walk: this is the corrected loop. On a path whose intermediate member points to a typedef'd or qualified struct, such as `mm.pgd.pgd`, it succeeds where lines 398 and 353 fail; `WalkAsWritten` is the literal loop. Its own contract states the slot count and the kept prefix. Layout, bounds and empty-segment behaviour are separate lemmas (`WalkKeepsLayout`, `WalkInBounds`, `WalkRejectsLaterEmptySegment`).
- BtfResolve.ManuallyResolveBTFPath: this is the corrected resolution, with the same difference as `Walk`; `ManuallyResolveBTFPathAsWritten` is the literal one. Its contract states only the slot count. The start, layout and depth properties are the lemmas `ManualResolveStartsAtBase`, `ManualResolveLayout` and `ResolveDepthBound`.
- BtfResolve.WalkAsWritten: like `Walk`, its own contract states only the slot count and the kept prefix. Its bounds are `WalkAsWrittenInBounds`; its layout follows from `WalkAsWrittenRefinesWalk` and `WalkKeepsLayout`.
- BtfResolve.ManuallyResolveBTFPathAsWritten: its own contract states only the slot count. The start and depth properties are `ManualResolveAsWrittenStartsAtBase` and `ResolveDepthBoundAsWritten`; the layout follows from `ManualResolveAsWrittenRefines`.
- BtfPath.BuildExpectedBTFConfig: this composes the corrected resolution, so on typedef-target paths its outcome is the corrected one; `BuildExpectedBTFConfigAsWritten` is the helper as written.

## Findings

| source | as written | input that shows it | evidently intended | confidence | as-written member | corrected member |
|---|---|---|---|---|---|---|
| pkg/btf/btf_test.go:353 | `getConfigAndNextStruct` passes a pointer's target to `getBTFStruct` without `ResolveNestedTypes`, so a pointer to a typedef'd struct is rejected. | `mm.pgd.pgd` or `mm.pgd.fail` from `linux_binprm`, where `mm->pgd` is a `pgd_t *` and `pgd_t` is `typedef struct { ... } pgd_t`. The step at `pgd` fails with "not a struct" on the typedef. | The target is normalised, as the member type is two lines earlier. Then `mm.pgd.pgd` resolves, as the test at lines 514-525 requires of the production resolver. | medium, not executed | BtfResolve.ConfigAndNextStructAsWritten, BtfResolve.WalkAsWritten, BtfResolve.ManuallyResolveBTFPathAsWritten (counterexamples: BtfScenarios.AsWrittenStepRejectsTypedefTarget, BtfScenarios.AsWrittenPathIsAccessible, BtfScenarios.AsWrittenDeepAttribute) | BtfResolve.ConfigAndNextStruct, BtfResolve.Walk, BtfResolve.ManuallyResolveBTFPath (resolution proved by BtfScenarios.PathIsAccessibleScenario) |

The corrected loop (`Walk`) and resolution (`ManuallyResolveBTFPath`) use the corrected step. The literal loop (`WalkAsWritten`) and resolution (`ManuallyResolveBTFPathAsWritten`) use the step as written. `AsWrittenStepDiffersOnlyOnWrappedTargets` shows that the two steps agree on every input except a pointer to a typedef or qualifier. `WalkAsWrittenRefinesWalk` and `ManualResolveAsWrittenRefines` show that whatever the literal resolver resolves, the corrected one resolves identically.

## Design notes

Three behaviours of the reference resolver are easy to get wrong. The model follows the code in each.

- **Member lookup order.** The lookup is interleaved per member, not level by level. Each member's own name, its nameless struct and its union are tried before the next member is looked at. A field in a nameless struct of an earlier member therefore beats a direct member declared later.
- **Offsets in nested members.** A field inside a nameless struct is returned as declared there. The descriptor carries the inner offset only; the nameless struct's own offset is not added (`NestedHitKeepsInnerOffset`).
- **Padding steps.** A padding step dereferences the root type, not the current struct. After the leading padding the root is already a struct, so a later empty segment always fails (`EmptySegmentAfterPaddingFails`).
