# PHPantom: verified models of its self-contained algorithms

PHPantom is a PHP language server. Most of it leans on an external parser; this project
models the algorithms that stand on their own and carry the hardest promises, and proves
those promises for every input, every schedule or every reachable state.

| file | what it models |
|---|---|
| `layered_pool.dfy`, `pool_completion.dfy`, `pool_overlap.dfy` | the worker pool that runs items in layers: atomic counter, mutex, condition variable, panics and refused spawns, as a transition system |
| `parallel_map.dfy` | the indexed pool and the block map on it, for an arbitrary schedule |
| `memo_slots.dfy`, `index_owners.dfy`, `class_loader_memo.dfy`, `memo_history.dfy` | the generation-stamped, direct-mapped memo in front of the class loader, with an allocator that reuses addresses and loaders that re-enter, and which contents its answers are for |
| `call_args.dfy`, `param_names.dfy`, `inlay_hints.dfy`, `partial_application.dfy`, `open_parameters.dfy`, `partial_named.dfy`, `partial_commutes.dfy`, `partial_unfilled.dfy`, `named_text_arg.dfy` | PHP's argument binding: two binders, names with and without their `$`, the list of missing parameters, partial application with positional and named arguments, and the `name: value` text form |
| `document_symbols.dfy`, `outline_unique.dfy`, `outline_offsets.dfy` | the one-pass stack construction of the outline, for symbols that come with children of their own, and what it is over the text |
| `positional.dfy`, `word_bits.dfy`, `sha256_padding.dfy`, `sha256.dfy`, `sha256_constants.dfy`, `sha256_example.dfy` | the build script's SHA-256 against FIPS 180-4: the algorithm, its functions bit by bit, its constants as roots of primes, and the standard's one-block example |
| `fix_deprecated.dfy` | the pass-bounded rewriting of nested deprecated calls |
| `class_lookup.dfy`, `constructor_answers.dfy` | the walk that finds the constructor a class runs, and what it answers |
| `doctrine_repositories.dfy` | the worklist over the inheritance index |
| `framework_paths.dfy`, `path_text.dfy`, `path_ends.dfy`, `path_chars.dfy`, `directory_renames.dfy`, `renamed_values.dfy` | normalizing and relative paths, path text, rewriting a configuration value when a directory is renamed, and when the value still leads to the directory |
| `pest_configs.dfy` | the directory cache of Pest configurations |
| `phpstan_ignore.dfy`, `ignore_marks.dfy` | the `@phpstan-ignore` comment, its depth-aware splitter, and the marks in a whole file |
| `text_ops.dfy`, `sorting.dfy`, `wrappers.dfy` | trimming and ASCII case; stable sorting; options and counting facts |

## How the source is modelled

Code that updates things step by step is a method with loops or a class with fields, and is
tied by its `ensures` to a specification function; the promises are then proved about that
function. The memo table and the Pest cache are classes, the message schedule and the hash
value of SHA-256 are arrays updated in place. Concurrency is a state machine: one step is one
atomic action of one thread, a run is any sequence of enabled steps, and histories record
which items started and finished.

Where the code meets a promise only under a condition, the condition is proved exact:

* The layered pool completes on every schedule exactly when no item waits for more items than
  come before it (`CompletesIff`), and its layers never overlap exactly when every threshold is
  the first index of its layer (`NeverOverlapsIff`); the code itself checks neither.
* The list of missing parameters agrees with the binder on every call exactly when no required
  parameter repeats an earlier name (`MissingAgreesAlwaysIff`), and the inlay hints agree with it
  exactly when no parameter is filled both by position and by name (`HintsAgreeIff`).
* The repository worklist looks a parent up as it is spelled but tells classes apart without case.
  As long as the spellings of a class agree on its children, it lists every class below the base
  types, each once, exactly when what is recorded under any other spelling of a base or of a class
  it meets is met in another way (`ListsEachClassIff`). `LostRepository` gives a class that is lost,
  and `ChildrenApart` one that is lost because two spellings have different children.
* What the class memo finds is the answer for the asking project as long as no other project
  sharing the index has an id that agrees with its own modulo 2^16 (`MemoIsTransparent`); for two
  projects whose ids agree and whose answers differ, one is served the other's
  (`OtherProjectServed`).
* A partial application commutes with binding on every positional call that fills its holes
  exactly when, with `...`, no named entry is written for a parameter in front of one that no
  entry is written for (`CommutesIff`), and on one that leaves holes unfilled exactly when no
  positional value with a parameter stands behind an unfilled `?` (`UnfilledCommutesIff`).
* A value rewritten for a directory rename is trimmed and matched against `%kernel.project_dir%`
  when it is read again. It leads to the moved target exactly when its end is kept (a slash, dots
  or a name that does not end in a space) and its front is: behind the marker, the first name does
  not start with a backslash; going only down from the file, it starts neither in a space nor like
  the marker (`AbsoluteResolvesIff`, `MarkedResolvesIff`, `RelativeResolvesIff`,
  `RewrittenResolvesIff`; `CalledLikeMarker`, `CalledWithSpace` and `CalledWithBackslash` give the
  inputs that fail).
* The outline puts a symbol under the innermost symbol around it exactly when nothing that an
  earlier symbol came with lies closer around it than the last listed symbol does
  (`InnermostIff`): what a class comes with is never itself opened.

Where documentation and code differ, the code is modelled.

* `src/parallel.rs:36-39` says that what the started workers leave unclaimed is finished on the
  calling thread; the code does that only when a spawn was refused (`src/parallel.rs:75-77`). For
  work whose panics do not depend on the worker, every index is claimed exactly when some spawn is
  refused or fewer indices in front of the last one panic than there are workers
  (`MapIndexedWithThreads`); with one worker and a panic on the first of two indices the second is
  never run (`LosesTheRest`).
* `src/document_symbols.rs:197-198` says that a symbol becomes a child of the innermost symbol
  around it; a section inside a method of a listed class becomes a child of the class
  (`MethodPassedOver`).

## Assumptions

* Layered pool: the calling thread's own final drain does not panic (such a panic leaves the
  function), and a condition variable wakes only when notified, as `parking_lot` documents.
* Memo: index ids stay below 2^48, so that an id and the shifted project id share no bits; the
  loader's answer depends on the index content, the index, the project id and the key.
* Deprecated calls: a replacement's own text calls nothing deprecated, and parsing the text of a
  pass gives the document that pass made.
* Directory renames: a Unix path syntax; the workspace root and the renamed directories are
  absolute, and the names in all paths are file names. That a value is read back only under the
  condition, and not by chance, is stated for files of the workspace.
* Pest configurations: the file system does not change while one lookup runs.

## Model

| member | source | states |
|---|---|---|
| LayeredPool.InvStep | src/parallel.rs:199-237 | Every step of every thread keeps: each claimed item is in exactly one place, items start at most once, lock and phases match, no wake-up is lost, and the calling thread drains last. |
| LayeredPool.AccountedStep | src/parallel.rs:213-227 | Every step keeps that the claimed items are exactly the finished ones and the ones held by one thread each, none of them twice, panics included. |
| LayeredPool.WakeupStep | src/parallel.rs:206-224 | Every step keeps that a sleeping thread either still has to wait or some thread is about to call `notify_all`, though the increment happens before the notification. |
| LayeredPool.RunInv | src/parallel.rs:199-237 | The invariant holds after any run. |
| LayeredPool.CountIsPrefix | src/parallel.rs:219-224 | Testing the bare count against the threshold establishes a set: every single item in front of the layer has finished. |
| LayeredPool.LayersDoNotOverlap | src/parallel.rs:158-167 | In every reachable state, once an item has started every item of every earlier layer has finished, for any interleaving, panics and refused spawns. |
| PoolOverlap.NeverOverlapsIff | src/parallel.rs:162-167 | With two started workers, and thresholds at most their own index, layers are kept apart in every run if and only if each threshold is the first index of its layer. |
| PoolCompletion.NotAllAsleep | src/parallel.rs:164-167 | The thread with the smallest unfinished item never has to wait, so not every thread can be asleep without a notification coming. |
| PoolCompletion.SomeStep | src/parallel.rs:165-167 | No deadlock: unless the calling thread is done, some step is enabled, however few workers started. |
| PoolCompletion.MeasureStep | src/parallel.rs:212-228 | Every step lowers a measure, so no schedule can keep the pool busy for ever. |
| PoolCompletion.RunLength | src/parallel.rs:212-228 | Every run is finite and bounded by the measure of its start. |
| PoolCompletion.FinalIsAllDone | src/parallel.rs:173-177 | When the calling thread returns, every item was started once and finished once and no other index was. |
| PoolCompletion.CompletesIff | src/parallel.rs:162-177 | For every non-decreasing list of thresholds and every set of started workers, all maximal runs complete if and only if no item waits for more than its own index. |
| ParallelMap.RunClaimed | src/parallel.rs:61-69 | Running one claimed index keeps each worker's own vector exact, and a panic removes just that worker. |
| ParallelMap.RunWorkers | src/parallel.rs:125-156 | For any schedule, each surviving worker holds exactly what it produced for the indices it claimed; unless all started workers panicked the counter is past the end. |
| ParallelMap.Join | src/parallel.rs:147-154 | Joining in spawn order loses and duplicates nothing of the surviving workers. |
| ParallelMap.DrainRest | src/parallel.rs:75-77 | The calling thread's drain after a refused spawn claims exactly the rest and appends what it produced. |
| ParallelMap.MapIndexedWithThreads | src/parallel.rs:41-79 | The result holds exactly one entry per index whose work produced one on a thread that did not panic; an index stays unclaimed only when every worker started and every one panicked. For work whose panics do not depend on the worker, all are claimed if and only if a spawn was refused or fewer indices in front of the last one panic than there are workers. |
| ParallelMap.UnclaimedIff | src/parallel.rs:61-74 | With every worker started, the rest is left unclaimed exactly when the panics in front of the last index use up all workers, in whatever order they claimed. |
| ParallelMap.AllClaimedAsAsked | src/parallel.rs:56-59 | As many workers run as are asked for, or one for each core, never more than there are items: without a refusal everything is claimed if and only if fewer than that many items panic in front of the last. |
| ParallelMap.LosesTheRest | src/parallel.rs:36-39 | One worker and a panic on the first of two indices: the second, which would have produced a value, is never run and the result is empty. |
| ParallelMap.SortKeeps | src/parallel.rs:108 | Sorting by index keeps all entries and puts distinct indices in increasing order. |
| ParallelMap.ValuesInOrder | src/parallel.rs:104-109 | Non-empty outputs sorted by index concatenate to all outputs in order, though empty ones were never reported. |
| ParallelMap.FilterMapIs | src/parallel.rs:101-105 | A filter-map lists, in order and once each, what the work gives for exactly the items for which it gives something. |
| ParallelMap.FlattenOuts | src/parallel.rs:103-105 | Filter-mapping block by block and concatenating equals filter-mapping the whole input. |
| ParallelMap.MapInBlocks | src/parallel.rs:89-110 | The result is the sequential filter-map of the input in input order, for every schedule, block size, core count and set of refused spawns. |
| MemoSlots.SlotOf | src/class_loader_memo.rs:98-104 | Under wrapping multiplication the slot is always inside the table. |
| MemoSlots.MemoTable.constructor | src/class_loader_memo.rs:92-96 | A thread starts with no table, which reads as an empty one. |
| MemoSlots.MemoTable.Probe | src/class_loader_memo.rs:112-123 | A probe answers from the one slot of the key, only under the same owner, generation and address. |
| MemoSlots.MemoTable.Store | src/class_loader_memo.rs:131-143 | A store allocates the table on first use, overwrites the key's slot and changes no other. |
| IndexOwners.OwnerWordIsXor | src/resolution/classes.rs:127 | For ids below 2^48, each of the 64 bits of the owner word is the exclusive or of the id's bit and the bit of the project id shifted left by 48. |
| IndexOwners.SameOwnerIff | src/resolution/classes.rs:127 | Two projects share an owner word if and only if they see the same index and their ids agree modulo 2^16. |
| ClassLoaderMemo.HitIsSameNode | src/class_loader_memo.rs:66-79 | A pointer-equal hit is for the very same node even though freed addresses are reused, because the slot keeps its key alive. |
| ClassLoaderMemo.MemoryStep | src/class_loader_memo.rs:145-155 | Allocating, dropping, storing and evicting keep at most one live node per address. |
| ClassLoaderMemo.InvStep | src/resolution/classes.rs:123-137 | Mutations, notes, re-entrant lookups, probes, loader returns and stores keep every slot with its index's current generation equal to what the loader answers for a content of that generation. |
| ClassLoaderMemo.RunInv | src/resolution/classes.rs:111-138 | The invariant holds after any run. |
| ClassLoaderMemo.ServedByOwner | src/class_loader_memo.rs:48-52 | After any run, while all mutations have been noted, whatever a probe under the current generation finds is what the uncached loader would answer now to the asking project or to one that looked something up and shares its owner word; collisions, negative answers and address reuse included. |
| ClassLoaderMemo.MemoIsTransparent | src/class_loader_memo.rs:20-28 | If no other project that looked something up has the same index and an id that agrees modulo 2^16, that is the asking project's own answer. |
| ClassLoaderMemo.StaleUntilNoted | src/symbol_index.rs:211-217 | The note is needed: for every loader and every mutation that changes an answer there is a run after which, before the note, a probe still finds the old answer. |
| ClassLoaderMemo.OtherProjectServed | src/resolution/classes.rs:125-128 | The condition on ids is needed: for every loader and any two projects whose ids agree modulo 2^16 and whose answers differ there is a run after which, with all mutations noted, a probe finds the other project's answer. |
| ClassLoaderMemo.UsedIsBegun | src/resolution/classes.rs:126-128 | The projects whose answers can be in the table are those that began a lookup in the run. |
| ClassLoaderMemo.RepliesAreLoaded | src/symbol_index.rs:200-220 | Every reply, memoised or not, is the loader's answer for a content its lookup was credited with, one of the index's generation when the lookup began or a mutation since, to its own project or one that shares its owner word. |
| MemoHistory.RepliesAreRecent | src/symbol_index.rs:200-220 | Every reply of every run is the loader's answer for a content its index held in some world of the run: between the lookup's beginning and its reply if every mutation was noted at the beginning, otherwise none older than the index's last note before it. The answer is to the lookup's own project if no other one shares its owner word. |
| MemoHistory.HistoryStep | src/resolution/classes.rs:111-138 | Every step keeps that what a lookup or a reply is credited with was held by its index when the lookup could see it, and that the lookup has been on the stack since the step that began it. |
| CallArgs.ResolveDeclaredArgIndices | src/call_args.rs:88-114 | Each argument is resolved to the parameter PHP binds it to, or to none. |
| CallArgs.BindArgsToParams | src/call_args.rs:37-70 | Each parameter receives what the arguments in order leave in it, named ones overwriting and positional ones not. |
| CallArgs.BoundFollowsRule | src/call_args.rs:28-36 | A filled parameter holds the last named argument that names it, else the first positional one resolved to it. |
| CallArgs.BoundByBinder | src/call_args.rs:28-36 | Conversely, an argument in that place is the one the parameter holds. |
| CallArgs.BoundNoneIff | src/call_args.rs:37-114 | A parameter is left empty if and only if no argument resolves to it, so the two encodings agree. |
| CallArgs.FilledIff | src/call_args.rs:414-417 | A parameter is filled if and only if it is among the first as many as there are positional arguments or is the first one of a used name. |
| ParamNames.NamedTargetIff | src/call_args.rs:20-24 | A named argument goes to parameter `i` if and only if `i` is the first parameter written `$name`, or `name` where that has no `$` in front. |
| ParamNames.NamedBinds | src/call_args.rs:31-33 | A parameter holds the value of the last argument that names it in that spelling. |
| ParamNames.NamedAlone | src/call_args.rs:60-65 | `name: v` alone fills the first parameter so spelled, and no other. |
| ParamNames.PositionalBinds | src/call_args.rs:31-32 | Positional argument number `i` fills parameter `i` unless an argument names that one. |
| ParamNames.MissingAreListed | src/call_args.rs:410-436 | The reported names are, in order and once each, those of exactly the required parameters behind the positional arguments that no used name spells. |
| CallArgs.MissingAgreesIff | src/call_args.rs:418-436 | On one call, the reported names equal the required parameters left empty if and only if they are the same parameters. |
| CallArgs.MissingAgreesAlwaysIff | src/call_args.rs:410-436 | The missing parameters are exactly the required ones the binder leaves empty, on every call, if and only if no required parameter repeats an earlier name. |
| InlayHints.HintedParams | src/inlay_hints.rs:180-230 | The hint loop assigns each positional argument the next parameter no named argument consumes, the trailing variadic being reused. |
| ParamNames.RemainingAreUnspelled | src/inlay_hints.rs:185-198 | The parameters positional arguments are hinted with are, in order, exactly those no named argument spells. |
| InlayHints.HintsAgreeIff | src/inlay_hints.rs:215-228 | Hints and binder point every positional argument at the same parameter, and no named one is hinted, if and only if no parameter is filled both by position and by name. |
| PartialApplication.BindPartial | src/call_args.rs:263-309 | The loop gives the combined argument list of the recursive rule: placeholders draw in order, an unfilled `?` drops later positional values, `...` takes the rest. |
| PartialApplication.Split | src/call_args.rs:268-275 | The call's arguments are split into positional values and named pairs, both in order. |
| PartialApplication.PartialApplicationParams | src/call_args.rs:378-408 | The loop returns the open parameters of the recursive rule. |
| OpenParameters.OpenIsListed | src/call_args.rs:373-408 | For every application, ill-formed ones included: first, in order, the parameters a placeholder is the first entry for, and then, with `...`, in order, exactly those no entry in front of it is written for. |
| PartialNamed.CombinedIs | src/call_args.rs:254-309 | For every application and every call, named arguments included, the combined call is what each entry contributes by its place alone: no list is drawn on. |
| PartialNamed.PlaceholderTakesItsName | src/call_args.rs:291-295 | `name: ?` behind `m` others of that name carries the call's argument number `m` of that name, the first one if there are none. |
| PartialNamed.VariadicPassesTheRest | src/call_args.rs:300-305 | `...` hands on the positional values not drawn yet, and behind them, in order and once each, exactly the named arguments of the call that no `name: ?` in front takes. |
| PartialNamed.VariadicKeepsCall | src/call_args.rs:300-305 | Calling `f(...)` binds every parameter as calling `f` does, whatever the call names. |
| PartialCommutes.ReceivedIsWhole | src/call_args.rs:254-262 | When a positional call fills every hole, each entry of the application stands at its own place in the combined call and `...` is replaced by the values left over. |
| PartialCommutes.WholeTarget | src/call_args.rs:278-305 | The argument at an entry's place binds to the parameter that entry was written for. |
| PartialCommutes.OpenIs | src/call_args.rs:373-377 | The open parameters are those of the holes in order, followed behind `...` by all parameters past the entries. |
| PartialCommutes.OpenAgrees | src/call_args.rs:373-408 | When no parameter is displaced, each open parameter receives from the combined call what binding the call to the open parameters gives it. |
| PartialCommutes.PartialApplicationCommutes | src/call_args.rs:254-309 | When no parameter is displaced, binding the combined call equals binding the call to the open parameters plus the values already given, for every parameter, touched or not; `...` beside named entries and values without a parameter included. |
| PartialCommutes.DisplacedDiffers | src/call_args.rs:300-305 | Behind every displaced parameter there is a call with just enough values on which the two ways differ. |
| PartialCommutes.CommutesIff | src/call_args.rs:254-309 | The two ways agree on every positional call that fills the holes if and only if, with `...`, no named entry is written for a parameter in front of one that no entry is written for. |
| PartialUnfilled.ReceivedIsKept | src/call_args.rs:254-262 | With too few values for the holes, the combined call is the one of a shorter application: without the unfilled placeholders, `...`, and every positional value behind an unfilled `?`. |
| PartialUnfilled.UnfilledCommutesIff | src/call_args.rs:259-262 | On a positional call that leaves holes unfilled, the two ways agree if and only if no positional value that has a parameter stands behind an unfilled `?`. |
| PartialUnfilled.UnfilledCalls | src/call_args.rs:259-262 | `f(?, ?)(x)` combines to `f(x)`, and `f(?, v)()` to `f()`. |
| PartialCommutes.NamedBesideRest | src/call_args.rs:300-305 | A displaced parameter: over `f($a, $b, $c)`, `f(b: v, ...)(x, y)` leaves `c` empty, which the open parameters give `y`. |
| NamedTextArg.SplitNamedTextArg | src/call_args.rs:124-144 | The scanning loops find the same label and value as the recursive split. |
| NamedTextArg.SplitShape | src/call_args.rs:118-123 | A label is an identifier, and the value is trimmed. |
| NamedTextArg.NamedRereads | src/call_args.rs:363-369 | A `name: value` pair written out is split back into the same name and value, even when the value is empty or starts with a colon. |
| NamedTextArg.SplitRereads | src/call_args.rs:347-371 | Writing a split argument out and splitting it again changes nothing. |
| NamedTextArg.NamedIff | src/call_args.rs:118-144 | A label is found if and only if the trimmed argument is an identifier, spaces or none, one colon that is not half of `::`, and the value; otherwise the argument is all value. |
| NamedTextArg.NameCharsAre | src/call_args.rs:128-131 | An identifier is made of the 52 letters, the ten digits and `_`, and starts with no digit. |
| TextOps.TrimIs | src/call_args.rs:125 | Trimming takes white space off both ends, and nothing else. |
| DocumentSymbols.SortIsStable | src/document_symbols.rs:205-210 | The sorted symbols are the input's, ordered, with symbols of equal range in their old order. |
| DocumentSymbols.TakesOver | src/document_symbols.rs:215-221 | A symbol that starts later than a popped one and is not enclosed by it hides it from all later symbols. |
| DocumentSymbols.PopKeepsCovered | src/document_symbols.rs:215-221 | Popping loses no encloser of any later symbol, even when ranges overlap without nesting. |
| DocumentSymbols.TopIsLastEncloser | src/document_symbols.rs:214-223 | After the pops, the top of the stack is the last earlier symbol that encloses the new one, or there is none. |
| DocumentSymbols.ChainAttach | src/document_symbols.rs:232-237 | Attaching a closed symbol to the one below it leaves the outline so far as it is. |
| DocumentSymbols.Attach | src/document_symbols.rs:232-237 | One attachment changes neither the forest read from roots and stack nor the other open symbols. |
| DocumentSymbols.MakeRoom | src/document_symbols.rs:215-221 | The pop loop keeps the outline and ends with the right parent on top. |
| DocumentSymbols.NestByContainment | src/document_symbols.rs:204-228 | Each symbol keeps its own children in front of the ones nested in it. In preorder the nested symbols are the stably sorted input, and the parent of each is the last one before it that encloses it. |
| DocumentSymbols.OutlinePush | src/document_symbols.rs:232-235 | A nested symbol is pushed behind the children its parent has, its own and the ones nested before. |
| OutlineUnique.OneOutline | src/document_symbols.rs:204-228 | That leaves no choice: two nestings of the same symbols with that preorder and those parents are equal. |
| DocumentSymbols.ParentIsInnermost | src/document_symbols.rs:197-199 | That parent encloses the symbol, and no symbol sorted before it that encloses it too lies strictly inside the parent; without one, nothing listed encloses the symbol but a later one of the very same range. |
| DocumentSymbols.InnermostIff | src/document_symbols.rs:197-198 | Counting what earlier symbols come with, the parent is innermost if and only if none of that lies around the symbol and strictly inside the last listed symbol around it. |
| DocumentSymbols.MethodPassedOver | src/document_symbols.rs:197-198 | A section inside the method of a listed class goes under the class, behind the method. |
| OutlineOffsets.AtMostIsOffset | src/document_symbols.rs:240-242 | Over a text given by its line lengths, a position is at most another if and only if no more characters stand in front of it. |
| OutlineOffsets.EnclosesIsInclusion | src/document_symbols.rs:239-243 | A symbol encloses another that does not end before it starts if and only if it holds every offset of it, both ends included. |
| OutlineOffsets.NestsByOffset | src/document_symbols.rs:204-228 | In offsets: the outline in preorder is sorted by start, the longer stretch first, and each parent is the last stretch before the symbol that covers it. |
| OutlineOffsets.LinesWithinAreNested | src/document_symbols.rs:197-228 | A symbol whose lines lie strictly within those of a listed one is never at the top level. |
| Positional.ValueOfDigits | build.rs:473 | Reading fixed-width digits in a base back gives the number that was written, if it fits. |
| Positional.DigitAt | build.rs:473 | Digit `k`, counted from the left, is the number divided by the power of the base with as many digits behind it. |
| WordBits.ChChooses | build.rs:437-439 | `ch` takes each bit from the second word where the first is set and from the third where it is not. |
| WordBits.MajOfTwo | build.rs:441-443 | `maj` agrees with any two words that agree, bit by bit. |
| WordBits.XorIsParity | build.rs:445-455 | Where two of three words agree, their exclusive or is the third, and where they differ its opposite. |
| WordBits.RotrRotates | build.rs:445-459 | Each rotation the functions use is the rotation of the 32 bits by that amount. |
| WordBits.ShrShifts | build.rs:452-459 | The two shifts lose the bits shifted out and keep all others. |
| Sha256Constants.PrimeNumber | build.rs:423-434 | The list has the first 64 primes: each is prime, and none lies between neighbours. |
| Sha256Constants.KIsCubeRoots | build.rs:423-434 | Every round constant is the first 32 bits of the fraction of the cube root of its prime. |
| Sha256Constants.H0IsSquareRoots | build.rs:461-464 | The initial hash value is the first 32 bits of the fractions of the square roots of the first eight primes. |
| Sha256Padding.PadMessage | build.rs:466-473 | The push loop terminates and gives the message, the bit 1, the zero bytes and the 64-bit length. |
| Sha256Padding.PadIsWhole | build.rs:475-476 | The padded message is a whole number of 64-byte blocks, so chunking leaves nothing over. |
| Sha256Padding.PaddingIsLeast | build.rs:468-472 | In bits, the zeros are the least number that leaves 64 bits to fill a block (section 5.1.1 of FIPS 180-4). |
| Sha256Padding.PadInjective | build.rs:466-473 | Below 2^61 bytes no two messages are padded to the same blocks. |
| Sha256.FillSchedule | build.rs:477-491 | The array `w` is the message schedule of the block. |
| Sha256.ScheduleRecurrence | build.rs:478-491 | Every schedule word is the block's word or satisfies the recurrence of section 6.2.2, step 1. |
| Sha256.BlockWordBytes | build.rs:478-485 | The four bytes of a block's word, the most significant first, are the block's four bytes. |
| Sha256.CompressInto | build.rs:493-519 | Rotating the registers 64 times in place and adding them gives the intermediate hash value of section 6.2.2. |
| Sha256.UnroundUndoesRound | build.rs:496-509 | A round can be undone given its constant and schedule word. |
| Sha256.RoundsInjective | build.rs:495-510 | Under one schedule, different states are still different after any number of rounds. |
| Sha256.HashBlocks | build.rs:475-520 | The loop over blocks computes the hash value of the whole padded message. |
| Sha256.HashChains | build.rs:475-520 | Hashing whole blocks first and the rest from the value they led to gives the same value. |
| Sha256.ReadHexWord | build.rs:522-525 | Eight hexadecimal digits read back as the word that was printed. |
| Sha256.HexWordAt | build.rs:522-525 | Each printed character is the digit of its place among `0123456789abcdef`. |
| Sha256.HexTextInjective | build.rs:522-525 | Different hash values are printed differently. |
| Sha256.Sha256Hex | build.rs:419-526 | The digest text is the hexadecimal form of the hash of section 6.2.2 over the padding of section 5.1.1 from the initial value of section 5.3.3. |
| Sha256Example.DigestOfAbc | build.rs:419-526 | The standard's one-block example: through all derived schedule words and all 64 rounds the digest of `abc` comes out as published. |
| FixDeprecated.RewriteLowersDepth | src/fix.rs:226-230 | Rewriting the outermost deprecated calls lowers the nesting depth by one, though a replacement may drop or duplicate its arguments. |
| FixDeprecated.RewriteKeepsNormal | src/fix.rs:225-230 | A pass does not change the text with nothing deprecated left that the document leads to. |
| FixDeprecated.DepthWithinCount | src/fix.rs:228-230 | The nesting depth is at most the number of calls found, so the budget of the first pass is never what ends the loop. |
| FixDeprecated.DedupSortIsAll | src/fix.rs:257-263 | Sorting and dropping repeats gives every call once in source order, whatever order and repeats the analysis reports. |
| FixDeprecated.ChooseOutermost | src/fix.rs:265-290 | The selection loop takes a call unless it starts inside the one taken last, and reports whether any was skipped. |
| FixDeprecated.ChosenAreOutermost | src/fix.rs:265-273 | The chosen calls are exactly the outermost ones. |
| FixDeprecated.OutermostDisjoint | src/fix.rs:265-290 | The chosen ranges are in order, disjoint and inside the text. |
| FixDeprecated.ApplyTextEdits | src/text_position.rs:450-468 | Disjoint edits in any order, applied from the bottom up, give the text with all of them made at their original positions. |
| FixDeprecated.EditedIsRewritten | src/fix.rs:295-296 | Editing bottom-up equals substituting all outermost calls at once. |
| FixDeprecated.Pass | src/fix.rs:251-301 | One pass yields the text of the document with its outermost calls rewritten, and reports enclosed calls exactly when the depth exceeds one. |
| FixDeprecated.FixDeprecated | src/fix.rs:234-306 | The loop terminates with the text in which no deprecated call is left, and reports fixes exactly when there was one. |
| FixDeprecated.NothingLeft | src/fix.rs:221-230 | The document it ends with has no deprecated call. |
| ClassLookup.WalkFrom | src/class_lookup.rs:382-415 | The recursive walk with its pushed list terminates on every class graph and is the walk of the specification. |
| ClassLookup.ConstructorPromotes | src/class_lookup.rs:377-417 | The answer is whether the constructor the walk finds promotes the parameter, and no when it finds none. |
| ConstructorAnswers.OwnConstructorAnswers | src/class_lookup.rs:392-405 | A class with a method called `__construct` in any case of letters answers for itself: yes if and only if it has a promoted property of the name. |
| ConstructorAnswers.AnswerMeans | src/class_lookup.rs:396-405 | Yes or no is always said by a reachable class with such a method, which has, or has not, a promoted property of the name. |
| ConstructorAnswers.NoAnswerIff | src/class_lookup.rs:377-417 | Nothing is found if and only if no reachable class has such a method. |
| ConstructorAnswers.FirstSourceAnswers | src/class_lookup.rs:406-414 | Of a class without one, the first trait that has one answers, and the parent only when the traits lead to none. |
| TextOps.LowerCharIs | src/class_lookup.rs:396 | Ignoring case changes the 26 letters, each to its own, and no other character. |
| ClassLookup.WalkExhausts | src/class_lookup.rs:388-414 | A walk that finds nothing has visited everything its class leads to, and none of it has a constructor. |
| ClassLookup.WalkFinds | src/class_lookup.rs:396-414 | What a walk finds is the own constructor of a reachable class. |
| ClassLookup.FindsNothingIff | src/class_lookup.rs:377-417 | On every graph, cyclic ones included, nothing is found if and only if no reachable class has a constructor. |
| ClassLookup.WalkAsGiven | src/class_lookup.rs:377-395 | A class handed in that is not what the loader gives for its name is walked as if the loader gave it wherever it gives a class of that name. |
| ClassLookup.FindsNothingAsGiven | src/class_lookup.rs:377-417 | For any class handed in, nothing is found if and only if nothing reachable from it, itself in the place of its name, has a constructor. |
| ClassLookup.WalkIsPlain | src/class_lookup.rs:389-414 | While visited classes are in progress or answered none, the walk equals the plain search of own, then traits, then parent. |
| ClassLookup.ConstructorFoundAsPhpDoes | src/class_lookup.rs:373-376 | On every acyclic graph, traits and parents shared or not, the constructor found is the one PHP's order finds. |
| DoctrineRepositories.AddChildren | src/framework.rs:573-578 | Listing a parent's children appends each class not seen before in the first spelling it has there, and keeps every listed name reachable, no two equal but for case, and each handled parent closed. |
| DoctrineRepositories.RepositoryClasses | src/framework.rs:562-581 | The worklist terminates on every index, cyclic ones included, with the list of the recursive rule; every class in it is one or more steps below a base, no two are equal but for case, and every child of a base or listed class is listed in some spelling. |
| DoctrineRepositories.ListsEachClassIff | src/framework.rs:561-581 | Where the spellings of a class agree on its children, the list is every class below the bases in PHP's sense, each once and no other, if and only if each child recorded under another spelling of a base or of a class that is met is itself met. |
| DoctrineRepositories.EachClassNeeds | src/framework.rs:570-574 | Whatever the spellings, a child recorded only under such another spelling keeps the list from being complete. |
| DoctrineRepositories.ListsAllIff | src/framework.rs:570-574 | The list is every spelling reached by looking parents up as they are spelled if and only if no class is reached in two spellings. |
| DoctrineRepositories.LostClass | src/framework.rs:570-574 | Every index in which a class extends another one under a name spelled otherwise, and nothing else: the class is below a base and not listed. |
| DoctrineRepositories.LostRepository | src/framework.rs:570-574 | `class Base extends EntityRepository` and `class X extends \base`: `X` is not listed. |
| DoctrineRepositories.TwoSpellings | src/framework.rs:574 | A class recorded in two spellings below a base is still listed once, and nothing is lost. |
| DoctrineRepositories.ChildrenApart | src/framework.rs:570-577 | A class recorded in two spellings of which the second has a child: the code lists the first one only, and the child is lost although no key is astray. |
| FrameworkPaths.NormalizePath | src/framework.rs:1261-1272 | The loop gives the normal form: `.` dropped, `..` popped, never above the root or an empty path. |
| FrameworkPaths.NormalizedIsPlain | src/framework.rs:1261-1272 | A normalized path is names after a root at most, and stays absolute. |
| FrameworkPaths.NormalizePlain | src/framework.rs:1261-1272 | Normalizing a second time changes nothing. |
| FrameworkPaths.NormalizeLaws | src/framework.rs:1261-1272 | The laws that leave no choice: `.` counts for nothing, `..` takes back the name in front of it and is lost where there is none, and a root starts anew. |
| FrameworkPaths.RelativePath | src/framework.rs:1223-1254 | The three loops give the path that climbs to the longest common part and goes down from it. |
| FrameworkPaths.RelativeSomeIff | src/framework.rs:1237-1239 | There is a relative path if and only if both paths are absolute or neither is. |
| FrameworkPaths.RelativeLeadsBack | src/framework.rs:1223-1254 | Joining the relative path to where it starts and normalizing gives the normalized target. |
| PathText.ComponentsOfRender | src/framework.rs:1256-1259 | A path written with slashes reads back as the same components, with or without a slash at the end. |
| DirectoryRenames.RewriteForRenames | src/framework.rs:1151-1168 | The loop rewrites for the first rename whose directory holds the value's target, and for no other. |
| DirectoryRenames.MovedKeepsSuffix | src/framework.rs:1162-1163 | The moved target is the normalized new directory followed by the old path below the renamed one. |
| RenamedValues.AbsoluteResolvesIff | src/framework.rs:1210-1211 | A value rewritten in the absolute spelling resolves to the target if and only if its last name does not end in a space or the value ends in a slash. |
| RenamedValues.MarkedResolvesIff | src/framework.rs:1201-1209 | A value rewritten in the `%kernel.project_dir%` spelling resolves to the target if and only if that is the root, or its end is kept and the first name below the root does not start with a backslash. |
| RenamedValues.RelativeResolvesIff | src/framework.rs:1180-1192 | A value rewritten in the relative spelling resolves to the target if its end is kept and, going only down, its first name starts neither in a space nor like the marker; in a file of the workspace, only then. |
| RenamedValues.RewrittenResolvesIff | src/framework.rs:1151-1221 | In all three spellings, resolving the rewritten value gives the normalized new directory plus the old suffix if the spelling meets its condition on the inputs; in a file of the workspace, only then. |
| RenamedValues.CalledLikeMarker | src/framework.rs:1180-1184 | A directory called like the marker, beside the file: the rewritten relative value leads elsewhere. |
| RenamedValues.CalledWithSpace | src/framework.rs:1175 | A directory whose name ends in a space: the rewritten absolute value leads elsewhere. |
| RenamedValues.CalledWithBackslash | src/framework.rs:1183 | A directory below the root whose name starts with a backslash: the rewritten value leads elsewhere. |
| DirectoryRenames.RewrittenNoneIff | src/framework.rs:1151-1221 | Nothing is written back if and only if the value is blank, lies in no renamed directory, or cannot be spelled the way it was. |
| PestConfigs.Lookup | src/pest.rs:100-118 | From the innermost directory out: the nearest known config with none known below it, or the nearest directory not looked at, or none at all. |
| PestConfigs.NearestUnique | src/pest.rs:97-99 | There is only one nearest config. |
| PestConfigs.DirsAre | src/pest.rs:101-113 | The directories asked are the workspace root and each one on the way down from it to the file, and no others. |
| PestConfigs.Backend.constructor | src/pest.rs:176-206 | Nothing is cached at first. |
| PestConfigs.Backend.PestConfigFor | src/pest.rs:177-204 | The loop terminates and returns the config of the nearest directory in the workspace that has one, whatever was cached before; what is cached stays right. |
| PestConfigs.Backend.InvalidatePestConfig | src/pest.rs:208-210 | Afterwards nothing is cached, so nothing cached is wrong for any file system. |
| PestConfigs.Backend.ForgetPestDir | src/pest.rs:228-232 | After one directory changed on disk, forgetting it makes the cache right again and keeps all other directories. |
| PhpstanIgnore.ParseIgnoreComment | src/phpstan_ignore.rs:64-104 | The parser gives the comment of the specification: first tag, blanket forms, region before the closing mark, entries, list and open reason. |
| PhpstanIgnore.SplitRegion | src/phpstan_ignore.rs:79-93 | The character loop gives the entries between depth-zero commas and the final saturating depth. |
| PhpstanIgnore.FoundIff | src/phpstan_ignore.rs:64-65 | A comment is found if and only if the line holds the tag, and at its first occurrence. |
| PhpstanIgnore.DepthIsWorstBalance | src/phpstan_ignore.rs:84-85 | The saturating depth is the largest excess of opening over closing parentheses of any stretch that ends there. |
| PhpstanIgnore.SplitsIff | src/phpstan_ignore.rs:86-89 | A comma splits if and only if no stretch before it leaves a parenthesis open. |
| PhpstanIgnore.EntryBetweenCuts | src/phpstan_ignore.rs:82-93 | There is one entry more than there are splitting commas, and each comes from what stands between two. |
| PhpstanIgnore.EntriesApart | src/phpstan_ignore.rs:82-93 | Entry spans increase and are disjoint, with a splitting comma between any two. |
| PhpstanIgnore.OutsideEntries | src/phpstan_ignore.rs:82-93 | Nothing is lost: outside the entries there are only spaces and splitting commas. |
| PhpstanIgnore.InsideEntry | src/phpstan_ignore.rs:45-48 | No entry holds a splitting comma, so a comma in a reason stays in its entry. |
| PhpstanIgnore.ListHolds | src/phpstan_ignore.rs:95-103 | Every entry lies in the list, which starts behind the tag and ends before the closing mark. |
| PhpstanIgnore.IdHolds | src/phpstan_ignore.rs:107-125 | The identifier is the longest prefix of its entry that reads as one, and empty exactly when the entry cannot start one. |
| PhpstanIgnore.UnclosedIff | src/phpstan_ignore.rs:102 | The list counts as unclosed if and only if some stretch to its end opens more parentheses than it closes. |
| IgnoreMarks.BlanketIff | src/phpstan_ignore.rs:65-75 | A comment ignores everything, and lists nothing, if and only if the text behind its tag starts with `-line` or `-next-line`. |
| IgnoreMarks.RegionEndIs | src/phpstan_ignore.rs:77-78 | The list ends at the first closing mark behind the tag, or with the line. |
| IgnoreMarks.EntriesEndBefore | src/phpstan_ignore.rs:77-78 | No entry reaches past any closing mark behind the tag. |
| IgnoreMarks.EntriesReach | src/phpstan_ignore.rs:77-93 | Up to the first closing mark nothing is left out: what is in no entry is white space or a comma. |
| IgnoreMarks.IdCharsAre | src/phpstan_ignore.rs:189-195 | Identifiers are made of letters, digits and `_`, and behind the first character also `-` and `.`. |
| PhpstanIgnore.CodeSpans | src/phpstan_ignore.rs:157-175 | The spans of a file are those of its lines, in order. |
| PhpstanIgnore.CodeSpansMark | src/phpstan_ignore.rs:157-175 | Every span marked in a file is a non-empty identifier of its text, in increasing order without overlap, whatever line endings the file has. |
| IgnoreMarks.EveryIdIsMarked | src/phpstan_ignore.rs:157-175 | Every entry that has an identifier, of the comment on any line of the file, has it marked. |
| IgnoreMarks.MarkedIsEntry | src/phpstan_ignore.rs:157-175 | And nothing else is marked: every mark is the identifier of an entry on some line. |
| IgnoreMarks.LineIsRead | src/text_position.rs:176-185 | Every line of the text is read from where it starts, without its `\n` or `\r\n`. |

## Left out

- Real threads, thread-locals and atomics: they are steps on a global state; thread names, stack sizes and logging do not matter, and the pool is modelled for any number of workers instead of the number of cores capped by the widest layer (`src/parallel.rs:192-197`). With one worker or none the code drains on the calling thread only, which is the run where every worker was refused.
- SortKeeps: `sort_unstable_by_key` is modelled by an insertion sort, which is the same on the distinct indices it is used on.
- The project that is active does not change while one name search runs.
- InvStep: the loader reads the index in one instant, so what the stamps do for a search whose reads straddle a mutation is not stated.
- MemoIsTransparent: the 64-bit generation is a number without bound, so its wrap-around after 2^64 notes is not modelled.
- The bodies of the class loader and of the refinement hooks, and `link_loaded_class`: the loader is an arbitrary function of index content, owner and key. The refinement memo (`src/class_loader_memo.rs:145-224`) is the same table at another value type.
- Spread arguments, `bind_text_args_to_params` (the same loop as `bind_args_to_params` over text), `variadic_tail_text_args`, `first_param_arg` and `first_param_text_arg`; counts of arguments are numbers without bound instead of 32 bits wide.
- CommutesIff: leaves out calls with named arguments, placeholders that have no parameter, and two entries written for one parameter.
- ListsEachClassIff: where two spellings of a class have different children, what is lost depends on which one is met first; only `EachClassNeeds` is stated there.
- Splitting argument text at top-level commas (`src/text_scan.rs:734`): argument lists are sequences.
- Blade templates in `fix_deprecated`, whose edits go through a translation that may refuse one, the analysis that finds deprecated calls, and how a replacement template is expanded.
- UTF-16 columns and byte offsets: columns and offsets count characters of the text; letter case is ASCII.
- Sha256Hex: the length in bits is taken modulo 2^64, as a release build computes it; from 2^61 bytes on a debug build stops with an overflow instead.
- `find_shared_class_at_offset` and the other lookups by position in `src/class_lookup.rs`: plain searches.
- WalkIsPlain: says nothing on cyclic graphs, which PHP rejects and where a search without a memory does not end; there `FindsNothingIff` says whether the walk finds something, and `WalkFinds` whose it is.
- RewrittenResolvesIff: in a file outside the workspace, a value that is misread is not shown to lead elsewhere.
- NestByContainment: a symbol with no list of children and one with an empty list are the same.
- ApplyTextEdits: edits that only insert, or whose range is inverted and which the code skips; the caller makes none.
- The scan of YAML, XML and environment files for values to rewrite, and the escaping of backslashes in class names.
- Reading and parsing a `Pest.php`, and matching its bindings against a file: loading is a function from directory to config.
- Completion inside an ignore comment (`phpstan_ignore_code_prefix`) and the spans of the tags.
- The parser, LSP, JSON, the command line, downloads and code generation.
