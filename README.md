# mumpitz dependency container, in Dafny

This project models the scoped dependency-lifecycle container of mumpitz, together with the helpers it is built from and a few small cores elsewhere in the repository.

**The container**
- A `RootContext` owns a table of root-scoped bindings.
- Each `run` gets a `BindingContext` with a table of request-scoped bindings of its own.
- A binding memoises the promise of its factory. It records the bindings that were being resolved when it was asked for, called its dependents. Its one-shot destroy waits for every dependent's `destroyed()` signal before calling the binding's finalizer.
- Resolving pushes a `(key, scope)` frame on an immutable resolution stack. The push fails on a cycle, and then on a request frame above a root frame.
- Tearing down a request passes the run's outcome to the request finalizers.
- Tearing down the root waits for every running request first.

**The helpers**
- `Deferred`: a settle-once signal. Its two copies, in `di/src/types` and `src/types`, differ only in type annotations, so one model covers both.
- `once`: a memoiser.
- `isDefined`: the nullish test, in two copies.
- `provide`: builds named references to bindings.

**The smaller cores**
- The Dungeon World roll helpers and the `extractJson` text clean-up.
- The Angular client's path templating.
- The example server's in-memory todo store.

**How asynchronous code is modelled**
- Promises are `Cell`s: `Pending`, `Resolved` with a value, or `Rejected` with an error. They are settled through the `Deferred` model's first-writer-wins functions.
- Each `async` method is split at its `await`s. The method itself runs up to its first suspension. A `stage` field records where it is suspended. A `Step`-style method resumes it by one await, and makes no progress until what it awaits has settled.
- The environment decides when factory and finalizer promises settle, by calling `SettleFactory` and `FinalizerSettled`.
- The `AsyncLocalStorage` stores become explicit parameters:
  - the ambient `BindingContext` is an `Option<BindingContext>`;
  - the ambient resolution stack is an `Option<Stack>`.
- A factory is given as a `Call`: it returns, throws, or suspends. Resolves that a factory makes itself are further calls whose ambient stack is the pushed one.

The files are:
- `common.dfy`: shared values, keys, errors and messages.
- `deferred.dfy`: the `Deferred` signal.
- `once.dfy`: the `once` memoiser.
- `defined.dfy`: the `isDefined` nullish test.
- `binding.dfy`: a single binding.
- `binding_map.dfy`: the binding table.
- `resolution.dfy`: the resolution stack.
- `binding_context.dfy`: a request's context.
- `root_context.dfy`: the root container and its static entry points.
- `provide.dfy`: named references.
- `parse.dfy`: the roll helpers and the text clean-up.
- `client.dfy`: the client path templating.
- `todo_service.dfy`: the todo store.

## Model

| member | source | states |
|---|---|---|
| Signals.Deferred.constructor | di/src/types/deferred.ts:5-16 | a new signal is pending, not completed, with no value and no error |
| Signals.Deferred.IsCompleted | di/src/types/deferred.ts:26-28 | `isCompleted` holds exactly when the state is no longer pending |
| Signals.Deferred.Resolve | di/src/types/deferred.ts:34-39 | the state moves to resolved and stores the value, but only from pending; `error` is untouched |
| Signals.Deferred.Reject | di/src/types/deferred.ts:40-45 | the state moves to rejected and stores the reason, but only from pending; `value` is untouched |
| Signals.SettledIsFinal | src/types/deferred.ts:34-45 | once settled, any sequence of later resolve/reject calls changes nothing, so the state never returns to pending |
| Signals.FirstWriterWins | src/types/deferred.ts:34-45 | after any non-empty sequence of calls on a new signal, the outcome is decided by the first call alone: resolved with its value and no error, or rejected with its reason and no value |
| Signals.ReachableAfter | di/src/types/deferred.ts:34-45 | every state reached by settle calls is well formed: a value only after a resolve, an error only after a reject |
| Memo.Once.constructor | di/src/types/once.ts:5-8 | nothing is captured and the callback has not been invoked |
| Memo.Once.Call | di/src/types/once.ts:9-22 | the first call invokes the callback exactly once, with its own arguments, and captures the outcome; later calls invoke nothing; every call hands back the capture |
| Memo.CallOn | di/src/types/once.ts:10-16 | after a call something is captured, and an existing capture is kept |
| Memo.FirstCallDecides | di/src/types/once.ts:10-21 | every call on a fresh wrapper hands back the callback's outcome on the first call's arguments, result or error alike |
| Memo.CapturedIsRepeated | di/src/types/once.ts:17-21 | once captured, every later call hands back the identical capture, whatever its arguments |
| Definedness.NullishOnly | src/types/defined.ts:3-5 | `isDefined` is false exactly for `null` and `undefined`; it is true for `''`, `0`, `false`, arrays, objects, functions and dates |
| Definedness.IsDefined | src/types/defined.ts:3-5 | false exactly for `null` and `undefined`, true for every other kind of value |
| Definedness.IsDefinedCommon | packages/common/src/types/defined.ts:3-5 | the same answer as the container's copy on every value |
| Definedness.CopiesAgree | packages/common/src/types/defined.ts:3-5 | the common package's copy agrees with the container's on every value |
| Definedness.FilterDefined | src/types/defined.test.ts:75-80 | filtering keeps exactly the non-nullish elements |
| Definedness.FilterKeepsOrder | src/types/defined.test.ts:75-80 | filtering distributes over concatenation, so the original order is kept |
| Definedness.FilterKeepsDefined | src/types/defined.test.ts:75-80 | a sequence with nothing nullish is kept whole |
| Bindings.Binding.constructor | src/binding.ts:26-29 | a live binding holding the given promise, with no dependents, no finalizer call and a pending `destroyed()` |
| Bindings.Binding.Get | src/binding.ts:31-34 | while live, the stored promise; once destroy has begun, the error "This binding has been destroyed." |
| Bindings.Binding.AddDependent | src/binding.ts:36-39 | while live, appends the dependent without de-duplication; once destroyed, fails with the destroyed message and changes nothing |
| Bindings.Binding.Destroy | src/binding.ts:43-46 | the first call marks the binding destroyed and waits on the dependents with its arguments; later calls change nothing; dependents are never touched |
| Bindings.Binding.ValueSettles | src/binding.ts:20 | the producer's promise settles first-writer-wins and nothing else changes |
| Bindings.Binding.Step | src/binding.ts:46-53 | passes the dependents' wait exactly when all their `destroyed()` signals have settled; then passes the value's wait exactly when the value has settled; a rejected value finishes without calling the finalizer; a resolved one calls it once with the value and the destroy arguments; `destroyed()` is resolved and never rejected |
| Bindings.Binding.FinalizerSettled | src/binding.ts:48-52 | a pending finalizer promise settling, fulfilled or rejected, finishes the destroy and resolves `destroyed()` |
| Bindings.DestroyAsWritten | src/binding.ts:43-53 | as written, the finalizer could only be reached with a resolved value and a finalizer present; `AsWrittenNeverFinalizes` shows it is not reached at all |
| Bindings.AsWrittenNeverFinalizes | src/binding.ts:45-47 | as written, the finalizer is never called, even for a resolved value |
| BindingMaps.BindingMap.constructor | di/src/binding-map.ts:11-12 | an empty, live table |
| BindingMaps.BindingMap.IsBound | di/src/binding-map.ts:27-29 | true exactly for the keys resolved in this table, destroyed or not |
| BindingMaps.BindingMap.GetOrCreate | di/src/binding-map.ts:40-51 | an existing key's binding is returned with the table unchanged; a new key gets a fresh binding holding its factory's outcome, appended in insertion order |
| BindingMaps.BindingMap.Resolve | di/src/binding-map.ts:14-25 | once destroyed, fails with "This binding has been destroyed." and adds nothing; otherwise the key's binding, its factory started only on first resolve and its finalizer flag kept; the binding named by `dependentKey`, if in this table, is appended to its dependents; no other binding changes |
| BindingMaps.BindingMap.LinkDependent | di/src/binding-map.ts:20-23 | on a live table, the binding the dependent key names, if any, is appended to the resolved binding's dependents; its value, stage, finalizer flag and finalizer calls stay |
| BindingMaps.BindingMap.SettleFactory | di/src/binding-map.ts:47-48 | the factory's promise of a binding settles, first writer wins; the binding's stage, dependents, finalizer calls and `destroyed()` stay |
| BindingMaps.BindingMap.Destroy | di/src/binding-map.ts:31-33 | the first call marks the table destroyed and starts every binding's destroy with the same arguments; later calls change nothing; no binding is removed |
| BindingMaps.BindingMap.InOrder | di/src/binding-map.ts:33 | `[...bindings.values()]`: one binding per key, in the keys' order, each a binding of the table |
| BindingMaps.DestroyEach | di/src/binding-map.ts:33 | every listed live binding starts its destroy with the same arguments; dependents, values and finalizer calls stay |
| BindingMaps.BindingMap.StepBinding | di/src/binding-map.ts:33-34 | a binding's finalizer is called only after every one of its recorded dependents has finished destroying |
| BindingMaps.BindingMap.StepKeepsValid | di/src/binding-map.ts:31-37 | a table stays valid when one binding's destroy moves on, provided it passes the dependents' wait only once they have all settled |
| BindingMaps.BindingMap.FinalizerSettled | di/src/binding-map.ts:33-34 | a binding waiting on its finalizer finishes when that promise settles |
| BindingMaps.BindingMap.Complete | di/src/binding-map.ts:34-38 | the table's destroy completes exactly when every binding has finished, whatever each outcome; it never fails |
| BindingMaps.CallOutcome | di/src/binding-map.ts:47-48 | a factory's promise is pending exactly when the factory suspends, and is well formed |
| BindingMaps.SomeBindingCanMove | di/src/binding-map.ts:31-38 | with acyclic dependent edges and settled values, an unfinished binding always leads to one whose destroy can move on, so teardown cannot deadlock |
| BindingMaps.NestedResolveAsWritten | di/src/binding-map.ts:14-51 | as written, a resolve issued by a new key's factory runs before that key is stored, so the nested binding records no dependent for it |
| BindingMaps.NestedResolveRegistered | di/src/binding-map.ts:40-51 | with the new binding stored before its factory runs, the nested binding gains it as a dependent, so teardown waits for it |
| Resolution.Empty | di/src/resolution-context.ts:13 | the empty stack: nothing to peek, and a stack every push sequence starts from (no repeated key, no request frame above a root frame) |
| Resolution.Peek | di/src/resolution-context.ts:21 | undefined exactly on the empty stack, else the last pushed key |
| Resolution.Describe | di/src/resolution-context.ts:30 | `toString`: the empty stack describes as the empty string, a one-frame stack as its key's description |
| Resolution.DescribePush | di/src/resolution-context.ts:30 | the description joins key descriptions with "->" in push order |
| Resolution.CheckNoCycle | di/src/resolution-context.ts:40-45 | fails exactly when the key is already on the stack, whatever its scope, with "circular dependency detected: " followed by the stack's description, "->" and the key's description |
| Resolution.CheckScope | di/src/resolution-context.ts:32-38 | fails exactly when a request frame would go above a root frame, with "root scope cannot depend on request scope: " followed by the stack's description, "->" and the key's description |
| Resolution.Push | di/src/resolution-context.ts:23-26 | succeeds exactly when both checks pass, the cycle error first; the child stack is the old one plus the frame, with the frame's key on top |
| Resolution.Run | di/src/resolution-context.ts:23-28 | a failed push is reported unchanged; otherwise the callback's own result or error is returned unchanged |
| Resolution.PushPreservesReached | di/src/resolution-context.ts:24-26 | every stack built by successful pushes has no repeated key and no request frame above a root frame |
| Resolution.AllowedPushes | di/src/resolution-context.ts:32-38 | request on request, root on root and root on request are allowed for a fresh key |
| Resolution.CycleReportedFirst | di/src/resolution-context.ts:24-25 | a cycle is reported even when the scope check would also fail |
| BindingContexts.BindingContext.constructor | di/src/binding-context.ts:22-30 | shares the given root table and owns a fresh, empty request table |
| BindingContexts.BindingContext.Resolve | di/src/binding-context.ts:32-44 | `ResolveEffect`: once destroyed, fails with "This binding has been destroyed."; a failed push is reported and no table changes; otherwise root scope fails exactly when the shared table is destroyed and request scope always succeeds; the answer is the key's binding, a new one holding the factory's outcome and finalizer flag; the innermost key below the new frame, if bound in that table, is appended to the answer's dependents, which otherwise stay as they were (empty for a new binding); no other binding of that table changes, and the other table is untouched |
| BindingContexts.ResolveIn | di/src/binding-context.ts:38-41 | resolving in one table has exactly the effect `TableResolved` describes: fails only once the table is destroyed, answers with the key's binding, appends the dependent's binding to its dependents when the table has one and leaves them as they were otherwise, changing no other binding |
| BindingContexts.BindingContext.ResolveRoot | di/src/binding-context.ts:38-39 | on a live context after a successful push, the root arm has the whole effect of `resolve` for root scope, the answer's dependents included |
| BindingContexts.BindingContext.ResolveRequest | di/src/binding-context.ts:40-41 | on a live context after a successful push, the request arm has the whole effect of `resolve` for request scope, the answer's dependents included, and never fails |
| BindingContexts.BindingContext.IsBound | di/src/binding-context.ts:46-54 | asks the table of the given scope, ignoring the destroyed flag |
| BindingContexts.BindingContext.Destroy | di/src/binding-context.ts:58-61 | the first call destroys only the request table, with the run's outcome, starting every request binding's destroy; later calls change nothing, the bindings' stages included; no binding's value, dependents or finalizer calls change |
| BindingContexts.BindingContext.Step | di/src/binding-context.ts:61-66 | `destroyed()` resolves exactly when every request binding has finished, and never rejects |
| RootContexts.RequestResultOf | di/src/root-context.ts:54-58 | a returned body gives a success outcome, a thrown one a failure |
| RootContexts.RunOutcome | di/src/root-context.ts:55-59 | a success outcome is returned, a failure rethrown |
| RootContexts.RunReportsBody | di/src/root-context.ts:54-59 | `run` reports exactly its body's result or the identical error |
| RootContexts.TeardownSeesReport | di/src/root-context.ts:55-58 | the outcome the request finalizers see is the one `run` reports |
| RootContexts.RootContext.constructor | di/src/root-context.ts:35-37 | an empty root table, no running request, not destroyed |
| RootContexts.RootContext.IsDestroyed | di/src/root-context.ts:39-41 | true from the first `destroy` call on; while false the root table is live |
| RootContexts.RootContext.Run | di/src/root-context.ts:49-52 | once destroyed, fails with "This context has been destroyed." and registers nothing; otherwise a fresh request context with a fresh empty request table over the shared root table, registered as running |
| RootContexts.RootContext.FinishBody | di/src/root-context.ts:54-58 | the request is destroyed with the body's outcome |
| RootContexts.RootContext.EndRun | di/src/root-context.ts:55-62 | once the request's destroy has finished, the request is unregistered and `run` settles with the outcome it was destroyed with |
| RootContexts.RootContext.Destroy | di/src/root-context.ts:65-68 | the first call sets the destroyed flag at once and waits for exactly the requests running then; later calls change nothing |
| RootContexts.RootContext.StepDestroy | di/src/root-context.ts:68-73 | the root table's destroy starts only once every awaited request's `destroyed()` has settled, with no arguments; the root finishes when that destroy does, never rethrowing |
| RootContexts.CurrentOrThrow | di/src/root-context.ts:27-33 | the ambient request, or "Cannot resolve binding outside of context" |
| RootContexts.AmbientResolve | di/src/root-context.ts:19-21 | outside a request, fails with the no-context message; otherwise exactly the ambient request's `ResolveEffect`: its failures, its answer, and the answer's dependents gaining the dependent edge or otherwise unchanged |
| RootContexts.AmbientIsBound | di/src/root-context.ts:23-25 | outside a request, fails with the no-context message; otherwise the ambient request's answer |
| Provide.NeverFactory | piks/src/provide.ts:46-50 | the default factory throws "Ref <name> has no factory" |
| Provide.ContextOptionsOf | piks/src/provide.ts:32-37 | the key is registered under the name, the factory defaults to the throwing one, the scope defaults to root |
| Provide.SameNameSameKey | piks/src/provide.ts:33 | two references share a key exactly when their names agree |
| Provide.MissingFactoryRejects | piks/src/provide.ts:34-50 | the outcome of the factory a reference without `use` is given is a rejection with "Ref <name> has no factory"; `Invoke` states that a binding it creates holds exactly this value |
| Provide.Invoke | piks/src/provide.ts:31-50 | resolves the reference's key, factory and scope with the ambient request's full resolve effect, the answer's dependents included; a binding it creates for a ref without a factory holds a value rejected with "Ref <name> has no factory"; an existing binding is handed back with its own value |
| Provide.BindTo | piks/src/provide.ts:39 | the ambient request's full resolve effect, the answer's dependents included, with a factory returning the value: a new binding holds the bound value; an existing binding keeps its own value, so the declared factory never runs if `bindTo` comes first |
| Provide.IsBoundRef | piks/src/provide.ts:40 | whether the table of the reference's own scope holds its own key |
| Rolls.InterpretRoll | schnack/src/game/parse.ts:21-25 | full exactly from 10, partial exactly from 7 to 9, failure exactly at 6 and below |
| Rolls.InterpretRollMonotone | schnack/src/game/parse.ts:21-25 | a higher total never reads as a worse tier |
| Rolls.Roll2d6PlusStat | schnack/src/game/parse.ts:13-18 | the dice are returned in order and the total is the two dice plus the stat, so it lies between stat + 2 and stat + 12 |
| Rolls.StatDecidesExtremes | schnack/src/game/parse.ts:16-24 | a stat of 8 or more always reads as a full success, one of -6 or less always as a failure, whatever the dice |
| Rolls.Trim | schnack/src/game/parse.ts:3 | the text between the bounds of `TrimBounds`, so it begins and ends with a non-space character |
| Rolls.TrimBounds | schnack/src/game/parse.ts:3 | everything before the start and from the end on is whitespace, and a non-empty middle starts and ends with a non-space |
| Rolls.TrimIdempotent | schnack/src/game/parse.ts:3 | trimming twice trims nothing more |
| Rolls.FindFence | schnack/src/game/parse.ts:5 | the first fence at or after a position, or none at all |
| Rolls.ContentStart | schnack/src/game/parse.ts:5 | the group starts after the opening fence, its `json` tag when present and all the whitespace that follows |
| Rolls.FenceContent | schnack/src/game/parse.ts:5-7 | no match exactly when there is no fence, or no fence at or after the group's start; otherwise the group starts at `ContentStart` after the first fence and ends at the first fence from there |
| Rolls.ExtractJsonText | schnack/src/game/parse.ts:2-10 | the text handed to `JSON.parse` begins and ends with a non-space; without a match it is the trimmed reply |
| Rolls.ExtractedIsSlice | schnack/src/game/parse.ts:2-10 | the text handed to `JSON.parse` is always one contiguous piece of the reply |
| Rolls.ExtractedBounds | schnack/src/game/parse.ts:2-10 | the reply's trimmed span without a fenced block, else the trimmed span of the block's content inside it, is exactly the text handed to `JSON.parse` |
| Rolls.FencedText | schnack/src/game/parse.ts:5-7 | with a fenced block, the text handed to `JSON.parse` is the block's content, trimmed |
| Rolls.TrimmedSliceBounds | schnack/src/game/parse.ts:3-7 | trimming a piece of a piece of the reply leaves a piece of the reply, inside the inner piece |
| Rolls.UnfencedIsTrimmed | schnack/src/game/parse.ts:3-8 | a reply without a fence is only trimmed |
| Rolls.ContentHasNoFence | schnack/src/game/parse.ts:5-7 | when a fenced block is found, the kept text holds no fence: it stops at the first closing one |
| Paths.ReplaceAllWithoutOccurrence | packages/plugin-angular/src/client.ts:53-55 | a path in which `:name` never occurs comes back unchanged |
| Paths.ReplaceAllBySelf | packages/plugin-angular/src/client.ts:53-55 | replacing a placeholder by its own text changes nothing |
| Paths.ReplaceAllSameLength | packages/plugin-angular/src/client.ts:53-55 | a value as long as its placeholder keeps the path's length |
| Paths.ReplaceAll | packages/plugin-angular/src/client.ts:54 | a string shorter than the pattern is unchanged, and every character of the result comes from the string or the replacement; what happens to an occurrence is stated by `ReplaceAllSplit` |
| Paths.ReplaceAllSplit | packages/plugin-angular/src/client.ts:54 | in `a + pat + b` where `pat` starts nowhere inside `a`, the first occurrence becomes the replacement, `a` is kept and the search resumes on `b`; with `ReplaceAllWithoutOccurrence` this fixes the result of `replaceAll` for every input |
| Paths.PrimitiveText | packages/plugin-angular/src/client.ts:54 | a string as it is, a boolean as its name, an integer as a sign exactly when negative followed by decimal digits denoting its magnitude (for magnitudes below 10^21, see "## Left out") |
| Paths.NatTextValue | packages/plugin-angular/src/client.ts:54 | reading back the decimal digits of a number gives the number |
| Paths.ReplaceParam | packages/plugin-angular/src/client.ts:53-55 | every character of the result comes from the path or from the parameter's text; the substitution itself is `ReplaceParamOnce` |
| Paths.ReplaceParamOnce | packages/plugin-angular/src/client.ts:53-55 | a colon-free prefix, `:name`, and a rest without `:name` become the prefix, the value's text and the rest: the placeholder is replaced and nothing else changes |
| Paths.ReplaceParamsSingle | packages/plugin-angular/src/client.ts:49 | a single entry is folded in by exactly one `replaceParam` |
| Paths.ReplaceParams | packages/plugin-angular/src/client.ts:49 | no params leave the path as it is, and no character is invented: each comes from the template or a parameter value; each entry's substitution is `ReplaceParamOnce`, applied in order by `ReplaceParamsFront` |
| Paths.ToPath | packages/plugin-angular/src/client.ts:48-51 | the result is the base URL followed by a slash; a path without placeholders follows it unchanged; with a placeholder, see `ToPathOneParam` |
| Paths.ToPathOneParam | packages/plugin-angular/src/client.ts:48-55 | an endpoint path with one placeholder `:name` and its one parameter gives the base URL, a slash, and the path with `:name` replaced by the value's text |
| Paths.ToPathBlogsId | packages/plugin-angular/src/client.ts:48-55 | the `/blogs/:id` endpoint with `id` 42, as a string or a number, gives `//blogs/42` as written and `/blogs/42` when joined with one slash |
| Paths.BlogsIdReplaced | packages/plugin-angular/src/client.ts:49 | `/blogs/:id` with an `id` whose text is `42` is replaced to `/blogs/42` |
| Paths.BlogsIdWith | packages/plugin-angular/src/client.ts:48-51 | as written, that request path is `//blogs/42` |
| Paths.BlogsIdJoined | packages/plugin-angular/src/client.ts:48-51 | joined with one slash, that request path is `/blogs/42` |
| Paths.ReplaceParamsFront | packages/plugin-angular/src/client.ts:49 | the entries are applied left to right, each on the previous output |
| Paths.ColonFreePathUnchanged | packages/plugin-angular/src/client.ts:49 | a path containing no ':' is unchanged by any params |
| Paths.NoPlaceholderInColonFree | packages/plugin-angular/src/client.ts:54 | a string without ':' holds no `:name` placeholder at any position |
| Paths.ToPathDoublesSlash | packages/plugin-angular/src/client.ts:50 | as written, `/blogs` under the empty base URL becomes `//blogs` |
| Paths.ToPathJoinedSingleSlash | packages/plugin-angular/src/client.ts:48-51 | joined with one slash, `/blogs` under the empty base URL is `/blogs`, and a path without a leading slash is joined as before |
| Todos.Copy | packages/plugin-zod/src/zod-struct.ts:39-41 | every present override replaces its field, the others are kept |
| Todos.CopyEmpty | packages/plugin-zod/src/zod-struct.ts:39-41 | copying with no overrides gives an equal todo |
| Todos.CopyIdempotent | packages/plugin-zod/src/zod-struct.ts:39-41 | applying the same update twice equals applying it once |
| Todos.TodoService.constructor | example/server/src/todo/todo.service.ts:9 | an empty store |
| Todos.TodoService.Store | example/server/src/todo/todo.service.ts:19 | `Map.set`: the entry is replaced; a new key goes last, an existing one keeps its place |
| Todos.TodoService.GetById | example/server/src/todo/todo.service.ts:39-43 | the stored todo, or "Not Found" exactly when the id is absent |
| Todos.TodoService.Create | example/server/src/todo/todo.service.ts:10-21 | stores and returns a todo with the fresh id and the body's title, not done, with createdAt equal to updatedAt; every other entry stays |
| Todos.TodoService.UpdateById | example/server/src/todo/todo.service.ts:23-29 | a missing id fails with "Not Found" and changes nothing; otherwise the copy with the body's overrides is stored under its id and returned, an id not stored before going last in iteration order and a stored one keeping its place; updatedAt is not refreshed |
| Todos.TodoService.DeleteById | example/server/src/todo/todo.service.ts:31-33 | the id is gone and everything else stays; an absent id changes nothing |
| Todos.TodoService.GetAll | example/server/src/todo/todo.service.ts:35-37 | exactly the stored todos, each once, in insertion order |

## Left out

- The `AsyncLocalStorage` stores are not modelled. The ambient request context and resolution stack are explicit parameters.
- Promise scheduling is not modelled. Each await is one explicit step, and interleavings are whatever order the caller invokes the steps in.
- A factory that returns at once produces an already settled value. In the source, `asyncUse` wraps it in a promise that settles one microtask later; this delay is not modelled.
- Synchronous throws and rejected promises are not told apart. Both are `Err`.
- A factory's own resolves are not modelled as re-entrant calls. They are separate calls made with the pushed stack, in an order the caller chooses.
- The nested-resolve order is not enforced. In the source, a factory runs inside `getOrCreate` before its binding is stored (di/src/binding-map.ts:47-49). A resolve it issues before its first `await` therefore finds no binding under its dependent key and records no edge. The model reproduces this only when the caller issues the nested `Resolve` before the outer one, as `NestedResolveAsWritten` does; see "## Findings".
- Re-entrant calls of a `once` wrapper, made while its callback is still running, are not modelled.
- `RootContext.with` is not modelled. It only wraps a handler in `run`.
- The `promise` field of a `Deferred` and its captured resolve/reject functions are not modelled separately. The settlement of the promise is the `Cell` itself.
- Values are integers and thrown values are `Error`s, because the container never inspects either.
- Keys are modelled as `Interned` (for `Symbol.for`) and `Unique` (for `Symbol()`), which is all the container compares or prints.
- RootContexts.RootContext.StepDestroy: states the root teardown order through each awaited request's `destroyed()` signal. It does not repeat that request's table invariant, because each request's frame is kept out of the root's invariant.
- BindingMaps.SomeBindingCanMove: takes acyclic dependent edges as a hypothesis. The resolution stack rules out a cycle among the frames being resolved, but not among edges recorded at different times.
- `JSON.parse` is not modelled. The model stops at the text handed to it.
- The JS whitespace set is reduced to space, tab, line feed, carriage return, vertical tab and form feed.
- The `Math.random` dice draw is not modelled. The dice are parameters in 1..6.
- Rolls.InterpretRoll: takes an integer total. In the source the total is a JS `number` built from a stat read out of a model's JSON reply, so a fractional total (9.5 reads as partial) is not represented.
- Rolls.Roll2d6PlusStat: takes an integer stat, for the same reason.
- `replaceAll` is modelled with a literal replacement. `$` patterns in a parameter's text are not interpreted.
- Only integer numbers are given a text form.
- Paths.PrimitiveText: prints every integer in decimal. JS prints a number of magnitude 10^21 or more in exponent form (`1e+21`), and a JS number cannot hold every integer above 2^53 exactly, so the decimal text matches `${value}` only below those bounds.
- `Object.entries` is taken as the given entry order. Integer-like keys, which JS lists first, are not reordered.
- `uuidv7()` and `new Date()` are not modelled. The todo store takes the id and the time as parameters.
- The fields of `TodoDto` (id, title, isDone, createdAt, updatedAt) are taken from the service and the example web app, since example/api/src/index.ts shows only `id`. Zod validation is not modelled.
- Framework glue and I/O are not part of this model:
  - the Angular client class factory;
  - the NestJS and zod plugins;
  - typed endpoint dispatch;
  - the example web app;
  - the LLM, console and filesystem code of the game.

## Findings

| source | as written | input that shows it | evidently intended | confidence | as-written member | corrected member |
|---|---|---|---|---|---|---|
| src/binding.ts:45-47 | `destroy` sets `isDestroyed` before `await this.get()`, which then throws; the `catch` swallows it, so the finalizer is never called | any binding with a finalizer whose value resolves, destroyed once | the finalizer is called with the stored value and the destroy arguments (piks/src/binding.test.ts:64-79) | not executed | Bindings.AsWrittenNeverFinalizes | Bindings.Binding.Step |
| packages/plugin-angular/src/client.ts:50 | the base URL, a slash and the replaced path are concatenated, so a path that starts with a slash gets two | path `/blogs`, base URL `''`, no params gives `//blogs` | `/blogs` (packages/plugin-angular/test/client.spec.ts:74) | not executed | Paths.ToPathDoublesSlash | Paths.ToPathJoinedSingleSlash |
| di/src/binding-map.ts:47-49 | `getOrCreate` invokes the factory (through `asyncUse`) before `this.bindings.set`, so a resolve the factory issues synchronously looks up its dependent key (line 20) before that binding is stored | a root binding `A` whose factory is `async () => new Svc(await refB())`, resolved first: `B` is created with no dependent, so `B`'s finalizer can run before `A`'s | the binding being created is recorded as a dependent of what its factory resolves, as dependency tracking via the resolution context does (src/binding-context.test.ts:39-70) | not executed | BindingMaps.NestedResolveAsWritten | BindingMaps.NestedResolveRegistered |
