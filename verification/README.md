# Scopy: scoped values, their analyzer and their wrapper generator

Scopy lets C# code hand values down a call chain without passing them as arguments. A scope is
pushed, values are provided into it keyed by type name, and any callee can resolve them. The
nearest scope that binds the key wins, and popping a scope forgets what was provided into it.

The Dafny project models three parts of the library.

- **The runtime** (`CurrentScope`): the chain of scopes of one execution context, with `Push`,
  `Pop`, `Dispose`, `Provide` and `Resolve`.
- **The analyzer**: a Roslyn analyzer that summarizes, for every method, the scope effects it
  performs. Those effects are pushes, provides and resolves, including the ones its callees
  perform. The summaries are memoized in a cache and guarded against cycles by a `visited` set.
  The analyzer reports two things:
  - a provide of a type that is already provided in the same scope segment
    (`SCOPY_ALREADY_PROVIDED_VALUE`);
  - an effect reached under a conditional, switch, loop or try (`SCOPY_DEBUG`).
- **The wrapper generator**: a source generator that turns a method carrying a `Scope` attribute
  into a wrapper `<Name>Scoped`. The wrapper resolves the `[Scope]` and `[FrozenScope]`
  parameters, brackets the call with `Push` and `Pop` when the method itself is scoped, provides
  the call's result and freezes the scope for a `[FrozenScope]` method.

The modules:

| module | file | what it holds |
|---|---|---|
| `Wrappers` | wrappers.dfy | `Option`, `Result` and associativity of concatenation |
| `ScopeRuntime` | scope_runtime.dfy | the scope chain as a sequence of frames, root first, current last, with the runtime's operations |
| `ScopeLaws` | scope_laws.dfy | runs of operations from the initial chain, and the algebra of push, pop, provide and resolve |
| `Operations` | operations.dfy | the operation tree the analyzer walks, `Descendants` in pre-order, `IsHiddenInLocalFlow`, and the classifiers of runtime calls |
| `Summaries` | summaries.dfy | effect stacks (top at index 0), `PushScopeData`, `IsValueProvided`, and the memoized, cycle-guarded summarizer |
| `Detector` | detector.dfy | `CheckAndPush` and the per-method operation block action |
| `Exactness` | exactness.dfy | on acyclic call graphs, the memoized summarizer and the driver both compute the plain recursive summary |
| `Scenarios` | scenarios.dfy | what the analyzer model reports on small call graphs, each stated for every choice of methods |
| `AttributeText` | attribute_text.dfy | substring search and the two attribute class names |
| `WrapperGenerator` | wrapper_generator.dfy | the generator pipeline, producing a statement list instead of text, and the shape of what it produces |
| `WrapperExecution` | wrapper_execution.dfy | what a generated wrapper does to the caller's scope chain |

The analyzer keeps two quirks of the code on purpose.

- **Summaries come out newest first.** A stack is enumerated from the top, so a callee's
  effects are replayed onto the caller's stack in reverse order (`Summaries.SpliceReverses`).
  As a result, a callee's push can be judged before the callee's provide, or after it.
- **`Pop` is never recorded.** A pop does not end a segment.

The analyzer also behaves as follows.

- **The hidden-flow flag is not inherited through an intermediate method.** An effect is judged
  only by its own parents and by the call site in the method under analysis
  (Generators/ScopeGenerator.cs:515-517 and 540; `Scenarios.ChainHiddenFlowIsNotInherited`).
- **Paths are not distinguished.** A provide under an `if` followed by an unconditional provide
  of the same type is still reported as already provided (Generators/ScopeGenerator.cs:708-715;
  `Scenarios.ConditionalProvideStillCounts`).
- **Hidden flow is reported as a warning** (Generators/ScopeGenerator.cs:695-702).
- **A direct runtime call is reported at the enclosing operation block**
  (Generators/ScopeGenerator.cs:523).
- **The `Resolve` error names the requested type** (ScopyRuntime/CurrentScope.cs:101).
- **Keyed provides all collide.** A provide's type is the type of the provide method's first
  parameter (Generators/ScopeGenerator.cs:717-720). So every keyed `Provide<T>(string, T)` has
  type `string`, and two keyed provides collide whatever their keys.

## Model

| member | source | states |
|---|---|---|
| ScopeRuntime.Push | ScopyRuntime/CurrentScope.cs:53-57 | a new empty frame with the given name becomes current, and the old chain is its ancestry unchanged |
| ScopeRuntime.Dispose | ScopyRuntime/CurrentScope.cs:58-62 | disposing the root changes nothing; disposing any other frame makes its parent current and drops that frame and everything above it |
| ScopeRuntime.Pop | ScopyRuntime/CurrentScope.cs:64-67 | the chain never becomes empty; a one-frame chain is unchanged; otherwise exactly the current frame is removed |
| ScopeRuntime.Provide | ScopyRuntime/CurrentScope.cs:81-84 | first write wins: a bound key keeps its value and the chain is unchanged; otherwise the key is bound to the value in the current frame; no other frame and no other key changes |
| ScopeRuntime.Resolve | ScopyRuntime/CurrentScope.cs:89-102 | succeeds iff some frame binds the key, and then returns the binding of the frame nearest the current one; otherwise fails naming the requested type |
| ScopeLaws.ReachableStatesHaveRoot | ScopyRuntime/CurrentScope.cs:36-67 | the static constructor leaves one frame named "Scope"; from there, every sequence of pushes, pops and provides leaves a non-empty chain whose root is still named "Scope" |
| ScopeLaws.PopAfterPush | ScopyRuntime/CurrentScope.cs:53-67 | `Pop` after `Push` restores the chain and the current frame |
| ScopeLaws.PopRootIsNoOp | ScopyRuntime/CurrentScope.cs:58-67 | any number of pops on the root-only chain leaves it unchanged |
| ScopeLaws.ProvideTwiceKeepsFirst | ScopyRuntime/CurrentScope.cs:81-84 | a second provide of the same key is ignored |
| ScopeLaws.ProvideThenResolveOfType | ScopyRuntime/CurrentScope.cs:77-101 | `Resolve<T>()` right after `Provide<T>(v)` gives `v`, or the value the current frame already bound for `T` |
| ScopeLaws.ResolveAfterPush | ScopyRuntime/CurrentScope.cs:53-57 | a freshly pushed scope inherits every binding of its parent |
| ScopeRuntime.ResolveAs | ScopyRuntime/CurrentScope.cs:89-102 | with the checked cast `(T)value`: succeeds iff a nearest binding exists and is of the requested type, returning what `Resolve` returns; otherwise fails with the cast error when some frame binds the key and with the not-found error when none does |
| ScopeLaws.ResolveOtherTypeFailsCast | ScopyRuntime/CurrentScope.cs:81-102 | providing a value and then resolving its key as a type the value is not of throws the cast error, even when a farther frame binds the key to a value of that type |
| ScopeLaws.CurrentFrameShadows | ScopyRuntime/CurrentScope.cs:93-96 | a binding in the current frame hides every binding of the same key further up the chain |
| ScopeLaws.RunAboveKeepsBase | ScopyRuntime/CurrentScope.cs:53-84 | operations that never pop below their starting depth leave every frame below untouched, at the depth their net count predicts |
| ScopeLaws.BalancedBracketRestores | ScopyRuntime/CurrentScope.cs:53-67 | `Push`, then any balanced sequence of operations, then `Pop` restores the chain exactly |
| ScopeLaws.ProvidesInsideBracketAreForgotten | ScopyRuntime/CurrentScope.cs:53-102 | after `Push`, any provides and `Pop`, every `Resolve` returns what it returned before the `Push`: the provides inside are forgotten |
| ScopeLaws.ProvidesOnlyAreBalanced | ScopyRuntime/CurrentScope.cs:81-84 | a sequence of provides never changes the depth |
| Operations.IsHiddenInLocalFlow | Generators/ScopeGenerator.cs:722-732 | true iff some ancestor of the operation is a conditional, switch, loop or try |
| Operations.Descendants | Generators/ScopeGenerator.cs:606-615 | every invocation found records, as the end of its parent list, the operation it was found under and that operation's ancestors |
| Operations.DescendantsAreInvocations | Generators/ScopeGenerator.cs:615 | a call is found below an operation iff a path of child indices leads from it to an invocation node with that site and target, and the call's parent list is exactly the kinds of that node's ancestors |
| Operations.DescendantsCount | Generators/ScopeGenerator.cs:615 | the walk returns one call per invocation node below the operation, so no node is missed or found twice |
| Operations.DescendantsOfChildrenConcat | Generators/ScopeGenerator.cs:615 | siblings are walked left to right: everything found below earlier children comes before everything found below later ones |
| Operations.UnderControlIsHidden | Generators/ScopeGenerator.cs:722-732 | every invocation below a control operation is hidden in local flow |
| Operations.ControlFreeIsVisible | Generators/ScopeGenerator.cs:722-732 | no invocation below a control-free operation with control-free ancestors is hidden |
| Summaries.IsValueProvided | Generators/ScopeGenerator.cs:708-715 | true iff some entry in the segment above the newest push provides the same type as the given provide |
| Summaries.SpliceReverses | Generators/ScopeGenerator.cs:625-638 | replaying a summary of effects puts them on the caller's stack in reverse order, attributed to the call site |
| Summaries.GetOrAnalyzeSummary | Generators/ScopeGenerator.cs:576-604 | a cache hit is returned unchanged; a method already being summarized gets an empty summary and no cache entry; a method without a body gets an empty summary and stays marked visited; otherwise its summary is computed, cached if absent, and its mark removed; the cache only grows, never overwrites, and holds only scope effects |
| Summaries.AnalyzeMethodRecursive | Generators/ScopeGenerator.cs:606-639 | the cache only grows, new entries are never for methods in progress, and every summary holds only pushes, provides and resolves |
| Detector.CheckAndPush | Generators/ScopeGenerator.cs:532-574 | a hidden-flow diagnostic iff the site or the effect is hidden; an already-provided diagnostic iff the effect is a provide whose type is provided in the current segment, judged before the push; at most these two diagnostics, both at the site; only scope effects are recorded |
| Detector.DriveCalls | Generators/ScopeGenerator.cs:504-526 | the cache only grows and keeps holding only scope effects, and so does the stack |
| Detector.AnalyzeOperationBlocks | Generators/ScopeGenerator.cs:495-530 | non-method owners are skipped; otherwise the owner's stack is offered to the cache insert-if-absent, so after the call the owner is cached and no earlier entry changes |
| Detector.CheckSummaryStack | Generators/ScopeGenerator.cs:515-518 | the stack the driver builds while reporting equals the one the summarizer builds for the same summary |
| Detector.RepeatedProvideIsReported | Generators/ScopeGenerator.cs:708-715 | two provides of one type with no push between them: the second is reported at its site |
| Detector.PopDoesNotEndSegment | Generators/ScopeGenerator.cs:556-559 | a `Pop` is not recorded, so a provide after it is judged exactly as if the `Pop` were absent |
| Exactness.MemoIsExact | Generators/ScopeGenerator.cs:576-639 | on an acyclic call graph, with an exact cache and every method in progress ranked above the target, the memoized, cycle-guarded summarizer returns the plain recursive summary and leaves the cache exact |
| Exactness.AnalyzeCallsExact | Generators/ScopeGenerator.cs:613-638 | the summarizer's loop from any invocation on agrees with the plain recursive walk |
| Exactness.DriveCallsExact | Generators/ScopeGenerator.cs:504-526 | the driver's loop builds the plain recursive stack and keeps the cache exact |
| Exactness.DriverAgreesWithSummarizer | Generators/ScopeGenerator.cs:495-530 | what the driver offers to the cache for a method is what the summarizer computes for it |
| Scenarios.DuplicateProvideReportedOnce | Generators/ScopeGenerator.cs:532-562 | two unconditional provides of one method: exactly one already-provided diagnostic, at the block |
| Scenarios.ConditionalProvideStillCounts | Generators/ScopeGenerator.cs:540-553 | a provide under `if`, then an unconditional one: one hidden-flow diagnostic and one already-provided diagnostic |
| Scenarios.ChainConditionalCallSiteIsReported | Generators/ScopeGenerator.cs:504-518 | a method calling, under `if`, a method that provides: hidden flow is reported at the call site |
| Scenarios.ChainHiddenFlowIsNotInherited | Generators/ScopeGenerator.cs:540-544 | one level further up the chain, no diagnostic is reported |
| Scenarios.ReplayOrderReportsScopedProvide | Generators/ScopeGenerator.cs:625-638 | a callee that pushes and then provides a type its caller already provided is reported, because its summary is replayed newest first |
| Scenarios.ReplayOrderMissesDuplicate | Generators/ScopeGenerator.cs:625-638 | a callee that provides and then pushes a type its caller already provided is not reported, for the same reason |
| Scenarios.CycleUnderApproximates | Generators/ScopeGenerator.cs:582-603 | on a two-method cycle, a summary depends on the order in which summaries are requested |
| Scenarios.SelfRecursionTerminates | Generators/ScopeGenerator.cs:586 | a self-recursive method's summary is its own provide, once |
| WrapperGenerator.FirstScopeAttrSpec | Generators/ScopeGenerator.cs:214-224 | no attribute is found iff none mentions "Scope"; otherwise the first that does is found |
| WrapperGenerator.Filter | Generators/ScopeGenerator.cs:269-296 | a parameter is in the result iff it is in the input and satisfies the predicate; the result is never longer than the input |
| WrapperGenerator.FilterOne | Generators/ScopeGenerator.cs:269-296 | a one-element list keeps its element iff the element satisfies the predicate |
| WrapperGenerator.FilterConcat | Generators/ScopeGenerator.cs:269-296 | filtering distributes over concatenation, so with `FilterOne` order and multiplicity are kept, as `Where` keeps them |
| WrapperGenerator.ScopedMethodAsWritten | Generators/ScopeGenerator.cs:107-118 | generation fails iff the method has no parameters |
| WrapperGenerator.CorrectedAgreesWhenParameters | Generators/ScopeGenerator.cs:180-192 | the corrected pipeline produces the same wrapper as the pipeline as written whenever that one succeeds, which is exactly when there are parameters |
| WrapperGenerator.BodyShape | Generators/ScopeGenerator.cs:180-192 | the body is, in order: one frozen resolve per `[FrozenScope]` parameter, one resolve per `[Scope]` parameter, then `Push` iff the method is scoped, exactly one call, `Pop` iff scoped, `Provide` iff non-void and `Freeze` iff the method's scope attribute is a `FrozenScope` one; nothing else |
| WrapperGenerator.DeclaredNames | Generators/ScopeGenerator.cs:342-370 | the body declares a name iff a `[Scope]` or `[FrozenScope]` parameter has that name |
| WrapperGenerator.InputNames | Generators/ScopeGenerator.cs:293-296 | a name is a wrapper input iff a parameter without a `Scope` attribute has it |
| WrapperGenerator.ArgumentsBound | Generators/ScopeGenerator.cs:263-296 | every argument of the call is an input or a resolved local iff each `Scope`-attributed parameter carries exactly `[Scope]` or `[FrozenScope]` |
| WrapperGenerator.CallPassesEveryParameter | Generators/ScopeGenerator.cs:263-267 | the body calls the original method with every parameter, in order, binding the result iff it returns one |
| WrapperGenerator.InputsAreNeverResolved | Generators/ScopeGenerator.cs:269-296 | no wrapper input is also resolved |
| WrapperGenerator.FrozenObjectReference | Generators/ScopeGenerator.cs:107-118 | every frozen resolve passes the first parameter's name as the object reference; that name is a wrapper input iff the first parameter has no `Scope` attribute |
| WrapperGenerator.ResultUsedIffBound | Generators/ScopeGenerator.cs:321-341 | the body reads `methodCallResult` iff it binds it iff the method returns a value |
| WrapperGenerator.ParameterlessScopedMethodFails | Generators/ScopeGenerator.cs:116 | a `[Scope]` method without parameters is selected for generation, and generation as written fails on it |
| WrapperGenerator.ParameterlessScopedMethodIsWrapped | Generators/ScopeGenerator.cs:308-319 | with the correction, that method is wrapped in push, call, pop, with no inputs |
| WrapperExecution.WrapperOps | Generators/ScopeGenerator.cs:308-341 | the scope operations the wrapper performs when no statement throws are: `Push` iff scoped, the original method's own operations, `Pop` iff scoped, then `Provide` of the result iff non-void |
| WrapperExecution.ScopedWrapperProvidesIntoCaller | Generators/ScopeGenerator.cs:308-329 | when no statement throws, a scoped wrapper around a balanced method leaves the caller's chain as it was, except that the result is provided into the caller's current frame |
| WrapperExecution.UnscopedWrapperRunsInPlace | Generators/ScopeGenerator.cs:81-89 | without a scope attribute on the method, and when no statement throws, the method's operations act on the caller's chain and the result is provided on top |
| WrapperExecution.ResultVisibleAfterScopedCall | Generators/ScopeGenerator.cs:321-329 | after a scoped wrapper returns without an exception, the caller can resolve its result, unless its current frame already bound that type |
| WrapperExecution.ReturnedRunsOps | Generators/ScopeGenerator.cs:308-355 | whenever a statement list runs to its end without an exception, the chain it leaves is the one its scope operations produce |
| WrapperExecution.ExecResolves | Generators/ScopeGenerator.cs:343-355 | the resolves leave the chain alone, and throw iff some `[Scope]` parameter is unbound or bound to a value of another type |
| WrapperExecution.WrapperOutcome | Generators/ScopeGenerator.cs:308-355 | for every method, chain and behaviour of the original method: a failing resolve throws with the chain untouched; otherwise the original method runs above the optional `Push`; if it throws, the exception leaves the wrapper with no `Pop` and no `Provide`; if it returns, the wrapper pops and then provides the result |
| WrapperExecution.ThrowLeavesWrapperFrame | Generators/ScopeGenerator.cs:310-318 | the push template has no `try`/`finally`, so when the original method throws, the caller is left one frame deeper, and popping that frame would restore its chain |
| WrapperExecution.UnresolvedParameterThrowsEarly | Generators/ScopeGenerator.cs:343-355 | a `[Scope]` parameter that does not resolve makes the wrapper throw before it changes the caller's chain |

## Left out

- The `AsyncLocal` that makes the chain per execution context, and its concurrency, are not
  modelled. The model covers one context's chain as a value.
- The frame's `Guid` identifier is left out.
- ScopeRuntime.Resolve: it returns the nearest binding without the checked cast `(T)value`
  (ScopyRuntime/CurrentScope.cs:96). That cast throws `InvalidCastException` when the binding is
  of another type, for example `Provide<A>("k", a)` followed by `Resolve<B>("k")`.
  `ScopeRuntime.ResolveAs` adds the cast, with the runtime type test as a parameter because
  bound values are opaque. The laws in `ScopeLaws` other than `ResolveOtherTypeFailsCast` are
  stated for `Resolve`, that is, for resolves whose type matches.
- A null key or a null value is not modelled.
- `Freeze` and `ResolveFrozen` have no runtime semantics here. The runtime file does not define
  them, so in `WrapperExecution` the wrapper's frozen resolves and its `Freeze` perform no scope
  operation and never throw.
- Roslyn plumbing is abstracted away. That covers syntax locations, diagnostic message text,
  semantic models, the `ConcurrentDictionary`'s concurrency, and `FirstOrDefault` over several
  declarations. A method's body is an operation tree in a `CallGraph` map; a method without a
  body is absent from the map.
- The unused `IsDisposeScopeMethod` classifiers, the `ScopeAction` and `InvocationMethodMetadata`
  drafts, and the commented-out analysis code are left out.
- The generator's text is not modelled: the class, namespace and file-name templates, the
  `using` lines, and the `Void`→`void` replacement. The body is a statement list with the same
  statements in the same order.
- WrapperGenerator.ScopeName: the `Replace("Attribute", "")` and `Replace("ScopyRuntime.", "")`
  stripping is not modelled, because it only rewrites the name the scope is given. The name is
  the attribute's display string, and no property depends on its spelling.
- WrapperGenerator.Selected: the syntax pre-filter of `FilterMethods` (some attribute list on
  the method or a parameter) is not modelled, because the semantic filter that follows implies it.
- WrapperGenerator.ArgumentsBound: requires distinct parameter names, because C# guarantees
  them.
- WrapperExecution.ScopedWrapperProvidesIntoCaller: it describes the run in which no statement
  throws. `WrapperExecution.WrapperOutcome` covers every run. There, the original method is a
  parameter: the push, pop and provide operations it performs, and whether it then throws.
  Exceptions thrown by anything other than a resolve or the original method are not modelled.
- The demo program is not part of this model (`Testing/Program.cs`).

## Findings

| source | as written | input that shows it | evidently intended | confidence | as-written member | corrected member |
|---|---|---|---|---|---|---|
| Generators/ScopeGenerator.cs:116 | `ScopedResolveFrozenValues` evaluates `method.Parameters.First().Name` for every selected method, before looking at whether any parameter is frozen | a method marked `[Scope]` with no parameters: it is selected for generation, and `First()` on its empty parameter list throws | take the first parameter's name only when a `[FrozenScope]` parameter needs it, and wrap the method in push, call, pop like any other scoped method | not executed | WrapperGenerator.ParameterlessScopedMethodFails | WrapperGenerator.ParameterlessScopedMethodIsWrapped |
