/**
  The interprocedural effect summarizer: `PushScopeData`, `IsValueProvided`,
  `GetOrAnalyzeSummary` and `AnalyzeMethodRecursive`.

  A `Stack<T>` is a sequence whose index 0 is the top. Pushing prepends, and enumerating the stack
  (`foreach`, or the collection expression `[..stack]`) reads the sequence from index 0, so a
  summary lists effects newest first.
 */
module Summaries {
  import opened Wrappers
  import opened Operations

  /** The `IOperation` stored beside an effect: the operation block, when the effect is a direct
      runtime call, or the user-method invocation through which the effect was reached. */
  datatype Site = BlockSite | CallSite(call: Call)

  /** One `(IInvocationOperation, IOperation)` tuple of an effect stack. */
  datatype Entry = Entry(effect: Call, site: Site)

  /** Newest first. */
  type EffectStack = seq<Entry>

  /** The compilation-wide summary cache. */
  type Cache = map<MethodSym, seq<Entry>>

  /** The method bodies the analyzer can reach: a method absent from the map has no declaring
      syntax reference or no operation for it (a method from metadata, say). */
  type CallGraph = map<MethodSym, Operation>

  /** Every entry of the stack records a push, resolve or provide. */
  predicate EffectsOnly(s: EffectStack) {
    forall i | 0 <= i < |s| :: IsScopeEffect(s[i].effect.target)
  }

  predicate CacheHoldsEffectsOnly(cache: Cache) {
    forall m | m in cache :: EffectsOnly(cache[m])
  }

  /** `b` extends `a` by inserting new keys only: no entry is removed or replaced. */
  predicate Extends(a: Cache, b: Cache) {
    forall m | m in a :: m in b && b[m] == a[m]
  }

  /** `TryAdd`: insert if absent. */
  function TryAdd(cache: Cache, m: MethodSym, s: seq<Entry>): (r: Cache)
    ensures Extends(cache, r)
    ensures m in r && (m !in cache ==> r[m] == s)
    ensures r.Keys == cache.Keys + {m}
  {
    if m in cache then cache else cache[m := s]
  }

  /** `PushScopeData`: record the invocation if it is a push, resolve or provide; anything else
      (a `Pop`, say) leaves the stack as it was. */
  function PushScopeData(stack: EffectStack, effect: Call, site: Site): (r: EffectStack)
    ensures IsScopeEffect(effect.target) ==> |r| == |stack| + 1 && r[0] == Entry(effect, site) && r[1..] == stack
    ensures !IsScopeEffect(effect.target) ==> r == stack
    ensures EffectsOnly(stack) ==> EffectsOnly(r)
  {
    if IsScopeEffect(effect.target) then [Entry(effect, site)] + stack else stack
  }

  /** Push every effect of `entries`, in enumeration order, attributing each to `site`: the loop
      that splices a callee's summary into the caller's stack. Since the summary is enumerated
      newest first, the callee's newest effect ends up deepest. */
  function Splice(stack: EffectStack, entries: seq<Entry>, site: Site): (r: EffectStack)
    ensures EffectsOnly(stack) ==> EffectsOnly(r)
    ensures EffectsOnly(entries) ==> |r| == |stack| + |entries|
    decreases |entries|
  {
    if |entries| == 0 then stack
    else Splice(PushScopeData(stack, entries[0].effect, site), entries[1..], site)
  }

  /** `entries` with every effect attributed to `site`, in reverse order. */
  function ReversedAt(entries: seq<Entry>, site: Site): (r: seq<Entry>)
    ensures |r| == |entries|
    decreases |entries|
  {
    if |entries| == 0 then [] else ReversedAt(entries[1..], site) + [Entry(entries[0].effect, site)]
  }

  /** Splicing a summary of effects reverses it: the entry enumerated first (the callee's newest
      effect) ends up deepest, the one enumerated last on top. */
  lemma {:induction false} SpliceReverses(stack: EffectStack, entries: seq<Entry>, site: Site)
    requires EffectsOnly(entries)
    ensures Splice(stack, entries, site) == ReversedAt(entries, site) + stack
    decreases |entries|
  {
    if |entries| > 0 {
      var first := Entry(entries[0].effect, site);
      var rest := entries[1..];
      assert IsScopeEffect(entries[0].effect.target);
      assert EffectsOnly(rest) by {
        assert forall i | 0 <= i < |rest| :: rest[i] == entries[i + 1];
      }
      assert Splice(stack, entries, site) == Splice([first] + stack, rest, site);
      SpliceReverses([first] + stack, rest, site);
      var a := ReversedAt(rest, site);
      assert ReversedAt(entries, site) == a + [first];
      ConcatAssoc(a, [first], stack);
    }
  }

  /** The stack entry at `i` is a provide of the same type as `m`, and no push lies between it
      and the top of the stack. */
  ghost predicate ProvidedInSegment(m: MethodSym, stack: EffectStack, i: int) {
    && 0 <= i < |stack|
    && (forall j | 0 <= j < i :: !IsPushScopeMethod(stack[j].effect.target))
    && IsProvideValue(stack[i].effect.target)
    && ProvideType(stack[i].effect.target) == ProvideType(m)
  }

  /** `IsValueProvided`: take entries from the top while they are not pushes and ask whether one
      of them provides the same type as `m`. */
  function IsValueProvided(m: MethodSym, stack: EffectStack): (r: bool)
    ensures r <==> exists i :: ProvidedInSegment(m, stack, i)
    decreases |stack|
  {
    if |stack| == 0 then false
    else if IsPushScopeMethod(stack[0].effect.target) then false
    else if IsProvideValue(stack[0].effect.target) && ProvideType(stack[0].effect.target) == ProvideType(m) then
      assert ProvidedInSegment(m, stack, 0);
      true
    else
      var r := IsValueProvided(m, stack[1..]);
      assert forall i :: ProvidedInSegment(m, stack[1..], i) <==> ProvidedInSegment(m, stack, i + 1);
      assert !ProvidedInSegment(m, stack, 0);
      assert forall i | ProvidedInSegment(m, stack, i) :: ProvidedInSegment(m, stack[1..], i - 1);
      r
  }

  /** What one summarization returns and leaves behind: the summary, the cache, and the
      `visited` set it was handed (a mutable `HashSet` in the source). */
  datatype Analysis = Analysis(summary: seq<Entry>, cache: Cache, visited: set<MethodSym>)

  /** `GetOrAnalyzeSummary`: a cache hit is returned as is; a target already being summarized
      higher up returns an empty summary that is not cached; a target without a body returns an
      empty summary (and, as in the source, stays in `visited`); otherwise the body is analyzed
      with the target marked visited, the result is inserted if absent, and the mark is removed.
      Termination: each descent marks a method of the graph that was not marked yet. */
  function GetOrAnalyzeSummary(target: MethodSym, graph: CallGraph, cache: Cache, visited: set<MethodSym>): (r: Analysis)
    ensures target in cache ==> r == Analysis(cache[target], cache, visited)
    ensures target !in cache && target in visited ==> r == Analysis([], cache, visited)
    ensures target !in cache && target !in visited && target !in graph ==> r == Analysis([], cache, visited + {target})
    ensures target !in cache && target !in visited && target in graph ==>
              target in r.cache && r.cache[target] == r.summary && target !in r.visited
    ensures Extends(cache, r.cache)
    ensures forall m | m in r.cache && m !in cache :: m !in visited
    ensures visited <= r.visited
    ensures forall m | m in r.visited - visited :: m !in graph
    ensures CacheHoldsEffectsOnly(cache) ==> CacheHoldsEffectsOnly(r.cache) && EffectsOnly(r.summary)
    decreases graph.Keys - visited, 0, 0
  {
    if target in cache then Analysis(cache[target], cache, visited)
    else if target in visited then Analysis([], cache, visited)
    else if target !in graph then Analysis([], cache, visited + {target})
    else
      var a := AnalyzeMethodRecursive(graph[target], graph, cache, visited + {target});
      Analysis(a.summary, TryAdd(a.cache, target, a.summary), a.visited - {target})
  }

  /** `AnalyzeMethodRecursive`: walk the invocations of a body in pre-order, splicing in the
      summaries of user calls and recording direct runtime effects; return the stack enumerated
      newest first. */
  function AnalyzeMethodRecursive(block: Operation, graph: CallGraph, cache: Cache, visited: set<MethodSym>): (r: Analysis)
    ensures Extends(cache, r.cache)
    ensures forall m | m in r.cache && m !in cache :: m !in visited
    ensures visited <= r.visited
    ensures forall m | m in r.visited - visited :: m !in graph
    ensures CacheHoldsEffectsOnly(cache) ==> CacheHoldsEffectsOnly(r.cache) && EffectsOnly(r.summary)
    decreases graph.Keys - visited, 2, 0
  {
    AnalyzeCalls(Descendants(block, []), [], graph, cache, visited)
  }

  /** The loop of `AnalyzeMethodRecursive` over the invocations still to visit. */
  function AnalyzeCalls(calls: seq<Call>, local: EffectStack, graph: CallGraph, cache: Cache, visited: set<MethodSym>): (r: Analysis)
    ensures Extends(cache, r.cache)
    ensures forall m | m in r.cache && m !in cache :: m !in visited
    ensures visited <= r.visited
    ensures forall m | m in r.visited - visited :: m !in graph
    ensures CacheHoldsEffectsOnly(cache) && EffectsOnly(local) ==> CacheHoldsEffectsOnly(r.cache) && EffectsOnly(r.summary)
    decreases graph.Keys - visited, 1, |calls|
  {
    if |calls| == 0 then Analysis(local, cache, visited)
    else
      var call := calls[0];
      if !IsScopyRuntimeClass(call.target) then
        var nested := GetOrAnalyzeSummary(call.target, graph, cache, visited);
        AnalyzeCalls(calls[1..], Splice(local, nested.summary, CallSite(call)), graph, nested.cache, nested.visited)
      else
        AnalyzeCalls(calls[1..], PushScopeData(local, call, BlockSite), graph, cache, visited)
  }
}
