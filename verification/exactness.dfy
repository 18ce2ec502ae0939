/**
  The memo cache and the `visited` guard are invisible on acyclic call graphs.

  `RefSummary` is the summary defined by plain structural recursion over an acyclic call graph:
  no cache, no cycle guard, every callee summarized afresh. The theorem `MemoIsExact` shows that
  `GetOrAnalyzeSummary` returns exactly that summary whenever the cache holds only exact
  summaries and every method already being summarized lies above the target in the call order;
  and that it leaves the cache exact. On cyclic graphs the guard cuts the cycle and the result is
  an under-approximation (see the scenarios).
 */
module Exactness {
  import opened Operations
  import opened Wrappers
  import opened Summaries
  import opened Detector

  /** The invocations of a method's body, in the order both summarizers visit them. */
  function BodyCalls(graph: CallGraph, m: MethodSym): seq<Call>
    requires m in graph
  {
    Descendants(graph[m], [])
  }

  /** `rank` strictly decreases along every user call from one method with a body to another:
      the call graph, restricted to methods with bodies, is acyclic. */
  ghost predicate Ranked(graph: CallGraph, rank: MethodSym -> nat) {
    forall m, i | m in graph && 0 <= i < |BodyCalls(graph, m)| ::
      var callee := BodyCalls(graph, m)[i].target;
      !IsScopyRuntimeClass(callee) && callee in graph ==> rank(callee) < rank(m)
  }

  /** The summary of `m` by plain recursion: the effects of its direct runtime calls and the
      spliced summaries of its callees, enumerated newest first. */
  ghost function RefSummary(graph: CallGraph, rank: MethodSym -> nat, m: MethodSym): seq<Entry>
    requires Ranked(graph, rank)
    decreases if m in graph then rank(m) + 1 else 0, 1, 0
  {
    if m !in graph then [] else RefCalls(graph, rank, m, 0, [])
  }

  /** The walk of `RefSummary` over the invocations of `m` from the `i`-th on. */
  ghost function RefCalls(graph: CallGraph, rank: MethodSym -> nat, m: MethodSym, i: nat, local: EffectStack): seq<Entry>
    requires Ranked(graph, rank)
    requires m in graph && i <= |BodyCalls(graph, m)|
    decreases rank(m) + 1, 0, |BodyCalls(graph, m)| - i
  {
    var calls := BodyCalls(graph, m);
    if i == |calls| then local
    else
      var call := calls[i];
      if !IsScopyRuntimeClass(call.target) then
        RefCalls(graph, rank, m, i + 1, Splice(local, RefSummary(graph, rank, call.target), CallSite(call)))
      else
        RefCalls(graph, rank, m, i + 1, PushScopeData(local, call, BlockSite))
  }

  /** Every cached summary is the plain recursive one. */
  ghost predicate CacheExact(graph: CallGraph, rank: MethodSym -> nat, cache: Cache)
    requires Ranked(graph, rank)
  {
    forall k | k in cache :: cache[k] == RefSummary(graph, rank, k)
  }

  /** On an acyclic call graph, with an exact cache and with every method in progress strictly
      above the target, `GetOrAnalyzeSummary` computes the plain recursive summary and keeps the
      cache exact. */
  lemma {:induction false} MemoIsExact(graph: CallGraph, rank: MethodSym -> nat, target: MethodSym, cache: Cache, visited: set<MethodSym>)
    requires Ranked(graph, rank)
    requires CacheExact(graph, rank, cache)
    requires target in graph ==> forall v | v in visited && v in graph :: rank(v) > rank(target)
    ensures GetOrAnalyzeSummary(target, graph, cache, visited).summary == RefSummary(graph, rank, target)
    ensures CacheExact(graph, rank, GetOrAnalyzeSummary(target, graph, cache, visited).cache)
    decreases graph.Keys - visited, 0, 0
  {
    if target in cache {
    } else if target in visited {
      if target in graph {
        assert false;
      }
    } else if target in graph {
      var visited' := visited + {target};
      var calls := BodyCalls(graph, target);
      assert calls[0..] == calls;
      AnalyzeCallsExact(graph, rank, target, 0, [], cache, visited');
    }
  }

  /** The loop of `AnalyzeMethodRecursive`, from the `i`-th invocation of `m` on, agrees with
      `RefCalls` while every method in progress is at or above `m`. */
  lemma {:induction false} AnalyzeCallsExact(graph: CallGraph, rank: MethodSym -> nat, m: MethodSym, i: nat,
                                             local: EffectStack, cache: Cache, visited: set<MethodSym>)
    requires Ranked(graph, rank)
    requires m in graph && i <= |BodyCalls(graph, m)|
    requires CacheExact(graph, rank, cache)
    requires forall v | v in visited && v in graph :: rank(v) >= rank(m)
    ensures AnalyzeCalls(BodyCalls(graph, m)[i..], local, graph, cache, visited).summary == RefCalls(graph, rank, m, i, local)
    ensures CacheExact(graph, rank, AnalyzeCalls(BodyCalls(graph, m)[i..], local, graph, cache, visited).cache)
    decreases graph.Keys - visited, 1, |BodyCalls(graph, m)| - i
  {
    var calls := BodyCalls(graph, m);
    if i < |calls| {
      var call := calls[i];
      assert calls[i..][0] == call;
      assert calls[i..][1..] == calls[i + 1..];
      if !IsScopyRuntimeClass(call.target) {
        assert call.target in graph ==> rank(call.target) < rank(m);
        MemoIsExact(graph, rank, call.target, cache, visited);
        var nested := GetOrAnalyzeSummary(call.target, graph, cache, visited);
        AnalyzeCallsExact(graph, rank, m, i + 1, Splice(local, nested.summary, CallSite(call)), nested.cache, nested.visited);
      } else {
        AnalyzeCallsExact(graph, rank, m, i + 1, PushScopeData(local, call, BlockSite), cache, visited);
      }
    }
  }

  /** Starting from an empty cache and an empty `visited` set, as the driver does for its first
      call, the summary of any method of an acyclic call graph is the plain recursive one. */
  lemma FreshSummaryIsExact(graph: CallGraph, rank: MethodSym -> nat, target: MethodSym)
    requires Ranked(graph, rank)
    ensures GetOrAnalyzeSummary(target, graph, map[], {}).summary == RefSummary(graph, rank, target)
  {
    MemoIsExact(graph, rank, target, map[], {});
  }

  /** The driver's loop, from the `i`-th invocation of `m` on, builds the stack `RefCalls` builds
      and keeps the cache exact: every callee is summarized with an empty `visited` set, which
      lies above any callee. */
  lemma {:induction false} DriveCallsExact(graph: CallGraph, rank: MethodSym -> nat, m: MethodSym, i: nat, s: Step, cache: Cache)
    requires Ranked(graph, rank)
    requires m in graph && i <= |BodyCalls(graph, m)|
    requires CacheExact(graph, rank, cache)
    ensures DriveCalls(BodyCalls(graph, m)[i..], s, graph, cache).0.stack == RefCalls(graph, rank, m, i, s.stack)
    ensures CacheExact(graph, rank, DriveCalls(BodyCalls(graph, m)[i..], s, graph, cache).1)
    decreases |BodyCalls(graph, m)| - i
  {
    var calls := BodyCalls(graph, m);
    if i < |calls| {
      var call := calls[i];
      assert calls[i..][0] == call;
      assert calls[i..][1..] == calls[i + 1..];
      if !IsScopyRuntimeClass(call.target) {
        MemoIsExact(graph, rank, call.target, cache, {});
        var nested := GetOrAnalyzeSummary(call.target, graph, cache, {});
        CheckSummaryStack(s, nested.summary, CallSite(call));
        DriveCallsExact(graph, rank, m, i + 1, CheckSummary(s, nested.summary, CallSite(call)), nested.cache);
      } else {
        DriveCallsExact(graph, rank, m, i + 1, Then(s, call, BlockSite), cache);
      }
    }
  }

  /** On an acyclic call graph, the stack the driver builds for a method while reporting its
      diagnostics is the method's plain recursive summary, so what the driver offers to the cache
      agrees with what the summarizer computes, and an exact cache stays exact. */
  lemma DriverAgreesWithSummarizer(graph: CallGraph, rank: MethodSym -> nat, m: MethodSym, cache: Cache)
    requires Ranked(graph, rank)
    requires m in graph
    requires CacheExact(graph, rank, cache)
    ensures DriveCalls(BlockCalls([graph[m]]), Step([], []), graph, cache).0.stack == RefSummary(graph, rank, m)
    ensures CacheExact(graph, rank, AnalyzeOperationBlocks(Some(m), [graph[m]], graph, cache).cache)
  {
    var calls := BodyCalls(graph, m);
    assert BlockCalls([graph[m]]) == calls[0..] by {
      assert [graph[m]][1..] == [];
    }
    DriveCallsExact(graph, rank, m, 0, Step([], []), cache);
  }
}
