/**
  What the analyzer model reports on small call graphs: for a duplicated provide, for a
  provide under an `if`, for a chain of three methods whose middle one calls the last under an
  `if`, for callees that push and provide in either order, and for cycles. Every scenario is
  stated for any provide method, any push method and any distinct user methods.
 */
module Scenarios {
  import opened Wrappers
  import opened Operations
  import opened Summaries
  import opened Detector

  // ---- Method bodies ----

  /** An expression statement consisting of one invocation without arguments. */
  function CallStmt(site: nat, target: MethodSym): Operation {
    Operation(OtherOp, [Operation(Invocation(site, target), [])])
  }

  function Block(stmts: seq<Operation>): Operation {
    Operation(OtherOp, stmts)
  }

  function If(body: Operation): Operation {
    Operation(Conditional, [body])
  }

  /** A run of call statements, one per `(site, target)` pair. */
  function Stmts(cs: seq<(nat, MethodSym)>): seq<Operation>
    decreases |cs|
  {
    if |cs| == 0 then [] else [CallStmt(cs[0].0, cs[0].1)] + Stmts(cs[1..])
  }

  /** The invocations of such a run when `parents` is the chain above the statements. */
  function StmtCalls(cs: seq<(nat, MethodSym)>, parents: seq<OpKind>): seq<Call>
    decreases |cs|
  {
    if |cs| == 0 then [] else [Call(cs[0].0, cs[0].1, [OtherOp] + parents)] + StmtCalls(cs[1..], parents)
  }

  lemma ChildrenCons(first: Operation, rest: seq<Operation>, parents: seq<OpKind>)
    ensures DescendantsOfChildren([first] + rest, parents)
            == SelfCall(first, parents) + Descendants(first, parents) + DescendantsOfChildren(rest, parents)
  {
    assert ([first] + rest)[0] == first;
    assert ([first] + rest)[1..] == rest;
  }

  lemma CallStmtCalls(site: nat, target: MethodSym, parents: seq<OpKind>)
    ensures SelfCall(CallStmt(site, target), parents) == []
    ensures Descendants(CallStmt(site, target), parents) == [Call(site, target, [OtherOp] + parents)]
  {
    var inv := Operation(Invocation(site, target), []);
    var p := [OtherOp] + parents;
    assert Descendants(inv, p) == [];
    ChildrenCons(inv, [], p);
    assert [inv] + [] == [inv];
  }

  lemma {:induction false} StmtsCalls(cs: seq<(nat, MethodSym)>, parents: seq<OpKind>)
    ensures DescendantsOfChildren(Stmts(cs), parents) == StmtCalls(cs, parents)
    decreases |cs|
  {
    if |cs| > 0 {
      CallStmtCalls(cs[0].0, cs[0].1, parents);
      ChildrenCons(CallStmt(cs[0].0, cs[0].1), Stmts(cs[1..]), parents);
      StmtsCalls(cs[1..], parents);
    }
  }

  lemma OneStmt(site: nat, t: MethodSym, parents: seq<OpKind>)
    ensures StmtCalls([(site, t)], parents) == [Call(site, t, [OtherOp] + parents)]
  {
    var cs: seq<(nat, MethodSym)> := [(site, t)];
    assert cs[1..] == [];
  }

  lemma TwoStmts(site1: nat, t1: MethodSym, site2: nat, t2: MethodSym, parents: seq<OpKind>)
    ensures StmtCalls([(site1, t1), (site2, t2)], parents)
            == [Call(site1, t1, [OtherOp] + parents), Call(site2, t2, [OtherOp] + parents)]
  {
    var cs: seq<(nat, MethodSym)> := [(site1, t1), (site2, t2)];
    assert cs[1..] == [(site2, t2)];
    OneStmt(site2, t2, parents);
  }

  /** The invocations of a block of call statements, as the only operation block of a method. */
  lemma StmtBlockCalls(cs: seq<(nat, MethodSym)>)
    ensures Descendants(Block(Stmts(cs)), []) == StmtCalls(cs, [OtherOp])
    ensures BlockCalls([Block(Stmts(cs))]) == StmtCalls(cs, [OtherOp])
  {
    StmtsCalls(cs, [OtherOp]);
    assert [OtherOp] + [] == [OtherOp];
    assert [Block(Stmts(cs))][1..] == [];
  }

  /** The invocations below an `if` are those of its body, one level deeper. */
  lemma IfCalls(body: Operation, parents: seq<OpKind>)
    ensures Descendants(If(body), parents)
            == SelfCall(body, [Conditional] + parents) + Descendants(body, [Conditional] + parents)
  {
    ChildrenCons(body, [], [Conditional] + parents);
    assert [body] + [] == [body];
  }

  /** The invocations of a block holding an `if` around one call statement, then one call
      statement. */
  lemma IfThenCallBlock(site1: nat, t1: MethodSym, site2: nat, t2: MethodSym)
    ensures BlockCalls([Block([If(CallStmt(site1, t1)), CallStmt(site2, t2)])])
            == [Call(site1, t1, [OtherOp, Conditional, OtherOp]), Call(site2, t2, [OtherOp, OtherOp])]
  {
    var b := Block([If(CallStmt(site1, t1)), CallStmt(site2, t2)]);
    assert [b][1..] == [];
    assert b.children == [If(CallStmt(site1, t1))] + [CallStmt(site2, t2)];
    assert [CallStmt(site2, t2)] == [CallStmt(site2, t2)] + [];
    ChildrenCons(If(CallStmt(site1, t1)), [CallStmt(site2, t2)], [OtherOp]);
    ChildrenCons(CallStmt(site2, t2), [], [OtherOp]);
    IfCalls(CallStmt(site1, t1), [OtherOp]);
    CallStmtCalls(site1, t1, [Conditional, OtherOp]);
    CallStmtCalls(site2, t2, [OtherOp]);
    assert [OtherOp] + [OtherOp] == [OtherOp, OtherOp];
    assert [OtherOp] + [Conditional, OtherOp] == [OtherOp, Conditional, OtherOp];
    assert [Conditional] + [OtherOp] == [Conditional, OtherOp];
    assert [OtherOp] + [] == [OtherOp];
    assert SelfCall(If(CallStmt(site1, t1)), [OtherOp]) == [];
    assert SelfCall(CallStmt(site1, t1), [Conditional, OtherOp]) == [];
    assert Descendants(If(CallStmt(site1, t1)), [OtherOp]) == [Call(site1, t1, [OtherOp, Conditional, OtherOp])];
    assert DescendantsOfChildren([CallStmt(site2, t2)], [OtherOp]) == [Call(site2, t2, [OtherOp, OtherOp])];
    assert Descendants(b, []) == DescendantsOfChildren(b.children, [OtherOp]);
  }

  /** The invocations of a block holding only an `if` around a block of one call statement. */
  lemma IfBlockCalls(site: nat, t: MethodSym)
    ensures Descendants(Block([If(Block(Stmts([(site, t)])))]), [])
            == [Call(site, t, [OtherOp, OtherOp, Conditional, OtherOp])]
  {
    var inner := Block(Stmts([(site, t)]));
    ChildrenCons(If(inner), [], [OtherOp]);
    assert [If(inner)] + [] == [If(inner)];
    assert [OtherOp] + [] == [OtherOp];
    assert SelfCall(If(inner), [OtherOp]) == [];
    IfCalls(inner, [OtherOp]);
    assert SelfCall(inner, [Conditional, OtherOp]) == [];
    assert [Conditional] + [OtherOp] == [Conditional, OtherOp];
    assert Descendants(inner, [Conditional, OtherOp]) == [Call(site, t, [OtherOp, OtherOp, Conditional, OtherOp])] by {
      assert [OtherOp] + [Conditional, OtherOp] == [OtherOp, Conditional, OtherOp];
      StmtsCalls([(site, t)], [OtherOp, Conditional, OtherOp]);
      OneStmt(site, t, [OtherOp, Conditional, OtherOp]);
      assert [OtherOp] + [OtherOp, Conditional, OtherOp] == [OtherOp, OtherOp, Conditional, OtherOp];
    }
  }

  // ---- One step of the summarizer and of the driver ----

  lemma AnalyzeUserCall(c: Call, rest: seq<Call>, local: EffectStack, graph: CallGraph, cache: Cache, visited: set<MethodSym>)
    requires !IsScopyRuntimeClass(c.target)
    ensures var nested := GetOrAnalyzeSummary(c.target, graph, cache, visited);
            AnalyzeCalls([c] + rest, local, graph, cache, visited)
            == AnalyzeCalls(rest, Splice(local, nested.summary, CallSite(c)), graph, nested.cache, nested.visited)
  {
    assert ([c] + rest)[0] == c;
    assert ([c] + rest)[1..] == rest;
  }

  lemma AnalyzeDirectCall(c: Call, rest: seq<Call>, local: EffectStack, graph: CallGraph, cache: Cache, visited: set<MethodSym>)
    requires IsScopyRuntimeClass(c.target)
    ensures AnalyzeCalls([c] + rest, local, graph, cache, visited)
            == AnalyzeCalls(rest, PushScopeData(local, c, BlockSite), graph, cache, visited)
  {
    assert ([c] + rest)[0] == c;
    assert ([c] + rest)[1..] == rest;
  }

  lemma DriveUserCall(c: Call, rest: seq<Call>, s: Step, graph: CallGraph, cache: Cache)
    requires !IsScopyRuntimeClass(c.target)
    ensures var nested := GetOrAnalyzeSummary(c.target, graph, cache, {});
            DriveCalls([c] + rest, s, graph, cache)
            == DriveCalls(rest, CheckSummary(s, nested.summary, CallSite(c)), graph, nested.cache)
  {
    assert ([c] + rest)[0] == c;
    assert ([c] + rest)[1..] == rest;
  }

  lemma DriveDirectCall(c: Call, rest: seq<Call>, s: Step, graph: CallGraph, cache: Cache)
    requires IsScopyRuntimeClass(c.target)
    ensures DriveCalls([c] + rest, s, graph, cache) == DriveCalls(rest, Then(s, c, BlockSite), graph, cache)
  {
    assert ([c] + rest)[0] == c;
    assert ([c] + rest)[1..] == rest;
  }

  lemma CheckSummaryCons(s: Step, e: Entry, rest: seq<Entry>, site: Site)
    ensures CheckSummary(s, [e] + rest, site) == CheckSummary(Then(s, e.effect, site), rest, site)
  {
    assert ([e] + rest)[0] == e;
    assert ([e] + rest)[1..] == rest;
  }

  /** Summarizing a method that is neither cached nor in progress walks its body with the method
      marked, caches the result if absent and unmarks the method. */
  lemma FreshSummary(t: MethodSym, graph: CallGraph, cache: Cache, visited: set<MethodSym>)
    requires t in graph && t !in cache && t !in visited
    ensures var a := AnalyzeCalls(Descendants(graph[t], []), [], graph, cache, visited + {t});
            GetOrAnalyzeSummary(t, graph, cache, visited)
            == Analysis(a.summary, TryAdd(a.cache, t, a.summary), a.visited - {t})
  {
  }

  /** Summarizing a method that is neither cached nor in progress and whose body is a block of
      two direct runtime calls: the two effects, newest first, cached under the method. */
  lemma LeafSummary(t: MethodSym, c1: Call, c2: Call, graph: CallGraph, cache: Cache, visited: set<MethodSym>)
    requires t in graph && t !in cache && t !in visited
    requires Descendants(graph[t], []) == [c1, c2]
    requires IsScopeEffect(c1.target) && IsScopeEffect(c2.target)
    ensures var summary := [Entry(c2, BlockSite), Entry(c1, BlockSite)];
            GetOrAnalyzeSummary(t, graph, cache, visited) == Analysis(summary, cache[t := summary], visited)
  {
    var v := visited + {t};
    var summary := [Entry(c2, BlockSite), Entry(c1, BlockSite)];
    assert [c1, c2] == [c1] + [c2];
    assert [c2] == [c2] + [];
    AnalyzeDirectCall(c1, [c2], [], graph, cache, v);
    AnalyzeDirectCall(c2, [], [Entry(c1, BlockSite)], graph, cache, v);
    assert AnalyzeCalls([c1, c2], [], graph, cache, v) == Analysis(summary, cache, v);
    assert AnalyzeMethodRecursive(graph[t], graph, cache, v) == Analysis(summary, cache, v);
    assert v - {t} == visited;
  }

  /** Summarizing a method that is neither cached nor in progress and whose body makes one
      direct runtime call: that effect, cached under the method. */
  lemma LeafSummaryOne(t: MethodSym, c: Call, graph: CallGraph, cache: Cache, visited: set<MethodSym>)
    requires t in graph && t !in cache && t !in visited
    requires Descendants(graph[t], []) == [c]
    requires IsScopeEffect(c.target)
    ensures GetOrAnalyzeSummary(t, graph, cache, visited)
            == Analysis([Entry(c, BlockSite)], cache[t := [Entry(c, BlockSite)]], visited)
  {
    var v := visited + {t};
    assert [c] == [c] + [];
    AnalyzeDirectCall(c, [], [], graph, cache, v);
    assert AnalyzeCalls([c], [], graph, cache, v) == Analysis([Entry(c, BlockSite)], cache, v);
    assert AnalyzeMethodRecursive(graph[t], graph, cache, v) == Analysis([Entry(c, BlockSite)], cache, v);
    assert v - {t} == visited;
  }

  /** Summarizing a method that is neither cached nor in progress and whose body makes one
      user call: the callee's summary, spliced at the call site, cached under the method. */
  lemma OneUserCallSummary(t: MethodSym, c: Call, graph: CallGraph, cache: Cache, visited: set<MethodSym>)
    requires t in graph && t !in cache && t !in visited
    requires Descendants(graph[t], []) == [c]
    requires !IsScopyRuntimeClass(c.target)
    ensures var nested := GetOrAnalyzeSummary(c.target, graph, cache, visited + {t});
            var summary := Splice([], nested.summary, CallSite(c));
            GetOrAnalyzeSummary(t, graph, cache, visited)
            == Analysis(summary, TryAdd(nested.cache, t, summary), nested.visited - {t})
  {
    assert [c] == [c] + [];
    AnalyzeUserCall(c, [], [], graph, cache, visited + {t});
  }

  /** The walk over a direct runtime call followed by a user call. */
  lemma EffectThenUserCallWalk(c1: Call, c2: Call, graph: CallGraph, cache: Cache, visited: set<MethodSym>)
    requires IsScopeEffect(c1.target) && !IsScopyRuntimeClass(c2.target)
    ensures var nested := GetOrAnalyzeSummary(c2.target, graph, cache, visited);
            AnalyzeCalls([c1, c2], [], graph, cache, visited)
            == Analysis(Splice([Entry(c1, BlockSite)], nested.summary, CallSite(c2)), nested.cache, nested.visited)
  {
    assert AnalyzeCalls([c1, c2], [], graph, cache, visited) == AnalyzeCalls([c2], [Entry(c1, BlockSite)], graph, cache, visited) by {
      assert [c1, c2] == [c1] + [c2];
      AnalyzeDirectCall(c1, [c2], [], graph, cache, visited);
      assert PushScopeData([], c1, BlockSite) == [Entry(c1, BlockSite)];
    }
    assert [c2] == [c2] + [];
    AnalyzeUserCall(c2, [], [Entry(c1, BlockSite)], graph, cache, visited);
  }

  /** Summarizing a method that is neither cached nor in progress and whose body makes a direct
      runtime call and then a user call: the callee's summary, spliced at the call site above the
      effect, cached under the method. */
  lemma EffectThenUserCallSummary(t: MethodSym, c1: Call, c2: Call, graph: CallGraph, cache: Cache, visited: set<MethodSym>)
    requires t in graph && t !in cache && t !in visited
    requires Descendants(graph[t], []) == [c1, c2]
    requires IsScopeEffect(c1.target) && !IsScopyRuntimeClass(c2.target)
    ensures var nested := GetOrAnalyzeSummary(c2.target, graph, cache, visited + {t});
            var summary := Splice([Entry(c1, BlockSite)], nested.summary, CallSite(c2));
            GetOrAnalyzeSummary(t, graph, cache, visited)
            == Analysis(summary, TryAdd(nested.cache, t, summary), nested.visited - {t})
  {
    EffectThenUserCallWalk(c1, c2, graph, cache, visited + {t});
    FreshSummary(t, graph, cache, visited);
  }

  /** What the operation block action reports is what its driver reports. */
  lemma BlockDiagnostics(owner: MethodSym, blocks: seq<Operation>, graph: CallGraph, cache: Cache)
    ensures AnalyzeOperationBlocks(Some(owner), blocks, graph, cache).diagnostics
            == DriveCalls(BlockCalls(blocks), Step([], []), graph, cache).0.diagnostics
  {
  }

  /** The driver over two direct runtime calls. */
  lemma DriveTwoDirect(c1: Call, c2: Call, s: Step, graph: CallGraph, cache: Cache)
    requires IsScopyRuntimeClass(c1.target) && IsScopyRuntimeClass(c2.target)
    ensures DriveCalls([c1, c2], s, graph, cache).0 == Then(Then(s, c1, BlockSite), c2, BlockSite)
  {
    assert [c1, c2] == [c1] + [c2];
    assert [c2] == [c2] + [];
    DriveDirectCall(c1, [c2], s, graph, cache);
    DriveDirectCall(c2, [], Then(s, c1, BlockSite), graph, cache);
  }

  /** The driver over one user call. */
  lemma DriveOneUser(c: Call, s: Step, graph: CallGraph, cache: Cache)
    requires !IsScopyRuntimeClass(c.target)
    ensures DriveCalls([c], s, graph, cache).0
            == CheckSummary(s, GetOrAnalyzeSummary(c.target, graph, cache, {}).summary, CallSite(c))
  {
    assert [c] == [c] + [];
    DriveUserCall(c, [], s, graph, cache);
  }

  /** The driver over a direct runtime call followed by a user call. */
  lemma DriveDirectThenUser(c1: Call, c2: Call, s: Step, graph: CallGraph, cache: Cache)
    requires IsScopyRuntimeClass(c1.target) && !IsScopyRuntimeClass(c2.target)
    ensures DriveCalls([c1, c2], s, graph, cache).0
            == CheckSummary(Then(s, c1, BlockSite), GetOrAnalyzeSummary(c2.target, graph, cache, {}).summary, CallSite(c2))
  {
    assert [c1, c2] == [c1] + [c2];
    DriveDirectCall(c1, [c2], s, graph, cache);
    DriveOneUser(c2, Then(s, c1, BlockSite), graph, cache);
  }

  lemma CheckOne(s: Step, e: Entry, site: Site)
    ensures CheckSummary(s, [e], site) == Then(s, e.effect, site)
  {
    assert [e] == [e] + [];
    CheckSummaryCons(s, e, [], site);
  }

  lemma CheckTwo(s: Step, e1: Entry, e2: Entry, site: Site)
    ensures CheckSummary(s, [e1, e2], site) == Then(Then(s, e1.effect, site), e2.effect, site)
  {
    assert [e1, e2] == [e1] + [e2];
    CheckSummaryCons(s, e1, [e2], site);
    CheckOne(Then(s, e1.effect, site), e2, site);
  }

  /** A call directly in a method's top-level block: its parents hold no control operation. */
  lemma TopLevelIsVisible(c: Call)
    requires c.parents == [OtherOp, OtherOp]
    ensures !IsHiddenInLocalFlow(c.parents)
  {
    assert !IsControl(c.parents[0]) && !IsControl(c.parents[1]);
  }

  /** A first provide at top level, on an empty stack: nothing reported, the provide recorded. */
  lemma FirstProvide(c: Call)
    requires IsProvideValue(c.target) && c.parents == [OtherOp, OtherOp]
    ensures Then(Step([], []), c, BlockSite) == Step([], [Entry(c, BlockSite)])
  {
    TopLevelIsVisible(c);
  }

  /** A first provide under one `if`, on an empty stack: hidden flow reported, the provide
      recorded. */
  lemma FirstHiddenProvide(c: Call)
    requires IsProvideValue(c.target) && c.parents == [OtherOp, Conditional, OtherOp]
    ensures Then(Step([], []), c, BlockSite) == Step([Diagnostic(DebugProvider, BlockSite)], [Entry(c, BlockSite)])
  {
    assert IsControl(c.parents[1]);
  }

  /** A top-level provide of the method that made the only provide on the stack is reported as
      already provided, and nothing else is. */
  lemma RepeatAtBlock(s: Step, c1: Call, c2: Call)
    requires IsProvideValue(c1.target) && c2.target == c1.target
    requires s.stack == [Entry(c1, BlockSite)] && c2.parents == [OtherOp, OtherOp]
    ensures Then(s, c2, BlockSite).diagnostics == s.diagnostics + [Diagnostic(ValueAlreadyProvidedRule, BlockSite)]
  {
    assert ProvidedInSegment(c2.target, s.stack, 0);
    TopLevelIsVisible(c2);
  }

  // ---- Scenarios ----

  /** Two unconditional provides of the same method in a row: one `ValueAlreadyProvided`,
      located at the block (direct runtime calls are reported at the operation block), and
      nothing else. */
  lemma DuplicateProvideReportedOnce(owner: MethodSym, p: MethodSym, graph: CallGraph, cache: Cache)
    requires IsProvideValue(p)
    ensures AnalyzeOperationBlocks(Some(owner), [Block(Stmts([(1, p), (2, p)]))], graph, cache).diagnostics
            == [Diagnostic(ValueAlreadyProvidedRule, BlockSite)]
  {
    var c1 := Call(1, p, [OtherOp, OtherOp]);
    var c2 := Call(2, p, [OtherOp, OtherOp]);
    assert BlockCalls([Block(Stmts([(1, p), (2, p)]))]) == [c1, c2] by {
      StmtBlockCalls([(1, p), (2, p)]);
      TwoStmts(1, p, 2, p, [OtherOp]);
      assert [OtherOp] + [OtherOp] == [OtherOp, OtherOp];
    }
    BlockDiagnostics(owner, [Block(Stmts([(1, p), (2, p)]))], graph, cache);
    DriveTwoDirect(c1, c2, Step([], []), graph, cache);
    FirstProvide(c1);
    RepeatAtBlock(Then(Step([], []), c1, BlockSite), c1, c2);
  }

  /** A provide under an `if` followed by an unconditional one: the hidden-flow diagnostic for the
      first, and the second is still reported as already provided, because the analyzer does not
      distinguish paths. */
  lemma ConditionalProvideStillCounts(owner: MethodSym, p: MethodSym, graph: CallGraph, cache: Cache)
    requires IsProvideValue(p)
    ensures AnalyzeOperationBlocks(Some(owner), [Block([If(CallStmt(1, p)), CallStmt(2, p)])], graph, cache).diagnostics
            == [Diagnostic(DebugProvider, BlockSite), Diagnostic(ValueAlreadyProvidedRule, BlockSite)]
  {
    var b := Block([If(CallStmt(1, p)), CallStmt(2, p)]);
    var c1 := Call(1, p, [OtherOp, Conditional, OtherOp]);
    var c2 := Call(2, p, [OtherOp, OtherOp]);
    IfThenCallBlock(1, p, 2, p);
    BlockDiagnostics(owner, [b], graph, cache);
    DriveTwoDirect(c1, c2, Step([], []), graph, cache);
    FirstHiddenProvide(c1);
    RepeatAtBlock(Then(Step([], []), c1, BlockSite), c1, c2);
  }

  /** Three user methods: `v1` calls `v2`, `v2` calls `v3` under an `if`, and `v3` provides. */
  function ChainGraph(v1: MethodSym, v2: MethodSym, v3: MethodSym, p: MethodSym): CallGraph {
    map[
      v1 := Block(Stmts([(1, v2)])),
      v2 := Block([If(Block(Stmts([(2, v3)])))]),
      v3 := Block(Stmts([(3, p)]))
    ]
  }

  /** The facts about the chain both chain scenarios need: `v2`'s only invocation, which sits
      under the `if`, and the summary of `v3`. */
  lemma ChainFacts(v1: MethodSym, v2: MethodSym, v3: MethodSym, p: MethodSym, cache: Cache, visited: set<MethodSym>)
    requires v1 != v2 && v2 != v3 && v1 != v3
    requires IsProvideValue(p)
    requires v3 !in cache && v3 !in visited
    ensures var g := ChainGraph(v1, v2, v3, p);
            && Descendants(g[v2], []) == [Call(2, v3, [OtherOp, OtherOp, Conditional, OtherOp])]
            && GetOrAnalyzeSummary(v3, g, cache, visited)
               == Analysis([Entry(Call(3, p, [OtherOp, OtherOp]), BlockSite)],
                           cache[v3 := [Entry(Call(3, p, [OtherOp, OtherOp]), BlockSite)]], visited)
  {
    var g := ChainGraph(v1, v2, v3, p);
    IfBlockCalls(2, v3);
    assert Descendants(g[v3], []) == [Call(3, p, [OtherOp, OtherOp])] by {
      StmtBlockCalls([(3, p)]);
      OneStmt(3, p, [OtherOp]);
      assert [OtherOp] + [OtherOp] == [OtherOp, OtherOp];
    }
    LeafSummaryOne(v3, Call(3, p, [OtherOp, OtherOp]), g, cache, visited);
  }

  /** Analyzing `v2` reports hidden flow once, at its conditional call site, for the provide it
      reaches through `v3`. */
  lemma ChainConditionalCallSiteIsReported(v1: MethodSym, v2: MethodSym, v3: MethodSym, p: MethodSym)
    requires v1 != v2 && v2 != v3 && v1 != v3
    requires !IsScopyRuntimeClass(v3) && IsProvideValue(p)
    ensures var g := ChainGraph(v1, v2, v3, p);
            AnalyzeOperationBlocks(Some(v2), [g[v2]], g, map[]).diagnostics
            == [Diagnostic(DebugProvider, CallSite(Call(2, v3, [OtherOp, OtherOp, Conditional, OtherOp])))]
  {
    var g := ChainGraph(v1, v2, v3, p);
    var call := Call(2, v3, [OtherOp, OtherOp, Conditional, OtherOp]);
    var e := Entry(Call(3, p, [OtherOp, OtherOp]), BlockSite);
    ChainFacts(v1, v2, v3, p, map[], {});
    assert BlockCalls([g[v2]]) == [call] by {
      assert [g[v2]][1..] == [];
    }
    BlockDiagnostics(v2, [g[v2]], g, map[]);
    DriveOneUser(call, Step([], []), g, map[]);
    CheckOne(Step([], []), e, CallSite(call));
    assert SiteIsHidden(CallSite(call)) by {
      assert IsControl(call.parents[2]);
    }
    TopLevelIsVisible(e.effect);
  }

  /** The summary of `v2`: `v3`'s provide, attributed to the conditional call site. */
  lemma ChainMiddleSummary(v1: MethodSym, v2: MethodSym, v3: MethodSym, p: MethodSym)
    requires v1 != v2 && v2 != v3 && v1 != v3
    requires !IsScopyRuntimeClass(v3) && IsProvideValue(p)
    ensures GetOrAnalyzeSummary(v2, ChainGraph(v1, v2, v3, p), map[], {}).summary
            == [Entry(Call(3, p, [OtherOp, OtherOp]), CallSite(Call(2, v3, [OtherOp, OtherOp, Conditional, OtherOp])))]
  {
    var g := ChainGraph(v1, v2, v3, p);
    var call2 := Call(2, v3, [OtherOp, OtherOp, Conditional, OtherOp]);
    var e3 := Entry(Call(3, p, [OtherOp, OtherOp]), BlockSite);
    ChainFacts(v1, v2, v3, p, map[], {v2});
    OneUserCallSummary(v2, call2, g, map[], {});
    assert {} + {v2} == {v2};
    assert [e3][1..] == [];
  }

  /** Analyzing `v1` reports nothing: its own call site is unconditional, and the `if` inside
      `v2` is not looked at again, because a replayed effect is judged only by its own parents
      and by the call site in the analyzed method. */
  lemma ChainHiddenFlowIsNotInherited(v1: MethodSym, v2: MethodSym, v3: MethodSym, p: MethodSym)
    requires v1 != v2 && v2 != v3 && v1 != v3
    requires !IsScopyRuntimeClass(v2) && !IsScopyRuntimeClass(v3) && IsProvideValue(p)
    ensures var g := ChainGraph(v1, v2, v3, p);
            AnalyzeOperationBlocks(Some(v1), [g[v1]], g, map[]).diagnostics == []
  {
    var g := ChainGraph(v1, v2, v3, p);
    var call1 := Call(1, v2, [OtherOp, OtherOp]);
    var e2 := Entry(Call(3, p, [OtherOp, OtherOp]), CallSite(Call(2, v3, [OtherOp, OtherOp, Conditional, OtherOp])));
    ChainMiddleSummary(v1, v2, v3, p);
    assert BlockCalls([g[v1]]) == [call1] by {
      StmtBlockCalls([(1, v2)]);
      OneStmt(1, v2, [OtherOp]);
      assert [OtherOp] + [OtherOp] == [OtherOp, OtherOp];
    }
    BlockDiagnostics(v1, [g[v1]], g, map[]);
    DriveOneUser(call1, Step([], []), g, map[]);
    CheckOne(Step([], []), e2, CallSite(call1));
    TopLevelIsVisible(call1);
    TopLevelIsVisible(e2.effect);
  }

  /** A user method `b` with two direct runtime calls, and a caller block that provides with `p`
      and then calls `b`. */
  function CalleeGraph(b: MethodSym, first: MethodSym, second: MethodSym): CallGraph {
    map[b := Block(Stmts([(1, first), (2, second)]))]
  }

  function CallerBlock(p: MethodSym, b: MethodSym): Operation {
    Block(Stmts([(3, p), (4, b)]))
  }

  /** `b`'s summary: its two effects, newest first. */
  lemma CalleeSummary(b: MethodSym, first: MethodSym, second: MethodSym)
    requires IsScopeEffect(first) && IsScopeEffect(second)
    ensures GetOrAnalyzeSummary(b, CalleeGraph(b, first, second), map[], {}).summary
            == [Entry(Call(2, second, [OtherOp, OtherOp]), BlockSite), Entry(Call(1, first, [OtherOp, OtherOp]), BlockSite)]
  {
    var g := CalleeGraph(b, first, second);
    var c1 := Call(1, first, [OtherOp, OtherOp]);
    var c2 := Call(2, second, [OtherOp, OtherOp]);
    assert Descendants(g[b], []) == [c1, c2] by {
      StmtBlockCalls([(1, first), (2, second)]);
      TwoStmts(1, first, 2, second, [OtherOp]);
      assert [OtherOp] + [OtherOp] == [OtherOp, OtherOp];
    }
    LeafSummary(b, c1, c2, g, map[], {});
  }

  /** The caller's driver up to `b`'s summary: the caller's provide is on the stack, and `b`'s
      two effects are checked in enumeration order, newest first, at the call site. */
  lemma CallerFacts(owner: MethodSym, p: MethodSym, b: MethodSym, first: MethodSym, second: MethodSym)
    requires IsProvideValue(p) && !IsScopyRuntimeClass(b)
    requires IsScopeEffect(first) && IsScopeEffect(second)
    ensures var site := CallSite(Call(4, b, [OtherOp, OtherOp]));
            var s3 := Step([], [Entry(Call(3, p, [OtherOp, OtherOp]), BlockSite)]);
            AnalyzeOperationBlocks(Some(owner), [CallerBlock(p, b)], CalleeGraph(b, first, second), map[]).diagnostics
            == Then(Then(s3, Call(2, second, [OtherOp, OtherOp]), site), Call(1, first, [OtherOp, OtherOp]), site).diagnostics
  {
    var g := CalleeGraph(b, first, second);
    var c1 := Call(1, first, [OtherOp, OtherOp]);
    var c2 := Call(2, second, [OtherOp, OtherOp]);
    var c3 := Call(3, p, [OtherOp, OtherOp]);
    var c4 := Call(4, b, [OtherOp, OtherOp]);
    CalleeSummary(b, first, second);
    assert BlockCalls([CallerBlock(p, b)]) == [c3, c4] by {
      StmtBlockCalls([(3, p), (4, b)]);
      TwoStmts(3, p, 4, b, [OtherOp]);
      assert [OtherOp] + [OtherOp] == [OtherOp, OtherOp];
    }
    BlockDiagnostics(owner, [CallerBlock(p, b)], g, map[]);
    DriveDirectThenUser(c3, c4, Step([], []), g, map[]);
    FirstProvide(c3);
    CheckTwo(Then(Step([], []), c3, BlockSite), Entry(c2, BlockSite), Entry(c1, BlockSite), CallSite(c4));
  }

  /** A callee that pushes a scope and then provides, called after the caller provided the same
      type: at run time the callee's provide lands in the new scope, but the callee's summary is
      replayed newest first, so its provide is checked before its push and is reported. */
  lemma ReplayOrderReportsScopedProvide(owner: MethodSym, p: MethodSym, push: MethodSym, b: MethodSym)
    requires IsProvideValue(p) && IsPushScopeMethod(push) && !IsScopyRuntimeClass(b)
    ensures AnalyzeOperationBlocks(Some(owner), [CallerBlock(p, b)], CalleeGraph(b, push, p), map[]).diagnostics
            == [Diagnostic(ValueAlreadyProvidedRule, CallSite(Call(4, b, [OtherOp, OtherOp])))]
  {
    CallerFacts(owner, p, b, push, p);
    var site := CallSite(Call(4, b, [OtherOp, OtherOp]));
    var s3 := Step([], [Entry(Call(3, p, [OtherOp, OtherOp]), BlockSite)]);
    assert ProvidedInSegment(p, s3.stack, 0);
    var s2 := Then(s3, Call(2, p, [OtherOp, OtherOp]), site);
    assert s2.diagnostics == [Diagnostic(ValueAlreadyProvidedRule, site)] by {
      assert !SiteIsHidden(site) by {
        assert !IsControl(site.call.parents[0]) && !IsControl(site.call.parents[1]);
      }
    }
    assert !IsProvideValue(push) by {
      EffectKindsAreExclusive(push);
    }
  }

  /** The mirror image: a callee that provides and then pushes, called after the caller provided
      the same type. At run time both provides land in the same scope, but the replay checks the
      callee's push first, so nothing is reported. */
  lemma ReplayOrderMissesDuplicate(owner: MethodSym, p: MethodSym, push: MethodSym, b: MethodSym)
    requires IsProvideValue(p) && IsPushScopeMethod(push) && !IsScopyRuntimeClass(b)
    ensures AnalyzeOperationBlocks(Some(owner), [CallerBlock(p, b)], CalleeGraph(b, p, push), map[]).diagnostics
            == []
  {
    CallerFacts(owner, p, b, p, push);
    var site := CallSite(Call(4, b, [OtherOp, OtherOp]));
    assert !SiteIsHidden(site) by {
      assert !IsControl(site.call.parents[0]) && !IsControl(site.call.parents[1]);
    }
    assert !IsProvideValue(push) by {
      EffectKindsAreExclusive(push);
    }
  }

  /** `a` provides with `p` and calls `b`; `b` provides with `q` and calls `a`. */
  function CycleGraph(a: MethodSym, b: MethodSym, p: MethodSym, q: MethodSym): CallGraph {
    map[a := Block(Stmts([(1, p), (2, b)])), b := Block(Stmts([(3, q), (4, a)]))]
  }

  /** Summarizing `x` from scratch in a cycle with `y`, where `x` makes the effect `px` at site
      `i` and calls `y` at site `j`, and `y` makes the effect `py` at site `k` and calls `x` at
      site `l`: `y` is summarized on the way with `x` in progress, so the call back to `x`
      contributes nothing; `y`'s partial summary is cached; `x`'s summary holds `y`'s effect,
      spliced at the call site, above its own. */
  lemma CycleSummary(x: MethodSym, y: MethodSym, px: MethodSym, py: MethodSym, i: nat, j: nat, k: nat, l: nat, g: CallGraph)
    requires x != y && !IsScopyRuntimeClass(x) && !IsScopyRuntimeClass(y)
    requires IsScopeEffect(px) && IsScopeEffect(py)
    requires g == map[x := Block(Stmts([(i, px), (j, y)])), y := Block(Stmts([(k, py), (l, x)]))]
    ensures var ex := Entry(Call(i, px, [OtherOp, OtherOp]), BlockSite);
            var ey := Entry(Call(k, py, [OtherOp, OtherOp]), BlockSite);
            var r := GetOrAnalyzeSummary(x, g, map[], {});
            && r.summary == [Entry(ey.effect, CallSite(Call(j, y, [OtherOp, OtherOp]))), ex]
            && y in r.cache && r.cache[y] == [ey]
  {
    var c1 := Call(i, px, [OtherOp, OtherOp]);
    var c2 := Call(j, y, [OtherOp, OtherOp]);
    var c3 := Call(k, py, [OtherOp, OtherOp]);
    var c4 := Call(l, x, [OtherOp, OtherOp]);
    var ex := Entry(c1, BlockSite);
    var ey := Entry(c3, BlockSite);
    assert Descendants(g[x], []) == [c1, c2] by {
      StmtBlockCalls([(i, px), (j, y)]);
      TwoStmts(i, px, j, y, [OtherOp]);
      assert [OtherOp] + [OtherOp] == [OtherOp, OtherOp];
    }
    assert Descendants(g[y], []) == [c3, c4] by {
      StmtBlockCalls([(k, py), (l, x)]);
      TwoStmts(k, py, l, x, [OtherOp]);
      assert [OtherOp] + [OtherOp] == [OtherOp, OtherOp];
    }
    // Inside `y`, with `x` in progress: the call back to `x` yields nothing.
    assert GetOrAnalyzeSummary(y, g, map[], {x}) == Analysis([ey], map[y := [ey]], {x}) by {
      EffectThenUserCallSummary(y, c3, c4, g, map[], {x});
      assert {x} + {y} == {x, y};
      assert {x, y} - {y} == {x};
    }
    // Inside `x`.
    EffectThenUserCallSummary(x, c1, c2, g, map[], {});
    assert {} + {x} == {x};
    assert Splice([ex], [ey], CallSite(c2)) == [Entry(c3, CallSite(c2)), ex] by {
      assert [ey][1..] == [];
    }
  }

  /** On a cycle the result depends on the order of requests: after summarizing `a`, a request
      for `b` gets the partial summary cached on the way, which misses `a`'s provide, whereas
      summarizing `b` first includes it. */
  lemma CycleUnderApproximates(a: MethodSym, b: MethodSym, p: MethodSym, q: MethodSym)
    requires a != b && !IsScopyRuntimeClass(a) && !IsScopyRuntimeClass(b)
    requires IsProvideValue(p) && IsProvideValue(q)
    ensures var g := CycleGraph(a, b, p, q);
            var r := GetOrAnalyzeSummary(a, g, map[], {});
            && GetOrAnalyzeSummary(b, g, r.cache, {}).summary == [Entry(Call(3, q, [OtherOp, OtherOp]), BlockSite)]
            && GetOrAnalyzeSummary(b, g, map[], {}).summary
               == [Entry(Call(1, p, [OtherOp, OtherOp]), CallSite(Call(4, a, [OtherOp, OtherOp]))),
                   Entry(Call(3, q, [OtherOp, OtherOp]), BlockSite)]
  {
    var g := CycleGraph(a, b, p, q);
    CycleSummary(a, b, p, q, 1, 2, 3, 4, g);
    assert g == map[b := Block(Stmts([(3, q), (4, a)])), a := Block(Stmts([(1, p), (2, b)]))];
    CycleSummary(b, a, q, p, 3, 4, 1, 2, g);
  }

  /** A method that calls itself: summarizing it terminates and yields its own provide once. */
  lemma SelfRecursionTerminates(a: MethodSym, p: MethodSym)
    requires !IsScopyRuntimeClass(a) && IsProvideValue(p)
    ensures GetOrAnalyzeSummary(a, map[a := Block(Stmts([(1, p), (2, a)]))], map[], {}).summary
            == [Entry(Call(1, p, [OtherOp, OtherOp]), BlockSite)]
  {
    var g := map[a := Block(Stmts([(1, p), (2, a)]))];
    var c1 := Call(1, p, [OtherOp, OtherOp]);
    var c2 := Call(2, a, [OtherOp, OtherOp]);
    assert Descendants(g[a], []) == [c1, c2] by {
      StmtBlockCalls([(1, p), (2, a)]);
      TwoStmts(1, p, 2, a, [OtherOp]);
      assert [OtherOp] + [OtherOp] == [OtherOp, OtherOp];
    }
    EffectThenUserCallSummary(a, c1, c2, g, map[], {});
    assert {} + {a} == {a};
  }
}
