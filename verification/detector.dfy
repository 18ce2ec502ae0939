/**
  The violation detector: `CheckAndPush` and the per-method driver registered as the operation
  block action. The driver keeps a fresh effect stack for the method under analysis, replays the
  summaries of the methods it calls onto that stack, reports diagnostics, and finally offers its
  own stack to the summary cache.
 */
module Detector {
  import opened Wrappers
  import opened Operations
  import opened Summaries

  datatype Severity = Error | Warning

  /** The two diagnostic descriptors the analyzer supports. */
  datatype Rule = ValueAlreadyProvidedRule | DebugProvider {
    function Id(): string {
      match this
      case ValueAlreadyProvidedRule => "SCOPY_ALREADY_PROVIDED_VALUE"
      case DebugProvider => "SCOPY_DEBUG"
    }

    function DefaultSeverity(): Severity {
      match this
      case ValueAlreadyProvidedRule => Error
      case DebugProvider => Warning
    }
  }

  /** A reported diagnostic, located at the syntax of a site. */
  datatype Diagnostic = Diagnostic(rule: Rule, site: Site)

  /** `IsHiddenInLocalFlow` of a site: the operation block is a root (no parent), so only a call
      site can be hidden. */
  predicate SiteIsHidden(site: Site) {
    match site
    case BlockSite => false
    case CallSite(call) => IsHiddenInLocalFlow(call.parents)
  }

  /** The driver's state between two invocations: what it has reported so far and its stack. */
  datatype Step = Step(diagnostics: seq<Diagnostic>, stack: EffectStack)

  /** `CheckAndPush`: report the hidden-flow diagnostic when the site or the effect invocation
      sits under a conditional, switch, loop or try; report `ValueAlreadyProvided` when the effect
      is a provide whose type is already provided in the current segment of the stack, judged
      before the effect itself is pushed; then record the effect as `PushScopeData` does. */
  function CheckAndPush(effect: Call, stack: EffectStack, site: Site): (r: Step)
    ensures (exists d | d in r.diagnostics :: d.rule == DebugProvider) <==>
              (SiteIsHidden(site) || IsHiddenInLocalFlow(effect.parents))
    ensures Diagnostic(ValueAlreadyProvidedRule, site) in r.diagnostics <==>
              (IsProvideValue(effect.target) && IsValueProvided(effect.target, stack))
    ensures forall d | d in r.diagnostics :: d.site == site
    ensures |r.diagnostics| <= 2
    ensures IsScopeEffect(effect.target) ==> r.stack == [Entry(effect, site)] + stack
    ensures !IsScopeEffect(effect.target) ==> r.stack == stack
  {
    var debug := if SiteIsHidden(site) || IsHiddenInLocalFlow(effect.parents)
                 then [Diagnostic(DebugProvider, site)] else [];
    var provided := if IsProvideValue(effect.target) && IsValueProvided(effect.target, stack)
                    then [Diagnostic(ValueAlreadyProvidedRule, site)] else [];
    Step(debug + provided, PushScopeData(stack, effect, site))
  }

  /** Continue a step with `CheckAndPush`, accumulating diagnostics. */
  function Then(s: Step, effect: Call, site: Site): Step {
    var r := CheckAndPush(effect, s.stack, site);
    Step(s.diagnostics + r.diagnostics, r.stack)
  }

  /** The driver's inner `foreach` over a callee's summary: each effect is checked and pushed,
      attributed to the call site. */
  function CheckSummary(s: Step, entries: seq<Entry>, site: Site): (r: Step)
    decreases |entries|
  {
    if |entries| == 0 then s
    else CheckSummary(Then(s, entries[0].effect, site), entries[1..], site)
  }

  /** The driver's loop over the invocations of the method's blocks. Each user call gets its
      summary with a fresh, empty `visited` set; the cache carries over. */
  function DriveCalls(calls: seq<Call>, s: Step, graph: CallGraph, cache: Cache): (r: (Step, Cache))
    ensures Extends(cache, r.1)
    ensures EffectsOnly(s.stack) && CacheHoldsEffectsOnly(cache) ==> EffectsOnly(r.0.stack) && CacheHoldsEffectsOnly(r.1)
    decreases |calls|
  {
    if |calls| == 0 then (s, cache)
    else
      var call := calls[0];
      if !IsScopyRuntimeClass(call.target) then
        var nested := GetOrAnalyzeSummary(call.target, graph, cache, {});
        var s' := CheckSummary(s, nested.summary, CallSite(call));
        assert EffectsOnly(s.stack) && CacheHoldsEffectsOnly(cache) ==> EffectsOnly(s'.stack) by {
          if EffectsOnly(s.stack) && CacheHoldsEffectsOnly(cache) {
            CheckSummaryKeepsEffectsOnly(s, nested.summary, CallSite(call));
          }
        }
        DriveCalls(calls[1..], s', graph, nested.cache)
      else
        DriveCalls(calls[1..], Then(s, call, BlockSite), graph, cache)
  }

  lemma {:induction false} CheckSummaryKeepsEffectsOnly(s: Step, entries: seq<Entry>, site: Site)
    requires EffectsOnly(s.stack)
    ensures EffectsOnly(CheckSummary(s, entries, site).stack)
    decreases |entries|
  {
    if |entries| > 0 {
      CheckSummaryKeepsEffectsOnly(Then(s, entries[0].effect, site), entries[1..], site);
    }
  }

  /** The stack the driver builds while checking a callee's summary is the one the summarizer
      builds when splicing that summary: checking only adds diagnostics. */
  lemma {:induction false} CheckSummaryStack(s: Step, entries: seq<Entry>, site: Site)
    ensures CheckSummary(s, entries, site).stack == Splice(s.stack, entries, site)
    decreases |entries|
  {
    if |entries| > 0 {
      CheckSummaryStack(Then(s, entries[0].effect, site), entries[1..], site);
    }
  }

  /** A provide of a type already provided since the last push is reported, at the second call's
      site, whatever lies between the two provides as long as it is not a push. */
  lemma RepeatedProvideIsReported(p1: Call, p2: Call, between: seq<Entry>, stack: EffectStack, site1: Site, site2: Site)
    requires IsProvideValue(p1.target) && IsProvideValue(p2.target)
    requires ProvideType(p1.target) == ProvideType(p2.target)
    requires forall i | 0 <= i < |between| :: !IsPushScopeMethod(between[i].effect.target)
    ensures Diagnostic(ValueAlreadyProvidedRule, site2) in
              CheckAndPush(p2, between + CheckAndPush(p1, stack, site1).stack, site2).diagnostics
  {
    var s := between + CheckAndPush(p1, stack, site1).stack;
    assert s[|between|] == Entry(p1, site1);
    assert ProvidedInSegment(p2.target, s, |between|);
  }

  /** A push starts a new segment: right after it, no provide is reported, whatever the stack
      held before. */
  lemma PushStartsSegment(push: Call, p: Call, stack: EffectStack, site1: Site, site2: Site)
    requires IsPushScopeMethod(push.target)
    ensures Diagnostic(ValueAlreadyProvidedRule, site2) !in CheckAndPush(p, CheckAndPush(push, stack, site1).stack, site2).diagnostics
  {
  }

  /** `Pop` is never recorded, so it does not end a segment: a provide after `Pop` is judged
      against the provides made before it, exactly as if the `Pop` were not there. */
  lemma PopDoesNotEndSegment(pop: Call, p: Call, stack: EffectStack, site1: Site, site2: Site)
    requires IsRuntimeMethod(pop.target, "Pop")
    ensures CheckAndPush(pop, stack, site1).stack == stack
    ensures (Diagnostic(ValueAlreadyProvidedRule, site2) in CheckAndPush(p, CheckAndPush(pop, stack, site1).stack, site2).diagnostics)
            == (Diagnostic(ValueAlreadyProvidedRule, site2) in CheckAndPush(p, stack, site2).diagnostics)
  {
  }

  /** The invocations of all operation blocks, block after block. */
  function BlockCalls(blocks: seq<Operation>): seq<Call>
    decreases |blocks|
  {
    if |blocks| == 0 then [] else Descendants(blocks[0], []) + BlockCalls(blocks[1..])
  }

  /** What analyzing one operation block set produces: the diagnostics and the updated cache. */
  datatype Outcome = Outcome(diagnostics: seq<Diagnostic>, cache: Cache)

  /** The operation block action. Non-method owners are skipped. Otherwise the invocations are
      checked against a fresh stack, and the final stack, enumerated newest first, is offered to
      the cache with insert-if-absent. */
  function AnalyzeOperationBlocks(owner: Option<MethodSym>, blocks: seq<Operation>, graph: CallGraph, cache: Cache): (r: Outcome)
    ensures owner.None? ==> r == Outcome([], cache)
    ensures Extends(cache, r.cache)
    ensures owner.Some? ==> r.cache.Keys >= cache.Keys + {owner.value}
    ensures CacheHoldsEffectsOnly(cache) ==> CacheHoldsEffectsOnly(r.cache)
  {
    match owner
    case None => Outcome([], cache)
    case Some(current) =>
      var (s, cache') := DriveCalls(BlockCalls(blocks), Step([], []), graph, cache);
      Outcome(s.diagnostics, TryAdd(cache', current, s.stack))
  }
}
