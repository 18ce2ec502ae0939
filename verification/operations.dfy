/**
  The analyzer's view of the compiler: method symbols, the operation tree of a method body,
  the invocations found by a pre-order walk of that tree, and the classifiers that decide which
  invocations are scope effects.
 */
module Operations {
  import opened Wrappers

  /** What the analyzer reads of an `IMethodSymbol`: the simple names of its containing namespace
      and type, its name, and its parameter types in order (for a constructed generic method such
      as `Provide<Foo>` these are the substituted types). Symbols are compared structurally, as
      `SymbolEqualityComparer.Default` does. */
  datatype MethodSym = MethodSym(ns: string, typeName: string, name: string, paramTypes: seq<string>)

  /** The kind of one `IOperation` node, as far as the analyzer distinguishes them. */
  datatype OpKind =
    | Invocation(site: nat, target: MethodSym)   // IInvocationOperation; `site` stands for its syntax location
    | Conditional                                // IConditionalOperation
    | Switch                                     // ISwitchOperation
    | Loop                                       // ILoopOperation
    | Try                                        // ITryOperation
    | OtherOp                                    // blocks, expression statements, arguments, lambdas, ...

  /** An operation tree: a node and its child operations in source order. */
  datatype Operation = Operation(kind: OpKind, children: seq<Operation>)

  /** An invocation reached by `Descendants()`: its site, its target, and the kinds of all its
      ancestors, innermost (its `Parent`) first and the block's root last. */
  datatype Call = Call(site: nat, target: MethodSym, parents: seq<OpKind>)

  predicate IsControl(k: OpKind) {
    k.Conditional? || k.Switch? || k.Loop? || k.Try?
  }

  /** `IsHiddenInLocalFlow`: walk the parent chain outward and report whether some ancestor is a
      conditional, switch, loop or try. */
  function IsHiddenInLocalFlow(parents: seq<OpKind>): (r: bool)
    ensures r <==> exists i | 0 <= i < |parents| :: IsControl(parents[i])
    decreases |parents|
  {
    if |parents| == 0 then false
    else if IsControl(parents[0]) then true
    else
      var r := IsHiddenInLocalFlow(parents[1..]);
      assert forall i | 1 <= i < |parents| :: parents[1..][i - 1] == parents[i];
      r
  }

  /** The invocation the node itself is, if it is one. */
  function SelfCall(op: Operation, parents: seq<OpKind>): seq<Call> {
    if op.kind.Invocation? then [Call(op.kind.site, op.kind.target, parents)] else []
  }

  /** `op.Descendants().OfType<IInvocationOperation>()`: the invocations strictly below `op`, in
      pre-order (a node before its children, children left to right). `above` is the parent chain
      of `op` itself, so every call found has `op` and then `above` at the end of its chain. */
  function Descendants(op: Operation, above: seq<OpKind>): (r: seq<Call>)
    ensures forall c | c in r :: |c.parents| > |above| && c.parents[|c.parents| - |above| - 1..] == [op.kind] + above
    decreases op, 1
  {
    DescendantsOfChildren(op.children, [op.kind] + above)
  }

  /** The invocations among `children` and below them, in pre-order; `parents` is the chain above
      the children. */
  function DescendantsOfChildren(children: seq<Operation>, parents: seq<OpKind>): (r: seq<Call>)
    ensures forall c | c in r :: |c.parents| >= |parents| && c.parents[|c.parents| - |parents|..] == parents
    decreases children, 0
  {
    if |children| == 0 then []
    else
      var r := SelfCall(children[0], parents) + Descendants(children[0], parents)
               + DescendantsOfChildren(children[1..], parents);
      assert forall c | c in Descendants(children[0], parents) ::
               c.parents[|c.parents| - |parents|..] == ([children[0].kind] + parents)[1..];
      r
  }

  /** No control construct anywhere in the tree. */
  predicate ControlFree(op: Operation)
    decreases op, 1
  {
    !IsControl(op.kind) && ControlFreeChildren(op.children)
  }

  predicate ControlFreeChildren(children: seq<Operation>)
    decreases children, 0
  {
    |children| == 0 || (ControlFree(children[0]) && ControlFreeChildren(children[1..]))
  }

  /** Every invocation below a control construct is hidden. */
  lemma UnderControlIsHidden(op: Operation, above: seq<OpKind>)
    requires IsControl(op.kind)
    ensures forall c | c in Descendants(op, above) :: IsHiddenInLocalFlow(c.parents)
  {
    forall c | c in Descendants(op, above)
      ensures IsHiddenInLocalFlow(c.parents)
    {
      var k := |c.parents| - |above| - 1;
      assert c.parents[k..][0] == op.kind;
    }
  }

  /** In a tree without control constructs, below a chain without any, no invocation is hidden. */
  lemma {:induction false} ControlFreeIsVisible(op: Operation, above: seq<OpKind>)
    requires ControlFree(op)
    requires !IsHiddenInLocalFlow(above)
    ensures forall c | c in Descendants(op, above) :: !IsHiddenInLocalFlow(c.parents)
    decreases op, 1
  {
    ControlFreeChildrenAreVisible(op.children, [op.kind] + above);
  }

  lemma {:induction false} ControlFreeChildrenAreVisible(children: seq<Operation>, parents: seq<OpKind>)
    requires ControlFreeChildren(children)
    requires !IsHiddenInLocalFlow(parents)
    ensures forall c | c in DescendantsOfChildren(children, parents) :: !IsHiddenInLocalFlow(c.parents)
    decreases children, 0
  {
    if |children| > 0 {
      assert !IsHiddenInLocalFlow([children[0].kind] + parents) by {
        var p := [children[0].kind] + parents;
        assert forall i | 1 <= i < |p| :: p[i] == parents[i - 1];
      }
      ControlFreeIsVisible(children[0], parents);
      ControlFreeChildrenAreVisible(children[1..], parents);
    }
  }

  // ---- What `Descendants` finds ----

  /** The number of invocation nodes strictly below `op`. */
  function InvocationCount(op: Operation): nat
    decreases op, 1
  {
    InvocationCountOf(op.children)
  }

  /** The number of invocation nodes among `children` and below them. */
  function InvocationCountOf(children: seq<Operation>): nat
    decreases children, 0
  {
    if |children| == 0 then 0
    else (if children[0].kind.Invocation? then 1 else 0) + InvocationCount(children[0]) + InvocationCountOf(children[1..])
  }

  /** Every invocation node below `op` is found once: the walk returns one call per node. */
  lemma {:induction false} DescendantsCount(op: Operation, above: seq<OpKind>)
    ensures |Descendants(op, above)| == InvocationCount(op)
    decreases op, 1
  {
    DescendantsOfChildrenCount(op.children, [op.kind] + above);
  }

  lemma {:induction false} DescendantsOfChildrenCount(children: seq<Operation>, parents: seq<OpKind>)
    ensures |DescendantsOfChildren(children, parents)| == InvocationCountOf(children)
    decreases children, 0
  {
    if |children| > 0 {
      DescendantsCount(children[0], parents);
      DescendantsOfChildrenCount(children[1..], parents);
    }
  }

  /** Siblings are walked left to right: the calls found below the earlier children all come
      before those found below the later ones. */
  lemma {:induction false} DescendantsOfChildrenConcat(a: seq<Operation>, b: seq<Operation>, parents: seq<OpKind>)
    ensures DescendantsOfChildren(a + b, parents) == DescendantsOfChildren(a, parents) + DescendantsOfChildren(b, parents)
    decreases |a|
  {
    if |a| == 0 {
      assert a + b == b;
    } else {
      assert (a + b)[0] == a[0];
      assert (a + b)[1..] == a[1..] + b;
      DescendantsOfChildrenConcat(a[1..], b, parents);
    }
  }

  /** `path` is a sequence of child indices leading from `op` to a node of its tree. */
  predicate ValidPath(op: Operation, path: seq<nat>)
    decreases |path|
  {
    |path| == 0 || (path[0] < |op.children| && ValidPath(op.children[path[0]], path[1..]))
  }

  /** The node `path` leads to. */
  function NodeAt(op: Operation, path: seq<nat>): Operation
    requires ValidPath(op, path)
    decreases |path|
  {
    if |path| == 0 then op else NodeAt(op.children[path[0]], path[1..])
  }

  /** The kinds of the ancestors of the node `path` leads to, innermost first, when `above` is
      the chain above `op`. */
  function ChainAt(op: Operation, path: seq<nat>, above: seq<OpKind>): seq<OpKind>
    requires ValidPath(op, path)
    decreases |path|
  {
    if |path| == 0 then above else ChainAt(op.children[path[0]], path[1..], [op.kind] + above)
  }

  /** `path` leads from `op` to a node strictly below it that is the invocation `c` describes,
      with `c`'s ancestor chain. */
  predicate Locates(op: Operation, above: seq<OpKind>, path: seq<nat>, c: Call) {
    && ValidPath(op, path)
    && |path| > 0
    && NodeAt(op, path).kind == Invocation(c.site, c.target)
    && ChainAt(op, path, above) == c.parents
  }

  /** What the walk finds below `op`: exactly the invocation nodes strictly below it, each with
      its own ancestor chain. */
  lemma DescendantsAreInvocations(op: Operation, above: seq<OpKind>, c: Call)
    ensures c in Descendants(op, above) <==> exists path :: Locates(op, above, path, c)
  {
    if c in Descendants(op, above) {
      FoundIsLocated(op, above, c);
    }
    if exists path :: Locates(op, above, path, c) {
      var path :| Locates(op, above, path, c);
      LocatedIsFound(op, above, path);
    }
  }

  /** The calls found below child `i` are among the calls found below the children. */
  lemma ChildCallsIncluded(children: seq<Operation>, i: nat, parents: seq<OpKind>)
    requires i < |children|
    ensures forall c | c in SelfCall(children[i], parents) + Descendants(children[i], parents) ::
              c in DescendantsOfChildren(children, parents)
  {
    var tail := children[i..];
    assert children == children[..i] + tail;
    DescendantsOfChildrenConcat(children[..i], tail, parents);
    assert tail[0] == children[i];
  }

  lemma {:induction false} LocatedIsFound(op: Operation, above: seq<OpKind>, path: seq<nat>)
    requires ValidPath(op, path) && |path| > 0 && NodeAt(op, path).kind.Invocation?
    ensures Call(NodeAt(op, path).kind.site, NodeAt(op, path).kind.target, ChainAt(op, path, above)) in Descendants(op, above)
    decreases |path|
  {
    var child := op.children[path[0]];
    var parents := [op.kind] + above;
    ChildCallsIncluded(op.children, path[0], parents);
    if |path| > 1 {
      LocatedIsFound(child, parents, path[1..]);
    }
  }

  lemma {:induction false} FoundIsLocated(op: Operation, above: seq<OpKind>, c: Call)
    requires c in Descendants(op, above)
    ensures exists path :: Locates(op, above, path, c)
    decreases op, 1
  {
    assert op.children[0..] == op.children;
    FoundAmongChildrenIsLocated(op, 0, above, c);
  }

  lemma {:induction false} FoundAmongChildrenIsLocated(op: Operation, k: nat, above: seq<OpKind>, c: Call)
    requires k <= |op.children|
    requires c in DescendantsOfChildren(op.children[k..], [op.kind] + above)
    ensures exists path :: Locates(op, above, path, c)
    decreases op, 0, |op.children| - k
  {
    var parents := [op.kind] + above;
    var rest := op.children[k..];
    assert rest[0] == op.children[k];
    assert rest[1..] == op.children[k + 1..];
    if c in SelfCall(op.children[k], parents) {
      SelfIsLocated(op, above, k, c);
    } else if c in Descendants(op.children[k], parents) {
      FoundIsLocated(op.children[k], parents, c);
      var sub :| Locates(op.children[k], parents, sub, c);
      ChildPathLocates(op, above, k, sub, c);
    } else {
      FoundAmongChildrenIsLocated(op, k + 1, above, c);
    }
  }

  /** Child `k` itself, when it is the invocation `c` describes, is located by `[k]`. */
  lemma SelfIsLocated(op: Operation, above: seq<OpKind>, k: nat, c: Call)
    requires k < |op.children|
    requires c in SelfCall(op.children[k], [op.kind] + above)
    ensures Locates(op, above, [k], c)
  {
    assert [k][1..] == [];
  }

  /** A path below child `k` extends to a path below `op`. */
  lemma ChildPathLocates(op: Operation, above: seq<OpKind>, k: nat, sub: seq<nat>, c: Call)
    requires k < |op.children|
    requires Locates(op.children[k], [op.kind] + above, sub, c)
    ensures Locates(op, above, [k] + sub, c)
  {
    assert ([k] + sub)[0] == k;
    assert ([k] + sub)[1..] == sub;
  }

  // ---- Classifiers (the `Is*` extension methods) ----

  const RuntimeNamespace: string := "ScopyRuntime"
  const RuntimeClass: string := "CurrentScope"

  /** `IsScopyRuntimeClass`: the containing type is named `CurrentScope`, in any namespace. Such
      calls are never summarized as user calls. */
  predicate IsScopyRuntimeClass(m: MethodSym) {
    m.typeName == RuntimeClass
  }

  predicate IsScopyRuntimeNameSpace(m: MethodSym) {
    m.ns == RuntimeNamespace
  }

  /** A method of `ScopyRuntime.CurrentScope` with the given name. */
  predicate IsRuntimeMethod(m: MethodSym, name: string) {
    IsScopyRuntimeNameSpace(m) && IsScopyRuntimeClass(m) && m.name == name
  }

  predicate IsPushScopeMethod(m: MethodSym) {
    IsRuntimeMethod(m, "Push")
  }

  predicate IsProvideValue(m: MethodSym) {
    IsRuntimeMethod(m, "Provide")
  }

  predicate IsResolveValue(m: MethodSym) {
    IsRuntimeMethod(m, "Resolve")
  }

  /** The three calls the analyzer records on its effect stacks. `Pop` is not one of them. */
  predicate IsScopeEffect(m: MethodSym) {
    IsPushScopeMethod(m) || IsResolveValue(m) || IsProvideValue(m)
  }

  /** `GetProvideType`: the type of the first parameter. For `Provide<T>(T value)` this is `T`;
      for the keyed `Provide<T>(string name, T value)` it is `string`. */
  function ProvideType(m: MethodSym): Option<string> {
    if |m.paramTypes| == 0 then None else Some(m.paramTypes[0])
  }

  /** The classification is a partition: a call is at most one of push, provide and resolve, and
      an effect is always a call into the runtime class, so it is never summarized as a user call. */
  lemma EffectKindsAreExclusive(m: MethodSym)
    ensures !(IsPushScopeMethod(m) && IsProvideValue(m))
    ensures !(IsPushScopeMethod(m) && IsResolveValue(m))
    ensures !(IsProvideValue(m) && IsResolveValue(m))
    ensures IsScopeEffect(m) ==> IsScopyRuntimeClass(m)
  {
  }
}
