/**
  What a generated wrapper does to the scope chain of the execution context that calls it.

  The resolves read the chain without changing it, the original method performs whatever scope
  operations it performs, and the wrapper's own `Push`, `Pop` and `Provide` do the rest. The
  result is provided after the wrapper's scope is popped, so it lands in the caller's scope and
  outlives the call; everything the original method provided inside the wrapper's scope is gone.

  The first half looks only at the scope operations (`BodyOps`), which describes every run in
  which no statement throws. The second half (`ExecBody`) also runs the statements that can
  throw: a resolve that finds nothing and an original method that throws. The generated text
  has no `try`/`finally`, so an exception after the `Push` leaves the wrapper's frame current.
 */
module WrapperExecution {
  import opened Wrappers
  import opened ScopeRuntime
  import opened ScopeLaws
  import opened WrapperGenerator

  /** The scope operations one statement performs. `callee` is what the original method does to
      the chain while it runs; `key` and `result` are the key its return type maps to and the
      value it returns. Resolves do not change the chain; `Freeze` is not part of this model. */
  function StmtOps<V>(s: Stmt, callee: seq<Op<V>>, key: string, result: V): seq<Op<V>> {
    match s
    case PushStmt(name) => [PushOp(name)]
    case CallStmt(_, _, _) => callee
    case PopStmt => [PopOp]
    case ProvideStmt => [ProvideOp(key, result)]
    case ResolveStmt(_, _) => []
    case ResolveFrozenStmt(_, _, _) => []
    case FreezeStmt(_) => []
  }

  /** The scope operations of a statement sequence, in order. */
  function BodyOps<V>(body: seq<Stmt>, callee: seq<Op<V>>, key: string, result: V): seq<Op<V>>
    decreases |body|
  {
    if |body| == 0 then [] else StmtOps(body[0], callee, key, result) + BodyOps(body[1..], callee, key, result)
  }

  lemma {:induction false} BodyOpsConcat<V>(a: seq<Stmt>, b: seq<Stmt>, callee: seq<Op<V>>, key: string, result: V)
    ensures BodyOps(a + b, callee, key, result) == BodyOps(a, callee, key, result) + BodyOps(b, callee, key, result)
    decreases |a|
  {
    if |a| == 0 {
      assert a + b == b;
    } else {
      assert (a + b)[0] == a[0];
      assert (a + b)[1..] == a[1..] + b;
      BodyOpsConcat(a[1..], b, callee, key, result);
    }
  }

  /** Statements of phases 0, 1 and 6 perform no scope operation. */
  lemma {:induction false} QuietOps<V>(s: seq<Stmt>, callee: seq<Op<V>>, key: string, result: V)
    requires forall i | 0 <= i < |s| :: Phase(s[i]) in {0, 1, 6}
    ensures BodyOps(s, callee, key, result) == []
    decreases |s|
  {
    if |s| > 0 {
      assert Phase(s[0]) in {0, 1, 6};
      assert forall i | 0 <= i < |s| - 1 :: s[1..][i] == s[i + 1];
      QuietOps(s[1..], callee, key, result);
    }
  }

  lemma {:induction false} RunConcat<V>(c: Chain<V>, a: seq<Op<V>>, b: seq<Op<V>>)
    requires |c| > 0
    ensures Run(c, a + b) == Run(Run(c, a), b)
    decreases |a|
  {
    if |a| == 0 {
      assert a + b == b;
    } else {
      assert (a + b)[0] == a[0];
      assert (a + b)[1..] == a[1..] + b;
      RunConcat(Apply(c, a[0]), a[1..], b);
    }
  }

  /** The scope operations of a generated body: `Push` if the method is scoped, the original
      method's own operations, `Pop` if the method is scoped, and `Provide` of the result if there
      is one. This is what the body does when no statement throws (`ReturnedRunsOps`). */
  lemma {:induction false} WrapperOps<V>(m: MethodDesc, callee: seq<Op<V>>, key: string, result: V)
    ensures BodyOps(ScopedMethod(m).body, callee, key, result)
            == (if MethodHasScopedAttribute(m) then [PushOp(ScopeName(m))] else [])
               + callee
               + (if MethodHasScopedAttribute(m) then [PopOp] else [])
               + (if m.returnsVoid then [] else [ProvideOp(key, result)])
  {
    MiddlePartsOps(m, callee, key, result);
    var scoped := MethodHasScopedAttribute(m);
    BracketOps(scoped, ScopeName(m), m.returnsVoid, callee, key, result);
    assert BodyOps(CallChild(m), callee, key, result) == callee by {
      assert CallChild(m)[1..] == [];
      assert callee + [] == callee;
    }
  }

  /** Only the push, the call, the pop and the provide of a generated body perform scope
      operations. */
  lemma MiddlePartsOps<V>(m: MethodDesc, callee: seq<Op<V>>, key: string, result: V)
    ensures BodyOps(ScopedMethod(m).body, callee, key, result)
            == BodyOps(PushPart(m), callee, key, result) + BodyOps(CallChild(m), callee, key, result)
               + BodyOps(PopPart(m), callee, key, result) + BodyOps(ProvidePart(m), callee, key, result)
  {
    BodyIsParts(m);
    PartsArePhased(m);
    SevenOps(FrozenPart(m), ResolvePart(m), PushPart(m), CallChild(m), PopPart(m), ProvidePart(m), FreezePart(m), callee, key, result);
  }

  /** The operations of the optional push, pop and provide statements. */
  lemma BracketOps<V>(scoped: bool, name: string, returnsVoid: bool, callee: seq<Op<V>>, key: string, result: V)
    ensures BodyOps(if scoped then [PushStmt(name)] else [], callee, key, result) == (if scoped then [PushOp(name)] else [])
    ensures BodyOps(if scoped then [PopStmt] else [], callee, key, result) == (if scoped then [PopOp] else [])
    ensures BodyOps(if returnsVoid then [] else [ProvideStmt], callee, key, result)
            == (if returnsVoid then [] else [ProvideOp(key, result)])
  {
    var one: seq<Op<V>> := [];
    assert [PushStmt(name)][1..] == [] && [PopStmt][1..] == [] && [ProvideStmt][1..] == [];
    assert [PushOp(name)] + one == [PushOp(name)];
    assert [PopOp] + one == [PopOp];
    assert [ProvideOp(key, result)] + one == [ProvideOp(key, result)];
  }

  /** Of seven runs of phases 0 to 6, only the middle four perform scope operations. */
  lemma SevenOps<V>(p0: seq<Stmt>, p1: seq<Stmt>, p2: seq<Stmt>, p3: seq<Stmt>, p4: seq<Stmt>, p5: seq<Stmt>, p6: seq<Stmt>,
                    callee: seq<Op<V>>, key: string, result: V)
    requires forall i | 0 <= i < |p0| :: Phase(p0[i]) == 0
    requires forall i | 0 <= i < |p1| :: Phase(p1[i]) == 1
    requires forall i | 0 <= i < |p6| :: Phase(p6[i]) == 6
    ensures BodyOps(p0 + p1 + p2 + p3 + p4 + p5 + p6, callee, key, result)
            == BodyOps(p2, callee, key, result) + BodyOps(p3, callee, key, result)
               + BodyOps(p4, callee, key, result) + BodyOps(p5, callee, key, result)
  {
    var o2, o3 := BodyOps(p2, callee, key, result), BodyOps(p3, callee, key, result);
    var o4, o5 := BodyOps(p4, callee, key, result), BodyOps(p5, callee, key, result);
    assert BodyOps(p0 + p1, callee, key, result) == [] by {
      BodyOpsConcat(p0, p1, callee, key, result);
      QuietOps(p0, callee, key, result);
      QuietOps(p1, callee, key, result);
    }
    assert BodyOps(p0 + p1 + p2, callee, key, result) == o2 by {
      BodyOpsConcat(p0 + p1, p2, callee, key, result);
      assert [] + o2 == o2;
    }
    assert BodyOps(p0 + p1 + p2 + p3, callee, key, result) == o2 + o3 by {
      BodyOpsConcat(p0 + p1 + p2, p3, callee, key, result);
    }
    assert BodyOps(p0 + p1 + p2 + p3 + p4, callee, key, result) == o2 + o3 + o4 by {
      BodyOpsConcat(p0 + p1 + p2 + p3, p4, callee, key, result);
    }
    assert BodyOps(p0 + p1 + p2 + p3 + p4 + p5, callee, key, result) == o2 + o3 + o4 + o5 by {
      BodyOpsConcat(p0 + p1 + p2 + p3 + p4, p5, callee, key, result);
    }
    BodyOpsConcat(p0 + p1 + p2 + p3 + p4 + p5, p6, callee, key, result);
    QuietOps(p6, callee, key, result);
    assert o2 + o3 + o4 + o5 + [] == o2 + o3 + o4 + o5;
  }

  /** Running a scoped method's wrapper from chain `c`, when no statement throws and the
      original method's own operations are balanced, leaves `c` as it was except that the
      result, if any, is provided into the caller's current frame (first write wins, as for any
      `Provide`). `ThrowLeavesWrapperFrame` covers the run in which the original method throws. */
  lemma ScopedWrapperProvidesIntoCaller<V>(m: MethodDesc, c: Chain<V>, callee: seq<Op<V>>, key: string, result: V)
    requires |c| > 0
    requires MethodHasScopedAttribute(m)
    requires Balanced(callee)
    ensures Run(c, BodyOps(ScopedMethod(m).body, callee, key, result))
            == if m.returnsVoid then c else Provide(c, key, result)
  {
    WrapperOps(m, callee, key, result);
    var name := ScopeName(m);
    var tail: seq<Op<V>> := if m.returnsVoid then [] else [ProvideOp(key, result)];
    var ops := [PushOp(name)] + callee + [PopOp] + tail;
    RunConcat(c, [PushOp(name)] + callee + [PopOp], tail);
    RunConcat(c, [PushOp(name)] + callee, [PopOp]);
    RunConcat(c, [PushOp(name)], callee);
    assert Run(c, [PushOp(name)]) == Push(c, name);
    var inner := Run(Push(c, name), callee);
    assert Run(inner, [PopOp]) == Pop(inner);
    BalancedBracketRestores(c, name, callee);
    if !m.returnsVoid {
      assert Run(c, tail) == Provide(c, key, result);
    }
  }

  /** Without a scope attribute on the method there is no bracket: when no statement throws,
      the original method's operations act on the caller's chain directly and the result is
      provided on top. */
  lemma UnscopedWrapperRunsInPlace<V>(m: MethodDesc, c: Chain<V>, callee: seq<Op<V>>, key: string, result: V)
    requires |c| > 0
    requires !MethodHasScopedAttribute(m)
    ensures Run(c, BodyOps(ScopedMethod(m).body, callee, key, result))
            == if m.returnsVoid then Run(c, callee) else Provide(Run(c, callee), key, result)
  {
    WrapperOps(m, callee, key, result);
    var tail: seq<Op<V>> := if m.returnsVoid then [] else [ProvideOp(key, result)];
    assert [] + callee + [] + tail == callee + tail;
    RunConcat(c, callee, tail);
    if !m.returnsVoid {
      assert Run(Run(c, callee), tail) == Provide(Run(c, callee), key, result);
    }
  }

  /** The caller can resolve a scoped method's result right after the wrapper returns without
      an exception, unless its current frame already bound the key. */
  lemma ResultVisibleAfterScopedCall<V>(m: MethodDesc, c: Chain<V>, callee: seq<Op<V>>, t: TypeRef, result: V)
    requires |c| > 0
    requires MethodHasScopedAttribute(m) && !m.returnsVoid
    requires Balanced(callee)
    requires NameForType(t) !in Current(c).values
    ensures ResolveOfType(Run(c, BodyOps(ScopedMethod(m).body, callee, NameForType(t), result)), t) == Success(result)
  {
    ScopedWrapperProvidesIntoCaller(m, c, callee, NameForType(t), result);
    ProvideThenResolveOfType(c, t, result);
  }

  // ---- Exceptions ----

  /** What the original method does when the wrapper calls it: the scope operations it performs
      and whether it then returns or throws. */
  datatype CalleeRun<V> = CalleeRun(ops: seq<Op<V>>, throws: bool)

  /** How a wrapper statement, or a whole wrapper, ends: normally or with an exception that
      propagates to the caller. Either way the caller's chain is left as `chain`. */
  datatype Completion<V> = Returned(chain: Chain<V>) | Threw(chain: Chain<V>)

  /** How types are seen at run time: the runtime type the compiler binds a type name in the
      generated text to, and the test the CLR's checked cast performs on a bound value. */
  datatype Typing<!V> = Typing(typeOf: string -> TypeRef, isA: (V, TypeRef) -> bool)

  /** One statement run on chain `c`. A resolve throws when no frame binds its key or when the
      nearest binding is not of the parameter's type; the generated text has no `try`, so
      nothing catches it. Frozen resolves and `Freeze` are not part of this model and never
      throw here. */
  function ExecStmt<V>(c: Chain<V>, s: Stmt, callee: CalleeRun<V>, ty: Typing<V>, key: string, result: V): (r: Completion<V>)
    requires |c| > 0
    ensures |r.chain| > 0
  {
    match s
    case ResolveStmt(typeName, _) => if ResolveOfTypeAs(c, ty.typeOf(typeName), ty.isA).Success? then Returned(c) else Threw(c)
    case ResolveFrozenStmt(_, _, _) => Returned(c)
    case PushStmt(name) => Returned(Push(c, name))
    case CallStmt(_, _, _) => if callee.throws then Threw(Run(c, callee.ops)) else Returned(Run(c, callee.ops))
    case PopStmt => Returned(Pop(c))
    case ProvideStmt => Returned(Provide(c, key, result))
    case FreezeStmt(_) => Returned(c)
  }

  /** A statement sequence run on chain `c`: the first statement that throws ends it. */
  function ExecBody<V>(c: Chain<V>, body: seq<Stmt>, callee: CalleeRun<V>, ty: Typing<V>, key: string, result: V): (r: Completion<V>)
    requires |c| > 0
    ensures |r.chain| > 0
    decreases |body|
  {
    if |body| == 0 then Returned(c)
    else
      match ExecStmt(c, body[0], callee, ty, key, result)
      case Threw(x) => Threw(x)
      case Returned(x) => ExecBody(x, body[1..], callee, ty, key, result)
  }

  /** Continue with `b` after a completion: an exception skips `b`. */
  function AndThen<V>(o: Completion<V>, b: seq<Stmt>, callee: CalleeRun<V>, ty: Typing<V>, key: string, result: V): Completion<V>
    requires |o.chain| > 0
  {
    match o
    case Threw(_) => o
    case Returned(x) => ExecBody(x, b, callee, ty, key, result)
  }

  lemma {:induction false} ExecConcat<V>(c: Chain<V>, a: seq<Stmt>, b: seq<Stmt>, callee: CalleeRun<V>, ty: Typing<V>, key: string, result: V)
    requires |c| > 0
    ensures ExecBody(c, a + b, callee, ty, key, result) == AndThen(ExecBody(c, a, callee, ty, key, result), b, callee, ty, key, result)
    decreases |a|
  {
    if |a| == 0 {
      assert a + b == b;
    } else {
      assert (a + b)[0] == a[0];
      assert (a + b)[1..] == a[1..] + b;
      match ExecStmt(c, a[0], callee, ty, key, result)
      case Threw(x) =>
      case Returned(x) => ExecConcat(x, a[1..], b, callee, ty, key, result);
    }
  }

  /** When a body ends normally, the chain it leaves is the one its scope operations produce:
      the operation view of `BodyOps` is exact for every run in which no statement throws. */
  lemma {:induction false} ReturnedRunsOps<V>(c: Chain<V>, body: seq<Stmt>, callee: CalleeRun<V>, ty: Typing<V>, key: string, result: V)
    requires |c| > 0
    requires ExecBody(c, body, callee, ty, key, result).Returned?
    ensures ExecBody(c, body, callee, ty, key, result).chain == Run(c, BodyOps(body, callee.ops, key, result))
    decreases |body|
  {
    if |body| > 0 {
      var x := ExecStmt(c, body[0], callee, ty, key, result).chain;
      var first := StmtOps(body[0], callee.ops, key, result);
      var rest := BodyOps(body[1..], callee.ops, key, result);
      ReturnedRunsOps(x, body[1..], callee, ty, key, result);
      RunConcat(c, first, rest);
      assert Run(c, first) == x by {
        match body[0]
        case PushStmt(name) => assert Run(c, first) == Run(Push(c, name), []);
        case PopStmt => assert Run(c, first) == Run(Pop(c), []);
        case ProvideStmt => assert Run(c, first) == Run(Provide(c, key, result), []);
        case CallStmt(_, _, _) =>
        case ResolveStmt(_, _) =>
        case ResolveFrozenStmt(_, _, _) =>
        case FreezeStmt(_) =>
      }
    }
  }

  /** Frozen resolves and `Freeze` neither throw nor change the chain here. */
  lemma {:induction false} QuietExec<V>(c: Chain<V>, s: seq<Stmt>, callee: CalleeRun<V>, ty: Typing<V>, key: string, result: V)
    requires |c| > 0
    requires forall i | 0 <= i < |s| :: Phase(s[i]) in {0, 6}
    ensures ExecBody(c, s, callee, ty, key, result) == Returned(c)
    decreases |s|
  {
    if |s| > 0 {
      assert Phase(s[0]) in {0, 6};
      assert forall i | 0 <= i < |s| - 1 :: s[1..][i] == s[i + 1];
      QuietExec(c, s[1..], callee, ty, key, result);
    }
  }

  /** Every parameter in `ps` resolves on `c`. */
  predicate AllResolve<V>(c: Chain<V>, ps: seq<Param>, ty: Typing<V>) {
    forall p | p in ps :: ResolveOfTypeAs(c, ty.typeOf(p.typeName), ty.isA).Success?
  }

  /** The resolves leave the chain alone, and throw exactly when some parameter does not
      resolve: its type is bound in no frame, or its nearest binding is of another type. */
  lemma {:induction false} ExecResolves<V>(c: Chain<V>, ps: seq<Param>, callee: CalleeRun<V>, ty: Typing<V>, key: string, result: V)
    requires |c| > 0
    ensures ExecBody(c, ResolveStmts(ps), callee, ty, key, result) == if AllResolve(c, ps, ty) then Returned(c) else Threw(c)
    decreases |ps|
  {
    if |ps| > 0 {
      var s := ResolveStmts(ps);
      assert s[0] == ResolveStmt(ps[0].typeName, ps[0].name);
      assert s[1..] == ResolveStmts(ps[1..]);
      ExecResolves(c, ps[1..], callee, ty, key, result);
      assert AllResolve(c, ps, ty) <==> ResolveOfTypeAs(c, ty.typeOf(ps[0].typeName), ty.isA).Success? && AllResolve(c, ps[1..], ty) by {
        assert forall p | p in ps :: p == ps[0] || p in ps[1..];
      }
    }
  }

  /** How the generated statement layout ends once the resolves have ended (`resolved` says
      whether they returned): an exception from a resolve leaves `c` untouched; otherwise the
      original method runs on the chain after the optional `Push`, and an exception from it
      skips the `Pop` and the `Provide`. */
  function LayoutEnd<V>(c: Chain<V>, resolved: bool, scoped: bool, name: string, returnsVoid: bool, callee: CalleeRun<V>, key: string, result: V): Completion<V>
    requires |c| > 0
  {
    if !resolved then Threw(c)
    else
      var inner := Run(if scoped then Push(c, name) else c, callee.ops);
      if callee.throws then Threw(inner)
      else
        var after := if scoped then Pop(inner) else inner;
        Returned(if returnsVoid then after else Provide(after, key, result))
  }

  /** A one-statement body ends as its statement does. */
  lemma ExecOne<V>(c: Chain<V>, s: Stmt, callee: CalleeRun<V>, ty: Typing<V>, key: string, result: V)
    requires |c| > 0
    ensures ExecBody(c, [s], callee, ty, key, result) == ExecStmt(c, s, callee, ty, key, result)
  {
    assert [s][1..] == [];
  }

  /** The statements from the optional `Push` to the end, run after the resolves returned. */
  lemma ExecFromPush<V>(c: Chain<V>, scoped: bool, name: string, call: Stmt, returnsVoid: bool, fz: seq<Stmt>,
                        callee: CalleeRun<V>, ty: Typing<V>, key: string, result: V)
    requires |c| > 0
    requires forall i | 0 <= i < |fz| :: Phase(fz[i]) == 6
    requires call.CallStmt?
    ensures var pu: seq<Stmt> := if scoped then [PushStmt(name)] else [];
            var po: seq<Stmt> := if scoped then [PopStmt] else [];
            var pr: seq<Stmt> := if returnsVoid then [] else [ProvideStmt];
            AndThen(AndThen(AndThen(AndThen(ExecBody(c, pu, callee, ty, key, result), [call], callee, ty, key, result),
                                    po, callee, ty, key, result), pr, callee, ty, key, result), fz, callee, ty, key, result)
            == LayoutEnd(c, true, scoped, name, returnsVoid, callee, key, result)
  {
    var pu: seq<Stmt> := if scoped then [PushStmt(name)] else [];
    var c2 := if scoped then Push(c, name) else c;
    if scoped {
      ExecOne(c, PushStmt(name), callee, ty, key, result);
    }
    assert ExecBody(c, pu, callee, ty, key, result) == Returned(c2);
    var inner := Run(c2, callee.ops);
    ExecOne(c2, call, callee, ty, key, result);
    if !callee.throws {
      var po: seq<Stmt> := if scoped then [PopStmt] else [];
      var pr: seq<Stmt> := if returnsVoid then [] else [ProvideStmt];
      var after := if scoped then Pop(inner) else inner;
      if scoped {
        ExecOne(inner, PopStmt, callee, ty, key, result);
      }
      assert ExecBody(inner, po, callee, ty, key, result) == Returned(after);
      var fin := if returnsVoid then after else Provide(after, key, result);
      if !returnsVoid {
        ExecOne(after, ProvideStmt, callee, ty, key, result);
      }
      assert ExecBody(after, pr, callee, ty, key, result) == Returned(fin);
      QuietExec(fin, fz, callee, ty, key, result);
    }
  }

  /** Running seven runs of statements in order, where the first neither throws nor changes
      the chain, is running the other six one after the other. */
  lemma ExecSplit<V>(c: Chain<V>, f: seq<Stmt>, r: seq<Stmt>, pu: seq<Stmt>, cc: seq<Stmt>, po: seq<Stmt>, pr: seq<Stmt>, fz: seq<Stmt>,
                     callee: CalleeRun<V>, ty: Typing<V>, key: string, result: V)
    requires |c| > 0
    requires forall i | 0 <= i < |f| :: Phase(f[i]) == 0
    ensures ExecBody(c, f + r + pu + cc + po + pr + fz, callee, ty, key, result)
            == AndThen(AndThen(AndThen(AndThen(AndThen(ExecBody(c, r, callee, ty, key, result), pu, callee, ty, key, result),
                                               cc, callee, ty, key, result), po, callee, ty, key, result),
                               pr, callee, ty, key, result), fz, callee, ty, key, result)
  {
    var s0 := f + r;
    var s1 := s0 + pu;
    var s2 := s1 + cc;
    var s3 := s2 + po;
    var s4 := s3 + pr;
    assert ExecBody(c, s0, callee, ty, key, result) == ExecBody(c, r, callee, ty, key, result) by {
      QuietExec(c, f, callee, ty, key, result);
      ExecConcat(c, f, r, callee, ty, key, result);
    }
    ExecConcat(c, s0, pu, callee, ty, key, result);
    ExecConcat(c, s1, cc, callee, ty, key, result);
    ExecConcat(c, s2, po, callee, ty, key, result);
    ExecConcat(c, s3, pr, callee, ty, key, result);
    ExecConcat(c, s4, fz, callee, ty, key, result);
  }

  /** How a body laid out as the generator lays it out ends, given how its resolves end. */
  lemma ExecParts<V>(c: Chain<V>, f: seq<Stmt>, r: seq<Stmt>, scoped: bool, name: string, call: Stmt, returnsVoid: bool, fz: seq<Stmt>,
                     callee: CalleeRun<V>, ty: Typing<V>, key: string, result: V)
    requires |c| > 0
    requires forall i | 0 <= i < |f| :: Phase(f[i]) == 0
    requires forall i | 0 <= i < |fz| :: Phase(fz[i]) == 6
    requires call.CallStmt?
    requires ExecBody(c, r, callee, ty, key, result) in {Returned(c), Threw(c)}
    ensures ExecBody(c, f + r + (if scoped then [PushStmt(name)] else []) + [call] + (if scoped then [PopStmt] else [])
                        + (if returnsVoid then [] else [ProvideStmt]) + fz, callee, ty, key, result)
            == LayoutEnd(c, ExecBody(c, r, callee, ty, key, result).Returned?, scoped, name, returnsVoid, callee, key, result)
  {
    var pu: seq<Stmt> := if scoped then [PushStmt(name)] else [];
    var po: seq<Stmt> := if scoped then [PopStmt] else [];
    var pr: seq<Stmt> := if returnsVoid then [] else [ProvideStmt];
    ExecSplit(c, f, r, pu, [call], po, pr, fz, callee, ty, key, result);
    if ExecBody(c, r, callee, ty, key, result).Returned? {
      ExecFromPush(c, scoped, name, call, returnsVoid, fz, callee, ty, key, result);
    }
  }

  /** The parameters a wrapper resolves all resolve on `c`. */
  predicate ResolvesSucceed<V>(c: Chain<V>, m: MethodDesc, ty: Typing<V>) {
    AllResolve(c, ValuedParams(m.params), ty)
  }

  /** How a generated wrapper ends, for every method, chain and behaviour of the original
      method. A `[Scope]` parameter whose type no frame binds makes the wrapper throw before it
      changes anything. Otherwise the original method runs above the wrapper's `Push`, if any.
      When it throws, the exception leaves the wrapper with no `Pop` and no `Provide`, because
      the generated text has no `try`/`finally`. When it returns, the wrapper pops and provides
      the result. */
  lemma WrapperOutcome<V>(m: MethodDesc, c: Chain<V>, callee: CalleeRun<V>, ty: Typing<V>, key: string, result: V)
    requires |c| > 0
    ensures ExecBody(c, ScopedMethod(m).body, callee, ty, key, result)
            == if !ResolvesSucceed(c, m, ty) then Threw(c)
               else
                 var scoped := MethodHasScopedAttribute(m);
                 var inner := Run(if scoped then Push(c, ScopeName(m)) else c, callee.ops);
                 if callee.throws then Threw(inner)
                 else
                   var after := if scoped then Pop(inner) else inner;
                   Returned(if m.returnsVoid then after else Provide(after, key, result))
  {
    BodyIsParts(m);
    PartsArePhased(m);
    ExecResolves(c, ValuedParams(m.params), callee, ty, key, result);
    ExecParts(c, FrozenPart(m), ResolvePart(m), MethodHasScopedAttribute(m), ScopeName(m), CallChild(m)[0], m.returnsVoid, FreezePart(m),
              callee, ty, key, result);
    assert CallChild(m) == [CallChild(m)[0]];
  }

  /** An exception from the original method leaks the wrapper's frame: when the original
      method's own operations are balanced, the caller is left one frame deeper, and popping
      that frame would give back the chain it had before the call. */
  lemma ThrowLeavesWrapperFrame<V>(m: MethodDesc, c: Chain<V>, callee: CalleeRun<V>, ty: Typing<V>, key: string, result: V)
    requires |c| > 0
    requires MethodHasScopedAttribute(m) && ResolvesSucceed(c, m, ty)
    requires callee.throws && Balanced(callee.ops)
    ensures var o := ExecBody(c, ScopedMethod(m).body, callee, ty, key, result);
            o.Threw? && |o.chain| == |c| + 1 && Pop(o.chain) == c
  {
    WrapperOutcome(m, c, callee, ty, key, result);
    var name := ScopeName(m);
    RunAboveKeepsBase(c, [Frame(name, map[])], callee.ops, 0);
    assert Push(c, name) == c + [Frame(name, map[])];
    BalancedBracketRestores(c, name, callee.ops);
  }

  /** A resolve that finds nothing makes the wrapper throw with the caller's chain untouched,
      whatever the method and the original method do. */
  lemma UnresolvedParameterThrowsEarly<V>(m: MethodDesc, c: Chain<V>, callee: CalleeRun<V>, ty: Typing<V>, key: string, result: V, p: Param)
    requires |c| > 0
    requires p in ValuedParams(m.params) && ResolveOfTypeAs(c, ty.typeOf(p.typeName), ty.isA).Failure?
    ensures ExecBody(c, ScopedMethod(m).body, callee, ty, key, result) == Threw(c)
  {
    WrapperOutcome(m, c, callee, ty, key, result);
  }
}
