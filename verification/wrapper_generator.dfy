/**
  The wrapper generator: for every method marked with a scope attribute (on the method or on a
  parameter) it emits a static method `<Name>Scoped` whose body resolves the marked parameters
  from the current scope, pushes a scope around the call when the method itself is marked,
  provides the call's result, and freezes the scope for `FrozenScope` methods.

  The body is built by a pipeline of stages, each wrapping the code produced so far. The model
  keeps the stages and their order but produces a sequence of abstract statements instead of
  source text.
 */
module WrapperGenerator {
  import opened Wrappers
  import opened AttributeText

  // ---- Method descriptors ----

  /** An attribute application, as the display string of its attribute class; `None` when the
      class could not be bound. */
  type Attr = Option<string>

  datatype Param = Param(name: string, typeName: string, attributes: seq<Attr>)

  /** What the generator reads of a method symbol. */
  datatype MethodDesc = MethodDesc(name: string, returnType: string, returnsVoid: bool, attributes: seq<Attr>, params: seq<Param>)

  /** The attribute's class name contains `Scope`. */
  predicate IsScopeAttr(a: Attr) {
    a.Some? && Contains(a.value, "Scope")
  }

  /** `ScopedAttributeOrNull`: the first attribute whose class name contains `Scope`. */
  function FirstScopeAttr(attrs: seq<Attr>): Option<string>
    decreases |attrs|
  {
    if |attrs| == 0 then None
    else if IsScopeAttr(attrs[0]) then Some(attrs[0].value)
    else FirstScopeAttr(attrs[1..])
  }

  /** `FirstScopeAttr` finds nothing exactly when no attribute mentions `Scope`, and otherwise
      finds the first one that does. */
  lemma {:induction false} FirstScopeAttrSpec(attrs: seq<Attr>)
    ensures FirstScopeAttr(attrs).None? <==> forall i | 0 <= i < |attrs| :: !IsScopeAttr(attrs[i])
    ensures FirstScopeAttr(attrs).Some? ==> exists i | 0 <= i < |attrs| ::
              attrs[i] == Some(FirstScopeAttr(attrs).value) && IsScopeAttr(attrs[i])
              && forall j | 0 <= j < i :: !IsScopeAttr(attrs[j])
    decreases |attrs|
  {
    if |attrs| > 0 && !IsScopeAttr(attrs[0]) {
      FirstScopeAttrSpec(attrs[1..]);
      assert forall i | 1 <= i < |attrs| :: attrs[1..][i - 1] == attrs[i];
      if FirstScopeAttr(attrs).Some? {
        var i :| 0 <= i < |attrs[1..]| && attrs[1..][i] == Some(FirstScopeAttr(attrs).value) && IsScopeAttr(attrs[1..][i])
                 && forall j | 0 <= j < i :: !IsScopeAttr(attrs[1..][j]);
        assert attrs[i + 1] == attrs[1..][i];
        assert forall j | 1 <= j < i + 1 :: attrs[j] == attrs[1..][j - 1];
      }
    } else if |attrs| > 0 {
      assert attrs[0] == Some(FirstScopeAttr(attrs).value);
    }
  }

  predicate MethodHasScopedAttribute(m: MethodDesc) {
    FirstScopeAttr(m.attributes).Some?
  }

  predicate ParamHasScopedAttribute(p: Param) {
    FirstScopeAttr(p.attributes).Some?
  }

  /** `HasFrozenScopedAttribute`: the first `Scope` attribute is a `FrozenScope` one. A later
      `FrozenScope` attribute behind a plain `Scope` one does not count. */
  predicate MethodHasFrozenScopedAttribute(m: MethodDesc) {
    var a := FirstScopeAttr(m.attributes);
    a.Some? && Contains(a.value, "FrozenScope")
  }

  /** The name `Push` receives. Stripping the `Attribute` suffix and the namespace from the
      display string is not modelled: the display string itself is kept. */
  function ScopeName(m: MethodDesc): string {
    FirstScopeAttr(m.attributes).GetOr("")
  }

  /** The parameter carries exactly the `[Scope]` attribute. */
  predicate IsValuedParam(p: Param) {
    exists i | 0 <= i < |p.attributes| :: p.attributes[i] == Some(ScopeAttributeName)
  }

  /** The parameter carries exactly the `[FrozenScope]` attribute. */
  predicate IsFrozenParam(p: Param) {
    exists i | 0 <= i < |p.attributes| :: p.attributes[i] == Some(FrozenScopeAttributeName)
  }

  /** `FilterMethods`: the methods the generator runs on. */
  predicate Selected(m: MethodDesc) {
    MethodHasScopedAttribute(m) || exists i | 0 <= i < |m.params| :: ParamHasScopedAttribute(m.params[i])
  }

  // ---- Parameter lists ----

  /** `Where`: the elements satisfying `f`, in order. */
  function Filter(f: Param -> bool, s: seq<Param>): (r: seq<Param>)
    ensures |r| <= |s|
    ensures forall x :: x in r <==> x in s && f(x)
    decreases |s|
  {
    if |s| == 0 then []
    else if f(s[0]) then [s[0]] + Filter(f, s[1..])
    else Filter(f, s[1..])
  }

  /** `Filter` of a single element keeps it exactly when it satisfies `f`. */
  lemma FilterOne(f: Param -> bool, x: Param)
    ensures Filter(f, [x]) == if f(x) then [x] else []
  {
    assert [x][1..] == [];
  }

  /** `Filter` distributes over concatenation. With `FilterOne` this determines `Filter`
      completely: order and multiplicity are kept, as `Where` keeps them. */
  lemma {:induction false} FilterConcat(f: Param -> bool, a: seq<Param>, b: seq<Param>)
    ensures Filter(f, a + b) == Filter(f, a) + Filter(f, b)
    decreases |a|
  {
    if |a| == 0 {
      assert a + b == b;
    } else {
      assert (a + b)[0] == a[0];
      assert (a + b)[1..] == a[1..] + b;
      FilterConcat(f, a[1..], b);
    }
  }

  function Names(ps: seq<Param>): (r: seq<string>)
    ensures |r| == |ps| && forall i | 0 <= i < |ps| :: r[i] == ps[i].name
  {
    seq(|ps|, i requires 0 <= i < |ps| => ps[i].name)
  }

  function ValuedParams(ps: seq<Param>): seq<Param> {
    Filter(IsValuedParam, ps)
  }

  function FrozenParams(ps: seq<Param>): seq<Param> {
    Filter(IsFrozenParam, ps)
  }

  /** `ScopedMethodInputFilteredArgs`: the wrapper keeps the parameters without a `Scope`
      attribute. */
  function InputParams(ps: seq<Param>): seq<Param> {
    Filter((p: Param) => !ParamHasScopedAttribute(p), ps)
  }

  // ---- Statements ----

  /** One statement of the wrapper body. */
  datatype Stmt =
    | ResolveFrozenStmt(typeName: string, name: string, objRef: string)  // var name = CurrentScope.ResolveFrozen<type>(objRef);
    | ResolveStmt(typeName: string, name: string)                        // var name = CurrentScope.Resolve<type>();
    | PushStmt(scopeName: string)                                        // CurrentScope.Push("scopeName");
    | CallStmt(callee: string, args: seq<string>, bindsResult: bool)     // [var methodCallResult = ]callee(args);
    | PopStmt                                                            // CurrentScope.Pop();
    | ProvideStmt                                                        // CurrentScope.Provide(methodCallResult);
    | FreezeStmt(hasValue: bool)                                         // CurrentScope.Freeze([methodCallResult]);

  /** The generated method: name, return type, parameter list and body. */
  datatype Wrapper = Wrapper(name: string, returnType: string, returnsResult: bool, inputs: seq<Param>, body: seq<Stmt>)

  // ---- Pipeline stages ----

  /** `ScopedCallChild`: call the original method with every parameter, binding the result when
      the method returns a value. */
  function CallChild(m: MethodDesc): seq<Stmt> {
    [CallStmt(m.name, Names(m.params), !m.returnsVoid)]
  }

  /** `ScopedCreatingScope`: a scoped method's call is bracketed by `Push` and `Pop`. */
  function CreatingScope(m: MethodDesc, code: seq<Stmt>): seq<Stmt> {
    if MethodHasScopedAttribute(m) then [PushStmt(ScopeName(m))] + code + [PopStmt] else code
  }

  function ResolveStmts(ps: seq<Param>): (r: seq<Stmt>)
    ensures |r| == |ps| && forall i | 0 <= i < |ps| :: r[i] == ResolveStmt(ps[i].typeName, ps[i].name)
  {
    seq(|ps|, i requires 0 <= i < |ps| => ResolveStmt(ps[i].typeName, ps[i].name))
  }

  function ResolveFrozenStmts(ps: seq<Param>, objRef: string): (r: seq<Stmt>)
    ensures |r| == |ps| && forall i | 0 <= i < |ps| :: r[i] == ResolveFrozenStmt(ps[i].typeName, ps[i].name, objRef)
  {
    seq(|ps|, i requires 0 <= i < |ps| => ResolveFrozenStmt(ps[i].typeName, ps[i].name, objRef))
  }

  /** `ScopedResolveValues`: the `[Scope]` parameters are resolved before the code so far. */
  function ResolveValues(m: MethodDesc, code: seq<Stmt>): seq<Stmt> {
    ResolveStmts(ValuedParams(m.params)) + code
  }

  /** Why generation stops: `Parameters.First()` on an empty parameter list. */
  datatype GenError = NoFirstParameter

  /** `ScopedResolveFrozenValues` as written: the object reference is the first parameter's
      name, taken before looking at whether any parameter is frozen, so a method without
      parameters makes generation fail. */
  function ResolveFrozenValuesAsWritten(m: MethodDesc, code: seq<Stmt>): (r: Result<seq<Stmt>, GenError>)
    ensures r.Failure? <==> |m.params| == 0
  {
    if |m.params| == 0 then Failure(NoFirstParameter)
    else Success(ResolveFrozenStmts(FrozenParams(m.params), m.params[0].name) + code)
  }

  /** `ScopedResolveFrozenValues` with the object reference taken only when a frozen parameter
      needs it: the frozen parameters are resolved, against the first parameter, before the code
      so far. */
  function ResolveFrozenValues(m: MethodDesc, code: seq<Stmt>): seq<Stmt> {
    var frozen := FrozenParams(m.params);
    if |frozen| == 0 then code else ResolveFrozenStmts(frozen, m.params[0].name) + code
  }

  /** `ScopedProvideValues`: a returned value is provided after the code so far. */
  function ProvideValues(m: MethodDesc, code: seq<Stmt>): seq<Stmt> {
    if m.returnsVoid then code else code + [ProvideStmt]
  }

  /** `ScopedFreezeScope`: a `FrozenScope` method freezes the scope after the code so far, with
      the result when there is one. */
  function FreezeScope(m: MethodDesc, code: seq<Stmt>): seq<Stmt> {
    if MethodHasFrozenScopedAttribute(m) then code + [FreezeStmt(!m.returnsVoid)] else code
  }

  /** `ScopedMethodTemplate`: the method `<Name>Scoped` with the unmarked parameters, returning
      the call's result unless the method returns nothing. */
  function MethodTemplate(m: MethodDesc, body: seq<Stmt>): Wrapper {
    Wrapper(m.name + "Scoped", m.returnType, !m.returnsVoid, InputParams(m.params), body)
  }

  /** `ScopedMethod` as written. */
  function ScopedMethodAsWritten(m: MethodDesc): (r: Result<Wrapper, GenError>)
    ensures r.Failure? <==> |m.params| == 0
  {
    var code := ResolveValues(m, CreatingScope(m, CallChild(m)));
    var frozen :- ResolveFrozenValuesAsWritten(m, code);
    Success(MethodTemplate(m, FreezeScope(m, ProvideValues(m, frozen))))
  }

  /** `ScopedMethod` with the corrected frozen-resolve stage. */
  function ScopedMethod(m: MethodDesc): Wrapper {
    var code := ResolveValues(m, CreatingScope(m, CallChild(m)));
    MethodTemplate(m, FreezeScope(m, ProvideValues(m, ResolveFrozenValues(m, code))))
  }

  /** The corrected stage differs from the one as written only where that one fails: on every
      method with at least one parameter, both produce the same code. */
  lemma FrozenStageAgrees(m: MethodDesc, code: seq<Stmt>)
    ensures |m.params| > 0 ==> ResolveFrozenValuesAsWritten(m, code) == Success(ResolveFrozenValues(m, code))
  {
    if |m.params| > 0 && |FrozenParams(m.params)| == 0 {
      assert ResolveFrozenStmts(FrozenParams(m.params), m.params[0].name) + code == code;
    }
  }

  /** The corrected generator never fails, and on every method with at least one parameter it
      produces the wrapper the generator as written produces. */
  lemma CorrectedAgreesWhenParameters(m: MethodDesc)
    ensures ScopedMethodAsWritten(m).Success? <==> |m.params| > 0
    ensures |m.params| > 0 ==> ScopedMethodAsWritten(m) == Success(ScopedMethod(m))
  {
    FrozenStageAgrees(m, ResolveValues(m, CreatingScope(m, CallChild(m))));
  }

  // ---- The shape of the generated body ----

  /** The position of a statement kind in the body's fixed order. */
  function Phase(s: Stmt): nat {
    match s
    case ResolveFrozenStmt(_, _, _) => 0
    case ResolveStmt(_, _) => 1
    case PushStmt(_) => 2
    case CallStmt(_, _, _) => 3
    case PopStmt => 4
    case ProvideStmt => 5
    case FreezeStmt(_) => 6
  }

  /** Statements appear in phase order. */
  predicate Ordered(body: seq<Stmt>) {
    forall i, j | 0 <= i < j < |body| :: Phase(body[i]) <= Phase(body[j])
  }

  /** The number of statements of phase `k`. */
  function CountPhase(body: seq<Stmt>, k: nat): nat
    decreases |body|
  {
    if |body| == 0 then 0
    else (if Phase(body[0]) == k then 1 else 0) + CountPhase(body[1..], k)
  }

  lemma {:induction false} CountPhaseConcat(a: seq<Stmt>, b: seq<Stmt>, k: nat)
    ensures CountPhase(a + b, k) == CountPhase(a, k) + CountPhase(b, k)
    decreases |a|
  {
    if |a| > 0 {
      assert (a + b)[0] == a[0];
      assert (a + b)[1..] == a[1..] + b;
      CountPhaseConcat(a[1..], b, k);
    } else {
      assert a + b == b;
    }
  }

  /** A sequence all of whose statements have phase `k` counts `|s|` statements of phase `k`
      and none of any other. */
  lemma {:induction false} CountUniform(s: seq<Stmt>, k: nat, j: nat)
    requires forall i | 0 <= i < |s| :: Phase(s[i]) == k
    ensures CountPhase(s, j) == if j == k then |s| else 0
    decreases |s|
  {
    if |s| > 0 {
      assert forall i | 0 <= i < |s| - 1 :: s[1..][i] == s[i + 1];
      CountUniform(s[1..], k, j);
    }
  }

  /** Appending a run of phase-`n` statements to an ordered body whose phases are all below `n`
      keeps it ordered and adds the run's length to the count of phase `n`. */
  lemma AppendPhase(acc: seq<Stmt>, part: seq<Stmt>, n: nat)
    requires Ordered(acc) && forall i | 0 <= i < |acc| :: Phase(acc[i]) < n
    requires forall i | 0 <= i < |part| :: Phase(part[i]) == n
    ensures Ordered(acc + part) && forall i | 0 <= i < |acc + part| :: Phase((acc + part)[i]) < n + 1
    ensures forall j: nat :: CountPhase(acc + part, j) == CountPhase(acc, j) + (if j == n then |part| else 0)
  {
    forall i, j | 0 <= i < j < |acc + part|
      ensures Phase((acc + part)[i]) <= Phase((acc + part)[j])
    {
      if j >= |acc| {
        assert (acc + part)[j] == part[j - |acc|];
        if i >= |acc| {
          assert (acc + part)[i] == part[i - |acc|];
        }
      }
    }
    forall i | 0 <= i < |acc + part| ensures Phase((acc + part)[i]) < n + 1 {
      if i >= |acc| {
        assert (acc + part)[i] == part[i - |acc|];
      }
    }
    forall j: nat ensures CountPhase(acc + part, j) == CountPhase(acc, j) + (if j == n then |part| else 0) {
      CountPhaseConcat(acc, part, j);
      CountUniform(part, n, j);
    }
  }

  // The parts of a generated body, in order.

  function FrozenPart(m: MethodDesc): seq<Stmt> {
    var frozen := FrozenParams(m.params);
    if |frozen| == 0 then [] else ResolveFrozenStmts(frozen, m.params[0].name)
  }

  function ResolvePart(m: MethodDesc): seq<Stmt> {
    ResolveStmts(ValuedParams(m.params))
  }

  function PushPart(m: MethodDesc): seq<Stmt> {
    if MethodHasScopedAttribute(m) then [PushStmt(ScopeName(m))] else []
  }

  function PopPart(m: MethodDesc): seq<Stmt> {
    if MethodHasScopedAttribute(m) then [PopStmt] else []
  }

  function ProvidePart(m: MethodDesc): seq<Stmt> {
    if m.returnsVoid then [] else [ProvideStmt]
  }

  function FreezePart(m: MethodDesc): seq<Stmt> {
    if MethodHasFrozenScopedAttribute(m) then [FreezeStmt(!m.returnsVoid)] else []
  }

  lemma BodyIsParts(m: MethodDesc)
    ensures ScopedMethod(m).body
            == FrozenPart(m) + ResolvePart(m) + PushPart(m) + CallChild(m) + PopPart(m) + ProvidePart(m) + FreezePart(m)
  {
    var c0 := CallChild(m);
    var c1 := CreatingScope(m, c0);
    assert c1 == PushPart(m) + c0 + PopPart(m);
    var c2 := ResolveValues(m, c1);
    var c3 := ResolveFrozenValues(m, c2);
    assert c3 == FrozenPart(m) + c2;
    var c4 := ProvideValues(m, c3);
    assert c4 == c3 + ProvidePart(m);
    var c5 := FreezeScope(m, c4);
    assert c5 == c4 + FreezePart(m);
    assert ScopedMethod(m).body == c5;
    var f, r, pu, po := FrozenPart(m), ResolvePart(m), PushPart(m), PopPart(m);
    calc {
      c3;
      f + (r + (pu + c0 + po));
      { ConcatAssoc(f, r, pu + c0 + po); }
      (f + r) + (pu + c0 + po);
      { ConcatAssoc(f + r, pu + c0, po); }
      (f + r) + (pu + c0) + po;
      { ConcatAssoc(f + r, pu, c0); }
      f + r + pu + c0 + po;
    }
  }

  /** The generated body is, in this order: the frozen resolves, one per `[FrozenScope]`
      parameter; the resolves, one per `[Scope]` parameter; `Push` if the method is scoped; the
      call; `Pop` if the method is scoped; `Provide` exactly when the method returns a value;
      `Freeze` exactly when the method's scope attribute is a `FrozenScope` one. Nothing else. */
  lemma BodyShape(m: MethodDesc)
    ensures var body := ScopedMethod(m).body;
            && Ordered(body)
            && CountPhase(body, 0) == |FrozenParams(m.params)|
            && CountPhase(body, 1) == |ValuedParams(m.params)|
            && CountPhase(body, 2) == (if MethodHasScopedAttribute(m) then 1 else 0)
            && CountPhase(body, 3) == 1
            && CountPhase(body, 4) == (if MethodHasScopedAttribute(m) then 1 else 0)
            && CountPhase(body, 5) == (if m.returnsVoid then 0 else 1)
            && CountPhase(body, 6) == (if MethodHasFrozenScopedAttribute(m) then 1 else 0)
            && |body| == CountPhase(body, 0) + CountPhase(body, 1) + CountPhase(body, 2) + CountPhase(body, 3)
                         + CountPhase(body, 4) + CountPhase(body, 5) + CountPhase(body, 6)
  {
    BodyIsParts(m);
    PartsArePhased(m);
    SevenParts(FrozenPart(m), ResolvePart(m), PushPart(m), CallChild(m), PopPart(m), ProvidePart(m), FreezePart(m));
  }

  lemma PartsArePhased(m: MethodDesc)
    ensures forall i | 0 <= i < |FrozenPart(m)| :: Phase(FrozenPart(m)[i]) == 0
    ensures forall i | 0 <= i < |ResolvePart(m)| :: Phase(ResolvePart(m)[i]) == 1
    ensures forall i | 0 <= i < |PushPart(m)| :: Phase(PushPart(m)[i]) == 2
    ensures forall i | 0 <= i < |CallChild(m)| :: Phase(CallChild(m)[i]) == 3
    ensures forall i | 0 <= i < |PopPart(m)| :: Phase(PopPart(m)[i]) == 4
    ensures forall i | 0 <= i < |ProvidePart(m)| :: Phase(ProvidePart(m)[i]) == 5
    ensures forall i | 0 <= i < |FreezePart(m)| :: Phase(FreezePart(m)[i]) == 6
  {
    var frozen := FrozenParams(m.params);
    if |frozen| > 0 {
      assert FrozenPart(m) == ResolveFrozenStmts(frozen, m.params[0].name);
    }
  }

  /** Seven runs, the `k`-th of phase `k`, concatenated in order. */
  lemma SevenParts(p0: seq<Stmt>, p1: seq<Stmt>, p2: seq<Stmt>, p3: seq<Stmt>, p4: seq<Stmt>, p5: seq<Stmt>, p6: seq<Stmt>)
    requires forall i | 0 <= i < |p0| :: Phase(p0[i]) == 0
    requires forall i | 0 <= i < |p1| :: Phase(p1[i]) == 1
    requires forall i | 0 <= i < |p2| :: Phase(p2[i]) == 2
    requires forall i | 0 <= i < |p3| :: Phase(p3[i]) == 3
    requires forall i | 0 <= i < |p4| :: Phase(p4[i]) == 4
    requires forall i | 0 <= i < |p5| :: Phase(p5[i]) == 5
    requires forall i | 0 <= i < |p6| :: Phase(p6[i]) == 6
    ensures var body := p0 + p1 + p2 + p3 + p4 + p5 + p6;
            && Ordered(body)
            && CountPhase(body, 0) == |p0| && CountPhase(body, 1) == |p1| && CountPhase(body, 2) == |p2|
            && CountPhase(body, 3) == |p3| && CountPhase(body, 4) == |p4| && CountPhase(body, 5) == |p5|
            && CountPhase(body, 6) == |p6|
  {
    var a0: seq<Stmt> := [];
    AppendPhase(a0, p0, 0);
    assert a0 + p0 == p0;
    AppendPhase(p0, p1, 1);
    var a2 := p0 + p1;
    AppendPhase(a2, p2, 2);
    var a3 := a2 + p2;
    AppendPhase(a3, p3, 3);
    var a4 := a3 + p3;
    AppendPhase(a4, p4, 4);
    var a5 := a4 + p4;
    AppendPhase(a5, p5, 5);
    var a6 := a5 + p5;
    AppendPhase(a6, p6, 6);
  }

  // ---- Names in scope at the call ----

  /** The statement declares a local named `x`. */
  predicate Declares(s: Stmt, x: string) {
    (s.ResolveStmt? || s.ResolveFrozenStmt?) && s.name == x
  }

  /** `x` is a wrapper parameter or a local the body declares. */
  ghost predicate Bound(w: Wrapper, x: string) {
    x in Names(w.inputs) || exists i | 0 <= i < |w.body| :: Declares(w.body[i], x)
  }

  /** C# parameter names are distinct. */
  predicate DistinctNames(ps: seq<Param>) {
    forall i, j | 0 <= i < j < |ps| :: ps[i].name != ps[j].name
  }

  lemma NamesIn(ps: seq<Param>, x: string)
    ensures x in Names(ps) <==> exists p | p in ps :: p.name == x
  {
    if x in Names(ps) {
      var i :| 0 <= i < |ps| && Names(ps)[i] == x;
      assert ps[i] in ps;
    }
  }

  lemma DeclaresConcat(a: seq<Stmt>, b: seq<Stmt>, x: string)
    ensures (exists i | 0 <= i < |a + b| :: Declares((a + b)[i], x))
            <==> (exists i | 0 <= i < |a| :: Declares(a[i], x)) || (exists i | 0 <= i < |b| :: Declares(b[i], x))
  {
    if exists i | 0 <= i < |a| :: Declares(a[i], x) {
      var i :| 0 <= i < |a| && Declares(a[i], x);
      assert (a + b)[i] == a[i];
    }
    if exists i | 0 <= i < |b| :: Declares(b[i], x) {
      var i :| 0 <= i < |b| && Declares(b[i], x);
      assert (a + b)[|a| + i] == b[i];
    }
    if exists i | 0 <= i < |a + b| :: Declares((a + b)[i], x) {
      var i :| 0 <= i < |a + b| && Declares((a + b)[i], x);
      if i >= |a| {
        assert (a + b)[i] == b[i - |a|];
      }
    }
  }

  /** The frozen resolves declare exactly the `[FrozenScope]` parameters. */
  lemma FrozenPartDeclares(m: MethodDesc, x: string)
    ensures (exists i | 0 <= i < |FrozenPart(m)| :: Declares(FrozenPart(m)[i], x))
            <==> exists p | p in m.params :: p.name == x && IsFrozenParam(p)
  {
    var frozen := FrozenParams(m.params);
    var f := FrozenPart(m);
    if |frozen| > 0 {
      assert f == ResolveFrozenStmts(frozen, m.params[0].name);
      if exists p | p in frozen :: p.name == x {
        var p :| p in frozen && p.name == x;
        var i :| 0 <= i < |frozen| && frozen[i] == p;
        assert Declares(f[i], x);
      }
    } else {
      assert forall p | p in m.params :: !IsFrozenParam(p) by {
        forall p | p in m.params ensures !IsFrozenParam(p) {
          assert p !in frozen;
        }
      }
    }
  }

  /** The resolves declare exactly the `[Scope]` parameters. */
  lemma ResolvePartDeclares(m: MethodDesc, x: string)
    ensures (exists i | 0 <= i < |ResolvePart(m)| :: Declares(ResolvePart(m)[i], x))
            <==> exists p | p in m.params :: p.name == x && IsValuedParam(p)
  {
    var valued := ValuedParams(m.params);
    var r := ResolvePart(m);
    if exists p | p in m.params :: p.name == x && IsValuedParam(p) {
      var p :| p in m.params && p.name == x && IsValuedParam(p);
      assert p in valued;
      var i :| 0 <= i < |valued| && valued[i] == p;
      assert Declares(r[i], x);
    }
  }

  /** Appending statements that come after the declarations declares nothing new. */
  lemma AppendLate(a: seq<Stmt>, b: seq<Stmt>, x: string)
    requires Late(b)
    ensures (exists i | 0 <= i < |a + b| :: Declares((a + b)[i], x)) <==> exists i | 0 <= i < |a| :: Declares(a[i], x)
  {
    DeclaresConcat(a, b, x);
  }

  /** A statement of the body declares `x` exactly when a `[Scope]` or `[FrozenScope]` parameter
      is named `x`. */
  lemma DeclaredNames(m: MethodDesc, x: string)
    ensures (exists i | 0 <= i < |ScopedMethod(m).body| :: Declares(ScopedMethod(m).body[i], x))
            <==> exists p | p in m.params :: p.name == x && (IsValuedParam(p) || IsFrozenParam(p))
  {
    var f, r := FrozenPart(m), ResolvePart(m);
    BodyIsParts(m);
    PartsArePhased(m);
    AppendLate(f + r, PushPart(m), x);
    AppendLate(f + r + PushPart(m), CallChild(m), x);
    AppendLate(f + r + PushPart(m) + CallChild(m), PopPart(m), x);
    AppendLate(f + r + PushPart(m) + CallChild(m) + PopPart(m), ProvidePart(m), x);
    AppendLate(f + r + PushPart(m) + CallChild(m) + PopPart(m) + ProvidePart(m), FreezePart(m), x);
    DeclaresConcat(f, r, x);
    FrozenPartDeclares(m, x);
    ResolvePartDeclares(m, x);
  }

  /** Every statement comes after the declarations. */
  predicate Late(s: seq<Stmt>) {
    forall i | 0 <= i < |s| :: Phase(s[i]) >= 2
  }

  lemma LateConcat(a: seq<Stmt>, b: seq<Stmt>)
    requires Late(a) && Late(b)
    ensures Late(a + b)
  {
    forall i | |a| <= i < |a + b| ensures Phase((a + b)[i]) >= 2 {
      assert (a + b)[i] == b[i - |a|];
    }
  }

  /** `x` is the name of a wrapper input exactly when a parameter without a `Scope` attribute is
      named `x`. */
  lemma InputNames(m: MethodDesc, x: string)
    ensures x in Names(ScopedMethod(m).inputs) <==> exists p | p in m.params :: p.name == x && !ParamHasScopedAttribute(p)
  {
    NamesIn(ScopedMethod(m).inputs, x);
  }

  /** With distinct parameter names, the `k`-th argument of the call is bound in the wrapper
      exactly when the parameter has no `Scope` attribute or carries one of the two exact
      attributes. */
  lemma ParamBound(m: MethodDesc, k: nat)
    requires DistinctNames(m.params) && k < |m.params|
    ensures var p := m.params[k];
            Bound(ScopedMethod(m), p.name) <==> !ParamHasScopedAttribute(p) || IsValuedParam(p) || IsFrozenParam(p)
  {
    var p := m.params[k];
    InputNames(m, p.name);
    DeclaredNames(m, p.name);
    forall q | q in m.params && q.name == p.name ensures q == p {
      var j :| 0 <= j < |m.params| && m.params[j] == q;
      assert j == k;
    }
  }

  /** Every argument the wrapper passes to the original method is a wrapper parameter or a
      resolved local exactly when every parameter whose attribute mentions `Scope` carries exactly
      `ScopyRuntime.ScopeAttribute` or `ScopyRuntime.FrozenScopeAttribute`: any other `Scope`
      attribute drops the parameter from the wrapper without resolving it. */
  lemma ArgumentsBound(m: MethodDesc)
    requires DistinctNames(m.params)
    ensures (forall k | 0 <= k < |m.params| :: Bound(ScopedMethod(m), m.params[k].name))
            <==> forall k | 0 <= k < |m.params| ::
                   ParamHasScopedAttribute(m.params[k]) ==> IsValuedParam(m.params[k]) || IsFrozenParam(m.params[k])
  {
    forall k | 0 <= k < |m.params| ensures Bound(ScopedMethod(m), m.params[k].name)
      <==> (ParamHasScopedAttribute(m.params[k]) ==> IsValuedParam(m.params[k]) || IsFrozenParam(m.params[k])) {
      ParamBound(m, k);
    }
  }

  /** The call passes every parameter, in order. */
  lemma CallPassesEveryParameter(m: MethodDesc)
    ensures exists i | 0 <= i < |ScopedMethod(m).body| :: ScopedMethod(m).body[i] == CallStmt(m.name, Names(m.params), !m.returnsVoid)
  {
    var body := ScopedMethod(m).body;
    BodyIsParts(m);
    var pre := FrozenPart(m) + ResolvePart(m) + PushPart(m);
    var post := PopPart(m) + ProvidePart(m) + FreezePart(m);
    assert body == pre + CallChild(m) + post by {
      ConcatAssoc(pre + CallChild(m), PopPart(m), ProvidePart(m));
      ConcatAssoc(pre + CallChild(m), PopPart(m) + ProvidePart(m), FreezePart(m));
    }
    assert body[|pre|] == CallStmt(m.name, Names(m.params), !m.returnsVoid);
  }

  /** Both exact attribute names mention `Scope`, so a `[Scope]` or `[FrozenScope]` parameter
      is never a wrapper input: no parameter is both passed in and resolved. */
  lemma ExactAttributeIsScoped(p: Param)
    requires IsValuedParam(p) || IsFrozenParam(p)
    ensures ParamHasScopedAttribute(p)
  {
    FirstScopeAttrSpec(p.attributes);
    FrozenScopeAttributeMentionsBoth();
    ScopeAttributeMentionsScope();
    var i :| 0 <= i < |p.attributes| && (p.attributes[i] == Some(ScopeAttributeName) || p.attributes[i] == Some(FrozenScopeAttributeName));
    assert IsScopeAttr(p.attributes[i]);
  }

  lemma InputsAreNeverResolved(m: MethodDesc)
    ensures forall p | p in ScopedMethod(m).inputs :: p in m.params && !IsValuedParam(p) && !IsFrozenParam(p)
  {
    forall p | p in ScopedMethod(m).inputs
      ensures p in m.params && !IsValuedParam(p) && !IsFrozenParam(p)
    {
      if IsValuedParam(p) || IsFrozenParam(p) {
        ExactAttributeIsScoped(p);
      }
    }
  }

  /** Every frozen resolve passes the first parameter's name as its object reference. With
      distinct names, that name is a wrapper input exactly when the first parameter has no
      `Scope` attribute; otherwise it names a local that is declared by a resolve (possibly the
      frozen resolve itself) or nowhere at all. */
  lemma FrozenObjectReference(m: MethodDesc)
    requires DistinctNames(m.params)
    ensures forall i | 0 <= i < |ScopedMethod(m).body| && ScopedMethod(m).body[i].ResolveFrozenStmt? ::
              |m.params| > 0 && ScopedMethod(m).body[i].objRef == m.params[0].name
    ensures |m.params| > 0 ==> (m.params[0].name in Names(ScopedMethod(m).inputs) <==> !ParamHasScopedAttribute(m.params[0]))
  {
    var x := if |m.params| > 0 then m.params[0].name else "";
    var wrongRef := (s: Stmt) => s.ResolveFrozenStmt? && (|m.params| == 0 || s.objRef != x);
    var f, r, pu, c, po, pr, fr := FrozenPart(m), ResolvePart(m), PushPart(m), CallChild(m), PopPart(m), ProvidePart(m), FreezePart(m);
    assert !AnyStmt(ScopedMethod(m).body, wrongRef) by {
      BodyIsParts(m);
      PartsArePhased(m);
      SevenAny(f, r, pu, c, po, pr, fr, wrongRef);
      assert !AnyStmt(f, wrongRef) by {
        var frozen := FrozenParams(m.params);
        if |frozen| > 0 {
          assert f == ResolveFrozenStmts(frozen, m.params[0].name);
        }
      }
    }
    if |m.params| > 0 {
      InputNames(m, x);
      forall q | q in m.params && q.name == x ensures q == m.params[0] {
        var j :| 0 <= j < |m.params| && m.params[j] == q;
        assert j == 0;
      }
    }
  }

  // ---- The call's result ----

  /** The statement reads `methodCallResult`. */
  predicate UsesResult(s: Stmt) {
    s == ProvideStmt || s == FreezeStmt(true)
  }

  /** The statement declares `methodCallResult`. */
  predicate BindsResult(s: Stmt) {
    s.CallStmt? && s.bindsResult
  }

  predicate AnyStmt(s: seq<Stmt>, f: Stmt -> bool) {
    exists i | 0 <= i < |s| :: f(s[i])
  }

  lemma AnyConcat(a: seq<Stmt>, b: seq<Stmt>, f: Stmt -> bool)
    ensures AnyStmt(a + b, f) <==> AnyStmt(a, f) || AnyStmt(b, f)
  {
    if AnyStmt(a, f) {
      var i :| 0 <= i < |a| && f(a[i]);
      assert (a + b)[i] == a[i];
    }
    if AnyStmt(b, f) {
      var i :| 0 <= i < |b| && f(b[i]);
      assert (a + b)[|a| + i] == b[i];
    }
    if AnyStmt(a + b, f) {
      var i :| 0 <= i < |a + b| && f((a + b)[i]);
      if i >= |a| {
        assert (a + b)[i] == b[i - |a|];
      } else {
        assert (a + b)[i] == a[i];
      }
    }
  }

  lemma SevenAny(p0: seq<Stmt>, p1: seq<Stmt>, p2: seq<Stmt>, p3: seq<Stmt>, p4: seq<Stmt>, p5: seq<Stmt>, p6: seq<Stmt>, f: Stmt -> bool)
    ensures AnyStmt(p0 + p1 + p2 + p3 + p4 + p5 + p6, f)
            <==> AnyStmt(p0, f) || AnyStmt(p1, f) || AnyStmt(p2, f) || AnyStmt(p3, f) || AnyStmt(p4, f) || AnyStmt(p5, f) || AnyStmt(p6, f)
  {
    AnyConcat(p0, p1, f);
    AnyConcat(p0 + p1, p2, f);
    AnyConcat(p0 + p1 + p2, p3, f);
    AnyConcat(p0 + p1 + p2 + p3, p4, f);
    AnyConcat(p0 + p1 + p2 + p3 + p4, p5, f);
    AnyConcat(p0 + p1 + p2 + p3 + p4 + p5, p6, f);
  }

  /** Only the call binds the result; only `Provide` and `Freeze` read it. */
  lemma PartsAndResult(m: MethodDesc)
    ensures !AnyStmt(FrozenPart(m), UsesResult) && !AnyStmt(FrozenPart(m), BindsResult)
    ensures !AnyStmt(ResolvePart(m), UsesResult) && !AnyStmt(ResolvePart(m), BindsResult)
    ensures !AnyStmt(PushPart(m), UsesResult) && !AnyStmt(PushPart(m), BindsResult)
    ensures !AnyStmt(CallChild(m), UsesResult) && (AnyStmt(CallChild(m), BindsResult) <==> !m.returnsVoid)
    ensures !AnyStmt(PopPart(m), UsesResult) && !AnyStmt(PopPart(m), BindsResult)
    ensures (AnyStmt(ProvidePart(m), UsesResult) <==> !m.returnsVoid) && !AnyStmt(ProvidePart(m), BindsResult)
    ensures (AnyStmt(FreezePart(m), UsesResult) ==> !m.returnsVoid) && !AnyStmt(FreezePart(m), BindsResult)
  {
    PartsArePhased(m);
    assert CallChild(m)[0] == CallStmt(m.name, Names(m.params), !m.returnsVoid);
    if !m.returnsVoid {
      assert UsesResult(ProvidePart(m)[0]);
    }
  }

  /** The body reads the call's result exactly when the call binds it, and that happens exactly
      when the method returns a value: `Provide` and `Freeze` never name an undeclared
      `methodCallResult`. */
  lemma ResultUsedIffBound(m: MethodDesc)
    ensures AnyStmt(ScopedMethod(m).body, UsesResult) <==> !m.returnsVoid
    ensures AnyStmt(ScopedMethod(m).body, BindsResult) <==> !m.returnsVoid
  {
    BodyIsParts(m);
    PartsAndResult(m);
    var f, r, pu, c, po, pr, fr := FrozenPart(m), ResolvePart(m), PushPart(m), CallChild(m), PopPart(m), ProvidePart(m), FreezePart(m);
    SevenAny(f, r, pu, c, po, pr, fr, UsesResult);
    SevenAny(f, r, pu, c, po, pr, fr, BindsResult);
  }

  // ---- The parameterless method ----

  /** A `[Scope]` method without parameters. */
  const ParameterlessScoped: MethodDesc := MethodDesc("Run", "void", true, [Some(ScopeAttributeName)], [])

  lemma ScopeAttributeIsScoped()
    ensures IsScopeAttr(Some(ScopeAttributeName))
  {
    ScopeAttributeMentionsScope();
  }

  /** The generator selects a `[Scope]` method without parameters and then fails on it: the
      object reference for frozen resolves is taken from a first parameter that does not exist,
      although the method has no frozen parameter that would need it. */
  lemma ParameterlessScopedMethodFails()
    ensures Selected(ParameterlessScoped)
    ensures ScopedMethodAsWritten(ParameterlessScoped) == Failure(NoFirstParameter)
  {
    ScopeAttributeIsScoped();
    assert FirstScopeAttr(ParameterlessScoped.attributes) == Some(ScopeAttributeName);
  }

  /** With the object reference taken only when needed, the same method gets the wrapper every
      other `[Scope]` method gets: push, call, pop. */
  lemma ParameterlessScopedMethodIsWrapped()
    ensures ScopedMethod(ParameterlessScoped).body == [PushStmt(ScopeAttributeName), CallStmt("Run", [], false), PopStmt]
    ensures ScopedMethod(ParameterlessScoped).inputs == []
  {
    var m := ParameterlessScoped;
    assert PushPart(m) == [PushStmt(ScopeAttributeName)] && PopPart(m) == [PopStmt] by {
      ScopeAttributeIsScoped();
      assert FirstScopeAttr(m.attributes) == Some(ScopeAttributeName);
    }
    assert FreezePart(m) == [] by {
      assert FirstScopeAttr(m.attributes) == Some(ScopeAttributeName) by {
        ScopeAttributeIsScoped();
      }
      ScopeAttributeIsNotFrozen();
    }
    assert FrozenPart(m) == [] && ResolvePart(m) == [] && ProvidePart(m) == [];
    assert CallChild(m) == [CallStmt("Run", [], false)];
    var e: seq<Stmt> := [];
    var push, call, pop := [PushStmt(ScopeAttributeName)], [CallStmt("Run", [], false)], [PopStmt];
    assert ScopedMethod(m).body == e + e + push + call + pop + e + e by {
      BodyIsParts(m);
    }
    assert e + e + push + call + pop + e + e == [PushStmt(ScopeAttributeName), CallStmt("Run", [], false), PopStmt];
  }
}
