/**
  Laws of the scope stack runtime: push/pop pairing, first-write-wins provision, nearest-frame
  resolution, and the fact that a balanced push/pop bracket leaves no trace.
 */
module ScopeLaws {
  import opened Wrappers
  import opened ScopeRuntime

  /** The runtime calls that change the state of one execution context. */
  datatype Op<V> = PushOp(name: string) | PopOp | ProvideOp(key: string, value: V)

  function Apply<V>(c: Chain<V>, op: Op<V>): (r: Chain<V>)
    requires |c| > 0
    ensures |r| > 0
  {
    match op
    case PushOp(name) => Push(c, name)
    case PopOp => Pop(c)
    case ProvideOp(key, value) => Provide(c, key, value)
  }

  /** The state after performing `ops` in order, starting from `c`. */
  function Run<V>(c: Chain<V>, ops: seq<Op<V>>): (r: Chain<V>)
    requires |c| > 0
    ensures |r| > 0
    decreases |ops|
  {
    if |ops| == 0 then c else Run(Apply(c, ops[0]), ops[1..])
  }

  /** Every state reachable from the static constructor has a current frame, and the root frame
      keeps its name whatever the program does. */
  lemma {:induction false} ReachableStatesHaveRoot<V>(ops: seq<Op<V>>)
    ensures |Run(Initial<V>(), ops)| >= 1
    ensures Run(Initial<V>(), ops)[0].name == DefaultScopeName
  {
    RootNameKept(Initial<V>(), ops);
  }

  lemma {:induction false} RootNameKept<V>(c: Chain<V>, ops: seq<Op<V>>)
    requires |c| > 0
    ensures Run(c, ops)[0].name == c[0].name
    decreases |ops|
  {
    if |ops| > 0 {
      var c' := Apply(c, ops[0]);
      assert c'[0].name == c[0].name by {
        match ops[0]
        case PushOp(name) =>
        case PopOp =>
        case ProvideOp(key, value) =>
          if |c| > 1 {
            assert c'[..|c| - 1][0] == c[..|c| - 1][0];
          }
      }
      RootNameKept(c', ops[1..]);
    }
  }

  /** `Pop` right after `Push` makes the previously current frame current again, with the whole
      chain as it was. */
  lemma PopAfterPush<V>(c: Chain<V>, name: string)
    requires |c| > 0
    ensures Pop(Push(c, name)) == c
    ensures Current(Pop(Push(c, name))) == Current(c)
  {
  }

  /** Popping the root frame neither fails nor changes the state, however often it is repeated. */
  lemma {:induction false} PopRootIsNoOp<V>(c: Chain<V>, n: nat)
    requires |c| == 1
    ensures Run(c, seq(n, _ => PopOp)) == c
    decreases n
  {
    if n > 0 {
      var ops: seq<Op<V>> := seq(n, _ => PopOp);
      assert ops[0] == PopOp;
      assert ops[1..] == seq(n - 1, _ => PopOp);
      PopRootIsNoOp(c, n - 1);
    }
  }

  /** Providing a key twice in the same frame keeps the first value: the second call is a no-op. */
  lemma ProvideTwiceKeepsFirst<V>(c: Chain<V>, key: string, v1: V, v2: V)
    requires |c| > 0
    ensures Provide(Provide(c, key, v1), key, v2) == Provide(c, key, v1)
  {
  }

  /** `Provide<T>(v)` then `Resolve<T>()` in the same frame yields `v`, unless the frame already
      held a value for `T`, which then wins. Both sides key by `GetNameForType(typeof(T))`. */
  lemma ProvideThenResolveOfType<V>(c: Chain<V>, t: TypeRef, v: V)
    requires |c| > 0
    ensures NameForType(t) !in Current(c).values ==> ResolveOfType(ProvideOfType(c, t, v), t) == Success(v)
    ensures NameForType(t) in Current(c).values ==>
              ResolveOfType(ProvideOfType(c, t, v), t) == Success(Current(c).values[NameForType(t)])
  {
  }

  /** Right after `Push`, every key resolves exactly as it did in the parent: the new frame is
      empty, so the walk goes straight on to the ancestors. */
  lemma ResolveAfterPush<V>(c: Chain<V>, name: string, key: string, t: TypeRef)
    ensures Resolve(Push(c, name), key, t) == Resolve(c, key, t)
  {
    assert Push(c, name)[..|c|] == c;
  }

  /** A binding in the current frame shadows every binding of the same key in its ancestors. */
  lemma CurrentFrameShadows<V>(c: Chain<V>, key: string, t: TypeRef)
    requires |c| > 0 && key in Current(c).values
    ensures Resolve(c, key, t) == Success(Current(c).values[key])
  {
  }

  /** Providing a value under a key and resolving that key as a type the value is not of
      fails with the cast error, even when a farther frame binds the key to a value of that
      type: the first value wins in the current frame, and the walk stops there. */
  lemma ResolveOtherTypeFailsCast<V>(c: Chain<V>, key: string, v: V, t: TypeRef, isA: (V, TypeRef) -> bool)
    requires |c| > 0 && key !in Current(c).values
    requires !isA(v, t)
    ensures ResolveAs(Provide(c, key, v), key, t, isA) == Failure(InvalidCast(NameForType(t)))
  {
    var c' := Provide(c, key, v);
    CurrentFrameShadows(c', key, t);
  }

  /** `ops` starts `depth` frames above a base and never pops a frame of that base. */
  predicate StaysAbove<V>(ops: seq<Op<V>>, depth: nat)
    decreases |ops|
  {
    |ops| == 0 ||
    match ops[0]
    case PushOp(_) => StaysAbove(ops[1..], depth + 1)
    case PopOp => depth > 0 && StaysAbove(ops[1..], depth - 1)
    case ProvideOp(_, _) => StaysAbove(ops[1..], depth)
  }

  /** Number of pushes minus number of pops. */
  function NetDepth<V>(ops: seq<Op<V>>): int
    decreases |ops|
  {
    if |ops| == 0 then 0
    else
      match ops[0]
      case PushOp(_) => NetDepth(ops[1..]) + 1
      case PopOp => NetDepth(ops[1..]) - 1
      case ProvideOp(_, _) => NetDepth(ops[1..])
  }

  /** Every pop is matched by an earlier push of the same sequence, and every push by a pop. */
  predicate Balanced<V>(ops: seq<Op<V>>) {
    StaysAbove(ops, 0) && NetDepth(ops) == 0
  }

  /** Operations that never pop below `base` leave `base` untouched and end `NetDepth` frames
      higher than they started. */
  lemma {:induction false} RunAboveKeepsBase<V>(base: Chain<V>, top: Chain<V>, ops: seq<Op<V>>, depth: nat)
    requires |top| == depth + 1
    requires StaysAbove(ops, depth)
    ensures depth + NetDepth(ops) >= 0
    ensures |Run(base + top, ops)| == |base| + depth + 1 + NetDepth(ops)
    ensures Run(base + top, ops)[..|base|] == base
    decreases |ops|
  {
    if |ops| > 0 {
      var c := base + top;
      match ops[0]
      case PushOp(name) =>
        assert Apply(c, ops[0]) == base + (top + [Frame(name, map[])]);
        RunAboveKeepsBase(base, top + [Frame(name, map[])], ops[1..], depth + 1);
      case PopOp =>
        assert Apply(c, ops[0]) == base + top[..|top| - 1];
        RunAboveKeepsBase(base, top[..|top| - 1], ops[1..], depth - 1);
      case ProvideOp(key, value) =>
        var top' := Provide(top, key, value);
        assert Apply(c, ops[0]) == base + top';
        RunAboveKeepsBase(base, top', ops[1..], depth);
    }
  }

  /** `Push`, then any balanced mix of pushes, provides and pops, then `Pop` restores the state
      from before the `Push`; in particular every later `Resolve` returns what it would have
      returned before, and provides made inside the bracket are gone. */
  lemma BalancedBracketRestores<V>(c: Chain<V>, name: string, ops: seq<Op<V>>)
    requires |c| > 0
    requires Balanced(ops)
    ensures Pop(Run(Push(c, name), ops)) == c
  {
    RunAboveKeepsBase(c, [Frame(name, map[])], ops, 0);
    assert Push(c, name) == c + [Frame(name, map[])];
  }

  /** The special case the runtime is designed for: `Push`, provides only, `Pop`. */
  lemma ProvidesInsideBracketAreForgotten<V>(c: Chain<V>, name: string, bindOps: seq<Op<V>>, key: string, t: TypeRef)
    requires |c| > 0
    requires forall i | 0 <= i < |bindOps| :: bindOps[i].ProvideOp?
    ensures Resolve(Pop(Run(Push(c, name), bindOps)), key, t) == Resolve(c, key, t)
  {
    ProvidesOnlyAreBalanced(bindOps);
    BalancedBracketRestores(c, name, bindOps);
  }

  lemma {:induction false} ProvidesOnlyAreBalanced<V>(ops: seq<Op<V>>)
    requires forall i | 0 <= i < |ops| :: ops[i].ProvideOp?
    ensures StaysAbove(ops, 0) && NetDepth(ops) == 0
    decreases |ops|
  {
    if |ops| > 0 {
      ProvidesOnlyAreBalanced(ops[1..]);
    }
  }
}
