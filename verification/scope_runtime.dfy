/**
  The scope stack runtime (`ScopyRuntime.CurrentScope`), seen from one execution context.

  Every `CurrentScope` instance reachable from the current one lies on its parent chain, so the
  single-context state is the chain itself: a sequence of frames whose first element is the root
  (no parent), whose last element is the current frame, and in which frame `i`'s parent is frame
  `i - 1`. The static constructor pushes the root, so every state the program can observe has at
  least one frame.
 */
module ScopeRuntime {
  import opened Wrappers

  /** The name a frame gets when `Push` is called without one; the root frame gets it too. */
  const DefaultScopeName: string := "Scope"

  /** A CLR type as the runtime looks at it: `Type.Name` and the possibly-null `Type.FullName`. */
  datatype TypeRef = TypeRef(name: string, fullName: Option<string>)

  /** The dictionary key a type's value is bound under: its full name, or its short name when the
      full name is null (`GetNameForType`). */
  function NameForType(t: TypeRef): string {
    t.fullName.GetOr(t.name)
  }

  /** One `CurrentScope` instance: its name and its `_values` dictionary. The parent link is
      the position in the chain. Bound values are opaque (`V`). */
  datatype Frame<V> = Frame(name: string, values: map<string, V>)

  /** Root first, current frame last. */
  type Chain<V> = seq<Frame<V>>

  /** What `Resolve` throws: an `InvalidOperationException` whose message names the requested
      type (not the key) when no frame binds the key, and an `InvalidCastException` when the
      binding it finds holds a value that is not of the requested type. */
  datatype ScopeError = NotFound(typeName: string) | InvalidCast(typeName: string)

  function Current<V>(c: Chain<V>): Frame<V>
    requires |c| > 0
  {
    c[|c| - 1]
  }

  /** `Push(name)`: a new frame with no bindings, whose parent is the current frame, becomes
      current. On the empty chain (the static constructor's call) the new frame is the root. */
  function Push<V>(c: Chain<V>, name: string): (r: Chain<V>)
    ensures |r| == |c| + 1
    ensures Current(r) == Frame(name, map[])
    ensures r[..|c|] == c
  {
    c + [Frame(name, map[])]
  }

  /** The state after the static constructor: `InitGlobalScope` pushes one frame named "Scope". */
  function Initial<V>(): (c: Chain<V>)
    ensures |c| == 1
    ensures c[0].name == DefaultScopeName && c[0].values == map[]
  {
    Push([], DefaultScopeName)
  }

  /** `Dispose` on frame `i`: the frame's parent, if it has one, becomes current; the root frame
      has no parent and disposing it changes nothing. */
  function Dispose<V>(c: Chain<V>, i: nat): (r: Chain<V>)
    requires i < |c|
    ensures i == 0 ==> r == c
    ensures i > 0 ==> |r| == i && Current(r) == c[i - 1] && r == c[..i]
  {
    if i == 0 then c else c[..i]
  }

  /** `Pop`: dispose of the current frame. */
  function Pop<V>(c: Chain<V>): (r: Chain<V>)
    requires |c| > 0
    ensures |r| > 0
    ensures |c| == 1 ==> r == c
    ensures |c| > 1 ==> r == c[..|c| - 1]
  {
    Dispose(c, |c| - 1)
  }

  /** `Provide(key, value)`: `TryAdd` into the current frame. A key the current frame already
      binds keeps its first value; no other frame is touched. */
  function Provide<V>(c: Chain<V>, key: string, value: V): (r: Chain<V>)
    requires |c| > 0
    ensures |r| == |c|
    ensures r[..|c| - 1] == c[..|c| - 1]
    ensures Current(r).name == Current(c).name
    ensures Current(r).values.Keys == Current(c).values.Keys + {key}
    ensures key in Current(c).values ==> r == c
    ensures key !in Current(c).values ==> Current(r).values[key] == value
    ensures forall k | k in Current(c).values :: Current(r).values[k] == Current(c).values[k]
  {
    var top := Current(c);
    if key in top.values then c
    else c[..|c| - 1] + [top.(values := top.values[key := value])]
  }

  /** `Provide<T>(value)`: keyed by `GetNameForType(typeof(T))`. */
  function ProvideOfType<V>(c: Chain<V>, t: TypeRef, value: V): Chain<V>
    requires |c| > 0
  {
    Provide(c, NameForType(t), value)
  }

  /** Frame `i` binds `key` and no frame above it (nearer to the current one) does. */
  ghost predicate NearestBinding<V>(c: Chain<V>, key: string, i: int) {
    && 0 <= i < |c|
    && key in c[i].values
    && forall j | i < j < |c| :: key !in c[j].values
  }

  /** `Resolve<T>(key)`: walk from the current frame through its parents and return the first
      binding of `key`; when the walk passes the root without finding one, fail with `NotFound`
      naming `T`. */
  function Resolve<V>(c: Chain<V>, key: string, t: TypeRef): (r: Result<V, ScopeError>)
    ensures r.Success? <==> exists i | 0 <= i < |c| :: key in c[i].values
    ensures r.Success? ==> exists i :: NearestBinding(c, key, i) && r.value == c[i].values[key]
    ensures r.Failure? ==> r.error == NotFound(NameForType(t))
    decreases |c|
  {
    if |c| == 0 then Failure(NotFound(NameForType(t)))
    else if key in Current(c).values then Success(Current(c).values[key])
    else
      var r := Resolve(c[..|c| - 1], key, t);
      assert forall i | 0 <= i < |c| - 1 :: c[..|c| - 1][i] == c[i];
      assert forall i | NearestBinding(c[..|c| - 1], key, i) :: NearestBinding(c, key, i);
      r
  }

  /** `Resolve<T>()`: keyed by `GetNameForType(typeof(T))`. */
  function ResolveOfType<V>(c: Chain<V>, t: TypeRef): Result<V, ScopeError> {
    Resolve(c, NameForType(t), t)
  }

  /** `Resolve<T>(key)` together with its cast `(T)value`, which the CLR checks: the nearest
      binding is returned only when `isA` (the runtime type test) accepts it as a `T`. A farther
      binding of the right type does not help, because the walk stops at the nearest one. */
  function ResolveAs<V>(c: Chain<V>, key: string, t: TypeRef, isA: (V, TypeRef) -> bool): (r: Result<V, ScopeError>)
    ensures r.Success? <==> exists i :: NearestBinding(c, key, i) && isA(c[i].values[key], t)
    ensures r.Success? ==> Resolve(c, key, t) == r
    ensures r.Failure? ==> r.error == if Resolve(c, key, t).Success? then InvalidCast(NameForType(t)) else NotFound(NameForType(t))
  {
    match Resolve(c, key, t)
    case Failure(e) => Failure(e)
    case Success(v) =>
      assert forall i, j | NearestBinding(c, key, i) && NearestBinding(c, key, j) :: i == j;
      if isA(v, t) then Success(v) else Failure(InvalidCast(NameForType(t)))
  }

  /** `Resolve<T>()` with its cast. */
  function ResolveOfTypeAs<V>(c: Chain<V>, t: TypeRef, isA: (V, TypeRef) -> bool): Result<V, ScopeError> {
    ResolveAs(c, NameForType(t), t, isA)
  }
}
