/**
 * The lifecycle functions of a compiled component fragment, and the wrapper that
 * splices a side effect in front of one of them (appendToFragmentFunction).
 */
module Hooks {
  import opened Wrappers

  /** The fragment functions of a compiled component, by their long names. */
  datatype FragmentFunction =
    | Create | Claim | Hydrate | Mount | Update | Measure | Fix | Animate
    | Intro | Outro | Destroy

  /** The property name under which the fragment object stores each function. */
  function Shorthand(f: FragmentFunction): char
  {
    match f
    case Create => 'c'
    case Claim => 'l'
    case Hydrate => 'h'
    case Mount => 'm'
    case Update => 'p'
    case Measure => 'r'
    case Fix => 'f'
    case Animate => 'a'
    case Intro => 'i'
    case Outro => 'o'
    case Destroy => 'd'
  }

  /** The fragment function a property name stands for, if any: the inverse of the table. */
  function FragmentFunctionOf(c: char): (r: Option<FragmentFunction>)
    ensures r.Some? ==> Shorthand(r.value) == c
    ensures r.None? ==> forall f: FragmentFunction :: Shorthand(f) != c
  {
    match c
    case 'c' => Some(Create)
    case 'l' => Some(Claim)
    case 'h' => Some(Hydrate)
    case 'm' => Some(Mount)
    case 'p' => Some(Update)
    case 'r' => Some(Measure)
    case 'f' => Some(Fix)
    case 'a' => Some(Animate)
    case 'i' => Some(Intro)
    case 'o' => Some(Outro)
    case 'd' => Some(Destroy)
    case _ => None
  }

  /** No two fragment functions share a property name. */
  lemma ShorthandRoundTrip(f: FragmentFunction)
    ensures FragmentFunctionOf(Shorthand(f)) == Some(f)
  {
  }

  /** A JavaScript argument value, as far as the wrappers look at it. */
  datatype Value = Undefined | Null | Bool(b: bool) | Number(n: int) | Str(s: string) | Object(id: nat)

  /** JavaScript truthiness (NaN is not modelled). */
  predicate Truthy(v: Value)
  {
    match v
    case Undefined => false
    case Null => false
    case Bool(b) => b
    case Number(n) => n != 0
    case Str(s) => s != ""
    case Object(_) => true
  }

  /** `args[i]`, which is `undefined` past the end. */
  function Arg(args: seq<Value>, i: nat): Value
  {
    if i < |args| then args[i] else Undefined
  }

  /**
   * What a fragment slot holds: a function of the host, nothing (`undefined`), or a
   * side effect of type E that runs before the callback the slot held when it was installed.
   */
  datatype Callback<E> = Host(fn: nat) | Missing | Wrapped(effect: E, original: Callback<E>)

  /** `fragment[key]`, `Missing` when the fragment has no such property. */
  function Lookup<E>(fragment: map<char, Callback<E>>, key: char): Callback<E>
  {
    if key in fragment then fragment[key] else Missing
  }

  /**
   * appendToFragmentFunction: the slot of `f` now holds a wrapper that runs `e` and then
   * the callback the slot held before; every other slot is left as it was.
   */
  function Append<E>(fragment: map<char, Callback<E>>, f: FragmentFunction, e: E): (r: map<char, Callback<E>>)
    ensures Lookup(r, Shorthand(f)) == Wrapped(e, Lookup(fragment, Shorthand(f)))
    ensures forall k :: k != Shorthand(f) ==> Lookup(r, k) == Lookup(fragment, k)
    ensures r.Keys == fragment.Keys + {Shorthand(f)}
  {
    fragment[Shorthand(f) := Wrapped(e, Lookup(fragment, Shorthand(f)))]
  }

  /** The side effects one invocation of `cb` runs, in the order it runs them. */
  function SideEffects<E>(cb: Callback<E>): seq<E>
  {
    match cb
    case Wrapped(e, original) => [e] + SideEffects(original)
    case _ => []
  }

  /** The callback an invocation of `cb` reaches once every side effect has run. */
  function Underlying<E>(cb: Callback<E>): Callback<E>
  {
    match cb
    case Wrapped(_, original) => Underlying(original)
    case _ => cb
  }

  /** One call made while a slot is invoked. */
  datatype Call<E> = RunSideEffect(effect: E, args: seq<Value>) | CallHost(fn: nat, args: seq<Value>) | ThrowTypeError

  /** The calls one invocation of `cb` with `args` makes, in order. */
  function Calls<E>(cb: Callback<E>, args: seq<Value>): seq<Call<E>>
  {
    match cb
    case Host(fn) => [CallHost(fn, args)]
    case Missing => [ThrowTypeError]
    case Wrapped(e, original) => [RunSideEffect(e, args)] + Calls(original, args)
  }

  /** Side-effect calls, one per element of `es`, each with `args`. */
  function SideEffectCalls<E>(es: seq<E>, args: seq<Value>): seq<Call<E>>
  {
    if es == [] then [] else [RunSideEffect(es[0], args)] + SideEffectCalls(es[1..], args)
  }

  /** The last call of an invocation: the host function, or a TypeError when the slot was empty. */
  function FinalCall<E>(cb: Callback<E>, args: seq<Value>): Call<E>
  {
    if cb.Host? then CallHost(cb.fn, args) else ThrowTypeError
  }

  function Reversed<T>(s: seq<T>): seq<T>
  {
    if s == [] then [] else [s[|s| - 1]] + Reversed(s[..|s| - 1])
  }

  /** `cb` after installing `es[0]`, then `es[1]`, and so on, on top of it. */
  function AppendAll<E>(cb: Callback<E>, es: seq<E>): Callback<E>
  {
    if es == [] then cb else Wrapped(es[|es| - 1], AppendAll(cb, es[..|es| - 1]))
  }

  /** `fragment` after appending `es[0]`, then `es[1]`, and so on, to the slot of `f`. */
  function AppendMany<E>(fragment: map<char, Callback<E>>, f: FragmentFunction, es: seq<E>): map<char, Callback<E>>
  {
    if es == [] then fragment else Append(AppendMany(fragment, f, es[..|es| - 1]), f, es[|es| - 1])
  }

  /** An invocation runs every side effect with the invocation's arguments, then the underlying callback once. */
  lemma {:induction false} CallsDecompose<E>(cb: Callback<E>, args: seq<Value>)
    ensures Calls(cb, args) == SideEffectCalls(SideEffects(cb), args) + [FinalCall(Underlying(cb), args)]
  {
    match cb
    case Host(_) =>
    case Missing =>
    case Wrapped(e, original) =>
      CallsDecompose(original, args);
      assert ([e] + SideEffects(original))[1..] == SideEffects(original);
  }

  /** Installs nest: the newest side effect comes first and the underlying callback stays the same. */
  lemma {:induction false} AppendAllNests<E>(cb: Callback<E>, es: seq<E>)
    ensures SideEffects(AppendAll(cb, es)) == Reversed(es) + SideEffects(cb)
    ensures Underlying(AppendAll(cb, es)) == Underlying(cb)
  {
    if es != [] {
      AppendAllNests(cb, es[..|es| - 1]);
    }
  }

  /** Appending repeatedly to one slot builds the nested wrapper on that slot alone. */
  lemma {:induction false} AppendManyOneSlot<E>(fragment: map<char, Callback<E>>, f: FragmentFunction, es: seq<E>)
    ensures Lookup(AppendMany(fragment, f, es), Shorthand(f)) == AppendAll(Lookup(fragment, Shorthand(f)), es)
    ensures forall k :: k != Shorthand(f) ==> Lookup(AppendMany(fragment, f, es), k) == Lookup(fragment, k)
  {
    if es != [] {
      AppendManyOneSlot(fragment, f, es[..|es| - 1]);
    }
  }

  /**
   * After k installs on a slot that held the host function `fn`, one invocation runs the
   * k side effects newest first, each with the invocation's arguments, and then `fn`
   * exactly once, last, with the same arguments.
   */
  lemma {:induction false} RepeatedInstalls<E>(fn: nat, es: seq<E>, args: seq<Value>)
    ensures Calls(AppendAll(Host(fn), es), args) == SideEffectCalls(Reversed(es), args) + [CallHost(fn, args)]
  {
    CallsDecompose(AppendAll(Host(fn), es), args);
    AppendAllNests(Host(fn), es);
    assert SideEffects(Callback<E>.Host(fn)) == [];
    assert Reversed(es) + [] == Reversed(es);
  }
}
