/**
 * The log of observable effects: what the controller asks of the animation primitive,
 * the placeholder element, the render loop and the host's fragment functions.
 */
module Effects {
  import opened Wrappers
  import opened Hooks

  /** The animatable target (a scene object), by identity. */
  type RefId = nat

  /** Which constructor of the animation primitive built an instance. */
  datatype Kind = BidirectionalKind(isIntro: bool) | InKind | OutKind

  datatype Effect =
    | ElementCreated                          // element('div')
    | ElementRemoved                          // el.remove()
    | Constructed(kind: Kind, id: nat)        // create_*_transition
    | Ran(id: nat, target: int)               // run(target) on a bidirectional instance
    | Started(id: nat)                        // start() on an intro instance
    | Ended(id: nat, to: Option<int>)         // end() or end(to)
    | Invalidated                             // invalidate() of the render loop
    | UserTicked(tick: nat, frame: seq<real>) // the caller's own tick
    | HostRan(fn: nat, args: seq<Value>)      // the host's fragment function
    | HostMissing                             // calling an undefined fragment function throws

  predicate IsCreated(e: Effect) { e.ElementCreated? }
  predicate IsConstructed(e: Effect) { e.Constructed? }
  predicate IsRemoved(e: Effect) { e.ElementRemoved? }
  predicate IsInvalidated(e: Effect) { e.Invalidated? }
  predicate IsHostEntry(e: Effect) { e.HostRan? || e.HostMissing? }

  /** How many entries of `log` satisfy `p`. */
  function Count(log: seq<Effect>, p: Effect -> bool): (n: nat)
    ensures n <= |log|
  {
    if log == [] then 0 else (if p(log[0]) then 1 else 0) + Count(log[1..], p)
  }

  lemma {:induction false} CountConcat(a: seq<Effect>, b: seq<Effect>, p: Effect -> bool)
    ensures Count(a + b, p) == Count(a, p) + Count(b, p)
  {
    if a == [] {
      assert a + b == b;
    } else {
      assert (a + b)[1..] == a[1..] + b;
      CountConcat(a[1..], b, p);
    }
  }

  /** Appending entries none of which satisfies `p` keeps the count of `p`. */
  lemma {:induction false} CountUnchanged(a: seq<Effect>, b: seq<Effect>, p: Effect -> bool)
    requires forall i :: 0 <= i < |b| ==> !p(b[i])
    ensures Count(a + b, p) == Count(a, p)
  {
    CountConcat(a, b, p);
    CountNone(b, p);
  }

  lemma {:induction false} CountNone(s: seq<Effect>, p: Effect -> bool)
    requires forall i :: 0 <= i < |s| ==> !p(s[i])
    ensures Count(s, p) == 0
  {
    if s != [] {
      CountNone(s[1..], p);
    }
  }

  /** Repeated occurrences of one entry. */
  function Repeat(e: Effect, n: nat): (r: seq<Effect>)
    ensures |r| == n && forall i :: 0 <= i < n ==> r[i] == e
  {
    if n == 0 then [] else Repeat(e, n - 1) + [e]
  }
}
