/** Properties of the transitions plugin, proved over the state machine of module Lifecycle. */
module LifecycleProofs {
  import opened Wrappers
  import opened Hooks
  import opened Effects
  import opened Descriptors
  import opened Lifecycle

  // ----- What side effects, render callbacks and host calls leave alone -----

  /** Entries that are neither placeholder nor host-function entries. */
  predicate Neutral(extra: seq<Effect>)
  {
    forall i :: 0 <= i < |extra| ==> !IsCreated(extra[i]) && !IsRemoved(extra[i]) && !IsHostEntry(extra[i])
  }

  /** `b` differs from `a` at most in the instances, the render queue and neutral log entries. */
  ghost predicate Untouched(a: State, b: State)
  {
    b.mode == a.mode && b.props == a.props && b.currentRef == a.currentRef
    && b.fragment == a.fragment && b.onMount == a.onMount && b.onDestroy == a.onDestroy
    && a.log <= b.log && Neutral(b.log[|a.log|..])
  }

  lemma {:induction false} NeutralCounts(a: seq<Effect>, b: seq<Effect>)
    requires a <= b && Neutral(b[|a|..])
    ensures Count(b, IsCreated) == Count(a, IsCreated)
    ensures Count(b, IsRemoved) == Count(a, IsRemoved)
    ensures Count(b, IsHostEntry) == Count(a, IsHostEntry)
  {
    assert b == a + b[|a|..];
    CountUnchanged(a, b[|a|..], IsCreated);
    CountUnchanged(a, b[|a|..], IsRemoved);
    CountUnchanged(a, b[|a|..], IsHostEntry);
  }

  lemma UntouchedTransitive(a: State, b: State, c: State)
    requires Untouched(a, b) && Untouched(b, c)
    ensures Untouched(a, c)
  {
    assert c.log[|a.log|..] == b.log[|a.log|..] + c.log[|b.log|..];
  }

  lemma SideEffectUntouched(st: State, e: SideEffect, args: seq<Value>)
    ensures Untouched(st, ApplySideEffect(st, e, args))
  {
  }

  lemma DeferredUntouched(st: State, d: Deferred)
    ensures Untouched(st, RunDeferred(st, d))
  {
  }

  lemma {:induction false} AllDeferredUntouched(st: State, ds: seq<Deferred>)
    ensures Untouched(st, RunAllDeferred(st, ds))
  {
    if ds != [] {
      var mid := RunAllDeferred(st, ds[..|ds| - 1]);
      AllDeferredUntouched(st, ds[..|ds| - 1]);
      DeferredUntouched(mid, ds[|ds| - 1]);
      UntouchedTransitive(st, mid, RunAllDeferred(st, ds));
    }
  }

  /**
   * `b` is `a` after a slot invocation that ended by reaching `last`: everything but the
   * instances, the render queue and the log is kept, and the log grew by neutral entries
   * followed by exactly one host entry, `last`.
   */
  ghost predicate InvokedFrom(a: State, b: State, last: Effect)
  {
    b.mode == a.mode && b.props == a.props && b.currentRef == a.currentRef
    && b.fragment == a.fragment && b.onMount == a.onMount && b.onDestroy == a.onDestroy
    && a.log < b.log && b.log[|b.log| - 1] == last
    && Neutral(b.log[|a.log|..|b.log| - 1])
    && Count(b.log, IsCreated) == Count(a.log, IsCreated)
    && Count(b.log, IsRemoved) == Count(a.log, IsRemoved)
    && Count(b.log, IsHostEntry) == Count(a.log, IsHostEntry) + 1
  }

  lemma ReachedShape(st: State, cb: Callback<SideEffect>, args: seq<Value>)
    requires !cb.Wrapped?
    ensures InvokedFrom(st, Invoke(st, cb, args), Reached(cb, args))
  {
    var e := Reached(cb, args);
    assert Invoke(st, cb, args) == st.(log := st.log + [e]);
    CountConcat(st.log, [e], IsCreated);
    CountConcat(st.log, [e], IsRemoved);
    CountConcat(st.log, [e], IsHostEntry);
  }

  /** Neutral steps before an invocation do not change its shape. */
  lemma InvokedAfterNeutral(a: State, mid: State, b: State, last: Effect)
    requires Untouched(a, mid) && InvokedFrom(mid, b, last)
    ensures InvokedFrom(a, b, last)
  {
    NeutralCounts(a.log, mid.log);
    assert b.log[|a.log|..|b.log| - 1] == mid.log[|a.log|..] + b.log[|mid.log|..|b.log| - 1];
  }

  /**
   * Invoking a slot keeps everything but the instances, the render queue and the log; it adds
   * no placeholder entry and exactly one host entry, the last one, for the underlying callback.
   */
  lemma {:induction false} InvokeShape(st: State, cb: Callback<SideEffect>, args: seq<Value>)
    ensures InvokedFrom(st, Invoke(st, cb, args), Reached(Underlying(cb), args))
    decreases cb
  {
    match cb
    case Host(_) => ReachedShape(st, cb, args);
    case Missing => ReachedShape(st, cb, args);
    case Wrapped(e, original) =>
      var mid := ApplySideEffect(st, e, args);
      SideEffectUntouched(st, e, args);
      InvokeShape(mid, original, args);
      InvokedAfterNeutral(st, mid, Invoke(st, cb, args), Reached(Underlying(cb), args));
  }

  /** The side effects `es` run in order with the same arguments. */
  function ApplyAll(st: State, es: seq<SideEffect>, args: seq<Value>): State
    decreases |es|
  {
    if es == [] then st else ApplyAll(ApplySideEffect(st, es[0], args), es[1..], args)
  }

  /**
   * Invoking a slot is running its side effects, newest install first, each with the
   * invocation's arguments, and then reaching the underlying callback once.
   */
  lemma {:induction false} InvokeDecompose(st: State, cb: Callback<SideEffect>, args: seq<Value>)
    ensures Invoke(st, cb, args)
         == var s := ApplyAll(st, SideEffects(cb), args); s.(log := s.log + [Reached(Underlying(cb), args)])
    decreases cb
  {
    match cb
    case Host(_) =>
    case Missing =>
    case Wrapped(e, original) =>
      InvokeDecompose(ApplySideEffect(st, e, args), original, args);
      assert ([e] + SideEffects(original))[1..] == SideEffects(original);
  }

  /**
   * After installing `es` on a slot that held the host function `fn`, invoking it applies the
   * side effects newest first, each with the invocation's arguments, and then runs `fn` once.
   */
  lemma RepeatedInstallsRun(st: State, fn: nat, es: seq<SideEffect>, args: seq<Value>)
    ensures Invoke(st, AppendAll(Host(fn), es), args)
         == var s := ApplyAll(st, Reversed(es), args); s.(log := s.log + [HostRan(fn, args)])
  {
    InvokeDecompose(st, AppendAll(Host(fn), es), args);
    AppendAllNests(Host(fn), es);
    assert SideEffects(Callback<SideEffect>.Host(fn)) == [];
    assert Reversed(es) + [] == Reversed(es);
  }

  // ----- Setup without any transition prop -----

  /** Nothing allocated, nothing installed, nothing queued; only host functions ever ran. */
  predicate InertState(st: State, host: map<char, nat>)
  {
    st.mode == Inert && st.fragment == Lift(host)
    && st.renderCallbacks == [] && st.onMount == [] && st.onDestroy == []
    && st.transition.None? && st.intro.None? && st.outro.None? && st.constructed == 0
    && forall i :: 0 <= i < |st.log| ==> IsHostEntry(st.log[i])
  }

  lemma InertStep(st: State, host: map<char, nat>, ev: Event)
    requires InertState(st, host)
    ensures InertState(Step(st, ev), host)
  {
    match ev
    case Hook(f, args) =>
      var key := Shorthand(f);
      assert Lookup(st.fragment, key) == if key in host then Host(host[key]) else Missing;
    case _ =>
  }

  /**
   * Without `in`, `out` or `transition`, setup creates no element, patches no slot, queues no
   * callback and registers nothing; whatever the host does afterwards only runs its own functions.
   */
  lemma {:induction false} NoConfigIsNoOp(ref: RefId, p: Props, host: map<char, nat>, evs: seq<Event>)
    requires NoConfig(p)
    ensures Setup(ref, p, host).log == []
    ensures InertState(Run(Setup(ref, p, host), evs), host)
  {
    if evs != [] {
      NoConfigIsNoOp(ref, p, host, evs[..|evs| - 1]);
      InertStep(Run(Setup(ref, p, host), evs[..|evs| - 1]), host, evs[|evs| - 1]);
    }
  }

  // ----- What mount installs -----

  /** The fragment after every onMount callback of a controller in mode `m` has run. */
  function ModeFragment(m: Mode, fragment: map<char, Callback<SideEffect>>): map<char, Callback<SideEffect>>
  {
    match m
    case Inert => fragment
    case Bidirectional => BidirectionalFragment(fragment)
    case Directional(hasIn, hasOut) =>
      var afterIn := if hasIn then InFragment(fragment) else fragment;
      if hasOut then OutFragment(afterIn) else afterIn
  }

  /** The side effects mode `m` puts on the slot of `f`, in the order an invocation runs them. */
  function Installed(m: Mode, f: FragmentFunction): seq<SideEffect>
  {
    match (m, f)
    case (Bidirectional, Intro) => [BidiIntro]
    case (Bidirectional, Outro) => [BidiOutro]
    case (Bidirectional, Destroy) => [BidiDestroy]
    case (Directional(_, hasOut), Intro) => if hasOut then [OutIntro] else []
    case (Directional(hasIn, hasOut), Outro) => (if hasOut then [OutOutro] else []) + (if hasIn then [InOutro] else [])
    case (Directional(_, hasOut), Destroy) => if hasOut then [OutDestroy] else []
    case _ => []
  }

  /** The slots of the intro, outro and destroy functions. */
  predicate Patchable(k: char)
  {
    k == 'i' || k == 'o' || k == 'd'
  }

  /** The effect of mounting on one slot: `es` spliced in front, the rest of the fragment alone. */
  predicate SplicedOn(after: map<char, Callback<SideEffect>>, before: map<char, Callback<SideEffect>>, f: FragmentFunction, es: seq<SideEffect>)
  {
    SideEffects(Lookup(after, Shorthand(f))) == es + SideEffects(Lookup(before, Shorthand(f)))
    && Underlying(Lookup(after, Shorthand(f))) == Underlying(Lookup(before, Shorthand(f)))
  }

  predicate SameOutside(after: map<char, Callback<SideEffect>>, before: map<char, Callback<SideEffect>>)
  {
    forall k :: !Patchable(k) ==> Lookup(after, k) == Lookup(before, k)
  }

  lemma BidirectionalSlots(fragment: map<char, Callback<SideEffect>>, f: FragmentFunction)
    ensures SplicedOn(BidirectionalFragment(fragment), fragment, f, Installed(Bidirectional, f))
    ensures SameOutside(BidirectionalFragment(fragment), fragment)
  {
    var a := Append(fragment, Intro, BidiIntro);
    var b := Append(a, Outro, BidiOutro);
    var c := Append(b, Destroy, BidiDestroy);
    assert Lookup(c, 'i') == Lookup(b, 'i') == Lookup(a, 'i');
    assert Lookup(c, 'o') == Lookup(b, 'o');
  }

  lemma InSlots(fragment: map<char, Callback<SideEffect>>, f: FragmentFunction)
    ensures SplicedOn(InFragment(fragment), fragment, f, if f == Outro then [InOutro] else [])
    ensures SameOutside(InFragment(fragment), fragment)
  {
  }

  lemma OutSlots(fragment: map<char, Callback<SideEffect>>, f: FragmentFunction)
    ensures SplicedOn(OutFragment(fragment), fragment, f, Installed(Directional(false, true), f))
    ensures SameOutside(OutFragment(fragment), fragment)
  {
    var a := Append(fragment, Outro, OutOutro);
    var b := Append(a, Intro, OutIntro);
    var c := Append(b, Destroy, OutDestroy);
    assert Lookup(c, 'i') == Lookup(b, 'i');
    assert Lookup(c, 'o') == Lookup(b, 'o') == Lookup(a, 'o');
  }

  lemma SplicedCompose(
    c: map<char, Callback<SideEffect>>, b: map<char, Callback<SideEffect>>, a: map<char, Callback<SideEffect>>,
    f: FragmentFunction, first: seq<SideEffect>, second: seq<SideEffect>)
    requires SplicedOn(b, a, f, first) && SplicedOn(c, b, f, second)
    requires SameOutside(b, a) && SameOutside(c, b)
    ensures SplicedOn(c, a, f, second + first) && SameOutside(c, a)
  {
    assert second + (first + SideEffects(Lookup(a, Shorthand(f)))) == (second + first) + SideEffects(Lookup(a, Shorthand(f)));
  }

  lemma DirectionalSlots(hasIn: bool, hasOut: bool, fragment: map<char, Callback<SideEffect>>, f: FragmentFunction)
    ensures SplicedOn(ModeFragment(Directional(hasIn, hasOut), fragment), fragment, f, Installed(Directional(hasIn, hasOut), f))
    ensures SameOutside(ModeFragment(Directional(hasIn, hasOut), fragment), fragment)
  {
    var afterIn := if hasIn then InFragment(fragment) else fragment;
    var inPart: seq<SideEffect> := if hasIn && f == Outro then [InOutro] else [];
    var outPart := if hasOut then Installed(Directional(false, true), f) else [];
    if hasIn {
      InSlots(fragment, f);
    } else {
      assert SideEffects(Lookup(afterIn, Shorthand(f))) == inPart + SideEffects(Lookup(fragment, Shorthand(f)));
    }
    if hasOut {
      OutSlots(afterIn, f);
    } else {
      assert SideEffects(Lookup(afterIn, Shorthand(f))) == outPart + SideEffects(Lookup(afterIn, Shorthand(f)));
    }
    SplicedCompose(ModeFragment(Directional(hasIn, hasOut), fragment), afterIn, fragment, f, inPart, outPart);
    assert outPart + inPart == Installed(Directional(hasIn, hasOut), f);
  }

  /**
   * Mounting splices the installed side effects in front of each slot, keeps each slot's
   * underlying callback, and leaves every slot other than intro, outro and destroy alone.
   */
  lemma ModeFragmentSlots(m: Mode, fragment: map<char, Callback<SideEffect>>, f: FragmentFunction)
    ensures SplicedOn(ModeFragment(m, fragment), fragment, f, Installed(m, f))
    ensures SameOutside(ModeFragment(m, fragment), fragment)
  {
    match m
    case Inert =>
    case Bidirectional => BidirectionalSlots(fragment, f);
    case Directional(hasIn, hasOut) => DirectionalSlots(hasIn, hasOut, fragment, f);
  }

  /** No onMount or onDestroy callback touches the instances, the props, the target or the registrations. */
  lemma {:induction false} RunAllFrame(st: State, rs: seq<Registered>)
    ensures var s' := RunAll(st, rs);
      s'.mode == st.mode && s'.props == st.props && s'.currentRef == st.currentRef
      && s'.transition == st.transition && s'.intro == st.intro && s'.outro == st.outro
      && s'.constructed == st.constructed && s'.onMount == st.onMount && s'.onDestroy == st.onDestroy
      && ((forall i :: 0 <= i < |rs| ==> rs[i] != RemovePlaceholder) ==> s'.log == st.log)
      && ((forall i :: 0 <= i < |rs| ==> rs[i] == RemovePlaceholder) ==> s'.fragment == st.fragment && s'.renderCallbacks == st.renderCallbacks)
  {
    if rs != [] {
      RunAllFrame(st, rs[..|rs| - 1]);
    }
  }

  /** Running a single registered callback. */
  lemma RunAllSingle(st: State, r: Registered)
    ensures RunAll(st, [r]) == RunRegistered(st, r)
  {
    assert [r][..0] == [];
  }

  /** Running the `in` runner's mount callback, then the `out` runner's. */
  lemma RunAllInOut(st: State)
    ensures RunAll(st, [MountIn, MountOut]) == RunRegistered(RunRegistered(st, MountIn), MountOut)
  {
    assert [MountIn, MountOut][..1] == [MountIn];
    RunAllSingle(st, MountIn);
  }

  /** The onMount callbacks setup registers patch the fragment for the selected mode, queue its first step, and do nothing else. */
  lemma MountCallbacksRun(st: State, p: Props)
    requires !NoConfig(p)
    ensures RunAll(st, MountCallbacks(p))
         == st.(fragment := ModeFragment(SelectMode(p), st.fragment),
                renderCallbacks := st.renderCallbacks
                  + (if p.transitionFn.Some? then [EnterBidirectional] else if p.inFn.Some? then [StartIntro] else []))
  {
    if p.transitionFn.Some? {
      RunAllSingle(st, MountBidirectional);
    } else if p.inFn.Some? && p.outFn.Some? {
      RunAllInOut(st);
    } else if p.inFn.Some? {
      RunAllSingle(st, MountIn);
    } else {
      RunAllSingle(st, MountOut);
      assert st.renderCallbacks + [] == st.renderCallbacks;
    }
  }

  /**
   * Mode selection at work: with `transition` only the bidirectional runner is installed and
   * `in`/`out` are ignored; otherwise the `in` and `out` runners are installed independently,
   * both when both are set. Mount queues the first render step and performs no other effect.
   */
  lemma MountInstalls(ref: RefId, p: Props, host: map<char, nat>)
    ensures var st := RunMount(Setup(ref, p, host));
      st.fragment == ModeFragment(SelectMode(p), Lift(host))
      && st.renderCallbacks == (if p.transitionFn.Some? then [EnterBidirectional] else if p.inFn.Some? then [StartIntro] else [])
      && st.log == Setup(ref, p, host).log && st.onMount == [] && st.onDestroy == Setup(ref, p, host).onDestroy
      && st.transition.None? && st.intro.None? && st.outro.None?
  {
    var st := Setup(ref, p, host);
    if NoConfig(p) {
      assert st.onMount == [];
      assert RunMount(st) == st;
    } else {
      ConfiguredMount(st, p);
    }
  }

  /** Mounting a set-up controller that has some prop: only the fragment and the render queue change. */
  lemma ConfiguredMount(st: State, p: Props)
    requires !NoConfig(p) && st.onMount == MountCallbacks(p)
    ensures var s' := RunMount(st);
      s'.fragment == ModeFragment(SelectMode(p), st.fragment)
      && s'.renderCallbacks == st.renderCallbacks + (if p.transitionFn.Some? then [EnterBidirectional] else if p.inFn.Some? then [StartIntro] else [])
      && s'.log == st.log && s'.onMount == [] && s'.onDestroy == st.onDestroy
      && s'.transition == st.transition && s'.intro == st.intro && s'.outro == st.outro
  {
    MountCallbacksRun(st.(onMount := []), p);
  }

  /** Once mounted, the fragment never changes again. */
  predicate Settled(st: State)
  {
    st.onMount == [] && forall i :: 0 <= i < |st.onDestroy| ==> st.onDestroy[i] == RemovePlaceholder
  }

  lemma SettledStep(st: State, ev: Event)
    requires Settled(st)
    ensures Settled(Step(st, ev)) && Step(st, ev).fragment == st.fragment
  {
    match ev
    case Hook(f, args) => InvokeShape(st, Lookup(st.fragment, Shorthand(f)), args);
    case FlushRender => AllDeferredUntouched(st.(renderCallbacks := []), st.renderCallbacks);
    case Destroyed => RunAllFrame(st.(onDestroy := []), st.onDestroy);
    case _ =>
  }

  /** The slots are patched exactly once, at mount: no later event touches the fragment. */
  lemma {:induction false} FragmentFixedAfterMount(st: State, evs: seq<Event>)
    requires Settled(st)
    ensures Run(st, evs).fragment == st.fragment && Settled(Run(st, evs))
  {
    if evs != [] {
      FragmentFixedAfterMount(st, evs[..|evs| - 1]);
      SettledStep(Run(st, evs[..|evs| - 1]), evs[|evs| - 1]);
    }
  }

  lemma SettledAfterMount(ref: RefId, p: Props, host: map<char, nat>)
    ensures Settled(RunMount(Setup(ref, p, host)))
  {
    MountInstalls(ref, p, host);
  }

  /** The entry a host call of `f` logs: its function, or a TypeError when the host has none. */
  function HostEntry(host: map<char, nat>, f: FragmentFunction, args: seq<Value>): Effect
  {
    Reached(Lookup(Lift(host), Shorthand(f)), args)
  }

  /** A slot no runner patched behaves as the host's own function. */
  lemma UnpatchedSlot(st: State, host: map<char, nat>, f: FragmentFunction, args: seq<Value>)
    requires st.fragment == ModeFragment(st.mode, Lift(host))
    requires Installed(st.mode, f) == []
    ensures Fire(st, f, args) == st.(log := st.log + [HostEntry(host, f, args)])
  {
    var key := Shorthand(f);
    ModeFragmentSlots(st.mode, Lift(host), f);
    assert SplicedOn(st.fragment, Lift(host), f, []);
    InvokeDecompose(st, Lookup(st.fragment, key), args);
    assert SideEffects(Lookup(Lift(host), key)) == [];
    assert Underlying(Lookup(Lift(host), key)) == Lookup(Lift(host), key);
  }

  // ----- Bidirectional mode -----

  /** At most one instance was ever built, it has id 0, and every run and end addresses it. */
  predicate OneBidirectionalInstance(st: State)
  {
    (st.transition.None? ==> st.constructed == 0 && Count(st.log, IsConstructed) == 0)
    && (st.transition.Some? ==> st.transition.value.id == 0 && st.constructed == 1 && Count(st.log, IsConstructed) == 1)
    && forall i :: 0 <= i < |st.log| && (st.log[i].Constructed? || st.log[i].Ran? || st.log[i].Ended? || st.log[i].Started?) ==>
         st.log[i].id == 0 && !st.log[i].Started? && (st.log[i].Constructed? ==> st.log[i].kind.BidirectionalKind?)
  }

  /** Every state a bidirectional controller reaches. */
  predicate BidirectionalReachable(st: State, host: map<char, nat>)
  {
    st.mode == Bidirectional && st.intro.None? && st.outro.None?
    && ((st.onMount == [MountBidirectional] && st.fragment == Lift(host))
        || (st.onMount == [] && st.fragment == BidirectionalFragment(Lift(host))))
    && (forall i :: 0 <= i < |st.renderCallbacks| ==> st.renderCallbacks[i] == EnterBidirectional)
    && (forall i :: 0 <= i < |st.onDestroy| ==> st.onDestroy[i] == RemovePlaceholder)
    && OneBidirectionalInstance(st)
  }

  lemma LogExtended(st: State, extra: seq<Effect>)
    requires OneBidirectionalInstance(st)
    requires st.transition.Some?
    requires forall i :: 0 <= i < |extra| ==> (extra[i].Ran? || extra[i].Ended?) && extra[i].id == 0
    ensures OneBidirectionalInstance(st.(log := st.log + extra))
  {
    CountUnchanged(st.log, extra, IsConstructed);
  }

  lemma FirstInstance(st: State, kind: Kind, target: int)
    requires OneBidirectionalInstance(st) && st.transition.None? && kind.BidirectionalKind?
    requires st.props.transitionFn.Some?
    ensures OneBidirectionalInstance(st.(transition := Some(Instance(0, st.props.transitionFn.value)), constructed := 1,
                                         log := st.log + [Constructed(kind, 0), Ran(0, target)]))
  {
    CountConcat(st.log, [Constructed(kind, 0), Ran(0, target)], IsConstructed);
    assert [Constructed(kind, 0), Ran(0, target)][1..] == [Ran(0, target)];
  }

  lemma BidirectionalEnterKeeps(st: State)
    requires OneBidirectionalInstance(st)
    ensures OneBidirectionalInstance(BidirectionalEnter(st))
  {
    if st.transition.Some? {
      LogExtended(st, [Ran(0, 1)]);
    } else if st.props.transitionFn.Some? {
      FirstInstance(st, BidirectionalKind(true), 1);
    }
  }

  lemma BidirectionalSideEffectKeeps(st: State, host: map<char, nat>, e: SideEffect, args: seq<Value>)
    requires BidirectionalReachable(st, host)
    requires e == BidiIntro || e == BidiOutro || e == BidiDestroy
    ensures BidirectionalReachable(ApplySideEffect(st, e, args), host)
  {
    match e
    case BidiIntro =>
    case BidiOutro =>
      if st.transition.Some? {
        LogExtended(st, [Ran(0, 0)]);
      } else if st.props.transitionFn.Some? {
        FirstInstance(st, BidirectionalKind(false), 0);
      }
    case BidiDestroy =>
      if Truthy(Arg(args, 0)) && st.transition.Some? {
        LogExtended(st, [Ended(0, None)]);
      }
  }

  predicate OnlyBidirectional(cb: Callback<SideEffect>)
  {
    match cb
    case Wrapped(e, original) => (e == BidiIntro || e == BidiOutro || e == BidiDestroy) && OnlyBidirectional(original)
    case _ => true
  }

  lemma {:induction false} BidirectionalInvokeKeeps(st: State, host: map<char, nat>, cb: Callback<SideEffect>, args: seq<Value>)
    requires BidirectionalReachable(st, host) && OnlyBidirectional(cb)
    ensures BidirectionalReachable(Invoke(st, cb, args), host)
    decreases cb
  {
    match cb
    case Host(fn) =>
      CountUnchanged(st.log, [HostRan(fn, args)], IsConstructed);
    case Missing =>
      CountUnchanged(st.log, [HostMissing], IsConstructed);
    case Wrapped(e, original) =>
      BidirectionalSideEffectKeeps(st, host, e, args);
      SideEffectUntouched(st, e, args);
      BidirectionalInvokeKeeps(ApplySideEffect(st, e, args), host, original, args);
  }

  lemma OnlyBidirectionalSlots(host: map<char, nat>, f: FragmentFunction)
    ensures OnlyBidirectional(Lookup(Lift(host), Shorthand(f)))
    ensures OnlyBidirectional(Lookup(BidirectionalFragment(Lift(host)), Shorthand(f)))
  {
    var key := Shorthand(f);
    assert Lookup(Lift(host), key) == if key in host then Host(host[key]) else Missing;
    BidirectionalSlots(Lift(host), f);
  }

  lemma {:induction false} BidirectionalFlushKeeps(st: State, host: map<char, nat>, ds: seq<Deferred>)
    requires BidirectionalReachable(st, host)
    requires forall i :: 0 <= i < |ds| ==> ds[i] == EnterBidirectional
    ensures BidirectionalReachable(RunAllDeferred(st, ds), host)
  {
    if ds != [] {
      var mid := RunAllDeferred(st, ds[..|ds| - 1]);
      BidirectionalFlushKeeps(st, host, ds[..|ds| - 1]);
      BidirectionalEnterKeeps(mid);
    }
  }

  lemma {:induction false} BidirectionalRemovalsKeep(st: State, host: map<char, nat>, rs: seq<Registered>)
    requires BidirectionalReachable(st, host)
    requires forall i :: 0 <= i < |rs| ==> rs[i] == RemovePlaceholder
    ensures BidirectionalReachable(RunAll(st, rs), host)
  {
    if rs != [] {
      var mid := RunAll(st, rs[..|rs| - 1]);
      BidirectionalRemovalsKeep(st, host, rs[..|rs| - 1]);
      CountUnchanged(mid.log, [ElementRemoved], IsConstructed);
    }
  }

  lemma BidirectionalMountKeeps(st: State, host: map<char, nat>)
    requires BidirectionalReachable(st, host)
    ensures BidirectionalReachable(RunMount(st), host)
  {
    if st.onMount != [] {
      var s0 := st.(onMount := []);
      var rs := st.onMount;
      assert rs == [MountBidirectional];
      assert rs[..|rs| - 1] == [];
      assert RunAll(s0, rs) == RunRegistered(RunAll(s0, []), MountBidirectional);
      assert RunMount(st) == RunRegistered(s0, MountBidirectional);
    }
  }

  lemma BidirectionalStep(st: State, host: map<char, nat>, ev: Event)
    requires BidirectionalReachable(st, host)
    ensures BidirectionalReachable(Step(st, ev), host)
  {
    match ev
    case Mounted => BidirectionalMountKeeps(st, host);
    case Hook(f, args) =>
      OnlyBidirectionalSlots(host, f);
      BidirectionalInvokeKeeps(st, host, Lookup(st.fragment, Shorthand(f)), args);
    case FlushRender =>
      BidirectionalFlushKeeps(st.(renderCallbacks := []), host, st.renderCallbacks);
    case Destroyed =>
      BidirectionalRemovalsKeep(st.(onDestroy := []), host, st.onDestroy);
    case _ =>
  }

  /**
   * With `transition` set, no sequence of mounts, slot calls, flushes, teardowns, target or
   * prop changes ever builds a second instance: at most one is constructed, always by the
   * bidirectional constructor, every run and end addresses it, and the `in`/`out` handles stay empty.
   */
  lemma {:induction false} BidirectionalAtMostOneInstance(ref: RefId, p: Props, host: map<char, nat>, evs: seq<Event>)
    requires p.transitionFn.Some?
    ensures BidirectionalReachable(Run(Setup(ref, p, host), evs), host)
    ensures Count(Run(Setup(ref, p, host), evs).log, IsConstructed) <= 1
  {
    if evs == [] {
      assert Setup(ref, p, host).log == [ElementCreated];
    } else {
      BidirectionalAtMostOneInstance(ref, p, host, evs[..|evs| - 1]);
      BidirectionalStep(Run(Setup(ref, p, host), evs[..|evs| - 1]), host, evs[|evs| - 1]);
    }
  }

  /** Once mounted, intro only queues the forward run, whatever the props: the guard is not checked here. */
  lemma BidirectionalIntroDefers(st: State, host: map<char, nat>, args: seq<Value>)
    requires st.fragment == BidirectionalFragment(Lift(host))
    ensures Fire(st, Intro, args)
         == st.(renderCallbacks := st.renderCallbacks + [EnterBidirectional], log := st.log + [HostEntry(host, Intro, args)])
  {
    BidirectionalSlots(Lift(host), Intro);
    assert Lookup(st.fragment, 'i') == Wrapped(BidiIntro, Lookup(Lift(host), 'i'));
    OnlyBidirectionalSlots(host, Intro);
    assert Lookup(Lift(host), 'i') == if 'i' in host then Host(host['i']) else Missing;
  }

  /**
   * Once mounted, outro reuses an existing instance and retargets it with run(0); with none it
   * builds one (isIntro false) and runs it to 0, unless `transition` is absent, when only the
   * host's outro runs.
   */
  lemma BidirectionalOutroRetargets(st: State, host: map<char, nat>, args: seq<Value>)
    requires st.fragment == BidirectionalFragment(Lift(host))
    ensures var s' := Fire(st, Outro, args);
      s'.log == st.log
                + (if st.transition.Some? then [Ran(st.transition.value.id, 0)]
                   else if st.props.transitionFn.None? then []
                   else [Constructed(BidirectionalKind(false), st.constructed), Ran(st.constructed, 0)])
                + [HostEntry(host, Outro, args)]
      && s'.transition == (if st.transition.Some? then st.transition
                           else if st.props.transitionFn.None? then None
                           else Some(Instance(st.constructed, st.props.transitionFn.value)))
      && s'.renderCallbacks == st.renderCallbacks && s'.intro == st.intro && s'.outro == st.outro
  {
    BidirectionalSlots(Lift(host), Outro);
    assert Lookup(st.fragment, 'o') == Wrapped(BidiOutro, Lookup(Lift(host), 'o'));
    assert Lookup(Lift(host), 'o') == if 'o' in host then Host(host['o']) else Missing;
  }

  /** Once mounted, destroy(detaching) calls end() exactly when detaching is truthy and an instance exists. */
  lemma BidirectionalDestroyEnds(st: State, host: map<char, nat>, args: seq<Value>)
    requires st.fragment == BidirectionalFragment(Lift(host))
    ensures Fire(st, Destroy, args)
         == st.(log := st.log
                       + (if Truthy(Arg(args, 0)) && st.transition.Some? then [Ended(st.transition.value.id, None)] else [])
                       + [HostEntry(host, Destroy, args)])
  {
    BidirectionalSlots(Lift(host), Destroy);
    assert Lookup(st.fragment, 'd') == Wrapped(BidiDestroy, Lookup(Lift(host), 'd'));
    assert Lookup(Lift(host), 'd') == if 'd' in host then Host(host['d']) else Missing;
    var ends := if Truthy(Arg(args, 0)) && st.transition.Some? then [Ended(st.transition.value.id, None)] else [];
    var s1 := ApplySideEffect(st, BidiDestroy, args);
    assert s1 == st.(log := st.log + ends);
    var l := Lookup(Lift(host), 'd');
    assert Invoke(s1, l, args) == s1.(log := s1.log + [Reached(l, args)]);
    assert Fire(st, Destroy, args) == Invoke(s1, l, args);
  }

  /**
   * Flushing n queued forward runs: an existing instance is run to 1 n times; with none, the
   * guard is checked now, at flush time, and either one instance (isIntro true) is built and
   * run n times or, with `transition` absent, nothing happens.
   */
  lemma {:induction false} BidirectionalFlush(st: State, ds: seq<Deferred>)
    requires forall i :: 0 <= i < |ds| ==> ds[i] == EnterBidirectional
    ensures var s' := RunAllDeferred(st, ds);
      s'.log == st.log
                + (if ds == [] then []
                   else if st.transition.Some? then Repeat(Ran(st.transition.value.id, 1), |ds|)
                   else if st.props.transitionFn.None? then []
                   else [Constructed(BidirectionalKind(true), st.constructed)] + Repeat(Ran(st.constructed, 1), |ds|))
      && s'.transition == (if ds == [] || st.transition.Some? then st.transition
                           else if st.props.transitionFn.None? then None
                           else Some(Instance(st.constructed, st.props.transitionFn.value)))
      && s'.props == st.props && s'.renderCallbacks == st.renderCallbacks
  {
    if ds != [] {
      var init := ds[..|ds| - 1];
      BidirectionalFlush(st, init);
      var mid := RunAllDeferred(st, init);
      if init == [] {
        assert Repeat(Ran(st.constructed, 1), 1) == [Ran(st.constructed, 1)];
      } else if st.transition.Some? {
        assert Repeat(Ran(st.transition.value.id, 1), |ds|) == Repeat(Ran(st.transition.value.id, 1), |init|) + [Ran(st.transition.value.id, 1)];
      } else if st.props.transitionFn.Some? {
        assert Repeat(Ran(st.constructed, 1), |ds|) == Repeat(Ran(st.constructed, 1), |init|) + [Ran(st.constructed, 1)];
      }
    }
  }

  /**
   * The guard runs when the queued step runs, not when it is queued: an intro while `transition`
   * is set, followed by the prop going away before the flush, builds and runs nothing.
   */
  lemma GuardCheckedAtFlush(st: State, host: map<char, nat>, args: seq<Value>, p: Props)
    requires st.fragment == BidirectionalFragment(Lift(host)) && st.transition.None? && st.renderCallbacks == []
    requires p.transitionFn.None?
    ensures var s' := Flush(Fire(st, Intro, args).(props := p));
      s'.transition.None? && s'.log == st.log + [HostEntry(host, Intro, args)] && s'.renderCallbacks == []
  {
    BidirectionalIntroDefers(st, host, args);
    var s2 := Fire(st, Intro, args).(props := p);
    assert s2.renderCallbacks == [EnterBidirectional];
    BidirectionalFlush(s2.(renderCallbacks := []), s2.renderCallbacks);
  }

  /** Conversely, a prop that is absent at intro but present at the flush does build the instance. */
  lemma GuardNotCheckedAtEnqueue(st: State, host: map<char, nat>, args: seq<Value>, p: Props)
    requires st.fragment == BidirectionalFragment(Lift(host)) && st.transition.None? && st.renderCallbacks == []
    requires st.props.transitionFn.None? && p.transitionFn.Some?
    ensures var s' := Flush(Fire(st, Intro, args).(props := p));
      s'.transition == Some(Instance(st.constructed, p.transitionFn.value))
      && s'.log == st.log + [HostEntry(host, Intro, args), Constructed(BidirectionalKind(true), st.constructed), Ran(st.constructed, 1)]
  {
    BidirectionalIntroDefers(st, host, args);
    var s2 := Fire(st, Intro, args).(props := p);
    assert s2.renderCallbacks == [EnterBidirectional];
    BidirectionalFlush(s2.(renderCallbacks := []), s2.renderCallbacks);
    assert Repeat(Ran(st.constructed, 1), 1) == [Ran(st.constructed, 1)];
  }

  // ----- The `in` and `out` runners -----

  lemma DirectionalSlotsExactly(hasIn: bool, hasOut: bool, fragment: map<char, Callback<SideEffect>>)
    ensures var patched := ModeFragment(Directional(hasIn, hasOut), fragment);
      var afterIn := if hasIn then Wrapped(InOutro, Lookup(fragment, 'o')) else Lookup(fragment, 'o');
      Lookup(patched, 'o') == (if hasOut then Wrapped(OutOutro, afterIn) else afterIn)
      && Lookup(patched, 'i') == (if hasOut then Wrapped(OutIntro, Lookup(fragment, 'i')) else Lookup(fragment, 'i'))
      && Lookup(patched, 'd') == (if hasOut then Wrapped(OutDestroy, Lookup(fragment, 'd')) else Lookup(fragment, 'd'))
  {
    var f1 := if hasIn then InFragment(fragment) else fragment;
    assert Lookup(f1, 'i') == Lookup(fragment, 'i') && Lookup(f1, 'd') == Lookup(fragment, 'd');
    if hasOut {
      var a := Append(f1, Outro, OutOutro);
      var b := Append(a, Intro, OutIntro);
      var c := Append(b, Destroy, OutDestroy);
      assert Lookup(c, 'i') == Lookup(b, 'i');
      assert Lookup(c, 'o') == Lookup(b, 'o') == Lookup(a, 'o');
      assert Lookup(b, 'd') == Lookup(a, 'd') == Lookup(f1, 'd');
    }
  }

  lemma HostSlot(host: map<char, nat>, f: FragmentFunction)
    ensures !Lookup(Lift(host), Shorthand(f)).Wrapped?
  {
    var key := Shorthand(f);
    assert Lookup(Lift(host), key) == if key in host then Host(host[key]) else Missing;
  }

  /** Reaching an unpatched callback only adds its host entry. */
  lemma InvokeHost(st: State, cb: Callback<SideEffect>, args: seq<Value>)
    requires !cb.Wrapped?
    ensures Invoke(st, cb, args) == st.(log := st.log + [Reached(cb, args)])
  {
  }

  /** The outro slot of a directional controller: out's construct, then in's end, then `l`. */
  lemma OutroChain(st: State, l: Callback<SideEffect>, hasIn: bool, hasOut: bool, args: seq<Value>)
    requires !l.Wrapped?
    ensures var inner := if hasIn then Wrapped(InOutro, l) else l;
      var s' := Invoke(st, if hasOut then Wrapped(OutOutro, inner) else inner, args);
      var built := hasOut && st.props.outFn.Some?;
      s'.log == st.log
                + (if built then [Constructed(OutKind, st.constructed)] else [])
                + (if hasIn && st.intro.Some? then [Ended(st.intro.value.id, None)] else [])
                + [Reached(l, args)]
      && s'.outro == (if built then Some(Instance(st.constructed, st.props.outFn.value)) else st.outro)
      && s'.intro == st.intro && s'.transition == st.transition && s'.renderCallbacks == st.renderCallbacks
  {
    var s1 := if hasOut then OutroConstruct(st) else st;
    var s2 := if hasIn then ApplySideEffect(s1, InOutro, args) else s1;
    InvokeHost(s2, l, args);
    var inner := if hasIn then Wrapped(InOutro, l) else l;
    assert Invoke(s1, inner, args) == Invoke(s2, l, args);
  }

  /**
   * Once mounted, outro first runs the `out` runner's side effect, which builds a new outro
   * instance whenever `out` is still set, and then the `in` runner's, which calls end() on the
   * intro instance if there is one; the host's outro runs last.
   */
  lemma DirectionalOutro(st: State, host: map<char, nat>, args: seq<Value>)
    requires st.mode.Directional? && st.fragment == ModeFragment(st.mode, Lift(host))
    ensures var s' := Fire(st, Outro, args);
      var built := st.mode.hasOut && st.props.outFn.Some?;
      s'.log == st.log
                + (if built then [Constructed(OutKind, st.constructed)] else [])
                + (if st.mode.hasIn && st.intro.Some? then [Ended(st.intro.value.id, None)] else [])
                + [HostEntry(host, Outro, args)]
      && s'.outro == (if built then Some(Instance(st.constructed, st.props.outFn.value)) else st.outro)
      && s'.intro == st.intro && s'.transition == st.transition && s'.renderCallbacks == st.renderCallbacks
  {
    var l := Lookup(Lift(host), 'o');
    DirectionalSlotsExactly(st.mode.hasIn, st.mode.hasOut, Lift(host));
    HostSlot(host, Outro);
    OutroChain(st, l, st.mode.hasIn, st.mode.hasOut, args);
  }

  /** Once mounted, intro calls end(1) on the outro instance if there is one, then the host's intro. */
  lemma DirectionalIntro(st: State, host: map<char, nat>, args: seq<Value>)
    requires st.mode.Directional? && st.fragment == ModeFragment(st.mode, Lift(host))
    ensures Fire(st, Intro, args)
         == st.(log := st.log
                       + (if st.mode.hasOut && st.outro.Some? then [Ended(st.outro.value.id, Some(1))] else [])
                       + [HostEntry(host, Intro, args)])
  {
    var l := Lookup(Lift(host), 'i');
    DirectionalSlotsExactly(st.mode.hasIn, st.mode.hasOut, Lift(host));
    HostSlot(host, Intro);
    var s1 := if st.mode.hasOut then ApplySideEffect(st, OutIntro, args) else st;
    InvokeHost(s1, l, args);
    assert Fire(st, Intro, args) == Invoke(s1, l, args);
  }

  /** Once mounted, destroy(detaching) calls end(0) on the outro instance exactly when detaching is truthy and one exists. */
  lemma DirectionalDestroy(st: State, host: map<char, nat>, args: seq<Value>)
    requires st.mode.Directional? && st.fragment == ModeFragment(st.mode, Lift(host))
    ensures Fire(st, Destroy, args)
         == st.(log := st.log
                       + (if st.mode.hasOut && Truthy(Arg(args, 0)) && st.outro.Some? then [Ended(st.outro.value.id, Some(0))] else [])
                       + [HostEntry(host, Destroy, args)])
  {
    var l := Lookup(Lift(host), 'd');
    DirectionalSlotsExactly(st.mode.hasIn, st.mode.hasOut, Lift(host));
    HostSlot(host, Destroy);
    var s1 := if st.mode.hasOut then ApplySideEffect(st, OutDestroy, args) else st;
    InvokeHost(s1, l, args);
    assert Fire(st, Destroy, args) == Invoke(s1, l, args);
  }

  /** The first flush after mounting the `in` runner builds and starts the intro instance, unless `in` is gone by then. */
  lemma IntroFlush(st: State)
    requires st.renderCallbacks == [StartIntro]
    ensures var s' := Flush(st);
      s'.log == st.log + (if st.props.inFn.Some? then [Constructed(InKind, st.constructed), Started(st.constructed)] else [])
      && s'.intro == (if st.props.inFn.Some? then Some(Instance(st.constructed, st.props.inFn.value)) else st.intro)
      && s'.renderCallbacks == [] && s'.transition == st.transition && s'.outro == st.outro
  {
    var ds := st.renderCallbacks;
    var s0 := st.(renderCallbacks := []);
    assert ds[..|ds| - 1] == [];
    assert RunAllDeferred(s0, ds) == RunDeferred(RunAllDeferred(s0, []), StartIntro);
    assert Flush(st) == IntroStart(st.(renderCallbacks := []));
  }

  // ----- The placeholder element -----

  /** The element is created at setup and removed by the one onDestroy callback, which runs at most once. */
  predicate PlaceholderLife(st: State)
  {
    (forall i :: 0 <= i < |st.onMount| ==> st.onMount[i] != RemovePlaceholder)
    && Count(st.log, IsCreated) == 1
    && ((st.onDestroy == [RemovePlaceholder] && Count(st.log, IsRemoved) == 0)
        || (st.onDestroy == [] && Count(st.log, IsRemoved) == 1))
  }

  lemma PlaceholderStep(st: State, ev: Event)
    requires PlaceholderLife(st)
    ensures PlaceholderLife(Step(st, ev))
    ensures ev.Destroyed? || st.onDestroy == [] ==> Step(st, ev).onDestroy == []
  {
    match ev
    case Mounted =>
      RunAllFrame(st.(onMount := []), st.onMount);
    case Hook(f, args) =>
      InvokeShape(st, Lookup(st.fragment, Shorthand(f)), args);
    case FlushRender =>
      var s0 := st.(renderCallbacks := []);
      AllDeferredUntouched(s0, st.renderCallbacks);
      NeutralCounts(s0.log, Flush(st).log);
    case Destroyed =>
      if st.onDestroy != [] {
        var s0 := st.(onDestroy := []);
        var rs := st.onDestroy;
        assert rs == [RemovePlaceholder];
        assert rs[..|rs| - 1] == [];
        assert RunAll(s0, rs) == RunRegistered(RunAll(s0, []), RemovePlaceholder);
        assert RunDestroy(st) == RunRegistered(s0, RemovePlaceholder);
        CountConcat(st.log, [ElementRemoved], IsRemoved);
        CountConcat(st.log, [ElementRemoved], IsCreated);
      }
    case _ =>
  }

  /**
   * Whatever the mode and whatever happens, a controller set up with some transition prop
   * creates the placeholder once and removes it at most once, and exactly once after teardown.
   */
  lemma {:induction false} PlaceholderRemovedOnce(ref: RefId, p: Props, host: map<char, nat>, evs: seq<Event>)
    requires !NoConfig(p)
    ensures PlaceholderLife(Run(Setup(ref, p, host), evs))
    ensures (exists i :: 0 <= i < |evs| && evs[i].Destroyed?) ==> Count(Run(Setup(ref, p, host), evs).log, IsRemoved) == 1
  {
    var st := Run(Setup(ref, p, host), evs);
    if evs == [] {
      var s0 := Setup(ref, p, host);
      assert s0.log == [ElementCreated];
      assert forall i :: 0 <= i < |s0.onMount| ==> s0.onMount[i] != RemovePlaceholder;
    } else {
      var init := evs[..|evs| - 1];
      PlaceholderRemovedOnce(ref, p, host, init);
      var mid := Run(Setup(ref, p, host), init);
      PlaceholderStep(mid, evs[|evs| - 1]);
      if exists i :: 0 <= i < |evs| && evs[i].Destroyed? {
        var i :| 0 <= i < |evs| && evs[i].Destroyed?;
        if i < |init| {
          assert init[i].Destroyed?;
        }
      }
    }
  }

  // ----- The current target -----

  lemma StepKeepsRef(st: State, ev: Event)
    requires !ev.RefChanged?
    ensures Step(st, ev).currentRef == st.currentRef
  {
    match ev
    case Mounted => RunAllFrame(st.(onMount := []), st.onMount);
    case Hook(f, args) => InvokeShape(st, Lookup(st.fragment, Shorthand(f)), args);
    case FlushRender => AllDeferredUntouched(st.(renderCallbacks := []), st.renderCallbacks);
    case Destroyed => RunAllFrame(st.(onDestroy := []), st.onDestroy);
    case _ =>
  }

  /**
   * onRefChange(r) replaces the current target, and until the next change every adapter
   * invocation, of any instance and in any direction, calls the transition function with r.
   */
  lemma {:induction false} LatestRefSeen(st: State, r: RefId, evs: seq<Event>, inst: Instance, direction: Direction)
    requires forall i :: 0 <= i < |evs| ==> !evs[i].RefChanged?
    ensures Run(Step(st, RefChanged(r)), evs).currentRef == r
    ensures AdapterOutput(Run(Step(st, RefChanged(r)), evs), inst, direction) == Adapt(inst.fn, r, direction)
  {
    if evs != [] {
      LatestRefSeen(st, r, evs[..|evs| - 1], inst, direction);
      StepKeepsRef(Run(Step(st, RefChanged(r)), evs[..|evs| - 1]), evs[|evs| - 1]);
    }
  }

  // ----- Ticks -----

  /** Log entries a tick call produces: invalidations and the caller's own tick. */
  predicate TickEntries(extra: seq<Effect>)
  {
    forall i :: 0 <= i < |extra| ==> extra[i].Invalidated? || extra[i].UserTicked?
  }

  lemma TickEffectsEntries(tick: Tick, frame: seq<real>)
    ensures TickEntries(TickEffects(tick, frame)) && Neutral(TickEffects(tick, frame))
  {
  }

  lemma TickEntriesKeepPlaceholder(st: State, extra: seq<Effect>)
    requires TickEntries(extra) && Neutral(extra) && PlaceholderLife(st)
    ensures PlaceholderLife(st.(log := st.log + extra))
  {
    assert (st.log + extra)[|st.log|..] == extra;
    NeutralCounts(st.log, st.log + extra);
  }

  lemma TickEntriesKeepBidirectional(st: State, host: map<char, nat>, extra: seq<Effect>)
    requires TickEntries(extra) && BidirectionalReachable(st, host)
    ensures BidirectionalReachable(st.(log := st.log + extra), host)
  {
    CountConcat(st.log, extra, IsConstructed);
    CountNone(extra, IsConstructed);
  }

  /**
   * A tick call only adds invalidations and caller-tick entries to the log, so it keeps the
   * placeholder's life, the single bidirectional instance, and everything else in the state.
   */
  lemma TickKeeps(st: State, host: map<char, nat>, tick: Tick, frame: seq<real>)
    ensures var s' := st.(log := st.log + TickEffects(tick, frame));
      Neutral(TickEffects(tick, frame))
      && Count(s'.log, IsConstructed) == Count(st.log, IsConstructed)
      && (PlaceholderLife(st) ==> PlaceholderLife(s'))
      && (BidirectionalReachable(st, host) ==> BidirectionalReachable(s', host))
  {
    var extra := TickEffects(tick, frame);
    TickEffectsEntries(tick, frame);
    CountConcat(st.log, extra, IsConstructed);
    CountNone(extra, IsConstructed);
    if PlaceholderLife(st) {
      TickEntriesKeepPlaceholder(st, extra);
    }
    if BidirectionalReachable(st, host) {
      TickEntriesKeepBidirectional(st, host, extra);
    }
  }
}
