/**
 * The transitions plugin as a state machine over values: the plugin's closure variables,
 * the host fragment it patches, the callbacks it registers and the effects it causes,
 * with one function per event the host or the animation primitive delivers.
 */
module Lifecycle {
  import opened Wrappers
  import opened Hooks
  import opened Effects
  import opened Descriptors

  /** The optional `in`, `out` and `transition` props of a component. */
  datatype Props = Props(inFn: Option<TransitionFn>, outFn: Option<TransitionFn>, transitionFn: Option<TransitionFn>)

  predicate NoConfig(p: Props)
  {
    p.inFn.None? && p.outFn.None? && p.transitionFn.None?
  }

  /** Which runners setup installs: none, the bidirectional one, or the `in` and/or `out` ones. */
  datatype Mode = Inert | Bidirectional | Directional(hasIn: bool, hasOut: bool)

  function SelectMode(p: Props): (m: Mode)
    ensures m.Inert? <==> NoConfig(p)
    ensures m.Bidirectional? <==> p.transitionFn.Some?
    ensures m.Directional? ==> m.hasIn == p.inFn.Some? && m.hasOut == p.outFn.Some? && (m.hasIn || m.hasOut)
  {
    if NoConfig(p) then Inert
    else if p.transitionFn.Some? then Bidirectional
    else Directional(p.inFn.Some?, p.outFn.Some?)
  }

  /** A running instance of the animation primitive and the transition function its adapter wraps. */
  datatype Instance = Instance(id: nat, fn: TransitionFn)

  /** The side effects the plugin splices into fragment slots. */
  datatype SideEffect =
    | BidiIntro | BidiOutro | BidiDestroy   // bidirectional runner
    | InOutro                               // `in` runner
    | OutOutro | OutIntro | OutDestroy      // `out` runner

  /** Work passed to add_render_callback. */
  datatype Deferred = EnterBidirectional | StartIntro

  /** Callbacks passed to onMount and onDestroy. */
  datatype Registered = MountBidirectional | MountIn | MountOut | RemovePlaceholder

  datatype State = State(
    mode: Mode,
    props: Props,
    currentRef: RefId,
    transition: Option<Instance>,
    intro: Option<Instance>,
    outro: Option<Instance>,
    fragment: map<char, Callback<SideEffect>>,
    renderCallbacks: seq<Deferred>,
    onMount: seq<Registered>,
    onDestroy: seq<Registered>,
    constructed: nat,
    log: seq<Effect>)

  /** The host's fragment before the plugin touches it. */
  function Lift(host: map<char, nat>): map<char, Callback<SideEffect>>
  {
    map k | k in host :: Host(host[k])
  }

  /** The onMount callbacks setup registers, in registration order. */
  function MountCallbacks(p: Props): seq<Registered>
  {
    if p.transitionFn.Some? then [MountBidirectional]
    else (if p.inFn.Some? then [MountIn] else []) + (if p.outFn.Some? then [MountOut] else [])
  }

  /** The plugin's setup: nothing at all without a transition prop. */
  function Setup(ref: RefId, p: Props, host: map<char, nat>): State
  {
    if NoConfig(p) then
      State(Inert, p, ref, None, None, None, Lift(host), [], [], [], 0, [])
    else
      State(SelectMode(p), p, ref, None, None, None, Lift(host), [], MountCallbacks(p), [RemovePlaceholder], 0, [ElementCreated])
  }

  /** The render callback queued on mount and on intro in bidirectional mode. */
  function BidirectionalEnter(st: State): State
  {
    if st.transition.Some? then
      st.(log := st.log + [Ran(st.transition.value.id, 1)])
    else if st.props.transitionFn.None? then
      st
    else
      var id := st.constructed;
      st.(transition := Some(Instance(id, st.props.transitionFn.value)), constructed := id + 1,
          log := st.log + [Constructed(BidirectionalKind(true), id), Ran(id, 1)])
  }

  /** The outro side effect in bidirectional mode. */
  function BidirectionalExit(st: State): State
  {
    if st.transition.Some? then
      st.(log := st.log + [Ran(st.transition.value.id, 0)])
    else if st.props.transitionFn.None? then
      st
    else
      var id := st.constructed;
      st.(transition := Some(Instance(id, st.props.transitionFn.value)), constructed := id + 1,
          log := st.log + [Constructed(BidirectionalKind(false), id), Ran(id, 0)])
  }

  /** The render callback queued on mount by the `in` runner. */
  function IntroStart(st: State): State
  {
    if st.props.inFn.None? then
      st
    else
      var id := st.constructed;
      st.(intro := Some(Instance(id, st.props.inFn.value)), constructed := id + 1,
          log := st.log + [Constructed(InKind, id), Started(id)])
  }

  /** The outro side effect of the `out` runner: a new instance on every call. */
  function OutroConstruct(st: State): State
  {
    if st.props.outFn.None? then
      st
    else
      var id := st.constructed;
      st.(outro := Some(Instance(id, st.props.outFn.value)), constructed := id + 1,
          log := st.log + [Constructed(OutKind, id)])
  }

  function RunDeferred(st: State, d: Deferred): State
  {
    match d
    case EnterBidirectional => BidirectionalEnter(st)
    case StartIntro => IntroStart(st)
  }

  /** A side effect run with the arguments the host passed to the slot. */
  function ApplySideEffect(st: State, e: SideEffect, args: seq<Value>): State
  {
    match e
    case BidiIntro => st.(renderCallbacks := st.renderCallbacks + [EnterBidirectional])
    case BidiOutro => BidirectionalExit(st)
    case BidiDestroy =>
      if Truthy(Arg(args, 0)) && st.transition.Some? then st.(log := st.log + [Ended(st.transition.value.id, None)]) else st
    case InOutro =>
      if st.intro.Some? then st.(log := st.log + [Ended(st.intro.value.id, None)]) else st
    case OutOutro => OutroConstruct(st)
    case OutIntro =>
      if st.outro.Some? then st.(log := st.log + [Ended(st.outro.value.id, Some(1))]) else st
    case OutDestroy =>
      if Truthy(Arg(args, 0)) && st.outro.Some? then st.(log := st.log + [Ended(st.outro.value.id, Some(0))]) else st
  }

  /** The log entry of reaching a slot's underlying callback. */
  function Reached(cb: Callback<SideEffect>, args: seq<Value>): Effect
  {
    if cb.Host? then HostRan(cb.fn, args) else HostMissing
  }

  /** Calling the callback `cb` with `args`. */
  function Invoke(st: State, cb: Callback<SideEffect>, args: seq<Value>): State
    decreases cb
  {
    match cb
    case Host(fn) => st.(log := st.log + [HostRan(fn, args)])
    case Missing => st.(log := st.log + [HostMissing])
    case Wrapped(e, original) => Invoke(ApplySideEffect(st, e, args), original, args)
  }

  /** The host calling fragment function `f`. */
  function Fire(st: State, f: FragmentFunction, args: seq<Value>): State
  {
    Invoke(st, Lookup(st.fragment, Shorthand(f)), args)
  }

  /** The fragment after the bidirectional runner's mount callback. */
  function BidirectionalFragment(fragment: map<char, Callback<SideEffect>>): map<char, Callback<SideEffect>>
  {
    Append(Append(Append(fragment, Intro, BidiIntro), Outro, BidiOutro), Destroy, BidiDestroy)
  }

  /** The fragment after the `in` runner's mount callback. */
  function InFragment(fragment: map<char, Callback<SideEffect>>): map<char, Callback<SideEffect>>
  {
    Append(fragment, Outro, InOutro)
  }

  /** The fragment after the `out` runner's mount callback. */
  function OutFragment(fragment: map<char, Callback<SideEffect>>): map<char, Callback<SideEffect>>
  {
    Append(Append(Append(fragment, Outro, OutOutro), Intro, OutIntro), Destroy, OutDestroy)
  }

  function RunRegistered(st: State, r: Registered): State
  {
    match r
    case MountBidirectional =>
      st.(renderCallbacks := st.renderCallbacks + [EnterBidirectional], fragment := BidirectionalFragment(st.fragment))
    case MountIn =>
      st.(renderCallbacks := st.renderCallbacks + [StartIntro], fragment := InFragment(st.fragment))
    case MountOut =>
      st.(fragment := OutFragment(st.fragment))
    case RemovePlaceholder =>
      st.(log := st.log + [ElementRemoved])
  }

  /** Running `rs` in order. */
  function RunAll(st: State, rs: seq<Registered>): State
  {
    if rs == [] then st else RunRegistered(RunAll(st, rs[..|rs| - 1]), rs[|rs| - 1])
  }

  /** Running `ds` in order. */
  function RunAllDeferred(st: State, ds: seq<Deferred>): State
  {
    if ds == [] then st else RunDeferred(RunAllDeferred(st, ds[..|ds| - 1]), ds[|ds| - 1])
  }

  /** The host mounting the component: the onMount callbacks run once. */
  function RunMount(st: State): State
  {
    RunAll(st.(onMount := []), st.onMount)
  }

  /** The host destroying the component: the onDestroy callbacks run once. */
  function RunDestroy(st: State): State
  {
    RunAll(st.(onDestroy := []), st.onDestroy)
  }

  /** The host flushing its render callbacks, first in first out. */
  function Flush(st: State): State
  {
    RunAllDeferred(st.(renderCallbacks := []), st.renderCallbacks)
  }

  /** What the host and the caller can do to a set-up controller. */
  datatype Event =
    | Mounted
    | Hook(f: FragmentFunction, args: seq<Value>)
    | FlushRender
    | Destroyed
    | RefChanged(ref: RefId)
    | PropsChanged(p: Props)

  function Step(st: State, ev: Event): State
  {
    match ev
    case Mounted => RunMount(st)
    case Hook(f, args) => Fire(st, f, args)
    case FlushRender => Flush(st)
    case Destroyed => RunDestroy(st)
    case RefChanged(r) => st.(currentRef := r)
    case PropsChanged(p) => st.(props := p)
  }

  function Run(st: State, evs: seq<Event>): State
  {
    if evs == [] then st else Step(Run(st, evs[..|evs| - 1]), evs[|evs| - 1])
  }

  /** What the primitive receives when it invokes the adapter of `inst`. */
  function AdapterOutput(st: State, inst: Instance, direction: Direction): Adapted
  {
    Adapt(inst.fn, st.currentRef, direction)
  }
}
