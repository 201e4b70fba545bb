/**
 * The plugin as the source runs it: one controller per component whose fields are the
 * setup closure's variables (`currentRef`, `transition`, `intro`, `outro`), the host
 * fragment it patches, the callbacks it hands to the host, and the effects it causes.
 * Every method is proved to do what the matching function of module Lifecycle says.
 */
module Plugin {
  import opened Wrappers
  import opened Hooks
  import opened Effects
  import opened Descriptors
  import opened Lifecycle

  class Controller {
    var mode: Mode
    var props: Props
    var currentRef: RefId
    var transition: Option<Instance>
    var intro: Option<Instance>
    var outro: Option<Instance>
    var fragment: map<char, Callback<SideEffect>>
    var renderCallbacks: seq<Deferred>
    var mountCallbacks: seq<Registered>
    var destroyCallbacks: seq<Registered>
    var constructed: nat
    var log: seq<Effect>

    /** The controller's state as a value of the specification. */
    function Snapshot(): State
      reads this
    {
      State(mode, props, currentRef, transition, intro, outro, fragment,
            renderCallbacks, mountCallbacks, destroyCallbacks, constructed, log)
    }

    /** The plugin's setup for a component with target `ref`, props `p` and fragment `host`. */
    constructor (ref: RefId, p: Props, host: map<char, nat>)
      ensures Snapshot() == Setup(ref, p, host)
    {
      props := p;
      currentRef := ref;
      transition, intro, outro := None, None, None;
      fragment := Lift(host);
      renderCallbacks := [];
      constructed := 0;
      mountCallbacks := [];
      if NoConfig(p) {
        mode := Inert;
        destroyCallbacks, log := [], [];
      } else {
        mode := SelectMode(p);
        log := [ElementCreated];
        if p.transitionFn.Some? {
          mountCallbacks := [MountBidirectional];
        } else {
          if p.inFn.Some? {
            mountCallbacks := mountCallbacks + [MountIn];
          }
          if p.outFn.Some? {
            mountCallbacks := mountCallbacks + [MountOut];
          }
        }
        destroyCallbacks := [RemovePlaceholder];
      }
    }

    /** onRefChange, which only a setup with some transition prop hands back. */
    method OnRefChange(r: RefId)
      requires mode != Inert
      modifies this
      ensures Snapshot() == old(Snapshot()).(currentRef := r)
    {
      currentRef := r;
    }

    /** The component's props changing; the mode is not re-evaluated. */
    method SetProps(p: Props)
      modifies this
      ensures Snapshot() == old(Snapshot()).(props := p)
    {
      props := p;
    }

    /** appendToFragmentFunction. */
    method AppendToFragmentFunction(f: FragmentFunction, e: SideEffect)
      modifies this
      ensures Snapshot() == old(Snapshot()).(fragment := Append(old(fragment), f, e))
    {
      var key := Shorthand(f);
      var original := Lookup(fragment, key);
      fragment := fragment[key := Wrapped(e, original)];
    }

    /** The render callback queued by mount and by intro in bidirectional mode. */
    method EnterBidirectional()
      modifies this
      ensures Snapshot() == BidirectionalEnter(old(Snapshot()))
    {
      if transition.None? {
        if props.transitionFn.None? {
          return;
        }
        transition := Some(Instance(constructed, props.transitionFn.value));
        constructed := constructed + 1;
        log := log + [Constructed(BidirectionalKind(true), transition.value.id)];
      }
      log := log + [Ran(transition.value.id, 1)];
    }

    /** The bidirectional outro side effect. */
    method ExitBidirectional()
      modifies this
      ensures Snapshot() == BidirectionalExit(old(Snapshot()))
    {
      if transition.None? {
        if props.transitionFn.None? {
          return;
        }
        transition := Some(Instance(constructed, props.transitionFn.value));
        constructed := constructed + 1;
        log := log + [Constructed(BidirectionalKind(false), transition.value.id)];
      }
      log := log + [Ran(transition.value.id, 0)];
    }

    /** The render callback queued on mount by the `in` runner. */
    method StartIntro()
      modifies this
      ensures Snapshot() == IntroStart(old(Snapshot()))
    {
      if props.inFn.None? {
        return;
      }
      intro := Some(Instance(constructed, props.inFn.value));
      constructed := constructed + 1;
      log := log + [Constructed(InKind, intro.value.id)];
      log := log + [Started(intro.value.id)];
    }

    /** The `out` runner's outro side effect. */
    method ConstructOutro()
      modifies this
      ensures Snapshot() == OutroConstruct(old(Snapshot()))
    {
      if props.outFn.None? {
        return;
      }
      outro := Some(Instance(constructed, props.outFn.value));
      constructed := constructed + 1;
      log := log + [Constructed(OutKind, outro.value.id)];
    }

    method ApplySideEffect(e: SideEffect, args: seq<Value>)
      modifies this
      ensures Snapshot() == Lifecycle.ApplySideEffect(old(Snapshot()), e, args)
    {
      match e
      case BidiIntro =>
        renderCallbacks := renderCallbacks + [Deferred.EnterBidirectional];
      case BidiOutro =>
        ExitBidirectional();
      case BidiDestroy =>
        var detaching := Arg(args, 0);
        if Truthy(detaching) && transition.Some? {
          log := log + [Ended(transition.value.id, None)];
        }
      case InOutro =>
        if intro.Some? {
          log := log + [Ended(intro.value.id, None)];
        }
      case OutOutro =>
        ConstructOutro();
      case OutIntro =>
        if outro.Some? {
          log := log + [Ended(outro.value.id, Some(1))];
        }
      case OutDestroy =>
        var detaching := Arg(args, 0);
        if Truthy(detaching) && outro.Some? {
          log := log + [Ended(outro.value.id, Some(0))];
        }
    }

    /** Calling a slot's callback: a wrapper runs its side effect, then what it wraps, with the same arguments. */
    method Invoke(cb: Callback<SideEffect>, args: seq<Value>)
      modifies this
      ensures Snapshot() == Lifecycle.Invoke(old(Snapshot()), cb, args)
      decreases cb
    {
      match cb
      case Host(fn) =>
        log := log + [HostRan(fn, args)];
      case Missing =>
        log := log + [HostMissing];
      case Wrapped(e, original) =>
        ApplySideEffect(e, args);
        Invoke(original, args);
    }

    /** The host calling fragment function `f` with `args`. */
    method Fire(f: FragmentFunction, args: seq<Value>)
      modifies this
      ensures Snapshot() == Lifecycle.Fire(old(Snapshot()), f, args)
    {
      var cb := Lookup(fragment, Shorthand(f));
      Invoke(cb, args);
    }

    method RunRegistered(r: Registered)
      modifies this
      ensures Snapshot() == Lifecycle.RunRegistered(old(Snapshot()), r)
    {
      match r
      case MountBidirectional =>
        renderCallbacks := renderCallbacks + [Deferred.EnterBidirectional];
        AppendToFragmentFunction(Intro, BidiIntro);
        AppendToFragmentFunction(Outro, BidiOutro);
        AppendToFragmentFunction(Destroy, BidiDestroy);
      case MountIn =>
        renderCallbacks := renderCallbacks + [Deferred.StartIntro];
        AppendToFragmentFunction(Outro, InOutro);
      case MountOut =>
        AppendToFragmentFunction(Outro, OutOutro);
        AppendToFragmentFunction(Intro, OutIntro);
        AppendToFragmentFunction(Destroy, OutDestroy);
      case RemovePlaceholder =>
        log := log + [ElementRemoved];
    }

    /** The host mounting the component: the onMount callbacks run once, in registration order. */
    method Mount()
      modifies this
      ensures Snapshot() == RunMount(old(Snapshot()))
    {
      var pending := mountCallbacks;
      mountCallbacks := [];
      var i := 0;
      while i < |pending|
        invariant 0 <= i <= |pending|
        invariant Snapshot() == RunAll(old(Snapshot()).(onMount := []), pending[..i])
      {
        RunRegistered(pending[i]);
        assert pending[..i + 1][..i] == pending[..i];
        i := i + 1;
      }
      assert pending[..i] == pending;
    }

    /** The host destroying the component: the onDestroy callbacks run once. */
    method Teardown()
      modifies this
      ensures Snapshot() == RunDestroy(old(Snapshot()))
    {
      var pending := destroyCallbacks;
      destroyCallbacks := [];
      var i := 0;
      while i < |pending|
        invariant 0 <= i <= |pending|
        invariant Snapshot() == RunAll(old(Snapshot()).(onDestroy := []), pending[..i])
      {
        RunRegistered(pending[i]);
        assert pending[..i + 1][..i] == pending[..i];
        i := i + 1;
      }
      assert pending[..i] == pending;
    }

    method RunDeferred(d: Deferred)
      modifies this
      ensures Snapshot() == Lifecycle.RunDeferred(old(Snapshot()), d)
    {
      match d
      case EnterBidirectional => EnterBidirectional();
      case StartIntro => StartIntro();
    }

    /** The host flushing its render callbacks, first in first out. */
    method Flush()
      modifies this
      ensures Snapshot() == Lifecycle.Flush(old(Snapshot()))
    {
      var pending := renderCallbacks;
      renderCallbacks := [];
      var i := 0;
      while i < |pending|
        invariant 0 <= i <= |pending|
        invariant Snapshot() == RunAllDeferred(old(Snapshot()).(renderCallbacks := []), pending[..i])
      {
        RunDeferred(pending[i]);
        assert pending[..i + 1][..i] == pending[..i];
        i := i + 1;
      }
      assert pending[..i] == pending;
    }

    /**
     * The adapter of `inst`, invoked by the primitive: it calls the transition function with
     * the target current now and returns its descriptor with the bridging tick in place of its own.
     */
    method Adapter(inst: Instance, direction: Direction) returns (d: Adapted)
      ensures d == AdapterOutput(Snapshot(), inst, direction)
      ensures d.tick.Bridged?
    {
      var t := inst.fn(currentRef, direction);
      var timing := if t.Some? then t.value.timing else UNSET;
      var forward := if t.Some? then t.value.tick else None;
      d := Adapted(timing, Bridged(forward));
    }

    /** The primitive calling a tick on one frame: the bridging tick invalidates and then forwards. */
    method CallTick(tick: Tick, frame: seq<real>)
      modifies this
      ensures Snapshot() == old(Snapshot()).(log := old(log) + TickEffects(tick, frame))
      decreases if tick.Bridged? then 1 else 0
    {
      match tick
      case UserTick(id) =>
        log := log + [UserTicked(id, frame)];
      case Bridged(forward) =>
        log := log + [Invalidated];
        if forward.Some? {
          CallTick(UserTick(forward.value), frame);
        }
    }
  }
}
