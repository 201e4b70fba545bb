/**
 * Transition descriptors and convertTransition, the adapter that hands the caller's
 * transition function to the animation primitive with a tick that also invalidates.
 */
module Descriptors {
  import opened Wrappers
  import opened Effects

  /** The `direction` option the animation primitive passes to a descriptor function. */
  datatype Direction = In | Out | Both

  /** The parts of a descriptor the controller passes through untouched (delay, duration, easing, css). */
  datatype Timing = Timing(delay: Option<nat>, duration: Option<nat>, easing: Option<nat>, css: Option<nat>)

  /** A tick the primitive can call: the caller's own function, or the adapter's, which may forward to the caller's. */
  datatype Tick = UserTick(id: nat) | Bridged(forward: Option<nat>)

  /** What a caller's transition function returns; its tick, if any, is the caller's own function. */
  datatype Descriptor = Descriptor(timing: Timing, tick: Option<nat>)

  /** What the adapter hands to the primitive: the caller's timing and a tick of the adapter's own. */
  datatype Adapted = Adapted(timing: Timing, tick: Tick)

  /** A caller-supplied transition: (target, {direction}) to a descriptor, or to `undefined`. */
  type TransitionFn = (RefId, Direction) -> Option<Descriptor>

  /** Spreading `undefined` produces no properties. */
  const UNSET: Timing := Timing(None, None, None, None)

  /** `{ ...t, tick }`: keep what the caller returned and replace its tick with the bridging one. */
  function Reshape(t: Option<Descriptor>): Adapted
  {
    match t
    case None => Adapted(UNSET, Bridged(None))
    case Some(d) => Adapted(d.timing, Bridged(d.tick))
  }

  /** The adapter built by convertTransition, invoked with the target current at that moment. */
  function Adapt(fn: TransitionFn, ref: RefId, direction: Direction): Adapted
  {
    Reshape(fn(ref, direction))
  }

  /** The effects of one call of `tick` on a frame (the primitive's `t, u` arguments). */
  function TickEffects(tick: Tick, frame: seq<real>): seq<Effect>
  {
    match tick
    case UserTick(id) => [UserTicked(id, frame)]
    case Bridged(None) => [Invalidated]
    case Bridged(Some(id)) => [Invalidated, UserTicked(id, frame)]
  }

  /** The effects of calling `tick` once per frame. */
  function TickFrames(tick: Tick, frames: seq<seq<real>>): seq<Effect>
  {
    if frames == [] then [] else TickFrames(tick, frames[..|frames| - 1]) + TickEffects(tick, frames[|frames| - 1])
  }

  /** What the caller's own tick does on a frame: nothing when it supplied none. */
  function CallerTickEffects(t: Option<Descriptor>, frame: seq<real>): seq<Effect>
  {
    if t.Some? && t.value.tick.Some? then [UserTicked(t.value.tick.value, frame)] else []
  }

  /**
   * The adapted descriptor carries the bridging tick; its other fields are the caller's; and
   * each call invalidates once and only then forwards to the caller's tick, if any,
   * with the same frame.
   */
  lemma AdaptedTick(fn: TransitionFn, ref: RefId, direction: Direction, frame: seq<real>)
    ensures Adapt(fn, ref, direction).tick.Bridged?
    ensures Adapt(fn, ref, direction).timing == if fn(ref, direction).Some? then fn(ref, direction).value.timing else UNSET
    ensures TickEffects(Adapt(fn, ref, direction).tick, frame)
         == [Invalidated] + CallerTickEffects(fn(ref, direction), frame)
  {
  }

  /** Over any number of frames, the adapted tick invalidates exactly once per frame. */
  lemma {:induction false} OneInvalidationPerFrame(fn: TransitionFn, ref: RefId, direction: Direction, frames: seq<seq<real>>)
    ensures Count(TickFrames(Adapt(fn, ref, direction).tick, frames), IsInvalidated) == |frames|
  {
    var tick := Adapt(fn, ref, direction).tick;
    if frames != [] {
      var last := frames[|frames| - 1];
      OneInvalidationPerFrame(fn, ref, direction, frames[..|frames| - 1]);
      CountConcat(TickFrames(tick, frames[..|frames| - 1]), TickEffects(tick, last), IsInvalidated);
      var t := fn(ref, direction);
      if t.Some? && t.value.tick.Some? {
        assert TickEffects(tick, last) == [Invalidated] + [UserTicked(t.value.tick.value, last)];
        CountConcat([Invalidated], [UserTicked(t.value.tick.value, last)], IsInvalidated);
      }
    }
  }
}
