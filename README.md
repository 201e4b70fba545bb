# Transitions plugin: a verified model

This project models the `transitions` plugin of threlte's extras package, which gives 3D
components Svelte-style `in`, `out` and `transition` props. When the component is set up,
the plugin looks at those props and does one of three things. With none of them it does
nothing. With `transition` it installs one bidirectional runner. Otherwise it installs an
`in` runner and/or an `out` runner. Between them the runners use these mechanisms:

- Each runner registers one onMount callback, which does the rest of its work when the
  component mounts.
- The bidirectional runner and the `in` runner queue a render callback:
  - the bidirectional runner queues one at mount and one on every intro;
  - the `in` runner queues one at mount.
- Each runner wraps fragment functions (`appendToFragmentFunction`). The wrapper runs the
  runner's side effect first and then the slot's previous function:
  - the bidirectional runner wraps `intro`, `outro` and `destroy`;
  - the `in` runner wraps `outro` only;
  - the `out` runner wraps `outro`, `intro` and `destroy`.
- Each runner drives the animation primitive through an adapter (`convertTransition`).

Setup itself, in every mode with some prop, creates a placeholder element and registers the
one onDestroy callback, which removes it.

The adapter calls the user's transition function with the component's current 3D target.
Its tick invalidates the render loop before forwarding to the user's tick.

Modules:

- `Hooks`:
  - the fragment function names and their one-letter property names;
  - JavaScript argument values and truthiness;
  - slot callbacks: a host function, `undefined`, or a wrapper around another callback;
  - `Append` and the nesting laws for repeated installs.
- `Effects`: the observable effects the plugin causes, recorded in a log, and counting over
  that log.
- `Descriptors`:
  - transition descriptors: `Descriptor`, which the caller's function returns, and
    `Adapted`, which the adapter returns;
  - the adapter (`Reshape`, `Adapt`);
  - the bridging tick (`TickEffects`).
- `Lifecycle`:
  - the plugin's state as a value: mode, props, `currentRef`, the three instance handles,
    the fragment, the render-callback queue, the onMount and onDestroy registrations, an
    instance counter and the effect log;
  - one function per runner step;
  - `Setup`, `Fire` (the host calling a fragment function), `Flush`, `RunMount`,
    `RunDestroy`;
  - `Step` and `Run` over host events.
- `LifecycleProofs`: properties of whole runs, and of single events in each mode.
- `Plugin`: the class `Controller`. Its fields are the setup closure's variables. Each
  method changes them in place, and its contract says the new state is the `Lifecycle`
  step function applied to the old one.

The host and the animation primitive are the environment. The host's actions are the
constructors of `Lifecycle.Event`, which `Step` and `Run` apply: mounting the component,
calling a fragment function with arguments, flushing render callbacks, destroying the
component, changing the ref, changing the props.

The primitive's two calls into the plugin are not events, and `Step` and `Run` do not
include them:

- invoking the adapter: the method `Plugin.Controller.Adapter`, specified by
  `Lifecycle.AdapterOutput`;
- calling a tick on a frame: the method `Plugin.Controller.CallTick`, specified by
  `Descriptors.TickEffects`.

`LifecycleProofs.TickKeeps` shows that a tick call keeps the whole-run invariants.

The primitive's own effects are modelled as log entries:

- constructing an instance (with its `intro` flag for the bidirectional one);
- `run(b)`, `start()`, `end()` / `end(b)`.

A fragment slot that was `undefined` when wrapped makes the wrapper throw after its side
effect. The log records this as `HostMissing`.

## Model

| member | source | states |
|---|---|---|
| Hooks.ShorthandRoundTrip | packages/extras/src/lib/transitions/transitions-plugin.ts:16-28 | the shorthand table is one-to-one: mapping a fragment function to its key and back gives the same function, so no two fragment functions share a key |
| Hooks.Append | packages/extras/src/lib/transitions/transitions-plugin.ts:32-44 | the named slot now holds a wrapper of the side effect around what the slot held before (`undefined` included); every other slot is unchanged; the key set grows by that slot alone |
| Hooks.AppendManyOneSlot | packages/extras/src/lib/transitions/transitions-plugin.ts:32-44 | repeated appends to one slot nest on that slot and leave all others untouched |
| Hooks.AppendAllNests | packages/extras/src/lib/transitions/transitions-plugin.ts:37-43 | after any sequence of installs, the side effects run newest first, and the callback finally reached is the original one |
| Hooks.CallsDecompose | packages/extras/src/lib/transitions/transitions-plugin.ts:40-43 | one invocation of a slot makes its side-effect calls, each with the invocation's arguments, and then exactly one final call: to the original, or a TypeError when the slot was `undefined` |
| Hooks.RepeatedInstalls | packages/extras/src/lib/transitions/transitions-plugin.ts:37-43 | with k installs on a host function, one invocation runs the k side effects newest first and the host function exactly once, last, with the same arguments |
| LifecycleProofs.RepeatedInstallsRun | packages/extras/src/lib/transitions/transitions-plugin.ts:37-43 | on the plugin state, invoking a host slot with k installs applies the k side effects newest first, each with the invocation's arguments, and then runs the host function exactly once, last |
| Descriptors.OneInvalidationPerFrame | packages/extras/src/lib/transitions/transitions-plugin.ts:68-74 | over any sequence of frames, the adapted tick invalidates exactly once per frame, whatever the caller's descriptor |
| Lifecycle.SelectMode | packages/extras/src/lib/transitions/transitions-plugin.ts:78-155 | inert if and only if no prop is set; bidirectional if and only if `transition` is set, whatever `in` and `out` are; otherwise the `in` and `out` runners are installed independently, one for each prop that is set (also line 52) |
| LifecycleProofs.NoConfigIsNoOp | packages/extras/src/lib/transitions/transitions-plugin.ts:52 | without any transition prop, setup creates nothing and registers nothing, and along any event sequence the fragment stays the host's, nothing is queued or built, and the only effects are the host's own functions |
| LifecycleProofs.InvokeShape | packages/extras/src/lib/transitions/transitions-plugin.ts:40-43 | a fragment invocation reaches the underlying callback exactly once, as its last effect; before that it only touches runner state: no host function runs and the placeholder is neither created nor removed |
| LifecycleProofs.InvokeDecompose | packages/extras/src/lib/transitions/transitions-plugin.ts:40-43 | invoking a wrapped slot is the same as applying its side effects in order and then reaching the original |
| LifecycleProofs.MountInstalls | packages/extras/src/lib/transitions/transitions-plugin.ts:78-155 | mounting patches exactly the slots of the selected mode, onto the host fragment; it queues one enter (bidirectional) or one intro start (`in`) or nothing; it builds no instance and causes no effect |
| LifecycleProofs.ModeFragmentSlots | packages/extras/src/lib/transitions/transitions-plugin.ts:93-122 | each patched slot holds the mode's side effects spliced in front of the host's function, in install order; every other slot is untouched (also lines 134-152) |
| LifecycleProofs.DirectionalSlotsExactly | packages/extras/src/lib/transitions/transitions-plugin.ts:125-154 | with both `in` and `out`, the outro slot runs out's construct, then in's end, then the original; intro and destroy carry only out's side effects |
| LifecycleProofs.FragmentFixedAfterMount | packages/extras/src/lib/transitions/transitions-plugin.ts:78-155 | once the onMount callbacks have run, no later event changes the fragment |
| LifecycleProofs.UnpatchedSlot | packages/extras/src/lib/transitions/transitions-plugin.ts:32-44 | a fragment function the mode does not patch just runs the host's function |
| LifecycleProofs.BidirectionalAtMostOneInstance | packages/extras/src/lib/transitions/transitions-plugin.ts:78-123 | along any event sequence in bidirectional mode, at most one instance is ever constructed; every run and end addresses it; no directional instance exists |
| LifecycleProofs.BidirectionalIntroDefers | packages/extras/src/lib/transitions/transitions-plugin.ts:93-106 | the intro hook only queues an enter callback and then runs the host's intro |
| LifecycleProofs.BidirectionalFlush | packages/extras/src/lib/transitions/transitions-plugin.ts:81-92 | flushing queued enters reuses an existing instance with run(1) each time; otherwise it builds one instance with the intro flag set, if the prop is present at flush time, then runs it with run(1) once per callback; with the prop gone it does nothing (also lines 94-105) |
| LifecycleProofs.BidirectionalOutroRetargets | packages/extras/src/lib/transitions/transitions-plugin.ts:107-118 | the outro hook reuses the instance with run(0), or builds it with the intro flag clear and then runs run(0), or aborts when the prop is gone; then the host's outro runs |
| LifecycleProofs.BidirectionalDestroyEnds | packages/extras/src/lib/transitions/transitions-plugin.ts:119-122 | the destroy hook calls end() on the instance exactly when the first argument is truthy and an instance exists; then the host's destroy runs |
| LifecycleProofs.GuardCheckedAtFlush | packages/extras/src/lib/transitions/transitions-plugin.ts:81-83 | an enter queued while the prop is present, with the prop removed before the flush, aborts: nothing is built or run (also lines 94-96) |
| LifecycleProofs.GuardNotCheckedAtEnqueue | packages/extras/src/lib/transitions/transitions-plugin.ts:94-105 | an enter queued while the prop is absent, with the prop supplied before the flush, builds the instance from the flush-time prop and runs it |
| LifecycleProofs.DirectionalOutro | packages/extras/src/lib/transitions/transitions-plugin.ts:134-136 | in directional mode the outro hook builds a fresh out instance (if the prop is still set), then ends the intro instance with end() (if one exists), then runs the host's outro (also lines 142-145) |
| LifecycleProofs.DirectionalIntro | packages/extras/src/lib/transitions/transitions-plugin.ts:146-148 | in directional mode the intro hook calls end(1) on the out instance, if any, then runs the host's intro |
| LifecycleProofs.DirectionalDestroy | packages/extras/src/lib/transitions/transitions-plugin.ts:149-152 | the destroy hook calls end(0) on the out instance exactly when the first argument is truthy and such an instance exists |
| LifecycleProofs.IntroFlush | packages/extras/src/lib/transitions/transitions-plugin.ts:128-132 | the queued intro start builds an in instance and starts it if the prop is present at flush time, and does nothing otherwise |
| LifecycleProofs.PlaceholderRemovedOnce | packages/extras/src/lib/transitions/transitions-plugin.ts:157-159 | with some transition prop, the placeholder element is created once at setup and removed at most once; after a destroy it has been removed exactly once (also line 58) |
| LifecycleProofs.LatestRefSeen | packages/extras/src/lib/transitions/transitions-plugin.ts:161-165 | after onRefChange(r), any later adapter invocation (with no further ref change) calls the transition function with r (also lines 56, 65) |
| Plugin.Controller.constructor | packages/extras/src/lib/transitions/transitions-plugin.ts:51-60 | the new controller is in the setup state: nothing registered without a prop; otherwise the placeholder is created, the mode's onMount callbacks and the placeholder removal are registered (also lines 78-80, 125-127, 139-141, 157) |
| Plugin.Controller.OnRefChange | packages/extras/src/lib/transitions/transitions-plugin.ts:161-165 | the ref is replaced and nothing else changes |
| Plugin.Controller.AppendToFragmentFunction | packages/extras/src/lib/transitions/transitions-plugin.ts:32-44 | the fragment becomes `Append` of the old one; nothing else changes |
| Plugin.Controller.EnterBidirectional | packages/extras/src/lib/transitions/transitions-plugin.ts:81-92 | the new state is `BidirectionalEnter` of the old one |
| Plugin.Controller.ExitBidirectional | packages/extras/src/lib/transitions/transitions-plugin.ts:107-118 | the new state is `BidirectionalExit` of the old one |
| Plugin.Controller.StartIntro | packages/extras/src/lib/transitions/transitions-plugin.ts:128-132 | the new state is `IntroStart` of the old one |
| Plugin.Controller.ConstructOutro | packages/extras/src/lib/transitions/transitions-plugin.ts:142-145 | the new state is `OutroConstruct` of the old one |
| Plugin.Controller.ApplySideEffect | packages/extras/src/lib/transitions/transitions-plugin.ts:93-122 | the new state is `Lifecycle.ApplySideEffect` of the old one (also lines 134-152) |
| Plugin.Controller.Invoke | packages/extras/src/lib/transitions/transitions-plugin.ts:40-43 | the new state is `Lifecycle.Invoke` of the old one |
| Plugin.Controller.Fire | packages/extras/src/lib/transitions/transitions-plugin.ts:37-43 | the new state is `Lifecycle.Fire` of the old one |
| Plugin.Controller.RunRegistered | packages/extras/src/lib/transitions/transitions-plugin.ts:80-123 | the new state is `Lifecycle.RunRegistered` of the old one (also lines 127-137, 141-153, 157-159) |
| Plugin.Controller.Mount | packages/extras/src/lib/transitions/transitions-plugin.ts:78-155 | the onMount callbacks run in order and are cleared: the new state is `RunMount` of the old one |
| Plugin.Controller.Teardown | packages/extras/src/lib/transitions/transitions-plugin.ts:157-159 | the onDestroy callbacks run and are cleared: the new state is `RunDestroy` of the old one |
| Plugin.Controller.RunDeferred | packages/extras/src/lib/transitions/transitions-plugin.ts:81-92 | the new state is `Lifecycle.RunDeferred` of the old one (also lines 128-132) |
| Plugin.Controller.Flush | packages/extras/src/lib/transitions/transitions-plugin.ts:81-105 | the queued render callbacks run first in first out and the queue is emptied: the new state is `Lifecycle.Flush` of the old one (also line 128) |
| Plugin.Controller.Adapter | packages/extras/src/lib/transitions/transitions-plugin.ts:61-76 | the descriptor is the transition function's answer for the ref current at invocation, with the bridging tick in place of its own tick |
| Plugin.Controller.CallTick | packages/extras/src/lib/transitions/transitions-plugin.ts:70-73 | the log grows by the tick's effects (for the bridging tick one invalidation, then the caller's tick if it supplied one); nothing else changes |
| LifecycleProofs.TickKeeps | packages/extras/src/lib/transitions/transitions-plugin.ts:70-73 | a tick call adds only neutral log entries and no construction, so it keeps the placeholder invariant and the single-bidirectional-instance invariant |

## Left out

- Svelte internals (`create_bidirectional_transition`, `create_in_transition`,
  `create_out_transition`, `add_render_callback`, `onMount`, `onDestroy`, `element`,
  `get_current_component`) and `injectPlugin` / `useThrelte` are not modelled as code. They
  appear only as the events the host delivers and as the log entries the primitive's
  methods produce.
- The animation itself (timing, easing, CSS, the primitive's own scheduling) is not
  modelled. Descriptor fields other than `tick` are opaque values passed through unchanged.
- The placeholder `div` is only a created/removed pair of log entries. No DOM is modelled.
- JavaScript truthiness: `NaN` is not among the modelled argument values.
- Render callbacks run only at an explicit flush event. Svelte's scheduling of that flush
  is not modelled.
- A change of props after setup is recorded but does not make the plugin choose a new mode,
  as the code does (the mode is decided once, at setup). The guards read the props at the
  moment they run.
- Behaviour of the code that the model keeps as written:
  - the adapter reads `currentRef` whenever it is invoked (line 65); when the primitive
    invokes it is not modelled;
  - every outro in `out` mode constructs a new out instance, and the previous one is left
    as it was;
  - no instance handle is cleared after `end()`.
- Return values are not modelled. A wrapper installed by `appendToFragmentFunction` has a
  block body without `return`, so it returns `undefined` whatever the original function
  returns; the model records only which calls happen and in what order.
- The hooked components and their fragments other than `intro`, `outro` and `destroy`
  appear only as host functions that are called through.
- Plugin.Controller.OnRefChange: requires a setup with some transition prop, since only
  then does the source return an `onRefChange` handler. `Lifecycle.Step` accepts
  ref changes in every mode; with no prop none can arrive.

