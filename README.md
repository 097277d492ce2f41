# react-axial: the dependency capture of `AxialComponent`

This project models how `AxialComponent` (react-axial, `lib/component.js`) finds
out which properties of Axial instances a render read, and how it decides to
re-render. The component takes part in four steps.

- **Capture.** While a render runs, every property read on a tracked instance
  reaches the component's global listener as a `get` event. The listener keeps
  one `Axial.Binding` per (instance, key) in its `_bindings` list.
- **Render session.** `enterRender` disposes and clears the previous render's
  bindings and pushes the component onto the module-level
  `_currentRenderingComponent` stack. `exitRender` commits `path -> binding.get()`
  for every binding as `this.state`, binds each binding and pops the stack.
- **Change handler.** A bound property that is written with a new value produces
  a one-key state update. The host's `setState` is modelled by its argument.
- **Update decision.** `shouldComponentUpdate` compares the committed state with
  the candidate one over the committed state's own keys, using `===`.

Modules:

- `JsValues` (`js_values.dfy`): JavaScript values as `===` sees them. `NaN` is the
  one value that is not `===` itself. A missing key reads as `undefined`.
- `Axial` (`axial.dfy`): the collaborators, kept abstract. A tracked instance is a
  class with a map of current property values. An access event has an instance,
  a property record `{key, path}`, a method name and the values it carries. A
  binding is a class with `dispose`, `bind` and `get`.
- `BindingCapture` (`binding_capture.dfy`): the capture filter, stated on the
  list's abstract view. This view is the sequence of (instance, key, path)
  triples. The module also states what any sequence of events does to the list.
- `Snapshots` (`snapshots.dfy`): the object that `exitRender` builds, as a fold
  of `path -> value` assignments.
- `UpdateDecision` (`update_decision.dfy`): `shouldComponentUpdate`'s predicate,
  the change handler and the host's shallow merge of a partial state.
- `RenderStacks` (`render_stacks.dfy`): the rendering stack as a class, with
  push and pop. It also has a tree of nested renders and the proof that they
  keep the stack balanced.
- `Components` (`components.dfy`): the class `AxialComponent` with its
  `bindings` and `state` fields and its methods. Its invariant `Valid()` says
  that there is at most one binding per (instance, key) and that no binding in
  the list is disposed.

Dafny has no module-level mutable variables. The shared
`_currentRenderingComponent` array is therefore a `RenderStack` object, and
`enterRender` and `exitRender` take it as a parameter. The global listener
registry (`Axial.bind`, `Axial.unbind`) is not modelled. Its deliveries are
modelled as calls of `CaptureBindingDuringRender`, one per event.
`RenderSession` feeds a render's events to it in order.

Comparisons follow the code. The change handler compares the event's `value`
with its `oldValue`, not `newValue` with `oldValue`. The update decision reads
`nextState[path]` as `undefined` for a key the candidate lacks. Because `NaN` is
not `===` to itself, a committed state that holds `NaN` asks for an update even
against itself (`SameStateDecision`).

Each `enterRender` registers a fresh `.bind(this)` function
(lib/component.js:127), and `exitRender` hands `Axial.unbind` another fresh one
(lib/component.js:157). If `Axial.unbind` matches listeners by identity and
`Axial.bind` keeps duplicates, no copy is ever removed. After n renders n copies
are then registered, and during the next render each event reaches the component
n + 1 times in a row. That is why `CaptureBindingDuringRender` does not require
the component to be rendering. `CaptureIdempotent` shows
that delivering one event again changes nothing. `CaptureRepeated` shows that a
whole sequence with each event repeated k >= 1 times captures the same list as
the sequence itself.

## Model

| member | source | states |
|---|---|---|
| `Axial.Binding.constructor` | lib/component.js:91 | A new binding is for the event's instance, key and path, and starts unbound and not disposed. |
| `Axial.Binding.Dispose` | lib/component.js:122 | After disposal the binding is disposed and not bound, whatever its state was before, so disposing twice is harmless. |
| `Axial.Binding.Bind` | lib/component.js:147 | Binding marks the binding bound and leaves its disposal state alone. |
| `Axial.Binding.Get` | lib/component.js:146 | A binding reads its instance's live value for its key, and `undefined` for a key the instance does not hold. |
| `BindingCapture.Capture` | lib/component.js:82-93 | One event keeps every earlier entry in place. A `get` for a pair not yet held appends exactly one entry, for that event's instance, key and path. A non-`get` event, or a `get` for a held pair, leaves the list unchanged. After a `get`, the pair is held. A list without duplicate pairs keeps none. |
| `BindingCapture.CaptureIdempotent` | lib/component.js:86-89 | Delivering the same event twice gives the same list as delivering it once. |
| `BindingCapture.CaptureAllAppend` | lib/component.js:79-94 | Capturing two event sequences one after the other gives the same list as capturing their concatenation. |
| `BindingCapture.CaptureCopies` | lib/component.js:86-89 | One event delivered k >= 1 times in a row captures what it captures once. |
| `BindingCapture.CaptureRepeated` | lib/component.js:127 | A sequence with every event delivered k >= 1 times in a row, as k registered copies of the listener receive it, captures the same list as the sequence itself. |
| `BindingCapture.CaptureAllNoDuplicates` | lib/component.js:86-92 | After any sequence of events, a list that started without duplicate (instance, key) pairs still has none. |
| `BindingCapture.CaptureAllExtends` | lib/component.js:92 | A sequence of events only appends: the starting list is a prefix of the result. |
| `BindingCapture.CaptureAllPairs` | lib/component.js:82-92 | After a sequence of events, the list holds a pair exactly when it held it before or some `get` event of the sequence read it. Events of other methods add nothing. |
| `BindingCapture.CaptureAllOrigins` | lib/component.js:82-92 | Every entry a sequence of events adds has the instance, key and path of one of its `get` events. |
| `Snapshots.SnapshotKeys` | lib/component.js:140-146 | The committed object's keys are exactly the paths of the entries written into it. |
| `Snapshots.SnapshotLatestWins` | lib/component.js:143-146 | An entry whose path no later entry repeats is in the committed object with that entry's value. |
| `Snapshots.SnapshotOfDistinctPaths` | lib/component.js:143-146 | When all paths are distinct, every entry's path maps to that entry's value. |
| `UpdateDecision.OnInstanceChange` | lib/component.js:100-113 | An update is produced exactly for a `set` event whose `value` is not `===` to its `oldValue`. That update has the property path as its only key, mapped to the event's `value`. |
| `UpdateDecision.HandlerUpdateDecision` | lib/component.js:100-113 | For a committed state without `NaN`, merging the handler's update asks for a re-render exactly when the written path is committed with a value not `===` to the written one. |
| `UpdateDecision.CommittedWriteDiffers` | lib/component.js:102-111 | A `set` whose `oldValue` is `===` to the committed value and whose `value` is not `===` to its `oldValue` produces an update, and the merged state differs from the committed one. |
| `UpdateDecision.SameStateDecision` | lib/component.js:25-41 | Comparing a state with itself asks for an update exactly when that state holds `NaN`. |
| `UpdateDecision.NaNAlwaysDiffers` | lib/component.js:29 | A committed state that holds `NaN` asks for an update against any candidate state. |
| `UpdateDecision.ExtraKeysIgnored` | lib/component.js:27-29 | Keys that only the candidate state has do not change the decision. |
| `UpdateDecision.ChangedPathDiffers` | lib/component.js:29-32 | Changing one committed path to a value that is not `===` to its committed value asks for an update. |
| `RenderStacks.SessionBalanced` | lib/component.js:130-154 | At a render's exit its own component is on top of the stack, with nested renders of any depth in between. Enter followed by exit restores the stack it started from. |
| `RenderStacks.NestedBalanced` | lib/component.js:130-154 | A sequence of balanced renders leaves the stack as it found it. |
| `RenderStacks.RenderStack.constructor` | lib/component.js:4 | The stack starts empty. |
| `RenderStacks.RenderStack.Push` | lib/component.js:130 | Push appends exactly the given component. |
| `RenderStacks.RenderStack.Pop` | lib/component.js:154 | Pop removes exactly the last entry, and an empty stack stays empty. |
| `Components.CommittedState` | lib/component.js:140-151 | The object built from a binding list has exactly the bindings' paths as keys. A binding whose path no later binding repeats maps to its own current `get()` value. |
| `Components.AxialComponent.constructor` | lib/component.js:18 | A new component has no bindings, satisfies its invariant and has an empty state. |
| `Components.AxialComponent.FindBinding` | lib/component.js:87 | Returns -1 exactly when no binding has the (instance, key) pair. Otherwise it returns the index of the first binding that has it. |
| `Components.AxialComponent.CaptureBindingDuringRender` | lib/component.js:79-94 | The list changes exactly as `Capture` says. The old bindings stay in place. Any added binding is new and unbound. The state is untouched and the invariant is kept. |
| `Components.AxialComponent.EnterRender` | lib/component.js:118-131 | Every previous binding is disposed and unbound. The list is empty. Exactly this component is pushed onto the stack. The state is untouched. |
| `Components.AxialComponent.CommitBindings` | lib/component.js:140-148 | Every binding ends up bound, with its disposal state unchanged. The object returned is the snapshot of `path -> get()` over the list, in order. |
| `Components.AxialComponent.ExitRender` | lib/component.js:136-158 | The list stays as it was, and every binding in it is bound. The new state is the snapshot of the list. Its keys are exactly the bindings' paths, and each path that no later binding repeats maps to that binding's `get()` at commit time. The stack loses exactly its last entry. |
| `Components.AxialComponent.ShouldComponentUpdate` | lib/component.js:24-42 | Returns true exactly when some own key of the committed state maps to a value that is not `===` to the candidate's value at that key. |
| `Components.AxialComponent.CaptureEvents` | lib/component.js:79-94 | After a sequence of events the list's view is `CaptureAll` of the old view over those events, in order. The old bindings stay in place, every added binding is new and unbound, and the state is untouched. |
| `Components.AxialComponent.RenderSession` | lib/component.js:52-65 | After one render that returns, the previous bindings are disposed and unbound. The list is the capture of the render's events starting from empty. The new bindings are all bound. The state is their snapshot, keyed by exactly their paths, and each path no later binding repeats maps to its binding's `get()`. The stack is as it was. |
| `Components.AxialComponent.AbortedRenderSession` | lib/component.js:53-56 | A render whose user render throws after its events skips `exitRender`. The previous bindings are disposed and unbound, and the list is the capture of the events starting from empty. Those bindings stay unbound and the state is not committed. The component stays on top of the stack, one entry above where it started. |

## Left out

- Components.AxialComponent.RenderSession: models only a render that returns.
  `_render` has no `try/finally` (lib/component.js:53-65). When the user render
  throws, `exitRender` is skipped and the exception propagates to the host.
  `AbortedRenderSession` states what such a render leaves behind: this component
  still on the stack, unbound bindings and an uncommitted state. The capture
  listener registered at lib/component.js:127 also stays, but that registry is
  not modelled. The host's handling of the exception is not modelled either.

- Host lifecycle: the constructor's swap of `render` for `_render`
  (lib/component.js:20-21), the user render that `_render` calls and `setState`
  scheduling are host glue. `setState` is modelled only by the partial state it
  receives, and `MergeState` by the host's shallow merge.
- The debug wrapper with random colours (lib/component.js:58-62): nondeterministic,
  floating point and markup only.
- Logging: every `console.log`/`console.group` call and the `debugger` statement
  (lib/component.js:81) only print or pause.
- `_stringify` (lib/component.js:6-12): only used for log text and relies on
  `JSON.stringify`.
- The Axial library is not part of this model. This covers the internals of
  `Axial.Binding`, the property proxies and the writes through them, and the
  global `Axial.bind`/`Axial.unbind` registry (lib/component.js:127 and 157). A
  binding's change callback and its delivery are not modelled either. The path
  a binding reports is taken from the property record of the event that created
  it. Axial derives it from the instance and key.
- Axial.Binding.Get: `binding.get()` belongs to the Axial library and is assumed
  to return the live value of the property at call time. A key the instance does
  not hold is assumed to read as `undefined`. The value clauses of `ExitRender`,
  `CommittedState` and `RenderSession` rest on this assumption.
- No property about removing the listener is stated, because the code passes
  `Axial.unbind` a function that was never registered.
- Numbers are integers. Floating point is left out, except `NaN`, whose
  inequality with itself the update decision depends on.
- `nextState[path]` on a plain object can also find inherited members (such as
  `constructor`). The model reads every missing key as `undefined`. `for ... in`
  with `hasOwnProperty` is modelled as iterating the map's keys in an
  unspecified order. The result does not depend on that order.
- `state` before the first render is undefined, and `for ... in` over it does
  nothing. The model starts from an empty map, which the decision treats the same.
- `shouldComponentUpdate`'s `nextProps` argument is never read by the source, so
  the model leaves it out.
