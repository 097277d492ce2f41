/** The two decisions the component hands its host: whether a write to a bound
    property asks for a state update, and whether a candidate state differs from
    the committed one. */
module UpdateDecision {
  import opened JsValues
  import opened Axial

  /** Some own key of `state` maps to a value that is not `===` to what
      `next[key]` reads (a key `next` lacks reads as `undefined`). Keys that only
      `next` has play no part. */
  predicate Differs(state: map<Path, Value>, next: map<Path, Value>)
  {
    exists p :: p in state && !StrictEquals(state[p], Lookup(next, p))
  }

  /** No committed value is `NaN`. */
  predicate NoNaN(state: map<Path, Value>)
  {
    forall p :: p in state ==> !state[p].NaN?
  }

  /** The change handler: the partial state it passes to `setState`, or `None`
      when it does not call it. Only `set` events whose `value` is not `===` to
      their `oldValue` produce an update, and that update has the property's
      path as its one key. */
  function OnInstanceChange(e: AccessEvent): (u: Option<map<Path, Value>>)
    ensures u.Some? <==> e.kind == "set" && !StrictEquals(e.value, e.oldValue)
    ensures u.Some? ==> u.value.Keys == {e.property.path} && u.value[e.property.path] == e.value
  {
    if e.kind == "set" && !StrictEquals(e.value, e.oldValue) then Some(map[e.property.path := e.value])
    else None
  }

  /** The host's shallow merge of a partial state into the current one. */
  function MergeState(state: map<Path, Value>, partial: map<Path, Value>): (merged: map<Path, Value>)
  {
    state + partial
  }

  /** A state compared with itself asks for no update, provided no value is
      `NaN`; a state holding `NaN` asks for an update against itself. */
  lemma SameStateDecision(state: map<Path, Value>)
    ensures Differs(state, state) <==> !NoNaN(state)
  {
  }

  /** A committed `NaN` asks for an update against any candidate, since it is
      not `===` to anything. */
  lemma NaNAlwaysDiffers(state: map<Path, Value>, next: map<Path, Value>)
    requires !NoNaN(state)
    ensures Differs(state, next)
  {
  }

  /** Adding keys the committed state does not have never changes the decision. */
  lemma ExtraKeysIgnored(state: map<Path, Value>, next: map<Path, Value>, extra: map<Path, Value>)
    requires extra.Keys !! state.Keys
    ensures Differs(state, next + extra) == Differs(state, next)
  {
  }

  /** Changing the value of one committed path to one that is not `===` to it
      asks for an update. */
  lemma ChangedPathDiffers(state: map<Path, Value>, p: Path, v: Value)
    requires p in state && !StrictEquals(state[p], v)
    ensures Differs(state, state[p := v])
  {
  }

  /** Merging the change handler's update into a `NaN`-free committed state asks
      for a re-render exactly when the written path is committed and its
      committed value is not `===` to the written one. */
  lemma HandlerUpdateDecision(state: map<Path, Value>, e: AccessEvent)
    requires NoNaN(state) && OnInstanceChange(e).Some?
    ensures Differs(state, MergeState(state, OnInstanceChange(e).value))
        <==> e.property.path in state && !StrictEquals(state[e.property.path], e.value)
  {
  }

  /** A write whose old value is the committed one and whose new value is
      different makes the merged state differ from the committed one. */
  lemma CommittedWriteDiffers(state: map<Path, Value>, e: AccessEvent)
    requires e.kind == "set" && e.property.path in state
    requires StrictEquals(state[e.property.path], e.oldValue)
    requires !StrictEquals(e.value, e.oldValue)
    ensures OnInstanceChange(e).Some?
    ensures Differs(state, MergeState(state, OnInstanceChange(e).value))
  {
  }
}
