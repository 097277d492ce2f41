/** `AxialComponent`: the binding list a component captures while it renders, the
    state it commits when the render ends, and its update decision. */
module Components {
  import opened JsValues
  import opened Axial
  import opened BindingCapture
  import opened Snapshots
  import opened UpdateDecision
  import opened RenderStacks

  /** The abstract view of a binding list. */
  function RefsOf(bs: seq<Binding>): (refs: seq<Ref>)
  {
    seq(|bs|, i requires 0 <= i < |bs| => Ref(bs[i].instance, bs[i].key, bs[i].path))
  }

  /** The instances a binding list reads through. */
  function InstancesOf(bs: seq<Binding>): (instances: set<TrackedInstance>)
  {
    set b | b in bs :: b.instance
  }

  /** `path -> get()` for each binding, in list order. */
  function EntriesOf(bs: seq<Binding>): (entries: seq<(Path, Value)>)
    reads InstancesOf(bs)
  {
    seq(|bs|, i requires 0 <= i < |bs| reads InstancesOf(bs) => (bs[i].path, bs[i].Get()))
  }

  /** `EntriesOf` is determined by each binding's path and current value. */
  lemma EntriesPointwise(bs: seq<Binding>, entries: seq<(Path, Value)>)
    requires |entries| == |bs|
    requires forall i :: 0 <= i < |bs| ==> entries[i] == (bs[i].path, bs[i].Get())
    ensures EntriesOf(bs) == entries
  {
  }

  /** No binding after `bs[i]` has the same path, so nothing overwrites its entry. */
  predicate NotShadowed(bs: seq<Binding>, i: int)
    requires 0 <= i < |bs|
  {
    forall j :: i < j < |bs| ==> bs[j].path != bs[i].path
  }

  /** The committed object holds the path of every binding, and, for a binding
      no later binding shares its path with, that binding's current value. */
  lemma CommittedState(bs: seq<Binding>, st: map<Path, Value>)
    requires st == Snapshot(EntriesOf(bs))
    ensures st.Keys == set i | 0 <= i < |bs| :: bs[i].path
    ensures forall i :: 0 <= i < |bs| && NotShadowed(bs, i) ==> st[bs[i].path] == bs[i].Get()
  {
    var entries := EntriesOf(bs);
    SnapshotKeys(entries);
    var fromEntries := set i | 0 <= i < |entries| :: entries[i].0;
    var fromBindings := set i | 0 <= i < |bs| :: bs[i].path;
    forall p | p in fromEntries ensures p in fromBindings {
      var i :| 0 <= i < |entries| && entries[i].0 == p;
      assert bs[i].path == p;
    }
    forall p | p in fromBindings ensures p in fromEntries {
      var i :| 0 <= i < |bs| && bs[i].path == p;
      assert entries[i].0 == p;
    }
    forall i | 0 <= i < |bs| && NotShadowed(bs, i)
      ensures st[bs[i].path] == bs[i].Get()
    {
      assert LatestForPath(entries, i);
      SnapshotLatestWins(entries, i);
    }
  }

  class AxialComponent {
    /** `_bindings`: the bindings captured since the last `enterRender`. */
    var bindings: seq<Binding>
    /** `this.state`: the snapshot committed by the last `exitRender`. */
    var state: map<Path, Value>

    /** At most one binding per (instance, key), none of them disposed. */
    ghost predicate Valid()
      reads this, bindings
    {
      && NoDuplicatePairs(RefsOf(bindings))
      && forall i :: 0 <= i < |bindings| ==> !bindings[i].disposed
    }

    /** Starts with no bindings; the host has not committed a state yet, which
        the update decision treats like an empty object. */
    constructor ()
      ensures Valid() && bindings == [] && state == map[]
    {
      bindings := [];
      state := map[];
    }

    /** `_bindings.find(...)`: the first binding for (instance, key), or -1. */
    method FindBinding(instance: TrackedInstance, key: Key) returns (i: int)
      ensures -1 <= i < |bindings|
      ensures i == -1 <==> !HasPair(RefsOf(bindings), instance, key)
      ensures 0 <= i ==> bindings[i].instance == instance && bindings[i].key == key
      ensures 0 <= i ==> forall j :: 0 <= j < i ==> bindings[j].instance != instance || bindings[j].key != key
    {
      i := 0;
      while i < |bindings|
        invariant 0 <= i <= |bindings|
        invariant forall j :: 0 <= j < i ==> bindings[j].instance != instance || bindings[j].key != key
      {
        if bindings[i].instance == instance && bindings[i].key == key {
          assert RefsOf(bindings)[i].instance == instance && RefsOf(bindings)[i].key == key;
          return;
        }
        i := i + 1;
      }
      i := -1;
    }

    /** The global listener: a `get` event for a pair not yet bound appends one
        new, unbound binding; any other event leaves the list as it is. */
    method CaptureBindingDuringRender(e: AccessEvent)
      requires Valid()
      modifies this
      ensures Valid()
      ensures RefsOf(bindings) == Capture(RefsOf(old(bindings)), e)
      ensures old(bindings) <= bindings
      ensures forall i :: |old(bindings)| <= i < |bindings| ==> fresh(bindings[i]) && !bindings[i].bound
      ensures state == old(state)
    {
      if e.kind == "get" {
        var i := FindBinding(e.instance, e.property.key);
        if i >= 0 {
          return;
        }
        var b := new Binding(e.instance, e.property.key, e.property.path);
        bindings := bindings + [b];
        assert RefsOf(bindings) == RefsOf(old(bindings)) + [RefOf(e)];
      }
    }

    /** Disposes every binding of the previous render, empties the list and
        pushes this component onto the rendering stack. */
    method EnterRender(stack: RenderStack<AxialComponent>)
      requires Valid()
      modifies this, stack, bindings
      ensures Valid()
      ensures bindings == []
      ensures forall b :: b in old(bindings) ==> b.disposed && !b.bound
      ensures state == old(state)
      ensures stack.items == Pushed(old(stack.items), this)
    {
      var l := |bindings|;
      for i := 0 to l
        modifies bindings
        invariant forall j :: 0 <= j < i ==> bindings[j].disposed && !bindings[j].bound
      {
        bindings[i].Dispose();
      }
      bindings := [];
      stack.Push(this);
    }

    /** The loop of `exitRender`: reads `path -> get()` for every binding into a
        fresh object and binds each binding. */
    method CommitBindings() returns (st: map<Path, Value>)
      modifies bindings
      ensures forall i :: 0 <= i < |bindings| ==> bindings[i].bound
      ensures forall i :: 0 <= i < |bindings| ==> bindings[i].disposed == old(bindings[i].disposed)
      ensures st == Snapshot(EntriesOf(bindings))
    {
      ghost var entries := EntriesOf(bindings);
      st := map[];
      var l := |bindings|;
      for i := 0 to l
        invariant st == Snapshot(entries[..i])
        invariant forall j :: 0 <= j < i ==> bindings[j].bound
        invariant forall j :: 0 <= j < l ==> bindings[j].disposed == old(bindings[j].disposed)
      {
        var binding := bindings[i];
        assert entries[..i + 1][..i] == entries[..i];
        assert entries[i] == (binding.path, binding.Get());
        st := st[binding.path := binding.Get()];
        binding.Bind();
      }
      assert entries[..l] == entries;
      assert EntriesOf(bindings) == entries;
    }

    /** Commits `path -> get()` for every binding as the new state, binds each
        binding and pops the rendering stack. */
    method ExitRender(stack: RenderStack<AxialComponent>)
      requires Valid()
      modifies this, stack, bindings
      ensures Valid()
      ensures bindings == old(bindings)
      ensures forall i :: 0 <= i < |bindings| ==> bindings[i].bound
      ensures state == Snapshot(EntriesOf(bindings))
      ensures state.Keys == set i | 0 <= i < |bindings| :: bindings[i].path
      ensures forall i :: 0 <= i < |bindings| && NotShadowed(bindings, i) ==> state[bindings[i].path] == bindings[i].Get()
      ensures stack.items == Popped(old(stack.items))
    {
      var st := CommitBindings();
      ghost var entries := EntriesOf(bindings);
      state := st;
      stack.Pop();
      EntriesPointwise(bindings, entries);
      CommittedState(bindings, state);
    }

    /** `shouldComponentUpdate`: scans the committed state's own keys and stops at
        the first whose value is not `===` to the candidate's. */
    method ShouldComponentUpdate(nextState: map<Path, Value>) returns (r: bool)
      ensures r == Differs(state, nextState)
    {
      var isEqual := true;
      var keys := state.Keys;
      while keys != {}
        invariant keys <= state.Keys
        invariant isEqual ==> forall p :: p in state && p !in keys ==> StrictEquals(state[p], Lookup(nextState, p))
        invariant !isEqual ==> Differs(state, nextState)
        decreases keys
      {
        var path :| path in keys;
        if !StrictEquals(state[path], Lookup(nextState, path)) {
          isEqual := false;
          break;
        }
        keys := keys - {path};
      }
      r := !isEqual;
    }

    /** The events a render's reads and writes deliver to the capture listener,
        in order. */
    method CaptureEvents(events: seq<AccessEvent>)
      requires Valid()
      modifies this
      ensures Valid()
      ensures RefsOf(bindings) == CaptureAll(RefsOf(old(bindings)), events)
      ensures old(bindings) <= bindings
      ensures forall i :: |old(bindings)| <= i < |bindings| ==> fresh(bindings[i]) && !bindings[i].bound
      ensures state == old(state)
    {
      var k := 0;
      while k < |events|
        invariant 0 <= k <= |events|
        invariant Valid()
        invariant CaptureAll(RefsOf(bindings), events[k..]) == CaptureAll(RefsOf(old(bindings)), events)
        invariant old(bindings) <= bindings
        invariant forall i :: |old(bindings)| <= i < |bindings| ==> fresh(bindings[i]) && !bindings[i].bound
        invariant state == old(state)
      {
        assert events[k..][1..] == events[k + 1..];
        CaptureBindingDuringRender(events[k]);
        k := k + 1;
      }
    }

    /** One render that returns (`_render`): enter, the render's events, exit. */
    method RenderSession(stack: RenderStack<AxialComponent>, events: seq<AccessEvent>)
      requires Valid()
      modifies this, stack, bindings
      ensures Valid()
      ensures forall b :: b in old(bindings) ==> b.disposed && !b.bound
      ensures RefsOf(bindings) == CaptureAll([], events)
      ensures forall i :: 0 <= i < |bindings| ==> fresh(bindings[i]) && bindings[i].bound
      ensures state == Snapshot(EntriesOf(bindings))
      ensures state.Keys == set i | 0 <= i < |bindings| :: bindings[i].path
      ensures forall i :: 0 <= i < |bindings| && NotShadowed(bindings, i) ==> state[bindings[i].path] == bindings[i].Get()
      ensures stack.items == old(stack.items)
    {
      EnterRender(stack);
      CaptureEvents(events);
      ExitRender(stack);
      assert Pushed(old(stack.items), this)[..|old(stack.items)|] == old(stack.items);
    }

    /** A render whose user render throws after delivering `events`: `_render`
        has no `finally`, so `exitRender` never runs. The component stays on the
        stack, the bindings captured so far stay unbound and the state is not
        committed. */
    method AbortedRenderSession(stack: RenderStack<AxialComponent>, events: seq<AccessEvent>)
      requires Valid()
      modifies this, stack, bindings
      ensures Valid()
      ensures forall b :: b in old(bindings) ==> b.disposed && !b.bound
      ensures RefsOf(bindings) == CaptureAll([], events)
      ensures forall i :: 0 <= i < |bindings| ==> fresh(bindings[i]) && !bindings[i].bound
      ensures state == old(state)
      ensures stack.items == Pushed(old(stack.items), this)
    {
      EnterRender(stack);
      CaptureEvents(events);
    }
  }
}
