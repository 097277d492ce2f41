/** The capture filter on the component's binding list, stated on the list's
    abstract view: the (instance, key, path) of each binding, in order. */
module BindingCapture {
  import opened Axial

  /** What a binding in the list stands for. */
  datatype Ref = Ref(instance: TrackedInstance, key: Key, path: Path)

  /** The binding an event would create. */
  function RefOf(e: AccessEvent): (r: Ref)
  {
    Ref(e.instance, e.property.key, e.property.path)
  }

  /** Some entry of `refs` is for this (instance, key) pair. */
  predicate HasPair(refs: seq<Ref>, instance: TrackedInstance, key: Key)
  {
    exists i :: 0 <= i < |refs| && refs[i].instance == instance && refs[i].key == key
  }

  /** No two entries are for the same (instance, key) pair. */
  predicate NoDuplicatePairs(refs: seq<Ref>)
  {
    forall i, j :: 0 <= i < j < |refs| ==> refs[i].instance != refs[j].instance || refs[i].key != refs[j].key
  }

  /** A `get` event for a pair the list does not hold yet. */
  predicate IsNovelGet(refs: seq<Ref>, e: AccessEvent)
  {
    e.kind == "get" && !HasPair(refs, e.instance, e.property.key)
  }

  /** The list after one event reaches the capture listener. */
  function Capture(refs: seq<Ref>, e: AccessEvent): (r: seq<Ref>)
    ensures refs <= r
    ensures |r| == if IsNovelGet(refs, e) then |refs| + 1 else |refs|
    ensures IsNovelGet(refs, e) ==> r[|refs|] == RefOf(e)
    ensures e.kind == "get" ==> HasPair(r, e.instance, e.property.key)
    ensures NoDuplicatePairs(refs) ==> NoDuplicatePairs(r)
  {
    if IsNovelGet(refs, e) then refs + [RefOf(e)] else refs
  }

  /** The list after a sequence of events, in the order they arrive. */
  function CaptureAll(refs: seq<Ref>, events: seq<AccessEvent>): (r: seq<Ref>)
    decreases |events|
  {
    if events == [] then refs else CaptureAll(Capture(refs, events[0]), events[1..])
  }

  /** Some `get` event of the sequence reads this (instance, key) pair. */
  predicate ReadsPair(events: seq<AccessEvent>, instance: TrackedInstance, key: Key)
  {
    exists i :: 0 <= i < |events| && events[i].kind == "get" && events[i].instance == instance && events[i].property.key == key
  }

  /** Delivering the same event twice captures no more than delivering it once. */
  lemma CaptureIdempotent(refs: seq<Ref>, e: AccessEvent)
    ensures Capture(Capture(refs, e), e) == Capture(refs, e)
  {
  }

  /** `k` copies of one event. */
  function Copies(e: AccessEvent, k: nat): (es: seq<AccessEvent>)
  {
    seq(k, _ => e)
  }

  /** Each event of the sequence delivered `k` times in a row, as `k` registered
      copies of the same listener receive it. */
  function RepeatEach(events: seq<AccessEvent>, k: nat): (es: seq<AccessEvent>)
    decreases |events|
  {
    if events == [] then [] else Copies(events[0], k) + RepeatEach(events[1..], k)
  }

  /** Capturing two sequences one after the other. */
  lemma {:induction false} CaptureAllAppend(refs: seq<Ref>, a: seq<AccessEvent>, b: seq<AccessEvent>)
    ensures CaptureAll(refs, a + b) == CaptureAll(CaptureAll(refs, a), b)
    decreases |a|
  {
    if a != [] {
      assert (a + b)[0] == a[0] && (a + b)[1..] == a[1..] + b;
      CaptureAllAppend(Capture(refs, a[0]), a[1..], b);
    } else {
      assert a + b == b;
    }
  }

  /** One event delivered `k >= 1` times captures what it captures once. */
  lemma {:induction false} CaptureCopies(refs: seq<Ref>, e: AccessEvent, k: nat)
    requires k >= 1
    ensures CaptureAll(refs, Copies(e, k)) == Capture(refs, e)
    decreases k
  {
    if k == 1 {
      assert Copies(e, 1)[1..] == [];
    } else {
      assert Copies(e, k) == Copies(e, k - 1) + [e];
      CaptureAllAppend(refs, Copies(e, k - 1), [e]);
      CaptureCopies(refs, e, k - 1);
      assert [e][1..] == [];
      CaptureIdempotent(refs, e);
    }
  }

  /** A listener registered `k >= 1` times captures what one copy captures. */
  lemma {:induction false} CaptureRepeated(refs: seq<Ref>, events: seq<AccessEvent>, k: nat)
    requires k >= 1
    ensures CaptureAll(refs, RepeatEach(events, k)) == CaptureAll(refs, events)
    decreases |events|
  {
    if events != [] {
      CaptureAllAppend(refs, Copies(events[0], k), RepeatEach(events[1..], k));
      CaptureCopies(refs, events[0], k);
      CaptureRepeated(Capture(refs, events[0]), events[1..], k);
    }
  }

  /** Whatever the events, a list without duplicate pairs keeps none. */
  lemma {:induction false} CaptureAllNoDuplicates(refs: seq<Ref>, events: seq<AccessEvent>)
    requires NoDuplicatePairs(refs)
    ensures NoDuplicatePairs(CaptureAll(refs, events))
    decreases |events|
  {
    if events != [] {
      CaptureAllNoDuplicates(Capture(refs, events[0]), events[1..]);
    }
  }

  /** Entries already in the list are never changed or moved. */
  lemma {:induction false} CaptureAllExtends(refs: seq<Ref>, events: seq<AccessEvent>)
    ensures refs <= CaptureAll(refs, events)
    decreases |events|
  {
    if events != [] {
      CaptureAllExtends(Capture(refs, events[0]), events[1..]);
    }
  }

  /** The list holds a pair exactly when it held it before or some `get` event
      read it: non-`get` events capture nothing. */
  lemma {:induction false} CaptureAllPairs(refs: seq<Ref>, events: seq<AccessEvent>, instance: TrackedInstance, key: Key)
    ensures HasPair(CaptureAll(refs, events), instance, key) <==> HasPair(refs, instance, key) || ReadsPair(events, instance, key)
    decreases |events|
  {
    if events != [] {
      var e := events[0];
      var r := Capture(refs, e);
      CaptureAllPairs(r, events[1..], instance, key);
      assert HasPair(r, instance, key) <==> HasPair(refs, instance, key) || (e.kind == "get" && e.instance == instance && e.property.key == key) by {
        if HasPair(r, instance, key) && !HasPair(refs, instance, key) {
          var i :| 0 <= i < |r| && r[i].instance == instance && r[i].key == key;
          assert i == |refs|;
        }
        if HasPair(refs, instance, key) {
          var i :| 0 <= i < |refs| && refs[i].instance == instance && refs[i].key == key;
          assert r[i] == refs[i];
        }
      }
      if ReadsPair(events, instance, key) && !ReadsPair(events[1..], instance, key) {
        var i :| 0 <= i < |events| && events[i].kind == "get" && events[i].instance == instance && events[i].property.key == key;
        if i > 0 {
          assert events[1..][i - 1] == events[i];
        }
      }
      if ReadsPair(events[1..], instance, key) {
        var i :| 0 <= i < |events[1..]| && events[1..][i].kind == "get" && events[1..][i].instance == instance && events[1..][i].property.key == key;
        assert events[i + 1] == events[1..][i];
      }
    }
  }

  /** Every entry the events add was read by one of them: its (instance, key,
      path) are those of a `get` event of the sequence. */
  lemma {:induction false} CaptureAllOrigins(refs: seq<Ref>, events: seq<AccessEvent>, k: int)
    requires |refs| <= k < |CaptureAll(refs, events)|
    ensures exists i :: 0 <= i < |events| && events[i].kind == "get" && RefOf(events[i]) == CaptureAll(refs, events)[k]
    decreases |events|
  {
    var e := events[0];
    var r := Capture(refs, e);
    CaptureAllExtends(r, events[1..]);
    if k < |r| {
      assert k == |refs| && CaptureAll(refs, events)[k] == r[k];
      assert events[0].kind == "get" && RefOf(events[0]) == CaptureAll(refs, events)[k];
    } else {
      CaptureAllOrigins(r, events[1..], k);
      var i :| 0 <= i < |events[1..]| && events[1..][i].kind == "get" && RefOf(events[1..][i]) == CaptureAll(r, events[1..])[k];
      assert events[i + 1] == events[1..][i];
    }
  }
}
