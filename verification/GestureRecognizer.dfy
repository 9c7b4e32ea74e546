/** `GestureRecognizer` (src/gestures.cpp): the operations as the code carries them out, with
    its loops over the gesture lists, each proved to have the effect stated in Gestures.dfy. */
module GestureRecognition {
  import opened Lists
  import opened Gestures

  class GestureRecognizer {
    var swipes: seq<Gesture>
    var pinches: seq<Gesture>
    var activeSwipes: seq<Gesture>
    var activePinches: seq<Gesture>
    var connections: set<Gesture>
    var currentDelta: Point
    var currentScale: real
    var currentFingerCount: nat
    var currentAxis: Axis
    /** The signals emitted so far, in order. */
    var emitted: seq<Event>

    function Snapshot(): Recognizer
      reads this
    {
      Recognizer(swipes, pinches, activeSwipes, activePinches, connections,
                 currentDelta, currentScale, currentFingerCount, currentAxis, emitted)
    }

    constructor ()
      ensures Snapshot() == Fresh()
    {
      swipes, pinches, activeSwipes, activePinches, connections := [], [], [], [], {};
      currentDelta, currentScale, currentFingerCount, currentAxis, emitted := ORIGIN, 1.0, 0, NoAxis, [];
    }

    method RegisterSwipeGesture(g: Gesture)
      requires g.Swipe? && g !in swipes
      modifies this
      ensures Snapshot() == RegisterSwipe(old(Snapshot()), g)
    {
      connections := connections + {g};
      swipes := swipes + [g];
    }

    method UnregisterSwipeGesture(g: Gesture)
      requires g.Swipe?
      modifies this
      ensures Snapshot() == UnregisterSwipe(old(Snapshot()), g)
    {
      if g in connections {
        connections := connections - {g};
      }
      swipes := Without(swipes, g);
      RemoveOneShrinks(activeSwipes, g);
      var rest := RemoveOne(activeSwipes, g);
      if |rest| < |activeSwipes| {
        activeSwipes := rest;
        emitted := emitted + [Event(g, Cancelled)];
      }
    }

    method RegisterPinchGesture(g: Gesture)
      requires g.Pinch? && g !in pinches
      modifies this
      ensures Snapshot() == RegisterPinch(old(Snapshot()), g)
    {
      connections := connections + {g};
      pinches := pinches + [g];
    }

    method UnregisterPinchGesture(g: Gesture)
      requires g.Pinch?
      modifies this
      ensures Snapshot() == UnregisterPinch(old(Snapshot()), g)
    {
      if g in connections {
        connections := connections - {g};
      }
      pinches := Without(pinches, g);
      RemoveOneShrinks(activePinches, g);
      var rest := RemoveOne(activePinches, g);
      if |rest| < |activePinches| {
        activePinches := rest;
        emitted := emitted + [Event(g, Cancelled)];
      }
    }

    /** The gesture object is deleted. */
    method GestureDestroyed(g: Gesture)
      modifies this
      ensures Snapshot() == Destroy(old(Snapshot()), g)
    {
      if g in connections {
        if g.Swipe? {
          UnregisterSwipeGesture(g);
        } else {
          UnregisterPinchGesture(g);
        }
      }
    }

    /** The conditions under which the start loop passes a swipe on to the active list. */
    method AdmitsSwipe(g: Gesture, fingers: nat, start: Option<Point>) returns (admitted: bool)
      ensures admitted == Startable(g, fingers, start, currentAxis)
    {
      if !g.Swipe? {
        return false;
      }
      if g.minFingers.Some? && g.minFingers.value > fingers {
        return false;
      }
      if g.maxFingers.Some? && g.maxFingers.value < fingers {
        return false;
      }
      if start.Some? {
        if g.minX.Some? && g.minX.value as real > start.value.x {
          return false;
        }
        if g.maxX.Some? && (g.maxX.value as real) < start.value.x {
          return false;
        }
        if g.minY.Some? && g.minY.value as real > start.value.y {
          return false;
        }
        if g.maxY.Some? && (g.maxY.value as real) < start.value.y {
          return false;
        }
      }
      match g.direction {
        case Up | Down => admitted := currentAxis != Horizontal;
        case Left | Right => admitted := currentAxis != Vertical;
      }
    }

    method StartSwipeGesture(fingers: nat, start: Option<Point>) returns (count: nat)
      modifies this
      ensures Snapshot() == StartSwipe(old(Snapshot()), fingers, start)
      ensures count == if old(Snapshot().Busy()) then 0 else |activeSwipes|
    {
      currentFingerCount := fingers;
      if activeSwipes != [] || activePinches != [] {
        return 0;
      }
      count := 0;
      ghost var p := IsStartable(fingers, start, currentAxis);
      for i := 0 to |swipes|
        modifies this`activeSwipes, this`emitted
        invariant Activating(swipes, old(emitted), p, i, activeSwipes, emitted) && count == |activeSwipes|
      {
        var g := swipes[i];
        ActivateStep(swipes, old(emitted), p, i, activeSwipes, emitted);
        var admitted := AdmitsSwipe(g, fingers, start);
        if !admitted {
          continue;
        }
        activeSwipes := activeSwipes + [g];
        count := count + 1;
        emitted := emitted + [Event(g, Started)];
      }
      assert swipes[..|swipes|] == swipes;
    }

    /** One round: cancel and erase the active swipes that do not follow the direction. */
    method EliminateSwipes(d: SwipeDirection)
      modifies this
      ensures Snapshot() == SwipePass(old(Snapshot()), d)
    {
      if activeSwipes == [] {
        var _ := StartSwipeGesture(currentFingerCount, None);
      }
      EraseSwipes(d);
    }

    method EraseSwipes(d: SwipeDirection)
      modifies this`activeSwipes, this`emitted
      ensures activeSwipes == Filter(old(activeSwipes), FollowsHeading(d))
      ensures emitted == old(emitted) + Emit(Filter(old(activeSwipes), Not(FollowsHeading(d))), Cancelling())
    {
      ghost var gs, t, k := activeSwipes, emitted, 0;
      ghost var p := FollowsHeading(d);
      var i := 0;
      while i < |activeSwipes|
        modifies this`activeSwipes, this`emitted
        invariant Erasing(gs, t, p, k, i, activeSwipes, emitted)
        decreases |gs| - k
      {
        var g := activeSwipes[i];
        EraseStep(gs, t, p, k, i, activeSwipes, emitted);
        k := k + 1;
        // a gesture that was started from a touchscreen border is never cancelled
        if g.Swipe? && (g.direction == d || FourSided(g)) {
          i := i + 1;
        } else {
          emitted := emitted + [Event(g, Cancelled)];
          activeSwipes := Erase(activeSwipes, i);
        }
      }
      ErasingDone(gs, t, p, k, i, activeSwipes, emitted);
    }

    method EliminateSwipesTwice(d: SwipeDirection)
      modifies this
      ensures Snapshot() == SwipePass(SwipePass(old(Snapshot()), d), d)
    {
      ghost var before := Snapshot();
      for i := 0 to 2
        invariant Snapshot() == if i == 0 then before else if i == 1 then SwipePass(before, d)
            else SwipePass(SwipePass(before, d), d)
      {
        EliminateSwipes(d);
      }
    }

    /** The overall direction; the axis is locked once the movement is long enough. */
    method PickDirection() returns (d: SwipeDirection)
      modifies this`currentAxis
      ensures d == Heading(old(currentAxis), currentDelta)
      ensures currentAxis == LockAxis(old(currentAxis), currentDelta)
    {
      var swipeAxis;
      if currentAxis == NoAxis {
        if Abs(currentDelta.x) >= Abs(currentDelta.y) {
          swipeAxis := Horizontal;
        } else {
          swipeAxis := Vertical;
        }
        if Abs(currentDelta.x) >= 5.0 || Abs(currentDelta.y) >= 5.0 {
          currentAxis := swipeAxis;
        }
      } else {
        swipeAxis := currentAxis;
      }
      if swipeAxis == Vertical {
        d := if currentDelta.y < 0.0 then Up else Down;
      } else {
        d := if currentDelta.x < 0.0 then Left else Right;
      }
    }

    method UpdateSwipeGesture(delta: Point)
      modifies this
      ensures Snapshot() == UpdateSwipe(old(Snapshot()), delta)
    {
      currentDelta := Plus(currentDelta, delta);
      var d := PickDirection();
      EliminateSwipesTwice(d);
      ReportProgress();
    }

    method ReportProgress()
      modifies this
      ensures Snapshot() == old(Snapshot()).Emitting(activeSwipes, Reporting(currentDelta))
    {
      for i := 0 to |activeSwipes|
        modifies this`emitted
        invariant emitted == old(emitted) + Emit(activeSwipes[..i], Reporting(currentDelta))
      {
        var g := activeSwipes[i];
        assert activeSwipes[..i + 1] == activeSwipes[..i] + [g];
        EmitStep(activeSwipes[..i], g, Reporting(currentDelta));
        if g.Swipe? {
          emitted := emitted + [Event(g, Progress(DeltaToProgress(g, currentDelta)))];
          emitted := emitted + [Event(g, DeltaProgress(currentDelta))];
        }
      }
      assert activeSwipes[..|activeSwipes|] == activeSwipes;
    }

    method EmitCancelled(gs: seq<Gesture>)
      modifies this`emitted
      ensures emitted == old(emitted) + Emit(gs, Cancelling())
    {
      for i := 0 to |gs|
        invariant emitted == old(emitted) + Emit(gs[..i], Cancelling())
      {
        assert gs[..i + 1] == gs[..i] + [gs[i]];
        EmitOne(old(emitted), gs[..i], gs[i], Cancelling(), Cancelled);
        emitted := emitted + [Event(gs[i], Cancelled)];
      }
      assert gs[..|gs|] == gs;
    }

    method EmitAllCancelled()
      modifies this`emitted
      ensures emitted == old(emitted) + Emit(activeSwipes + activePinches, Cancelling())
    {
      EmitCancelled(activeSwipes);
      EmitCancelled(activePinches);
      EmitAppend(activeSwipes, activePinches, Cancelling());
    }

    method CancelActiveGestures()
      modifies this
      ensures Snapshot() == CancelActive(old(Snapshot()))
    {
      EmitAllCancelled();
      activeSwipes := [];
      activePinches := [];
      currentScale := 0.0;
      currentDelta := ORIGIN;
      currentAxis := NoAxis;
    }

    method CancelSwipeGesture()
      modifies this
      ensures Snapshot() == CancelSwipe(old(Snapshot()))
    {
      CancelActiveGestures();
      currentFingerCount := 0;
      currentDelta := ORIGIN;
      currentAxis := NoAxis;
    }

    method EndSwipeGesture()
      modifies this
      ensures Snapshot() == EndSwipe(old(Snapshot()))
    {
      var delta := currentDelta;
      ghost var f := Ending(currentDelta, currentScale);
      for i := 0 to |activeSwipes|
        modifies this`emitted
        invariant emitted == old(emitted) + Emit(activeSwipes[..i], f)
      {
        var g := activeSwipes[i];
        assert activeSwipes[..i + 1] == activeSwipes[..i] + [g];
        EmitOne(old(emitted), activeSwipes[..i], g, f,
                if Completed(g, delta, currentScale) then Triggered else Cancelled);
        if Completed(g, delta, currentScale) {
          emitted := emitted + [Event(g, Triggered)];
        } else {
          emitted := emitted + [Event(g, Cancelled)];
        }
      }
      assert activeSwipes[..|activeSwipes|] == activeSwipes;
      activeSwipes := [];
      currentFingerCount := 0;
      currentDelta := ORIGIN;
      currentAxis := NoAxis;
    }

    method StartPinchGesture(fingers: nat) returns (count: nat)
      modifies this
      ensures Snapshot() == StartPinch(old(Snapshot()), fingers)
      ensures count == if old(Snapshot().Busy()) then 0 else |activePinches|
    {
      currentFingerCount := fingers;
      count := 0;
      if activeSwipes != [] || activePinches != [] {
        return 0;
      }
      ghost var p := IsPinchable(fingers);
      for i := 0 to |pinches|
        modifies this`activePinches, this`emitted
        invariant Activating(pinches, old(emitted), p, i, activePinches, emitted) && count == |activePinches|
      {
        var g := pinches[i];
        ActivateStep(pinches, old(emitted), p, i, activePinches, emitted);
        if g.minFingers.Some? && g.minFingers.value > fingers {
          continue;
        }
        if g.maxFingers.Some? && g.maxFingers.value < fingers {
          continue;
        }
        activePinches := activePinches + [g];
        count := count + 1;
        emitted := emitted + [Event(g, Started)];
      }
      assert pinches[..|pinches|] == pinches;
    }

    /** One round: cancel and erase the active pinches of the other direction. */
    method EliminatePinches(d: PinchDirection)
      modifies this
      ensures Snapshot() == PinchPass(old(Snapshot()), d)
    {
      if activePinches == [] {
        var _ := StartPinchGesture(currentFingerCount);
      }
      ErasePinches(d);
    }

    method ErasePinches(d: PinchDirection)
      modifies this`activePinches, this`emitted
      ensures activePinches == Filter(old(activePinches), Pinches(d))
      ensures emitted == old(emitted) + Emit(Filter(old(activePinches), Not(Pinches(d))), Cancelling())
    {
      ghost var gs, t, k := activePinches, emitted, 0;
      ghost var p := Pinches(d);
      var i := 0;
      while i < |activePinches|
        modifies this`activePinches, this`emitted
        invariant Erasing(gs, t, p, k, i, activePinches, emitted)
        decreases |gs| - k
      {
        var g := activePinches[i];
        EraseStep(gs, t, p, k, i, activePinches, emitted);
        k := k + 1;
        if g.Pinch? && g.pinchDirection == d {
          i := i + 1;
        } else {
          emitted := emitted + [Event(g, Cancelled)];
          activePinches := Erase(activePinches, i);
        }
      }
      ErasingDone(gs, t, p, k, i, activePinches, emitted);
    }

    method UpdatePinchGesture(scale: real)
      modifies this
      ensures Snapshot() == UpdatePinch(old(Snapshot()), scale)
    {
      currentScale := scale;
      var d := if scale < 1.0 then Contracting else Expanding;
      ghost var before := Snapshot();
      for i := 0 to 2
        invariant Snapshot() == if i == 0 then before else if i == 1 then PinchPass(before, d)
            else PinchPass(PinchPass(before, d), d)
      {
        EliminatePinches(d);
      }
      ReportScale();
    }

    method ReportScale()
      modifies this
      ensures Snapshot() == old(Snapshot()).Emitting(activePinches, Scaling(currentScale))
    {
      for i := 0 to |activePinches|
        modifies this`emitted
        invariant emitted == old(emitted) + Emit(activePinches[..i], Scaling(currentScale))
      {
        var g := activePinches[i];
        assert activePinches[..i + 1] == activePinches[..i] + [g];
        EmitStep(activePinches[..i], g, Scaling(currentScale));
        if g.Pinch? {
          emitted := emitted + [Event(g, Progress(ScaleToProgress(g, currentScale)))];
        }
      }
      assert activePinches[..|activePinches|] == activePinches;
    }

    method CancelPinchGesture()
      modifies this
      ensures Snapshot() == CancelPinch(old(Snapshot()))
    {
      CancelActiveGestures();
      currentScale := 1.0;
      currentFingerCount := 0;
      currentAxis := NoAxis;
    }

    method EndPinchGesture()
      modifies this
      ensures Snapshot() == EndPinch(old(Snapshot()))
    {
      ghost var f := Ending(currentDelta, currentScale);
      for i := 0 to |activePinches|
        modifies this`emitted
        invariant emitted == old(emitted) + Emit(activePinches[..i], f)
      {
        var g := activePinches[i];
        assert activePinches[..i + 1] == activePinches[..i] + [g];
        EmitOne(old(emitted), activePinches[..i], g, f,
                if Completed(g, currentDelta, currentScale) then Triggered else Cancelled);
        if Completed(g, currentDelta, currentScale) {
          emitted := emitted + [Event(g, Triggered)];
        } else {
          emitted := emitted + [Event(g, Cancelled)];
        }
      }
      assert activePinches[..|activePinches|] == activePinches;
      activeSwipes := [];
      activePinches := [];
      currentScale := 1.0;
      currentFingerCount := 0;
      currentAxis := NoAxis;
    }
  }

  lemma PrefixStep(s: seq<Gesture>, i: nat, p: Gesture -> bool)
    requires i < |s|
    ensures Filter(s[..i + 1], p) == if p(s[i]) then Filter(s[..i], p) + [s[i]] else Filter(s[..i], p)
  {
    assert s[..i + 1][..i] == s[..i];
  }

  /** `erase`: the element at position `i` is taken out. */
  function Erase(s: seq<Gesture>, i: nat): seq<Gesture>
    requires i < |s|
  {
    s[..i] + s[i + 1..]
  }

  /** A starting loop has looked at `k` elements of `gs`: `s` is started and told in `e`. */
  ghost predicate Activating(gs: seq<Gesture>, t: seq<Event>, p: Gesture -> bool, k: nat,
                             s: seq<Gesture>, e: seq<Event>)
  {
    k <= |gs| && s == Filter(gs[..k], p) && e == t + Emit(s, Starting())
  }

  lemma ActivateStep(gs: seq<Gesture>, t: seq<Event>, p: Gesture -> bool, k: nat, s: seq<Gesture>, e: seq<Event>)
    requires Activating(gs, t, p, k, s, e) && k < |gs|
    ensures if p(gs[k]) then Activating(gs, t, p, k + 1, s + [gs[k]], e + [Event(gs[k], Started)])
            else Activating(gs, t, p, k + 1, s, e)
  {
    PrefixStep(gs, k, p);
    EmitOne(t, s, gs[k], Starting(), Started);
  }

  lemma {:induction false} EmitAppend(a: seq<Gesture>, b: seq<Gesture>, f: Gesture -> seq<Signal>)
    ensures Emit(a + b, f) == Emit(a, f) + Emit(b, f)
  {
    if b == [] {
      assert a + b == a;
    } else {
      assert (a + b)[..|a + b| - 1] == a + b[..|b| - 1];
      EmitAppend(a, b[..|b| - 1], f);
    }
  }

  /** An erasing loop has looked at `k` elements of `gs`: the list is `s`, the position in
      it `i`, and the erased elements were told in `e`. */
  ghost predicate Erasing(gs: seq<Gesture>, t: seq<Event>, p: Gesture -> bool,
                          k: nat, i: nat, s: seq<Gesture>, e: seq<Event>)
  {
    && k <= |gs|
    && i == |Filter(gs[..k], p)|
    && s == Filter(gs[..k], p) + gs[k..]
    && e == t + Emit(Filter(gs[..k], Not(p)), Cancelling())
  }

  lemma EraseStep(gs: seq<Gesture>, t: seq<Event>, p: Gesture -> bool,
                  k: nat, i: nat, s: seq<Gesture>, e: seq<Event>)
    requires Erasing(gs, t, p, k, i, s, e) && i < |s|
    ensures k < |gs| && s[i] == gs[k]
    ensures if p(gs[k]) then Erasing(gs, t, p, k + 1, i + 1, s, e)
            else Erasing(gs, t, p, k + 1, i, Erase(s, i), e + [Event(gs[k], Cancelled)])
  {
    var kept := Filter(gs[..k], p);
    PrefixStep(gs, k, p);
    PrefixStep(gs, k, Not(p));
    if p(gs[k]) {
      assert kept + gs[k..] == (kept + [gs[k]]) + gs[k + 1..];
    } else {
      assert Erase(kept + gs[k..], i) == kept + gs[k + 1..];
      EmitOne(t, Filter(gs[..k], Not(p)), gs[k], Cancelling(), Cancelled);
    }
  }

  lemma ErasingDone(gs: seq<Gesture>, t: seq<Event>, p: Gesture -> bool,
                    k: nat, i: nat, s: seq<Gesture>, e: seq<Event>)
    requires Erasing(gs, t, p, k, i, s, e) && i == |s|
    ensures s == Filter(gs, p) && e == t + Emit(Filter(gs, Not(p)), Cancelling())
  {
    assert gs[..k] == gs;
  }

  lemma EmitStep(gs: seq<Gesture>, g: Gesture, f: Gesture -> seq<Signal>)
    ensures Emit(gs + [g], f) == Emit(gs, f) + Tag(g, f(g))
  {
    assert (gs + [g])[..|gs + [g]| - 1] == gs;
  }

  lemma EmitOne(t: seq<Event>, gs: seq<Gesture>, g: Gesture, f: Gesture -> seq<Signal>, signal: Signal)
    requires f(g) == [signal]
    ensures t + Emit(gs + [g], f) == t + Emit(gs, f) + [Event(g, signal)]
  {
    EmitStep(gs, g, f);
  }

  lemma {:induction false} RemoveOneShrinks(s: seq<Gesture>, g: Gesture)
    ensures RemoveOne(s, g) == s <==> g !in s
    ensures |RemoveOne(s, g)| == if g in s then |s| - 1 else |s|
  {
    if s != [] {
      assert s == [s[0]] + s[1..];
      RemoveOneShrinks(s[1..], g);
    }
  }
}
