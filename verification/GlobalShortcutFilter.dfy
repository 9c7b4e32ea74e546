/** `GlobalShortcutFilter` (src/input.cpp): the touch part of the input filter over the
    shortcuts manager it drives. */
module GlobalShortcutFiltering {
  import opened Lists
  import opened Gestures
  import opened GlobalShortcuts
  import opened GlobalShortcutsManagement
  import opened TouchSession

  class GlobalShortcutFilter {
    const shortcuts: GlobalShortcutsManager
    var gestureTaken: bool
    var gestureCancelled: bool
    var syntheticCancel: bool
    var lastTouchDownTime: int
    var touchPoints: map<int, Point>

    function Snapshot(): Touch
      reads this
    {
      Touch(touchPoints, gestureTaken, gestureCancelled, lastTouchDownTime)
    }

    ghost predicate Valid()
      reads this
    {
      shortcuts.touchpad != shortcuts.touchscreen && !syntheticCancel
    }

    constructor (manager: GlobalShortcutsManager)
      requires manager.touchpad != manager.touchscreen
      ensures shortcuts == manager && Valid() && Snapshot() == UNTOUCHED
    {
      shortcuts := manager;
      gestureTaken, gestureCancelled, syntheticCancel := false, false, false;
      lastTouchDownTime, touchPoints := 0, map[];
    }

    method TouchDown(id: int, pos: Point, time: int, fx: real, fy: real) returns (consumed: bool)
      requires Valid()
      modifies this, shortcuts.touchpad, shortcuts.touchscreen
      ensures Valid()
      ensures var r := TouchSession.TouchDown(old(Snapshot()), id, pos, time, fx, fy);
        Snapshot() == r.next && consumed == r.consumed && shortcuts.Snapshot() ==
            Told(old(shortcuts.Snapshot()), r.call)
    {
      if gestureTaken {
        shortcuts.ProcessSwipeCancel(Touchscreen);
        gestureCancelled := true;
        return true;
      }
      touchPoints := touchPoints[id := pos];
      if |touchPoints| == 1 {
        lastTouchDownTime := time;
      } else {
        if time - lastTouchDownTime > 250_000 {
          gestureCancelled := true;
          return false;
        }
        lastTouchDownTime := time;
        if !DistanceMatch(touchPoints, pos, fx, fy) {
          gestureCancelled := true;
          return false;
        }
      }
      if |touchPoints| >= 3 && !gestureCancelled {
        gestureTaken := true;
        syntheticCancel := true;
        // every input filter gets a touchCancel, this one too
        var _ := TouchCancel();
        syntheticCancel := false;
        shortcuts.ProcessSwipeStart(Touchscreen, |touchPoints|);
        return true;
      }
      return false;
    }

    method TouchMotion(id: int, pos: Point, fx: real, fy: real) returns (consumed: bool)
      requires Valid()
      modifies this, shortcuts.touchpad, shortcuts.touchscreen
      ensures Valid()
      ensures var r := TouchSession.TouchMotion(old(Snapshot()), id, pos, fx, fy);
        Snapshot() == r.next && consumed == r.consumed && shortcuts.Snapshot() ==
            Told(old(shortcuts.Snapshot()), r.call)
    {
      if gestureTaken {
        if gestureCancelled {
          return true;
        }
        if id !in touchPoints {
          touchPoints := touchPoints[id := ORIGIN];
        }
        var point := touchPoints[id];
        SameSize(touchPoints, id, pos);
        assert touchPoints[id := pos] == old(touchPoints)[id := pos];
        var delta := SwipeDelta(point, pos, fx, fy, |touchPoints|);
        shortcuts.ProcessSwipeUpdate(Touchscreen, delta);
        touchPoints := touchPoints[id := pos];
        return true;
      }
      return false;
    }

    method EndSession()
      requires Valid()
      modifies this`gestureCancelled, shortcuts.touchpad, shortcuts.touchscreen
      ensures gestureCancelled == (old(gestureCancelled) || gestureTaken)
      ensures shortcuts.Snapshot()
           == Told(old(shortcuts.Snapshot()), if gestureTaken && !old(gestureCancelled) then Some(End) else None)
    {
      if gestureTaken && !gestureCancelled {
        shortcuts.ProcessSwipeEnd(Touchscreen);
        gestureCancelled := true;
      }
    }

    method TouchUp(id: int) returns (consumed: bool)
      requires Valid()
      modifies this`touchPoints, this`gestureTaken, this`gestureCancelled, shortcuts.touchpad, shortcuts.touchscreen
      ensures Snapshot() == TouchSession.TouchUp(old(Snapshot()), id).next
      ensures consumed == TouchSession.TouchUp(old(Snapshot()), id).consumed
      ensures shortcuts.Snapshot() == Told(old(shortcuts.Snapshot()), TouchSession.TouchUp(old(Snapshot()), id).call)
    {
      ghost var t := Snapshot();
      touchPoints := touchPoints - {id};
      consumed := gestureTaken;
      EndSession();
      SettleFlags();
      LiftSends(t, id);
      EmptyMap(touchPoints);
    }

    /** The flags after a finger was lifted. */
    method SettleFlags()
      modifies this`gestureTaken, this`gestureCancelled
      ensures gestureTaken == (old(gestureTaken) && |touchPoints| > 0)
      ensures gestureCancelled == (old(gestureCancelled) && |touchPoints| > 0)
    {
      if gestureTaken {
        gestureTaken := gestureTaken && |touchPoints| > 0;
        gestureCancelled := gestureCancelled && gestureTaken;
      } else {
        gestureCancelled := gestureCancelled && |touchPoints| > 0;
      }
    }

    /** A cancel the filter has issued itself changes nothing. */
    method TouchCancel() returns (consumed: bool)
      modifies this
      ensures syntheticCancel == old(syntheticCancel)
      ensures if old(syntheticCancel) then Snapshot() == old(Snapshot()) && !consumed
              else var r := TouchSession.TouchCancel(old(Snapshot())); Snapshot() == r.next && consumed == r.consumed
    {
      if syntheticCancel {
        return false;
      }
      var oldGestureTaken := gestureTaken;
      gestureTaken := false;
      gestureCancelled := false;
      touchPoints := map[];
      return oldGestureTaken;
    }
  }

  lemma SameSize(points: map<int, Point>, id: int, pos: Point)
    requires id in points
    ensures |points[id := pos]| == |points|
  {
    assert points[id := pos].Keys == points.Keys;
  }

  /** The registry after a call of the filter. */
  ghost function Told(r: Registry, call: Option<Call>): Registry {
    if call.None? then r else Handle(r, Input(Touchscreen, OpOf(call.value)))
  }
}
