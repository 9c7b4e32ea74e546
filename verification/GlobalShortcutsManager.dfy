/** `GlobalShortcutsManager` (src/globalshortcuts.cpp) over its two recognizers: the loops
    over the shortcut list, each proved to do what GlobalShortcuts.dfy states. */
module GlobalShortcutsManagement {
  import opened Lists
  import opened Gestures
  import opened GestureRecognition
  import opened GlobalShortcuts

  class GlobalShortcutsManager {
    const touchpad: GestureRecognizer
    const touchscreen: GestureRecognizer
    var shortcuts: seq<GlobalShortcut>
    /** Stands for the allocator: the address of the next gesture object. */
    var nextId: nat
    /** The actions triggered by pointer shortcuts, in order. */
    var invoked: seq<nat>

    function Snapshot(): Registry
      reads this, touchpad, touchscreen
    {
      Registry(shortcuts, touchpad.Snapshot(), touchscreen.Snapshot(), nextId, invoked)
    }

    ghost predicate Valid()
      reads this, touchpad, touchscreen
    {
      touchpad != touchscreen && Agreement(Snapshot())
    }

    constructor ()
      ensures Valid() && Snapshot() == EmptyRegistry()
      ensures fresh(touchpad) && fresh(touchscreen)
    {
      touchpad := new GestureRecognizer();
      touchscreen := new GestureRecognizer();
      shortcuts, nextId, invoked := [], 0, [];
      new;
      AlwaysAgrees([]);
    }

    /** The first shortcut equal to `s`, or the end of the list. */
    method FindShortcut(s: Shortcut) returns (i: nat)
      ensures i == Find(shortcuts, s)
    {
      i := 0;
      while i < |shortcuts| && !Same(s, shortcuts[i].shortcut)
        invariant i <= |shortcuts|
        invariant forall j :: 0 <= j < i ==> !Same(s, shortcuts[j].shortcut)
      {
        i := i + 1;
      }
      FindIs(shortcuts, s, i);
    }

    method PushBack(e: GlobalShortcut)
      requires Valid()
      requires e.gesture.Some? ==> e.gesture.value.id >= nextId
      modifies this, touchpad, touchscreen
      ensures Snapshot() == Push(old(Snapshot()), e)
    {
      nextId := nextId + 1;
      if e.gesture.Some? {
        var g := e.gesture.value;
        NewGestureUnlisted(old(Snapshot()), g);
        if g.Pinch? {
          touchpad.RegisterPinchGesture(g);
        } else if DeviceOf(e.shortcut).Touchpad? {
          touchpad.RegisterSwipeGesture(g);
        } else {
          touchscreen.RegisterSwipeGesture(g);
        }
      }
      shortcuts := shortcuts + [e];
    }

    method AddIfNotExists(s: Shortcut, action: nat) returns (added: bool)
      requires Valid()
      modifies this, touchpad, touchscreen
      ensures Valid() && Snapshot() == GlobalShortcuts.AddIfNotExists(old(Snapshot()), s, action)
      ensures added == !Known(old(shortcuts), s)
    {
      HandleAgrees(Snapshot(), Add(s, action));
      var e := Make(s, action, nextId);
      var i := FindShortcut(s);
      if i < |shortcuts| {
        nextId := nextId + 1;
        return false;
      }
      PushBack(e);
      return true;
    }

    method Erase(i: nat)
      requires Valid() && i < |shortcuts|
      modifies this, touchpad, touchscreen
      ensures Valid() && Snapshot() == EraseAt(old(Snapshot()), i)
    {
      EraseAgrees(Snapshot(), i);
      var g := shortcuts[i].gesture;
      shortcuts := shortcuts[..i] + shortcuts[i + 1..];
      if g.Some? {
        touchpad.GestureDestroyed(g.value);
        touchscreen.GestureDestroyed(g.value);
      }
    }

    method ForceRegisterTouchscreenSwipe(action: nat, callback: nat, direction: SwipeDirection, fingers: nat)
      requires Valid()
      modifies this, touchpad, touchscreen
      ensures Valid()
      ensures Snapshot()
           == ForceRegister(old(Snapshot()), RealtimeSwipe(Touchscreen, direction, callback, fingers), action)
    {
      var s := RealtimeSwipe(Touchscreen, direction, callback, fingers);
      ForceAgrees(Snapshot(), s, action);
      var e := Make(s, action, nextId);
      var i := FindShortcut(s);
      if i < |shortcuts| {
        Erase(i);
      }
      PushBack(e);
    }

    method ObjectDeleted(action: nat)
      requires Valid()
      modifies this, touchpad, touchscreen
      ensures Valid() && Snapshot() == DropAction(old(Snapshot()), action, 0)
    {
      var i := 0;
      while i < |shortcuts|
        invariant i <= |shortcuts| && Valid()
        invariant DropAction(Snapshot(), action, i) == DropAction(old(Snapshot()), action, 0)
        decreases |shortcuts| - i
      {
        if shortcuts[i].action == action {
          Erase(i);
        } else {
          i := i + 1;
        }
      }
    }

    method ProcessPointer(s: Shortcut) returns (matched: bool)
      requires s.PointerButton? || s.PointerAxis?
      modifies this`invoked
      ensures Snapshot() == Match(old(Snapshot()), s)
      ensures matched == Known(shortcuts, s)
    {
      var i := FindShortcut(s);
      matched := i < |shortcuts|;
      if matched {
        invoked := invoked + [shortcuts[i].action];
      }
    }

    method ProcessSwipeStart(device: Device, fingers: nat)
      requires touchpad != touchscreen
      modifies touchpad, touchscreen
      ensures Snapshot() == Handle(old(Snapshot()), Input(device, DoStartSwipe(fingers)))
    {
      if device == Touchpad {
        var _ := touchpad.StartSwipeGesture(fingers, None);
      } else {
        var _ := touchscreen.StartSwipeGesture(fingers, None);
      }
    }

    method ProcessSwipeUpdate(device: Device, delta: Point)
      requires touchpad != touchscreen
      modifies touchpad, touchscreen
      ensures Snapshot() == Handle(old(Snapshot()), Input(device, DoUpdateSwipe(delta)))
    {
      if device == Touchpad {
        touchpad.UpdateSwipeGesture(delta);
      } else {
        touchscreen.UpdateSwipeGesture(delta);
      }
    }

    method ProcessSwipeCancel(device: Device)
      requires touchpad != touchscreen
      modifies touchpad, touchscreen
      ensures Snapshot() == Handle(old(Snapshot()), Input(device, DoCancelSwipe))
    {
      if device == Touchpad {
        touchpad.CancelSwipeGesture();
      } else {
        touchscreen.CancelSwipeGesture();
      }
    }

    method ProcessSwipeEnd(device: Device)
      requires touchpad != touchscreen
      modifies touchpad, touchscreen
      ensures Snapshot() == Handle(old(Snapshot()), Input(device, DoEndSwipe))
    {
      if device == Touchpad {
        touchpad.EndSwipeGesture();
      } else {
        touchscreen.EndSwipeGesture();
      }
    }

    method ProcessPinchStart(fingers: nat)
      requires touchpad != touchscreen
      modifies touchpad
      ensures Snapshot() == Handle(old(Snapshot()), Input(Touchpad, DoStartPinch(fingers)))
    {
      var _ := touchpad.StartPinchGesture(fingers);
    }

    method ProcessPinchUpdate(scale: real)
      requires touchpad != touchscreen
      modifies touchpad
      ensures Snapshot() == Handle(old(Snapshot()), Input(Touchpad, DoUpdatePinch(scale)))
    {
      touchpad.UpdatePinchGesture(scale);
    }

    method ProcessPinchCancel()
      requires touchpad != touchscreen
      modifies touchpad
      ensures Snapshot() == Handle(old(Snapshot()), Input(Touchpad, DoCancelPinch))
    {
      touchpad.CancelPinchGesture();
    }

    method ProcessPinchEnd()
      requires touchpad != touchscreen
      modifies touchpad
      ensures Snapshot() == Handle(old(Snapshot()), Input(Touchpad, DoEndPinch))
    {
      touchpad.EndPinchGesture();
    }
  }

  lemma FindIs(shortcuts: seq<GlobalShortcut>, s: Shortcut, i: nat)
    requires i <= |shortcuts| && (i < |shortcuts| ==> Same(s, shortcuts[i].shortcut))
    requires forall j :: 0 <= j < i ==> !Same(s, shortcuts[j].shortcut)
    ensures i == Find(shortcuts, s)
  {
  }
}
