/** Where the gestures of shortcuts are registered, and which shortcuts an input reaches: told
    by the devices, directions and numbers of fingers of the shortcuts themselves. */
module ShortcutRouting {
  import opened Lists
  import opened Gestures
  import opened GlobalShortcuts
  import GestureSignals

  // ---------- registration ----------

  /** The gesture of a swipe shortcut that is for device `d`. */
  predicate BelongsTo(e: GlobalShortcut, g: Gesture, d: Device) {
    e.gesture == Some(g) && IsSwipe(e.shortcut) && e.shortcut.device == d
  }

  /** After any requests a recognizer has registered a swipe exactly if it belongs to a
      shortcut for that recognizer's device, and a pinch is registered on the touchpad exactly
      if it belongs to a pinch shortcut. */
  lemma RegisteredWhereItBelongs(qs: seq<Request>, g: Gesture)
    ensures var r := HandleAll(qs);
      && (g in r.touchpad.swipes <==> exists e :: e in r.shortcuts && BelongsTo(e, g, Touchpad))
      && (g in r.touchscreen.swipes <==> exists e :: e in r.shortcuts && BelongsTo(e, g, Touchscreen))
      && (g in r.touchpad.pinches <==> exists e :: e in r.shortcuts && e.gesture == Some(g) && IsPinch(e.shortcut))
      && r.touchscreen.pinches == []
  {
    AlwaysAgrees(qs);
    RegisteredIn(HandleAll(qs), g);
  }

  lemma RegisteredIn(r: Registry, g: Gesture)
    requires Agreement(r)
    ensures g in r.touchpad.swipes <==> exists e :: e in r.shortcuts && BelongsTo(e, g, Touchpad)
    ensures g in r.touchscreen.swipes <==> exists e :: e in r.shortcuts && BelongsTo(e, g, Touchscreen)
    ensures g in r.touchpad.pinches <==> exists e :: e in r.shortcuts && e.gesture == Some(g) && IsPinch(e.shortcut)
  {
    ListedFor(r.shortcuts, PadSwipes, g);
    ListedFor(r.shortcuts, ScreenSwipes, g);
    ListedFor(r.shortcuts, PadPinches, g);
    forall e ensures BelongsTo(e, g, Touchpad) <==> e.gesture == Some(g) && SlotOf(e.shortcut) == Some(PadSwipes) {
    }
    forall e ensures BelongsTo(e, g, Touchscreen) <==>
        e.gesture == Some(g) && SlotOf(e.shortcut) == Some(ScreenSwipes) {
    }
  }

  lemma RegisteredOn(r: Registry, d: Device, g: Gesture)
    requires Agreement(r)
    ensures g in RecognizerOf(r, d).swipes <==> exists e :: e in r.shortcuts && BelongsTo(e, g, d)
  {
    RegisteredIn(r, g);
  }

  lemma ListedFor(all: seq<GlobalShortcut>, slot: Slot, g: Gesture)
    ensures g in GesturesFor(all, slot) <==>
      exists e :: e in all && e.gesture == Some(g) && SlotOf(e.shortcut) == Some(slot)
  {
    ListedGesture(all, slot, g);
    if e :| e in all && e.gesture == Some(g) && SlotOf(e.shortcut) == Some(slot) {
      var i :| 0 <= i < |all| && all[i] == e;
    }
  }

  /** A new swipe shortcut puts its gesture last into the list of the recognizer of its own
      device; the other recognizer, and what is active anywhere, stay as they are. */
  lemma AddedToItsDevice(r: Registry, s: Shortcut, action: nat)
    requires IsSwipe(s) && !Known(r.shortcuts, s)
    ensures var t := AddIfNotExists(r, s, action);
      exists g: Gesture :: g.id == r.nextId && g.Swipe?
        && t.shortcuts == r.shortcuts + [GlobalShortcut(s, action, Some(g))]
        && (s.device == Touchpad ==>
              t.touchscreen == r.touchscreen
              && t.touchpad == r.touchpad.(swipes := r.touchpad.swipes + [g],
                                           connections := r.touchpad.connections + {g}))
        && (s.device == Touchscreen ==>
              t.touchpad == r.touchpad
              && t.touchscreen == r.touchscreen.(swipes := r.touchscreen.swipes + [g],
                                                 connections := r.touchscreen.connections + {g}))
  {
    assert Make(s, action, r.nextId).gesture.value.id == r.nextId;
  }

  /** A forced touchscreen swipe ends up last in the touchscreen's list, without the gesture of
      the shortcut it replaces; the touchpad's lists stay as they are. */
  lemma ForcedToTouchscreen(r: Registry, s: Shortcut, action: nat)
    requires Agreement(r) && s.RealtimeSwipe? && s.device == Touchscreen
    ensures var t := ForceRegister(r, s, action);
      && t.touchpad.swipes == r.touchpad.swipes && t.touchpad.pinches == r.touchpad.pinches
      && exists g: Gesture :: g.id == r.nextId && g.Swipe?
           && t.shortcuts != [] && t.shortcuts[|t.shortcuts| - 1] == GlobalShortcut(s, action, Some(g))
           && t.touchscreen.swipes == SwipesWithout(r, s) + [g]
  {
    var i := Find(r.shortcuts, s);
    PushedToTouchscreen(if i < |r.shortcuts| then EraseAt(r, i) else r, s, action);
    if i < |r.shortcuts| {
      ErasedFromTouchscreen(r, i);
    }
  }

  lemma PushedToTouchscreen(r: Registry, s: Shortcut, action: nat)
    requires s.RealtimeSwipe? && s.device == Touchscreen
    ensures var t := Push(r, Make(s, action, r.nextId));
      && t.touchpad == r.touchpad
      && exists g: Gesture :: g.id == r.nextId && g.Swipe?
           && t.shortcuts == r.shortcuts + [GlobalShortcut(s, action, Some(g))]
           && t.touchscreen.swipes == r.touchscreen.swipes + [g]
  {
    assert Make(s, action, r.nextId).gesture.value.id == r.nextId;
  }

  lemma ErasedFromTouchscreen(r: Registry, i: nat)
    requires Agreement(r) && i < |r.shortcuts| && SlotOf(r.shortcuts[i].shortcut) == Some(ScreenSwipes)
    ensures var t := EraseAt(r, i);
      && t.touchpad.swipes == r.touchpad.swipes && t.touchpad.pinches == r.touchpad.pinches
      && t.touchscreen.swipes == Drop(r.touchscreen.swipes, r.shortcuts[i].gesture) && t.nextId == r.nextId
  {
    RemovedLists(r.shortcuts, r.nextId, i, ScreenSwipes);
    EraseAgrees(r, i);
    EraseElsewhere(r, i);
  }

  /** The touchscreen's swipes without that of the shortcut equal to `s`. */
  function SwipesWithout(r: Registry, s: Shortcut): seq<Gesture> {
    var i := Find(r.shortcuts, s);
    if i < |r.shortcuts| then Drop(r.touchscreen.swipes, r.shortcuts[i].gesture) else r.touchscreen.swipes
  }

  /** Erasing a touchscreen swipe leaves the touchpad's lists alone. */
  lemma EraseElsewhere(r: Registry, i: nat)
    requires Agreement(r) && i < |r.shortcuts| && SlotOf(r.shortcuts[i].shortcut) == Some(ScreenSwipes)
    ensures EraseAt(r, i).touchpad.swipes == r.touchpad.swipes && EraseAt(r, i).touchpad.pinches == r.touchpad.pinches
  {
    if r.shortcuts[i].gesture.Some? {
      var g := r.shortcuts[i].gesture.value;
      ListedGesture(r.shortcuts, PadSwipes, g);
      ListedGesture(r.shortcuts, PadPinches, g);
      forall k | 0 <= k < |r.shortcuts| && r.shortcuts[k].gesture == Some(g) ensures k == i {
      }
      assert g !in r.touchpad.connections;
    }
  }

  // ---------- equal shortcuts ----------

  /** Two shortcuts mean the same input: the same keys, the same modifiers with the same button
      or axis, or the same fingers going the same way on the same device, realtime or not. */
  predicate SameInput(a: Shortcut, b: Shortcut) {
    || (a.Keyboard? && b.Keyboard? && a.sequence == b.sequence)
    || (a.PointerButton? && b.PointerButton? && a.modifiers == b.modifiers && a.buttons == b.buttons)
    || (a.PointerAxis? && b.PointerAxis? && a.modifiers == b.modifiers && a.axisDirection == b.axisDirection)
    || (IsSwipe(a) && IsSwipe(b) && a.RealtimeSwipe? == b.RealtimeSwipe?
        && a.device == b.device && a.direction == b.direction && a.fingers == b.fingers)
    || (IsPinch(a) && IsPinch(b) && a.RealtimePinch? == b.RealtimePinch?
        && a.pinchDirection == b.pinchDirection && a.fingers == b.fingers)
  }

  /** Adding a shortcut for an input that is taken changes no shortcut and no recognizer. */
  lemma TakenIsRefused(r: Registry, s: Shortcut, action: nat)
    requires exists e :: e in r.shortcuts && SameInput(s, e.shortcut)
    ensures var t := Handle(r, Add(s, action)); t == r.(nextId := t.nextId)
  {
    KnownIff(r.shortcuts, s);
  }

  /** After adding a shortcut for another input, that input invokes its action, and adding it
      has invoked nothing. */
  lemma AddedIsInvoked(qs: seq<Request>, s: Shortcut, action: nat, input: Shortcut)
    requires !exists e :: e in HandleAll(qs).shortcuts && SameInput(s, e.shortcut)
    requires SameInput(input, s)
    ensures var r, t := HandleAll(qs), Handle(HandleAll(qs), Add(s, action));
      t.invoked == r.invoked && Handle(t, Press(input)).invoked == r.invoked + [action]
  {
    AlwaysAgrees(qs);
    var r := HandleAll(qs);
    KnownIff(r.shortcuts, s);
    NewIsInvoked(r, s, action, input);
  }

  lemma NewIsInvoked(r: Registry, s: Shortcut, action: nat, input: Shortcut)
    requires Agreement(r) && !Known(r.shortcuts, s) && SameInput(input, s)
    ensures var t := Handle(r, Add(s, action));
      t.invoked == r.invoked && Handle(t, Press(input)).invoked == r.invoked + [action]
  {
    PushedIsInvoked(r, s, action, input);
    assert Handle(r, Add(s, action)) == Push(r, Make(s, action, r.nextId));
  }

  lemma PushedIsInvoked(r: Registry, s: Shortcut, action: nat, input: Shortcut)
    requires Agreement(r) && !Known(r.shortcuts, s) && SameInput(input, s)
    ensures var t := Push(r, Make(s, action, r.nextId));
      t.invoked == r.invoked && Match(t, input).invoked == r.invoked + [action]
  {
    var e := Make(s, action, r.nextId);
    PushAppends(r, e);
    AppendUnequal(r.shortcuts, e);
    PressedLast(Push(r, e), input);
  }

  lemma SameInputIff(a: Shortcut, b: Shortcut)
    ensures Same(a, b) <==> SameInput(a, b)
  {
  }

  lemma KnownIff(shortcuts: seq<GlobalShortcut>, s: Shortcut)
    ensures Known(shortcuts, s) <==> exists e :: e in shortcuts && SameInput(s, e.shortcut)
  {
    forall e: GlobalShortcut ensures Same(s, e.shortcut) <==> SameInput(s, e.shortcut) {
      SameInputIff(s, e.shortcut);
    }
    if e :| e in shortcuts && SameInput(s, e.shortcut) {
      var i :| 0 <= i < |shortcuts| && shortcuts[i] == e;
      assert Same(s, shortcuts[i].shortcut);
    }
  }

  lemma PressedLast(r: Registry, s: Shortcut)
    requires PairwiseUnequal(r.shortcuts) && r.shortcuts != []
    requires SameInput(s, r.shortcuts[|r.shortcuts| - 1].shortcut)
    ensures Match(r, s).invoked == r.invoked + [r.shortcuts[|r.shortcuts| - 1].action]
  {
    var n := |r.shortcuts| - 1;
    SameInputIff(s, r.shortcuts[n].shortcut);
    var k := Find(r.shortcuts, s);
    assert Known(r.shortcuts, s);
    assert Same(r.shortcuts[k].shortcut, r.shortcuts[n].shortcut);
  }

  // ---------- from shortcuts to gestures ----------

  /** Every shortcut has the gesture that was made for it. */
  ghost predicate AllMade(shortcuts: seq<GlobalShortcut>) {
    forall e :: e in shortcuts ==> e == Make(e.shortcut, e.action, if e.gesture.Some? then e.gesture.value.id else 0)
  }

  lemma {:induction false} DropKeepsMade(r: Registry, action: nat, i: nat)
    requires AllMade(r.shortcuts)
    ensures AllMade(DropAction(r, action, i).shortcuts)
    decreases |r.shortcuts| - i
  {
    if i < |r.shortcuts| {
      if r.shortcuts[i].action == action {
        EraseKeepsMade(r, i);
        DropKeepsMade(EraseAt(r, i), action, i);
      } else {
        DropKeepsMade(r, action, i + 1);
      }
    }
  }

  lemma EraseKeepsMade(r: Registry, i: nat)
    requires AllMade(r.shortcuts) && i < |r.shortcuts|
    ensures AllMade(EraseAt(r, i).shortcuts)
  {
    forall e | e in Removed(r.shortcuts, i) ensures e in r.shortcuts {
    }
  }

  lemma PushKeepsMade(r: Registry, s: Shortcut, action: nat)
    requires AllMade(r.shortcuts)
    ensures AllMade(Push(r, Make(s, action, r.nextId)).shortcuts)
  {
    PushAppends(r, Make(s, action, r.nextId));
  }

  lemma {:induction false} AlwaysMade(qs: seq<Request>)
    ensures AllMade(HandleAll(qs).shortcuts)
  {
    if qs != [] {
      var r := HandleAll(qs[..|qs| - 1]);
      AlwaysMade(qs[..|qs| - 1]);
      match qs[|qs| - 1]
      case Add(s, action) => PushKeepsMade(r, s, action);
      case Force(s, action) =>
        var i := Find(r.shortcuts, s);
        if i < |r.shortcuts| {
          EraseKeepsMade(r, i);
          PushKeepsMade(EraseAt(r, i), s, action);
        } else {
          PushKeepsMade(r, s, action);
        }
      case ActionDestroyed(action) => DropKeepsMade(r, action, 0);
      case _ =>
    }
  }

  lemma MadeForFingers(shortcuts: seq<GlobalShortcut>, e: GlobalShortcut, g: Gesture, n: nat)
    requires AllMade(shortcuts) && e in shortcuts && e.gesture == Some(g)
    requires IsSwipe(e.shortcut) || IsPinch(e.shortcut)
    ensures GestureSignals.FingersWithin(g, n) <==> e.shortcut.fingers == n
  {
    assert e == Make(e.shortcut, e.action, g.id);
  }

  function RecognizerOf(r: Registry, d: Device): Recognizer {
    match d
    case Touchpad => r.touchpad
    case Touchscreen => r.touchscreen
  }

  /** Input from one device leaves the shortcuts and the other device's recognizer alone. */
  lemma InputReachesItsDevice(r: Registry, d: Device, op: Op)
    requires IsInput(op)
    ensures var t := Handle(r, Input(d, op));
      && RecognizerOf(t, d) == Step(RecognizerOf(r, d), op)
      && (forall other :: other != d ==> RecognizerOf(t, other) == RecognizerOf(r, other))
      && t.shortcuts == r.shortcuts && t.invoked == r.invoked && t.nextId == r.nextId
  {
  }

  /** In every run: putting `n` fingers down on a device at rest starts exactly the gestures of
      the swipe shortcuts for that device with `n` fingers. */
  lemma SwipeStartsItsShortcuts(qs: seq<Request>, d: Device, n: nat, g: Gesture)
    requires !RecognizerOf(HandleAll(qs), d).Busy() && RecognizerOf(HandleAll(qs), d).axis == NoAxis
    ensures var r, t := HandleAll(qs), Handle(HandleAll(qs), Input(d, DoStartSwipe(n)));
      g in RecognizerOf(t, d).activeSwipes <==>
        exists e :: e in r.shortcuts && BelongsTo(e, g, d) && e.shortcut.fingers == n
  {
    AlwaysAgrees(qs);
    AlwaysMade(qs);
    SwipeStartsThose(HandleAll(qs), d, n, g);
  }

  lemma SwipeStartsThose(r: Registry, d: Device, n: nat, g: Gesture)
    requires Agreement(r) && AllMade(r.shortcuts) && !RecognizerOf(r, d).Busy() && RecognizerOf(r, d).axis == NoAxis
    ensures g in RecognizerOf(Handle(r, Input(d, DoStartSwipe(n))), d).activeSwipes <==>
      exists e :: e in r.shortcuts && BelongsTo(e, g, d) && e.shortcut.fingers == n
  {
    RegisteredOn(r, d, g);
    GestureSignals.StartSwipeActivates(RecognizerOf(r, d), DoStartSwipe(n), g);
    forall e | e in r.shortcuts && BelongsTo(e, g, d)
      ensures GestureSignals.FingersWithin(g, n) <==> e.shortcut.fingers == n
    {
      MadeForFingers(r.shortcuts, e, g, n);
    }
  }

  /** And pinches on the touchpad those of the pinch shortcuts with `n` fingers. */
  lemma PinchStartsItsShortcuts(qs: seq<Request>, n: nat, g: Gesture)
    requires !HandleAll(qs).touchpad.Busy()
    ensures var r, t := HandleAll(qs), Handle(HandleAll(qs), Input(Touchpad, DoStartPinch(n)));
      g in t.touchpad.activePinches <==>
        exists e :: e in r.shortcuts && e.gesture == Some(g) && IsPinch(e.shortcut) && e.shortcut.fingers == n
  {
    AlwaysAgrees(qs);
    AlwaysMade(qs);
    PinchStartsThose(HandleAll(qs), n, g);
  }

  lemma PinchStartsThose(r: Registry, n: nat, g: Gesture)
    requires Agreement(r) && AllMade(r.shortcuts) && !r.touchpad.Busy()
    ensures g in Handle(r, Input(Touchpad, DoStartPinch(n))).touchpad.activePinches <==>
      exists e :: e in r.shortcuts && e.gesture == Some(g) && IsPinch(e.shortcut) && e.shortcut.fingers == n
  {
    RegisteredIn(r, g);
    GestureSignals.StartPinchActivates(r.touchpad, n, g);
    forall e | e in r.shortcuts && e.gesture == Some(g) && IsPinch(e.shortcut)
      ensures GestureSignals.FingersWithin(g, n) <==> e.shortcut.fingers == n
    {
      MadeForFingers(r.shortcuts, e, g, n);
    }
  }
}
