/** The registry of global shortcuts (src/globalshortcuts.h, src/globalshortcuts.cpp) and its
    agreement with the two gesture recognizers it feeds. */
module GlobalShortcuts {
  import opened Lists
  import opened Gestures
  import opened GestureProtocol

  datatype Device = Touchpad | Touchscreen

  datatype Shortcut =
    | Keyboard(sequence: nat)
    | PointerButton(modifiers: nat, buttons: nat)
    | PointerAxis(modifiers: nat, axisDirection: nat)
    | SwipeShortcut(device: Device, direction: SwipeDirection, fingers: nat)
    | RealtimeSwipe(device: Device, direction: SwipeDirection, callback: nat, fingers: nat)
    | PinchShortcut(pinchDirection: PinchDirection, fingers: nat)
    | RealtimePinch(pinchDirection: PinchDirection, callback: nat, fingers: nat)

  /** The equality of shortcuts: of the same kind and equal up to the callback. */
  predicate Same(a: Shortcut, b: Shortcut) {
    match (a, b)
    case (RealtimeSwipe(d, dir, _, n), RealtimeSwipe(d', dir', _, n')) => d == d' && dir == dir' && n == n'
    case (RealtimePinch(dir, _, n), RealtimePinch(dir', _, n')) => dir == dir' && n == n'
    case _ => a == b
  }

  /** The device whose recognizer a shortcut is registered with. */
  function DeviceOf(s: Shortcut): Device {
    if s.SwipeShortcut? || s.RealtimeSwipe? then s.device else Touchpad
  }

  datatype GlobalShortcut = GlobalShortcut(shortcut: Shortcut, action: nat, gesture: Option<Gesture>)

  /** `GlobalShortcut`'s constructor; `id` is the address of the new gesture object. */
  function Make(s: Shortcut, action: nat, id: nat): GlobalShortcut {
    match s
    case SwipeShortcut(_, dir, n) =>
      GlobalShortcut(s, action, Some(Swipe(id, Some(n), Some(n), dir, None, None, None, None, None)))
    case RealtimeSwipe(_, dir, _, n) =>
      var required := Some(Point(200.0, 200.0));
      GlobalShortcut(s, action, Some(Swipe(id, Some(n), Some(n), dir, None, None, None, None, required)))
    case PinchShortcut(dir, n) => GlobalShortcut(s, action, Some(Pinch(id, Some(n), Some(n), dir, 0.2)))
    case RealtimePinch(dir, _, n) => GlobalShortcut(s, action, Some(Pinch(id, Some(n), Some(n), dir, 0.2)))
    case _ => GlobalShortcut(s, action, None)
  }

  /** The gesture of a swipe shortcut takes part exactly with the shortcut's number of fingers
      and direction; the plain one is complete at once, the realtime one after 200 units. */
  lemma SwipeShortcutGesture(s: Shortcut, action: nat, id: nat, n: nat, axis: Axis, d: SwipeDirection, delta: Point)
    requires s.SwipeShortcut? || s.RealtimeSwipe?
    ensures var g := Make(s, action, id).gesture.value;
      && (Startable(g, n, None, axis) <==> n == s.fingers && OnAxis(s.direction, axis))
      && (Follows(g, d) <==> d == s.direction)
      && (Full(DeltaToProgress(g, delta)) <==> s.SwipeShortcut? || Abs(Along(s.direction, delta)) >= 200.0)
  {
    SwipeReachedIff(Make(s, action, id).gesture.value, delta);
  }

  lemma PinchShortcutGesture(s: Shortcut, action: nat, id: nat, n: nat, d: PinchDirection, scale: real)
    requires s.PinchShortcut? || s.RealtimePinch?
    ensures var g := Make(s, action, id).gesture.value;
      && (IsPinchable(n)(g) <==> n == s.fingers)
      && (Pinches(d)(g) <==> d == s.pinchDirection)
      && (Full(ScaleToProgress(g, scale)) <==> Abs(scale - 1.0) >= 0.2)
  {
    PinchReachedIff(Make(s, action, id).gesture.value, scale);
  }

  datatype Registry = Registry(shortcuts: seq<GlobalShortcut>, touchpad: Recognizer, touchscreen: Recognizer,
                               nextId: nat, invoked: seq<nat>)

  function EmptyRegistry(): Registry { Registry([], Fresh(), Fresh(), 0, []) }

  // ---------- operations ----------

  predicate Known(shortcuts: seq<GlobalShortcut>, s: Shortcut) {
    exists i :: 0 <= i < |shortcuts| && Same(s, shortcuts[i].shortcut)
  }

  /** The first position of a shortcut equal to `s`, or the length. */
  function Find(shortcuts: seq<GlobalShortcut>, s: Shortcut): (i: nat)
    ensures i <= |shortcuts|
    ensures i < |shortcuts| <==> Known(shortcuts, s)
    ensures i < |shortcuts| ==> Same(s, shortcuts[i].shortcut)
    ensures forall j :: 0 <= j < i ==> !Same(s, shortcuts[j].shortcut)
  {
    if shortcuts == [] || Same(s, shortcuts[0].shortcut) then 0 else
      var rest := shortcuts[1..];
      assert shortcuts == [shortcuts[0]] + rest;
      assert forall j :: 0 <= j < |rest| ==> rest[j] == shortcuts[j + 1];
      1 + Find(rest, s)
  }

  function Push(r: Registry, e: GlobalShortcut): Registry {
    var r := r.(shortcuts := r.shortcuts + [e], nextId := r.nextId + 1);
    if e.gesture.None? then r
    else if e.gesture.value.Pinch? then r.(touchpad := RegisterPinch(r.touchpad, e.gesture.value))
    else if DeviceOf(e.shortcut).Touchpad? then r.(touchpad := RegisterSwipe(r.touchpad, e.gesture.value))
    else r.(touchscreen := RegisterSwipe(r.touchscreen, e.gesture.value))
  }

  function AddIfNotExists(r: Registry, s: Shortcut, action: nat): Registry {
    if Known(r.shortcuts, s) then r.(nextId := r.nextId + 1) else Push(r, Make(s, action, r.nextId))
  }

  function Removed(shortcuts: seq<GlobalShortcut>, i: nat): (rest: seq<GlobalShortcut>)
    requires i < |shortcuts|
    ensures |rest| == |shortcuts| - 1
    ensures forall k :: 0 <= k < |rest| ==> rest[k] == shortcuts[if k < i then k else k + 1]
  {
    shortcuts[..i] + shortcuts[i + 1..]
  }

  /** Erasing a shortcut deletes its gesture, which is announced to the recognizers. */
  function EraseAt(r: Registry, i: nat): Registry
    requires i < |r.shortcuts|
  {
    var g := r.shortcuts[i].gesture;
    var r := r.(shortcuts := Removed(r.shortcuts, i));
    if g.None? then r
    else r.(touchpad := Destroy(r.touchpad, g.value), touchscreen := Destroy(r.touchscreen, g.value))
  }

  function ForceRegister(r: Registry, s: Shortcut, action: nat): Registry {
    var i := Find(r.shortcuts, s);
    Push(if i < |r.shortcuts| then EraseAt(r, i) else r, Make(s, action, r.nextId))
  }

  /** `objectDeleted`, from position `i` on. */
  function DropAction(r: Registry, action: nat, i: nat): Registry
    decreases |r.shortcuts| - i
  {
    if i >= |r.shortcuts| then r
    else if r.shortcuts[i].action == action then DropAction(EraseAt(r, i), action, i)
    else DropAction(r, action, i + 1)
  }

  function Match(r: Registry, s: Shortcut): Registry {
    var i := Find(r.shortcuts, s);
    if i < |r.shortcuts| then r.(invoked := r.invoked + [r.shortcuts[i].action]) else r
  }

  // ---------- agreement ----------

  /** The three lists of registered gestures that shortcuts feed. */
  datatype Slot = PadSwipes | PadPinches | ScreenSwipes

  /** Where the gesture of a shortcut belongs: swipes by the device they are for, pinches all
      to the touchpad. */
  function SlotOf(s: Shortcut): Option<Slot> {
    match s
    case SwipeShortcut(Touchpad, _, _) => Some(PadSwipes)
    case SwipeShortcut(Touchscreen, _, _) => Some(ScreenSwipes)
    case RealtimeSwipe(Touchpad, _, _, _) => Some(PadSwipes)
    case RealtimeSwipe(Touchscreen, _, _, _) => Some(ScreenSwipes)
    case PinchShortcut(_, _) | RealtimePinch(_, _, _) => Some(PadPinches)
    case _ => None
  }

  predicate IsSwipe(s: Shortcut) { s.SwipeShortcut? || s.RealtimeSwipe? }

  predicate IsPinch(s: Shortcut) { s.PinchShortcut? || s.RealtimePinch? }

  /** The gesture is of the kind of the shortcut. */
  predicate WellMade(e: GlobalShortcut) {
    && (e.gesture.Some? && e.gesture.value.Swipe? <==> IsSwipe(e.shortcut))
    && (e.gesture.Some? && e.gesture.value.Pinch? <==> IsPinch(e.shortcut))
  }

  /** The gestures of the shortcuts that belong into a list, in the order of the shortcuts. */
  function GesturesFor(shortcuts: seq<GlobalShortcut>, slot: Slot): seq<Gesture> {
    if shortcuts == [] then [] else
      var e := shortcuts[|shortcuts| - 1];
      var gs := GesturesFor(shortcuts[..|shortcuts| - 1], slot);
      if e.gesture.Some? && SlotOf(e.shortcut) == Some(slot) then gs + [e.gesture.value] else gs
  }

  /** No two shortcuts are equal. */
  ghost predicate PairwiseUnequal(shortcuts: seq<GlobalShortcut>) {
    forall i, j :: 0 <= i < |shortcuts| && 0 <= j < |shortcuts| && i != j ==>
        !Same(shortcuts[i].shortcut, shortcuts[j].shortcut)
  }

  /** Every shortcut owns a gesture object of its own, allocated before `limit`. */
  ghost predicate OwnGestures(shortcuts: seq<GlobalShortcut>, limit: nat) {
    && (forall i :: 0 <= i < |shortcuts| && shortcuts[i].gesture.Some? ==> shortcuts[i].gesture.value.id < limit)
    && (forall i, j :: 0 <= i < j < |shortcuts| && shortcuts[i].gesture.Some? && shortcuts[j].gesture.Some? ==>
          shortcuts[i].gesture.value.id != shortcuts[j].gesture.value.id)
  }

  /** Each recognizer has registered exactly the gestures of its device's shortcuts, in the
      order of registration. */
  ghost predicate InStep(r: Registry) {
    && Sound(r.touchpad) && Sound(r.touchscreen)
    && r.touchpad.swipes == GesturesFor(r.shortcuts, PadSwipes)
    && r.touchscreen.swipes == GesturesFor(r.shortcuts, ScreenSwipes)
    && r.touchpad.pinches == GesturesFor(r.shortcuts, PadPinches)
    && r.touchscreen.pinches == []
  }

  ghost predicate Agreement(r: Registry) {
    PairwiseUnequal(r.shortcuts) && OwnGestures(r.shortcuts, r.nextId) && InStep(r)
  }

  lemma {:induction false} ListedGesture(shortcuts: seq<GlobalShortcut>, slot: Slot, g: Gesture)
    ensures g in GesturesFor(shortcuts, slot) <==>
      exists i :: 0 <= i < |shortcuts| && shortcuts[i].gesture == Some(g) && SlotOf(shortcuts[i].shortcut) == Some(slot)
  {
    if shortcuts != [] {
      var n := |shortcuts| - 1;
      ListedGesture(shortcuts[..n], slot, g);
      assert forall i :: 0 <= i < n ==> shortcuts[..n][i] == shortcuts[i];
    }
  }

  /** A gesture object allocated later than those of the registry is listed nowhere. */
  lemma NewGestureUnlisted(r: Registry, g: Gesture)
    requires Agreement(r) && g.id >= r.nextId
    ensures g !in r.touchpad.swipes && g !in r.touchpad.pinches && g !in r.touchscreen.swipes
  {
    ListedGesture(r.shortcuts, PadSwipes, g);
    ListedGesture(r.shortcuts, PadPinches, g);
    ListedGesture(r.shortcuts, ScreenSwipes, g);
  }

  lemma PushInStep(r: Registry, e: GlobalShortcut)
    requires InStep(r)
    requires e.gesture.Some? ==> e.gesture.value !in r.touchpad.swipes + r.touchpad.pinches + r.touchscreen.swipes
    requires WellMade(e)
    ensures InStep(Push(r, e))
  {
    var all := r.shortcuts + [e];
    assert all[..|all| - 1] == r.shortcuts;
    if e.gesture.Some? {
      var g := e.gesture.value;
      StepSound(r.touchpad, DoRegister(g));
      StepSound(r.touchscreen, DoRegister(g));
    }
  }

  lemma PushAgrees(r: Registry, s: Shortcut, action: nat)
    requires Agreement(r) && !Known(r.shortcuts, s)
    ensures Agreement(Push(r, Make(s, action, r.nextId)))
  {
    var e := Make(s, action, r.nextId);
    if e.gesture.Some? {
      NewGestureUnlisted(r, e.gesture.value);
    }
    PushInStep(r, e);
    AppendUnequal(r.shortcuts, e);
    AppendOwn(r.shortcuts, e, r.nextId);
  }

  lemma AppendOwn(shortcuts: seq<GlobalShortcut>, e: GlobalShortcut, id: nat)
    requires OwnGestures(shortcuts, id) && (e.gesture.Some? ==> e.gesture.value.id == id)
    ensures OwnGestures(shortcuts + [e], id + 1)
  {
  }

  lemma AppendUnequal(shortcuts: seq<GlobalShortcut>, e: GlobalShortcut)
    requires PairwiseUnequal(shortcuts) && !Known(shortcuts, e.shortcut)
    ensures PairwiseUnequal(shortcuts + [e])
  {
    forall k | 0 <= k < |shortcuts|
      ensures !Same(e.shortcut, shortcuts[k].shortcut) && !Same(shortcuts[k].shortcut, e.shortcut)
    {
      assert Same(e.shortcut, shortcuts[k].shortcut) == Same(shortcuts[k].shortcut, e.shortcut);
    }
  }

  function Drop(gs: seq<Gesture>, g: Option<Gesture>): seq<Gesture> {
    if g.None? then gs else Without(gs, g.value)
  }

  lemma GesturesAppend(init: seq<GlobalShortcut>, e: GlobalShortcut, slot: Slot)
    ensures GesturesFor(init + [e], slot) ==
      if e.gesture.Some? && SlotOf(e.shortcut) == Some(slot) then GesturesFor(init, slot) + [e.gesture.value]
          else GesturesFor(init, slot)
  {
    assert (init + [e])[..|init|] == init;
  }

  lemma UnsharedGesture(init: seq<GlobalShortcut>, e: GlobalShortcut, limit: nat, slot: Slot)
    requires OwnGestures(init + [e], limit)
    ensures Drop(GesturesFor(init + [e], slot), e.gesture) == GesturesFor(init, slot)
  {
    var all := init + [e];
    assert all[..|all| - 1] == init;
    if e.gesture.Some? {
      forall k | 0 <= k < |init| ensures init[k].gesture != e.gesture {
        assert all[k] == init[k] && all[|init|] == e;
      }
      ListedGesture(init, slot, e.gesture.value);
      WithoutAbsent(GesturesFor(init, slot), e.gesture.value);
    }
  }

  lemma RemovedLast(shortcuts: seq<GlobalShortcut>, i: nat)
    requires i < |shortcuts| - 1
    ensures var n := |shortcuts| - 1;
      Removed(shortcuts, i) == Removed(shortcuts[..n], i) + [shortcuts[n]]
  {
  }

  lemma DropBeforeLast(init: seq<GlobalShortcut>, rest: seq<GlobalShortcut>, e: GlobalShortcut, g: Option<Gesture>,
      slot: Slot)
    requires GesturesFor(rest, slot) == Drop(GesturesFor(init, slot), g)
    requires e.gesture.Some? ==> e.gesture != g
    ensures GesturesFor(rest + [e], slot) == Drop(GesturesFor(init + [e], slot), g)
  {
    GesturesAppend(init, e, slot);
    GesturesAppend(rest, e, slot);
    if g.Some? && e.gesture.Some? && SlotOf(e.shortcut) == Some(slot) {
      var gs := GesturesFor(init, slot);
      assert (gs + [e.gesture.value])[..|gs|] == gs;
    }
  }

  /** Taking one of several shortcuts with distinct gestures out of the list. */
  lemma {:induction false} RemovedLists(shortcuts: seq<GlobalShortcut>, limit: nat, i: nat, slot: Slot)
    requires OwnGestures(shortcuts, limit) && i < |shortcuts|
    ensures GesturesFor(Removed(shortcuts, i), slot) == Drop(GesturesFor(shortcuts, slot), shortcuts[i].gesture)
  {
    var n := |shortcuts| - 1;
    var init, e, g := shortcuts[..n], shortcuts[n], shortcuts[i].gesture;
    var rest := Removed(shortcuts, i);
    assert shortcuts == init + [e];
    if i == n {
      assert rest == init;
      UnsharedGesture(init, e, limit, slot);
    } else {
      assert e.gesture.Some? ==> e.gesture != g;
      RemovedLists(init, limit, i, slot);
      RemovedLast(shortcuts, i);
      DropBeforeLast(init, Removed(init, i), e, g, slot);
    }
  }

  lemma DestroyDelists(r: Recognizer, g: Gesture)
    requires Sound(r)
    ensures Sound(Destroy(r, g))
    ensures Destroy(r, g).swipes == Without(r.swipes, g) && Destroy(r, g).pinches == Without(r.pinches, g)
    ensures !Destroy(r, g).Active(g)
  {
    StepSound(r, DoDestroy(g));
    RemoveOneIsWithout(r.activeSwipes, g);
    RemoveOneIsWithout(r.activePinches, g);
    if g !in r.swipes { WithoutAbsent(r.swipes, g); }
    if g !in r.pinches { WithoutAbsent(r.pinches, g); }
  }

  lemma EraseAgrees(r: Registry, i: nat)
    requires Agreement(r) && i < |r.shortcuts|
    ensures Agreement(EraseAt(r, i))
  {
    RemovedLists(r.shortcuts, r.nextId, i, PadSwipes);
    RemovedLists(r.shortcuts, r.nextId, i, PadPinches);
    RemovedLists(r.shortcuts, r.nextId, i, ScreenSwipes);
    if r.shortcuts[i].gesture.Some? {
      DestroyDelists(r.touchpad, r.shortcuts[i].gesture.value);
      DestroyDelists(r.touchscreen, r.shortcuts[i].gesture.value);
    }
    RemovedKeeps(r.shortcuts, r.nextId, i);
  }

  lemma RemovedKeeps(shortcuts: seq<GlobalShortcut>, limit: nat, i: nat)
    requires PairwiseUnequal(shortcuts) && OwnGestures(shortcuts, limit) && i < |shortcuts|
    ensures PairwiseUnequal(Removed(shortcuts, i)) && OwnGestures(Removed(shortcuts, i), limit)
    ensures forall s :: Same(s, shortcuts[i].shortcut) ==> !Known(Removed(shortcuts, i), s)
  {
    forall s, k | Same(s, shortcuts[i].shortcut) && 0 <= k < |shortcuts| && k != i
      ensures !Same(s, shortcuts[k].shortcut)
    {
      assert !Same(shortcuts[k].shortcut, shortcuts[i].shortcut);
    }
  }

  lemma ForceAgrees(r: Registry, s: Shortcut, action: nat)
    requires Agreement(r)
    ensures Agreement(ForceRegister(r, s, action))
  {
    var i := Find(r.shortcuts, s);
    if i < |r.shortcuts| {
      EraseAgrees(r, i);
      RemovedKeeps(r.shortcuts, r.nextId, i);
      PushAgrees(EraseAt(r, i), s, action);
    } else {
      PushAgrees(r, s, action);
    }
  }

  function Differs(s: Shortcut): GlobalShortcut -> bool { (e: GlobalShortcut) => !Same(s, e.shortcut) }

  lemma {:induction false} RemovedIsFiltered(shortcuts: seq<GlobalShortcut>, s: Shortcut, i: nat)
    requires i < |shortcuts| && Same(s, shortcuts[i].shortcut)
    requires forall k :: 0 <= k < |shortcuts| && k != i ==> !Same(s, shortcuts[k].shortcut)
    ensures Removed(shortcuts, i) == Filter(shortcuts, Differs(s))
  {
    var a, e, b := shortcuts[..i], shortcuts[i], shortcuts[i + 1..];
    assert shortcuts == a + ([e] + b);
    FilterAppend(a, [e] + b, Differs(s));
    FilterHead([e] + b, Differs(s));
    assert ([e] + b)[1..] == b;
    FilterAll(a, Differs(s));
    FilterAll(b, Differs(s));
  }

  lemma EqualTakenOut(shortcuts: seq<GlobalShortcut>, s: Shortcut)
    requires PairwiseUnequal(shortcuts)
    ensures var i := Find(shortcuts, s);
      (if i < |shortcuts| then Removed(shortcuts, i) else shortcuts) == Filter(shortcuts, Differs(s))
  {
    var i := Find(shortcuts, s);
    if i < |shortcuts| {
      forall k | 0 <= k < |shortcuts| && k != i ensures !Same(s, shortcuts[k].shortcut) {
        assert !Same(shortcuts[i].shortcut, shortcuts[k].shortcut);
      }
      RemovedIsFiltered(shortcuts, s, i);
    } else {
      FilterAll(shortcuts, Differs(s));
    }
  }

  /** Forced registration replaces the equal shortcut, if there is one, and comes last. */
  lemma ForceReplaces(r: Registry, s: Shortcut, action: nat)
    requires PairwiseUnequal(r.shortcuts)
    ensures ForceRegister(r, s, action).shortcuts == Filter(r.shortcuts, Differs(s)) + [Make(s, action, r.nextId)]
  {
    var i, e := Find(r.shortcuts, s), Make(s, action, r.nextId);
    var base := if i < |r.shortcuts| then EraseAt(r, i) else r;
    assert base.shortcuts == Filter(r.shortcuts, Differs(s)) by { EqualTakenOut(r.shortcuts, s); }
    PushAppends(base, e);
    assert ForceRegister(r, s, action) == Push(base, e);
  }

  lemma PushAppends(r: Registry, e: GlobalShortcut)
    ensures Push(r, e).shortcuts == r.shortcuts + [e]
  {
  }

  function OtherAction(action: nat): GlobalShortcut -> bool { (e: GlobalShortcut) => e.action != action }

  lemma {:induction false} DropActionAgrees(r: Registry, action: nat, i: nat)
    requires Agreement(r)
    ensures Agreement(DropAction(r, action, i))
    decreases |r.shortcuts| - i
  {
    if i < |r.shortcuts| {
      if r.shortcuts[i].action == action {
        EraseAgrees(r, i);
        DropActionAgrees(EraseAt(r, i), action, i);
      } else {
        DropActionAgrees(r, action, i + 1);
      }
    }
  }

  /** Destroying an action removes exactly its shortcuts and keeps the order of the others. */
  lemma {:induction false} DropActionDrops(r: Registry, action: nat, i: nat)
    requires i <= |r.shortcuts|
    ensures DropAction(r, action, i).shortcuts == r.shortcuts[..i] + Filter(r.shortcuts[i..], OtherAction(action))
    decreases |r.shortcuts| - i
  {
    var rest := r.shortcuts[i..];
    if rest != [] {
      FilterHead(rest, OtherAction(action));
      assert rest[1..] == r.shortcuts[i + 1..];
      if r.shortcuts[i].action == action {
        DropActionDrops(EraseAt(r, i), action, i);
        RemovedTail(r.shortcuts, i);
      } else {
        DropActionDrops(r, action, i + 1);
        assert r.shortcuts[..i + 1] == r.shortcuts[..i] + [r.shortcuts[i]];
      }
    }
  }

  lemma RemovedTail(shortcuts: seq<GlobalShortcut>, i: nat)
    requires i < |shortcuts|
    ensures Removed(shortcuts, i)[..i] == shortcuts[..i] && Removed(shortcuts, i)[i..] == shortcuts[i + 1..]
  {
  }

  // ---------- runs ----------

  datatype Request =
    | Add(s: Shortcut, action: nat)
    | Force(s: Shortcut, action: nat)
    | ActionDestroyed(action: nat)
    | Press(s: Shortcut)
    | Input(device: Device, op: Op)

  /** What the input filters send to a recognizer: gestures are registered by shortcuts only. */
  predicate IsInput(op: Op) { !op.DoRegister? && !op.DoUnregister? && !op.DoDestroy? }

  function Handle(r: Registry, q: Request): Registry {
    match q
    case Add(s, action) => AddIfNotExists(r, s, action)
    case Force(s, action) => ForceRegister(r, s, action)
    case ActionDestroyed(action) => DropAction(r, action, 0)
    case Press(s) => Match(r, s)
    case Input(device, op) =>
      if !IsInput(op) then r
      else if device.Touchpad? then r.(touchpad := Step(r.touchpad, op))
      else r.(touchscreen := Step(r.touchscreen, op))
  }

  function HandleAll(qs: seq<Request>): Registry {
    if qs == [] then EmptyRegistry() else Handle(HandleAll(qs[..|qs| - 1]), qs[|qs| - 1])
  }

  lemma InputKeepsLists(r: Recognizer, op: Op)
    requires IsInput(op)
    ensures Step(r, op).swipes == r.swipes && Step(r, op).pinches == r.pinches
  {
  }

  lemma HandleAgrees(r: Registry, q: Request)
    requires Agreement(r)
    ensures Agreement(Handle(r, q))
  {
    match q
    case Add(s, action) => if !Known(r.shortcuts, s) { PushAgrees(r, s, action); }
    case Force(s, action) => ForceAgrees(r, s, action);
    case ActionDestroyed(action) => DropActionAgrees(r, action, 0);
    case Press(s) =>
    case Input(device, op) =>
      if IsInput(op) {
        InputKeepsLists(r.touchpad, op);
        InputKeepsLists(r.touchscreen, op);
        StepSound(r.touchpad, op);
        StepSound(r.touchscreen, op);
      }
  }

  /** After any requests the registry and the recognizers agree. */
  lemma {:induction false} AlwaysAgrees(qs: seq<Request>)
    ensures Agreement(HandleAll(qs))
  {
    if qs != [] {
      AlwaysAgrees(qs[..|qs| - 1]);
      HandleAgrees(HandleAll(qs[..|qs| - 1]), qs[|qs| - 1]);
    }
  }

  lemma UnlistedIsGone(r: Registry, g: Gesture)
    requires Agreement(r) && forall k :: 0 <= k < |r.shortcuts| ==> r.shortcuts[k].gesture != Some(g)
    ensures g !in r.touchpad.connections && g !in r.touchscreen.connections && !r.touchpad.Active(g) &&
        !r.touchscreen.Active(g)
  {
    ListedGesture(r.shortcuts, PadSwipes, g);
    ListedGesture(r.shortcuts, PadPinches, g);
    ListedGesture(r.shortcuts, ScreenSwipes, g);
  }

  lemma OthersKeepTheirs(shortcuts: seq<GlobalShortcut>, limit: nat, action: nat, i: nat)
    requires OwnGestures(shortcuts, limit) && i < |shortcuts|
    requires shortcuts[i].action == action && shortcuts[i].gesture.Some?
    ensures forall e :: e in Filter(shortcuts, OtherAction(action)) ==> e.gesture != shortcuts[i].gesture
  {
    forall e | e in Filter(shortcuts, OtherAction(action)) ensures e.gesture != shortcuts[i].gesture {
      var j :| 0 <= j < |shortcuts| && shortcuts[j] == e;
      assert j != i;
    }
  }

  /** Once its action is destroyed a shortcut is gone, its gesture is registered nowhere and
      is not active; the shortcuts of other actions stay. */
  lemma DestroyedActionIsGone(r: Registry, action: nat, i: nat)
    requires Agreement(r) && i < |r.shortcuts| && r.shortcuts[i].action == action
    ensures var s := Handle(r, ActionDestroyed(action));
      && s.shortcuts == Filter(r.shortcuts, OtherAction(action))
      && (r.shortcuts[i].gesture.Some? ==>
            var g := r.shortcuts[i].gesture.value;
            g !in s.touchpad.connections && g !in s.touchscreen.connections && !s.touchpad.Active(g) &&
                !s.touchscreen.Active(g))
  {
    DropActionAgrees(r, action, 0);
    DropActionDrops(r, action, 0);
    var s := DropAction(r, action, 0);
    assert r.shortcuts[0..] == r.shortcuts;
    if r.shortcuts[i].gesture.Some? {
      OthersKeepTheirs(r.shortcuts, r.nextId, action, i);
      UnlistedIsGone(s, r.shortcuts[i].gesture.value);
    }
  }

  /** A press invokes an action exactly when an equal shortcut is registered, and then that
      of the only one there is. */
  lemma PressInvokesTheOne(qs: seq<Request>, s: Shortcut, i: nat)
    requires i < |HandleAll(qs).shortcuts|
    ensures var r, t := HandleAll(qs), Match(HandleAll(qs), s);
      && (Same(s, r.shortcuts[i].shortcut) ==> t.invoked == r.invoked + [r.shortcuts[i].action])
      && ((forall k :: 0 <= k < |r.shortcuts| ==> !Same(s, r.shortcuts[k].shortcut)) ==> t == r)
  {
    AlwaysAgrees(qs);
    var r := HandleAll(qs);
    var k := Find(r.shortcuts, s);
    if Same(s, r.shortcuts[i].shortcut) {
      assert Same(r.shortcuts[k].shortcut, r.shortcuts[i].shortcut);
    }
  }
}
