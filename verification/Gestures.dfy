/** Gesture recognition (src/gestures.h, src/gestures.cpp): what a gesture is, what the
    recognizer knows, and what each of its operations does to that knowledge.
    The class that carries the operations out step by step is in GestureRecognizer.dfy. */
module Gestures {
  import opened Lists

  // ---------- numbers and points ----------

  datatype Point = Point(x: real, y: real)

  const ORIGIN := Point(0.0, 0.0)

  function Plus(p: Point, q: Point): Point { Point(p.x + q.x, p.y + q.y) }

  function Abs(r: real): (a: real)
    ensures a >= 0.0 && (a == r || a == -r)
  {
    if r < 0.0 then -r else r
  }

  /** The outcome of a floating-point division of finite numbers: rounding is not
      modelled, division by zero is. */
  datatype Double = Finite(value: real) | Infinite | NaN

  /** `num / den` for a non-negative `num`. */
  function Quotient(num: real, den: real): Double {
    if den != 0.0 then Finite(num / den) else if num == 0.0 then NaN else Infinite
  }

  /** `std::clamp(v, 0.0, 1.0)`; for a `v` that is not negative, also `std::min(v, 1.0)`. */
  function Clamp(v: Double): Double {
    match v
    case NaN => NaN
    case Infinite => Finite(1.0)
    case Finite(r) => Finite(if r < 0.0 then 0.0 else if 1.0 < r then 1.0 else r)
  }

  predicate Full(progress: Double) { progress.Finite? && progress.value >= 1.0 }

  // ---------- gestures ----------

  datatype SwipeDirection = Down | Left | Up | Right
  datatype PinchDirection = Expanding | Contracting
  datatype Axis = Horizontal | Vertical | NoAxis

  /** A gesture object. `id` stands for its address: two gestures with equal settings are
      still two gestures. A setting that is "not relevant" is None. */
  datatype Gesture =
    | Swipe(id: nat, minFingers: Option<nat>, maxFingers: Option<nat>, direction: SwipeDirection,
            minX: Option<int>, minY: Option<int>, maxX: Option<int>, maxY: Option<int>,
            minDelta: Option<Point>)
    | Pinch(id: nat, minFingers: Option<nat>, maxFingers: Option<nat>, pinchDirection: PinchDirection,
            minScaleDelta: real)

  function DeltaToProgress(g: Gesture, delta: Point): Double
    requires g.Swipe?
  {
    if g.minDelta.None? || g.minDelta.value == ORIGIN then Finite(1.0)
    else match g.direction
      case Up | Down => Clamp(Quotient(Abs(delta.y), Abs(g.minDelta.value.y)))
      case Left | Right => Clamp(Quotient(Abs(delta.x), Abs(g.minDelta.value.x)))
  }

  function ScaleToProgress(g: Gesture, scale: real): Double
    requires g.Pinch?
  {
    Clamp(Quotient(Abs(scale - 1.0), g.minScaleDelta))
  }

  /** The component of a distance that counts for a swipe direction. */
  function Along(d: SwipeDirection, p: Point): real {
    if d.Up? || d.Down? then p.y else p.x
  }

  /** A swipe is long enough exactly when the component along its direction is at least the
      required one; a required component of zero is never met by a zero movement (0/0). */
  lemma SwipeReachedIff(g: Gesture, delta: Point)
    requires g.Swipe?
    ensures Full(DeltaToProgress(g, delta)) <==>
      (g.minDelta.None? || g.minDelta.value == ORIGIN ||
       (Abs(Along(g.direction, delta)) >= Abs(Along(g.direction, g.minDelta.value)) &&
        Along(g.direction, delta) != 0.0))
  {
    if g.minDelta.Some? && g.minDelta.value != ORIGIN {
      var need, have := Abs(Along(g.direction, g.minDelta.value)), Abs(Along(g.direction, delta));
      if need != 0.0 {
        QuotientAtLeastOne(have, need);
      }
    }
  }

  lemma PinchReachedIff(g: Gesture, scale: real)
    requires g.Pinch?
    ensures Full(ScaleToProgress(g, scale)) <==>
      (g.minScaleDelta >= 0.0 && Abs(scale - 1.0) >= g.minScaleDelta && scale != 1.0)
  {
    if g.minScaleDelta > 0.0 {
      QuotientAtLeastOne(Abs(scale - 1.0), g.minScaleDelta);
    } else if g.minScaleDelta < 0.0 {
      assert Abs(scale - 1.0) / g.minScaleDelta <= 0.0;
    }
  }

  /** Progress is reported within [0, 1], except that there is none (0/0) for a required
      component of zero without any movement along it. */
  lemma SwipeProgressInUnit(g: Gesture, delta: Point)
    requires g.Swipe?
    ensures var p := DeltaToProgress(g, delta);
      var need := if g.minDelta.Some? then Along(g.direction, g.minDelta.value) else 1.0;
      if g.minDelta.Some? && g.minDelta.value != ORIGIN && need == 0.0 && Along(g.direction, delta) == 0.0 then p == NaN
      else p.Finite? && 0.0 <= p.value <= 1.0
  {
  }

  lemma PinchProgressInUnit(g: Gesture, scale: real)
    requires g.Pinch?
    ensures var p := ScaleToProgress(g, scale);
      if g.minScaleDelta == 0.0 && scale == 1.0 then p == NaN else p.Finite? && 0.0 <= p.value <= 1.0
  {
  }

  lemma QuotientAtLeastOne(num: real, den: real)
    requires den > 0.0
    ensures num / den >= 1.0 <==> num >= den
  {
    assert num / den * den == num;
  }

  // ---------- signals ----------

  datatype Signal = Started | Triggered | Cancelled | Progress(progress: Double) | DeltaProgress(delta: Point)

  datatype Event = Event(gesture: Gesture, signal: Signal)

  /** The signals of `f` emitted for each gesture of the list in turn. */
  function Emit(gs: seq<Gesture>, f: Gesture -> seq<Signal>): seq<Event> {
    if gs == [] then [] else
      var g := gs[|gs| - 1];
      Emit(gs[..|gs| - 1], f) + Tag(g, f(g))
  }

  function Tag(g: Gesture, signals: seq<Signal>): seq<Event> {
    seq(|signals|, i requires 0 <= i < |signals| => Event(g, signals[i]))
  }

  function Starting(): Gesture -> seq<Signal> { (g: Gesture) => [Started] }

  function Cancelling(): Gesture -> seq<Signal> { (g: Gesture) => [Cancelled] }

  function Reporting(delta: Point): Gesture -> seq<Signal> {
    (g: Gesture) => if g.Swipe? then [Progress(DeltaToProgress(g, delta)), DeltaProgress(delta)] else []
  }

  function Scaling(scale: real): Gesture -> seq<Signal> {
    (g: Gesture) => if g.Pinch? then [Progress(ScaleToProgress(g, scale))] else []
  }

  /** The verdict on an active gesture when the fingers are lifted. */
  predicate Completed(g: Gesture, delta: Point, scale: real) {
    if g.Swipe? then Full(DeltaToProgress(g, delta)) else Full(ScaleToProgress(g, scale))
  }

  function Ending(delta: Point, scale: real): Gesture -> seq<Signal> {
    (g: Gesture) => [if Completed(g, delta, scale) then Triggered else Cancelled]
  }

  // ---------- the recognizer ----------

  datatype Recognizer = Recognizer(
    swipes: seq<Gesture>, pinches: seq<Gesture>,
    activeSwipes: seq<Gesture>, activePinches: seq<Gesture>,
    connections: set<Gesture>,
    delta: Point, scale: real, fingers: nat, axis: Axis,
    emitted: seq<Event>)
  {
    predicate Busy() { activeSwipes != [] || activePinches != [] }

    predicate Active(g: Gesture) { g in activeSwipes || g in activePinches }

    function Emitting(gs: seq<Gesture>, f: Gesture -> seq<Signal>): Recognizer {
      this.(emitted := emitted + Emit(gs, f))
    }
  }

  function Fresh(): Recognizer {
    Recognizer([], [], [], [], {}, ORIGIN, 1.0, 0, NoAxis, [])
  }

  predicate FitsFingers(g: Gesture, fingers: nat) {
    && (g.minFingers.Some? ==> g.minFingers.value <= fingers)
    && (g.maxFingers.Some? ==> fingers <= g.maxFingers.value)
  }

  predicate FitsStart(g: Gesture, pos: Point)
    requires g.Swipe?
  {
    && (g.minX.Some? ==> g.minX.value as real <= pos.x)
    && (g.maxX.Some? ==> pos.x <= g.maxX.value as real)
    && (g.minY.Some? ==> g.minY.value as real <= pos.y)
    && (g.maxY.Some? ==> pos.y <= g.maxY.value as real)
  }

  predicate OnAxis(d: SwipeDirection, axis: Axis) {
    match d
    case Up | Down => axis != Horizontal
    case Left | Right => axis != Vertical
  }

  /** A swipe bounded on all four sides starts at a touchscreen border. */
  predicate FourSided(g: Gesture)
    requires g.Swipe?
  {
    g.minX.Some? && g.maxX.Some? && g.minY.Some? && g.maxY.Some?
  }

  predicate Startable(g: Gesture, fingers: nat, start: Option<Point>, axis: Axis) {
    g.Swipe? && FitsFingers(g, fingers) && (start.Some? ==> FitsStart(g, start.value)) && OnAxis(g.direction, axis)
  }

  predicate Follows(g: Gesture, d: SwipeDirection) {
    g.Swipe? && (g.direction == d || FourSided(g))
  }

  function IsStartable(fingers: nat, start: Option<Point>, axis: Axis): Gesture -> bool {
    (g: Gesture) => Startable(g, fingers, start, axis)
  }

  function FollowsHeading(d: SwipeDirection): Gesture -> bool { (g: Gesture) => Follows(g, d) }

  function IsPinchable(fingers: nat): Gesture -> bool { (g: Gesture) => FitsFingers(g, fingers) }

  function Pinches(d: PinchDirection): Gesture -> bool { (g: Gesture) => g.Pinch? && g.pinchDirection == d }

  function Not(p: Gesture -> bool): Gesture -> bool { (g: Gesture) => !p(g) }

  /** The axis a swipe moves on: the locked one, otherwise that of the larger component. */
  function SwipeAxis(locked: Axis, delta: Point): Axis {
    if locked != NoAxis then locked else if Abs(delta.x) >= Abs(delta.y) then Horizontal else Vertical
  }

  /** The axis stays open while the movement is short. */
  function LockAxis(locked: Axis, delta: Point): Axis {
    if locked == NoAxis && (Abs(delta.x) >= 5.0 || Abs(delta.y) >= 5.0) then SwipeAxis(locked, delta) else locked
  }

  function Heading(locked: Axis, delta: Point): SwipeDirection {
    if SwipeAxis(locked, delta).Vertical? then (if delta.y < 0.0 then Up else Down)
    else (if delta.x < 0.0 then Left else Right)
  }

  function PinchHeading(scale: real): PinchDirection {
    if scale < 1.0 then Contracting else Expanding
  }

  function RegisterSwipe(r: Recognizer, g: Gesture): Recognizer {
    r.(swipes := r.swipes + [g], connections := r.connections + {g})
  }

  function RegisterPinch(r: Recognizer, g: Gesture): Recognizer {
    r.(pinches := r.pinches + [g], connections := r.connections + {g})
  }

  function UnregisterSwipe(r: Recognizer, g: Gesture): Recognizer {
    r.(connections := r.connections - {g}, swipes := Without(r.swipes, g),
       activeSwipes := RemoveOne(r.activeSwipes, g),
       emitted := r.emitted + (if g in r.activeSwipes then [Event(g, Cancelled)] else []))
  }

  function UnregisterPinch(r: Recognizer, g: Gesture): Recognizer {
    r.(connections := r.connections - {g}, pinches := Without(r.pinches, g),
       activePinches := RemoveOne(r.activePinches, g),
       emitted := r.emitted + (if g in r.activePinches then [Event(g, Cancelled)] else []))
  }

  /** The gesture object goes away: its `destroyed` signal reaches the recognizer only over
      a stored connection. */
  function Destroy(r: Recognizer, g: Gesture): Recognizer {
    if g !in r.connections then r else if g.Swipe? then UnregisterSwipe(r, g) else UnregisterPinch(r, g)
  }

  function StartSwipe(r: Recognizer, fingers: nat, start: Option<Point>): Recognizer {
    var r := r.(fingers := fingers);
    if r.Busy() then r else
      var gs := Filter(r.swipes, IsStartable(fingers, start, r.axis));
      r.(activeSwipes := gs).Emitting(gs, Starting())
  }

  /** One round of elimination: restart when nothing is active, then drop what does not follow. */
  function SwipePass(r: Recognizer, d: SwipeDirection): Recognizer {
    var r := if r.activeSwipes == [] then StartSwipe(r, r.fingers, None) else r;
    r.(activeSwipes := Filter(r.activeSwipes, FollowsHeading(d)))
     .Emitting(Filter(r.activeSwipes, Not(FollowsHeading(d))), Cancelling())
  }

  function UpdateSwipe(r: Recognizer, delta: Point): Recognizer {
    var moved := Plus(r.delta, delta);
    var d := Heading(r.axis, moved);
    var r := r.(delta := moved, axis := LockAxis(r.axis, moved));
    var r := SwipePass(SwipePass(r, d), d);
    r.Emitting(r.activeSwipes, Reporting(moved))
  }

  function CancelActive(r: Recognizer): Recognizer {
    r.(activeSwipes := [], activePinches := [], scale := 0.0, delta := ORIGIN, axis := NoAxis)
     .Emitting(r.activeSwipes + r.activePinches, Cancelling())
  }

  function CancelSwipe(r: Recognizer): Recognizer {
    CancelActive(r).(fingers := 0)
  }

  function EndSwipe(r: Recognizer): Recognizer {
    r.(activeSwipes := [], fingers := 0, delta := ORIGIN, axis := NoAxis)
     .Emitting(r.activeSwipes, Ending(r.delta, r.scale))
  }

  function StartPinch(r: Recognizer, fingers: nat): Recognizer {
    var r := r.(fingers := fingers);
    if r.Busy() then r else
      var gs := Filter(r.pinches, IsPinchable(fingers));
      r.(activePinches := gs).Emitting(gs, Starting())
  }

  function PinchPass(r: Recognizer, d: PinchDirection): Recognizer {
    var r := if r.activePinches == [] then StartPinch(r, r.fingers) else r;
    r.(activePinches := Filter(r.activePinches, Pinches(d)))
     .Emitting(Filter(r.activePinches, Not(Pinches(d))), Cancelling())
  }

  function UpdatePinch(r: Recognizer, scale: real): Recognizer {
    var r := r.(scale := scale);
    var r := PinchPass(PinchPass(r, PinchHeading(scale)), PinchHeading(scale));
    r.Emitting(r.activePinches, Scaling(scale))
  }

  function CancelPinch(r: Recognizer): Recognizer {
    CancelActive(r).(scale := 1.0, fingers := 0)
  }

  /** Active swipes are forgotten here without a signal, and the delta is kept. */
  function EndPinch(r: Recognizer): Recognizer {
    r.(activeSwipes := [], activePinches := [], scale := 1.0, fingers := 0, axis := NoAxis)
     .Emitting(r.activePinches, Ending(r.delta, r.scale))
  }

  // ---------- runs ----------

  datatype Op =
    | DoRegister(g: Gesture) | DoUnregister(g: Gesture) | DoDestroy(g: Gesture)
    | DoStartSwipe(n: nat) | DoStartSwipeAt(pos: Point) | DoUpdateSwipe(move: Point) | DoCancelSwipe | DoEndSwipe
    | DoStartPinch(n: nat) | DoUpdatePinch(factor: real) | DoCancelPinch | DoEndPinch

  function Step(r: Recognizer, op: Op): Recognizer {
    match op
    case DoRegister(g) => if g.Swipe? then RegisterSwipe(r, g) else RegisterPinch(r, g)
    case DoUnregister(g) => if g.Swipe? then UnregisterSwipe(r, g) else UnregisterPinch(r, g)
    case DoDestroy(g) => Destroy(r, g)
    case DoStartSwipe(n) => StartSwipe(r, n, None)
    case DoStartSwipeAt(pos) => StartSwipe(r, 1, Some(pos))
    case DoUpdateSwipe(move) => UpdateSwipe(r, move)
    case DoCancelSwipe => CancelSwipe(r)
    case DoEndSwipe => EndSwipe(r)
    case DoStartPinch(n) => StartPinch(r, n)
    case DoUpdatePinch(factor) => UpdatePinch(r, factor)
    case DoCancelPinch => CancelPinch(r)
    case DoEndPinch => EndPinch(r)
  }

  /** What the recognizer asserts of its callers: no gesture is registered twice. */
  predicate Allowed(r: Recognizer, op: Op) {
    op.DoRegister? ==> op.g !in r.swipes && op.g !in r.pinches
  }

  function Run(ops: seq<Op>): Recognizer {
    if ops == [] then Fresh() else Step(Run(ops[..|ops| - 1]), ops[|ops| - 1])
  }

  predicate Legal(ops: seq<Op>) {
    ops == [] || (Legal(ops[..|ops| - 1]) && Allowed(Run(ops[..|ops| - 1]), ops[|ops| - 1]))
  }
}
