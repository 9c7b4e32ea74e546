/** The multi-finger touch state machine of `GlobalShortcutFilter` (src/input.cpp): which
    calls its touch events make on the touchscreen recognizer, and when the two agree. */
module TouchSession {
  import opened Lists
  import opened Gestures
  import opened GestureProtocol

  datatype Touch = Touch(points: map<int, Point>, taken: bool, cancelled: bool, lastDown: int)

  const UNTOUCHED := Touch(map[], false, false, 0)

  /** The calls on the shortcuts manager, all for the touchscreen. */
  datatype Call = Start(n: nat) | Update(delta: Point) | Cancel | End

  /** Touch events; `fx` and `fy` are the millimetres per pixel of the output at `pos`, times
      are in microseconds. */
  datatype TouchEvent =
    | Press(id: int, pos: Point, time: int, fx: real, fy: real)
    | Motion(id: int, pos: Point, fx: real, fy: real)
    | Lift(id: int)
    | CancelAll

  datatype Reaction = Reaction(next: Touch, call: Option<Call>, consumed: bool)

  /** The point is less than 50 mm away. */
  predicate Near(point: Point, pos: Point, fx: real, fy: real) {
    Abs(fx * (pos.x - point.x)) + Abs(fy * (pos.y - point.y)) < 50.0
  }

  predicate DistanceMatch(points: map<int, Point>, pos: Point, fx: real, fy: real) {
    exists id :: id in points && Near(points[id], pos, fx, fy)
  }

  function TouchDown(t: Touch, id: int, pos: Point, time: int, fx: real, fy: real): Reaction {
    if t.taken then Reaction(t.(cancelled := true), Some(Cancel), true) else
      var t := t.(points := t.points[id := pos]);
      if |t.points| != 1 && time - t.lastDown > 250_000 then Reaction(t.(cancelled := true), None, false)
      else
        var late := |t.points| != 1;
        var t := t.(lastDown := time);
        if late && !DistanceMatch(t.points, pos, fx, fy) then Reaction(t.(cancelled := true), None, false)
        else if |t.points| >= 3 && !t.cancelled then Reaction(t.(taken := true), Some(Start(|t.points|)), true)
        else Reaction(t, None, false)
  }

  /** The movement of one of `n` fingers, in fifths of a millimetre. */
  function SwipeDelta(from: Point, pos: Point, fx: real, fy: real, n: nat): Point
    requires n > 0
  {
    Point(5.0 * (fx * (pos.x - from.x)) / n as real, 5.0 * (fy * (pos.y - from.y)) / n as real)
  }

  /** A motion of an unknown finger starts from the origin, as the map inserts it there. */
  function TouchMotion(t: Touch, id: int, pos: Point, fx: real, fy: real): Reaction {
    if !t.taken then Reaction(t, None, false)
    else if t.cancelled then Reaction(t, None, true)
    else
      var from := if id in t.points then t.points[id] else ORIGIN;
      var points := t.points[id := pos];
      Reaction(t.(points := points), Some(Update(SwipeDelta(from, pos, fx, fy, |points|))), true)
  }

  function TouchUp(t: Touch, id: int): Reaction {
    var points := t.points - {id};
    if t.taken then
      Reaction(t.(points := points, taken := |points| > 0, cancelled := |points| > 0),
               if t.cancelled then None else Some(End), true)
    else
      Reaction(t.(points := points, cancelled := t.cancelled && |points| > 0), None, false)
  }

  function TouchCancel(t: Touch): Reaction {
    Reaction(t.(points := map[], taken := false, cancelled := false), None, t.taken)
  }

  function React(t: Touch, e: TouchEvent): Reaction {
    match e
    case Press(id, pos, time, fx, fy) => TouchDown(t, id, pos, time, fx, fy)
    case Motion(id, pos, fx, fy) => TouchMotion(t, id, pos, fx, fy)
    case Lift(id) => TouchUp(t, id)
    case CancelAll => TouchCancel(t)
  }

  /** What a press makes of the flags and whom it calls: in a session it cancels; otherwise the
      third finger starts one, unless it, or one before it, came later than a quarter of a
      second after the finger before. */
  lemma PressSends(t: Touch, id: int, pos: Point, time: int, fx: real, fy: real)
    ensures var r, points := React(t, Press(id, pos, time, fx, fy)), t.points[id := pos];
      if t.taken then r == Reaction(t.(cancelled := true), Some(Cancel), true)
      else
        var late := |points| > 1 && time > t.lastDown + 250_000;
        && r.next.points == points && r.next.lastDown == (if late then t.lastDown else time)
        && r.next.cancelled == (t.cancelled || late)
        && r.next.taken == (|points| >= 3 && !t.cancelled && !late) == r.consumed
        && r.call == if r.next.taken then Some(Start(|points|)) else None
  {
    DistanceTestNeverFails(t.points, id, pos, fx, fy);
    assert id in t.points[id := pos] && |t.points[id := pos]| != 0;
  }

  /** What a motion sends: nothing unless a session is open; otherwise five times the way of
      the finger in millimetres, shared among the fingers, horizontal and vertical apart. A
      finger that is not tracked comes from the origin and counts from now on. */
  lemma MotionSends(t: Touch, id: int, pos: Point, fx: real, fy: real)
    ensures var r := React(t, Motion(id, pos, fx, fy));
      if !t.taken || t.cancelled then r == Reaction(t, None, t.taken)
      else
        var points, from := t.points[id := pos], if id in t.points then t.points[id] else Point(0.0, 0.0);
        && r.next == t.(points := points) && r.consumed && r.call.Some? && r.call.value.Update?
        && r.call.value.delta.x * |points| as real == 5.0 * fx * (pos.x - from.x)
        && r.call.value.delta.y * |points| as real == 5.0 * fy * (pos.y - from.y)
  {
    assert id in t.points[id := pos] && |t.points[id := pos]| != 0;
    var from := if id in t.points then t.points[id] else ORIGIN;
    Shared(fx, pos.x - from.x, |t.points[id := pos]| as real);
    Shared(fy, pos.y - from.y, |t.points[id := pos]| as real);
  }

  lemma Shared(f: real, way: real, n: real)
    requires n > 0.0
    ensures 5.0 * (f * way) / n * n == 5.0 * f * way
  {
    var k := 5.0 * (f * way);
    assert k / n * n == k;
  }

  /** What lifting a finger does: in a session that is not cancelled it ends it; the flags hold
      as long as another finger is tracked, a taken session being over by then. */
  lemma LiftSends(t: Touch, id: int)
    ensures var r, points := React(t, Lift(id)), t.points - {id};
      && r.next == Touch(points, t.taken && points != map[], (t.taken || t.cancelled) && points != map[], t.lastDown)
      && r.call == (if t.taken && !t.cancelled then Some(End) else None)
      && r.consumed == t.taken
  {
    EmptyMap(t.points - {id});
  }

  /** A cancel from outside calls nobody: it clears the flags and forgets the fingers. */
  lemma OutsideCancelSends(t: Touch)
    ensures React(t, CancelAll) == Reaction(Touch(map[], false, false, t.lastDown), None, t.taken)
  {
  }

  /** The distance test looks at the finger that just came down as well, so it never fails. */
  lemma DistanceTestNeverFails(points: map<int, Point>, id: int, pos: Point, fx: real, fy: real)
    ensures DistanceMatch(points[id := pos], pos, fx, fy)
  {
    var q := points[id := pos];
    assert id in q && Near(q[id], pos, fx, fy);
  }

  /** Two movements of a finger add up to the movement over both. */
  lemma DeltasTelescope(a: Point, b: Point, c: Point, fx: real, fy: real, n: nat)
    requires n > 0
    ensures Plus(SwipeDelta(a, b, fx, fy, n), SwipeDelta(b, c, fx, fy, n)) == SwipeDelta(a, c, fx, fy, n)
  {
    Telescopes(a.x, b.x, c.x, fx, n as real);
    Telescopes(a.y, b.y, c.y, fy, n as real);
  }

  lemma Telescopes(a: real, b: real, c: real, f: real, n: real)
    requires n > 0.0
    ensures 5.0 * (f * (b - a)) / n + 5.0 * (f * (c - b)) / n == 5.0 * (f * (c - a)) / n
  {
    assert f * (b - a) + f * (c - b) == f * (c - a);
    assert 5.0 * (f * (b - a)) + 5.0 * (f * (c - b)) == 5.0 * (f * (c - a));
  }

  // ---------- fingers the filter does not track ----------

  lemma OtherWay(a: real, was: real, n: real)
    requires a != 0.0 && n >= 1.0
    ensures var pos := if was == 0.0 then 1.0 else was;
      5.0 * (a * (pos - 0.0)) / (n + 1.0) != 5.0 * (a * (pos - was)) / n
  {
    if was == 0.0 {
      var k := 5.0 * a;
      assert 5.0 * (a * (1.0 - 0.0)) == k && 5.0 * (a * (1.0 - was)) == k;
      assert k / (n + 1.0) * (n + 1.0) == k && k / n * n == k;
      if k / (n + 1.0) == k / n {
        assert k / n * (n + 1.0) == k / n * n + k / n;
      }
    } else {
      var k := 5.0 * (a * was);
      assert k != 0.0;
      assert 5.0 * (a * (was - 0.0)) == k && 5.0 * (a * (was - was)) == 0.0;
      assert k / (n + 1.0) * (n + 1.0) == k;
    }
  }

  function ElsewhereThan(was: Point): Point {
    Point(if was.x == 0.0 then 1.0 else was.x, if was.y == 0.0 then 1.0 else was.y)
  }

  lemma WaysDiffer(was: Point, fx: real, fy: real, n: nat)
    requires n > 0
    ensures fx != 0.0 || fy != 0.0 ==>
      SwipeDelta(ORIGIN, ElsewhereThan(was), fx, fy, n + 1) != SwipeDelta(was, ElsewhereThan(was), fx, fy, n)
    ensures fx == 0.0 && fy == 0.0 ==>
      forall pos :: SwipeDelta(ORIGIN, pos, fx, fy, n + 1) == SwipeDelta(was, pos, fx, fy, n)
  {
    assert (n + 1) as real == n as real + 1.0;
    if fx != 0.0 {
      OtherWay(fx, was.x, n as real);
    } else if fy != 0.0 {
      OtherWay(fy, was.y, n as real);
    }
  }

  lemma FromOrigin(t: Touch, id: int, pos: Point, fx: real, fy: real)
    requires t.taken && !t.cancelled && id !in t.points
    ensures React(t, Motion(id, pos, fx, fy)).call == Some(Update(SwipeDelta(ORIGIN, pos, fx, fy, |t.points| + 1)))
  {
    assert t.points[id := pos].Keys == t.points.Keys + {id};
    assert |t.points[id := pos]| == |t.points| + 1;
  }

  /** A motion to `pos` is sent as the movement from `was`, with as many fingers as tracked. */
  predicate SendsMovement(t: Touch, id: int, was: Point, pos: Point, fx: real, fy: real)
    requires |t.points| > 0
  {
    TouchMotion(t, id, pos, fx, fy).call == Some(Update(SwipeDelta(was, pos, fx, fy, |t.points|)))
  }

  /** The update sent for a motion is the finger's movement from where it was last noted,
      wherever it moves to, exactly if the filter tracks the finger (or no movement counts). */
  lemma UpdateIsMovementIff(t: Touch, id: int, was: Point, fx: real, fy: real)
    requires t.taken && !t.cancelled && |t.points| > 0
    requires id in t.points ==> was == t.points[id]
    ensures (forall pos :: SendsMovement(t, id, was, pos, fx, fy)) <==> id in t.points || (fx == 0.0 && fy == 0.0)
  {
    if id in t.points {
      forall pos ensures SendsMovement(t, id, was, pos, fx, fy) {
        assert t.points[id := pos].Keys == t.points.Keys;
      }
    } else {
      forall pos
        ensures SendsMovement(t, id, was, pos, fx, fy) <==>
          SwipeDelta(ORIGIN, pos, fx, fy, |t.points| + 1) == SwipeDelta(was, pos, fx, fy, |t.points|)
      {
        FromOrigin(t, id, pos, fx, fy);
      }
      WaysDiffer(was, fx, fy, |t.points|);
      assert SendsMovement(t, id, was, ElsewhereThan(was), fx, fy) ==> fx == 0.0 && fy == 0.0;
    }
  }

  function Fold(t: Touch, es: seq<TouchEvent>): Touch {
    if es == [] then t else React(Fold(t, es[..|es| - 1]), es[|es| - 1]).next
  }

  lemma {:induction false} FoldAppend(t: Touch, a: seq<TouchEvent>, b: seq<TouchEvent>)
    ensures Fold(t, a + b) == Fold(Fold(t, a), b)
  {
    if b == [] {
      assert a + b == a;
    } else {
      assert (a + b)[..|a + b| - 1] == a + b[..|b| - 1];
      FoldAppend(t, a, b[..|b| - 1]);
    }
  }

  function ThreePresses(a: int, b: int, c: int, p: Point, time: int): seq<TouchEvent> {
    [Press(a, p, time, 1.0, 1.0), Press(b, p, time, 1.0, 1.0), Press(c, p, time, 1.0, 1.0)]
  }

  /** Three fingers put down together start a session. */
  lemma ThreeDown(t: Touch, a: int, b: int, c: int, p: Point)
    requires t.points == map[] && Tracking(t) && a != b && b != c && c != a
    ensures Fold(t, ThreePresses(a, b, c, p, t.lastDown)) == Touch(map[a := p, b := p, c := p], true, false, t.lastDown)
  {
    DistanceTestNeverFails(map[a := p], b, p, 1.0, 1.0);
    DistanceTestNeverFails(map[a := p, b := p], c, p, 1.0, 1.0);
    var es := ThreePresses(a, b, c, p, t.lastDown);
    assert es[..2][..1] == es[..1] && es[..1][..0] == [];
    assert Fold(t, es[..1]) == Touch(map[a := p], false, false, t.lastDown);
    assert Fold(t, es[..2]) == Touch(map[a := p, b := p], false, false, t.lastDown);
    assert |map[a := p, b := p, c := p]| == 3;
  }

  /** A fourth finger cancels the session, and the others are lifted again. */
  function FourthComes(a: int, b: int, c: int, d: int, p: Point, time: int): seq<TouchEvent> {
    [Press(d, p, time, 1.0, 1.0), Lift(a), Lift(b), Lift(c)]
  }

  lemma LiftOne(t: Touch, id: int, rest: map<int, Point>)
    requires t.taken && t.cancelled && t.points - {id} == rest
    ensures React(t, Lift(id)).next == Touch(rest, |rest| > 0, |rest| > 0, t.lastDown)
  {
  }

  lemma PointsLeft(a: int, b: int, c: int, p: Point)
    requires a != b && b != c && c != a
    ensures map[a := p, b := p, c := p] - {a} == map[b := p, c := p]
    ensures map[b := p, c := p] - {b} == map[c := p] && map[c := p] - {c} == map[]
    ensures |map[b := p, c := p]| == 2 && |map[c := p]| == 1
  {
  }

  lemma OnlyFourthLeft(t: Touch, a: int, b: int, c: int, d: int, p: Point, time: int)
    requires t.points == map[a := p, b := p, c := p] && t.taken && a != b && b != c && c != a
    ensures Fold(t, FourthComes(a, b, c, d, p, time)) == Touch(map[], false, false, t.lastDown)
  {
    var es := FourthComes(a, b, c, d, p, time);
    var two, one := map[b := p, c := p], map[c := p];
    PointsLeft(a, b, c, p);
    var cancelled := Touch(t.points, true, true, t.lastDown);
    assert Fold(t, es[..1]) == cancelled by { assert es[..1][..0] == []; }
    LiftOne(cancelled, a, two);
    assert Fold(t, es[..2]) == Touch(two, true, true, t.lastDown) by { assert es[..2][..1] == es[..1]; }
    LiftOne(Touch(two, true, true, t.lastDown), b, one);
    assert Fold(t, es[..3]) == Touch(one, true, true, t.lastDown) by { assert es[..3][..2] == es[..2]; }
    LiftOne(Touch(one, true, true, t.lastDown), c, map[]);
  }

  /** Three fingers come, a fourth one, the three are lifted and come again. */
  function FourthStays(a: int, b: int, c: int, d: int, p: Point, time: int): seq<TouchEvent> {
    ThreePresses(a, b, c, p, time) + FourthComes(a, b, c, d, p, time) + ThreePresses(a, b, c, p, time)
  }

  /** Then a session starts without the fourth finger, which has stayed down, and its next
      motion is sent as if it had come from the origin. */
  lemma UntrackedFingerJumps(t: Touch, a: int, b: int, c: int, d: int, p: Point, pos: Point, fx: real, fy: real)
    requires t.points == map[] && Tracking(t) && a != b && b != c && c != a && d !in {a, b, c}
    ensures var s := Fold(t, FourthStays(a, b, c, d, p, t.lastDown));
      React(s, Motion(d, pos, fx, fy)).call == Some(Update(SwipeDelta(ORIGIN, pos, fx, fy, 4)))
  {
    var three, fourth := ThreePresses(a, b, c, p, t.lastDown), FourthComes(a, b, c, d, p, t.lastDown);
    ThreeDown(t, a, b, c, p);
    OnlyFourthLeft(Fold(t, three), a, b, c, d, p, t.lastDown);
    FoldAppend(t, three, fourth);
    ThreeDown(Fold(t, three + fourth), a, b, c, p);
    FoldAppend(t, three + fourth, three);
    FromOrigin(Fold(t, FourthStays(a, b, c, d, p, t.lastDown)), d, pos, fx, fy);
    assert |map[a := p, b := p, c := p]| == 3;
  }

  // ---------- sessions ----------

  /** What the recognizer is told: a session is opened by a start and closed by an end or a
      cancel; starting twice, or updating and ending without a session, is a violation. */
  datatype Session = Closed | Opened | Violated

  function NextSession(s: Session, c: Call): Session {
    match c
    case Start(_) => if s == Closed then Opened else Violated
    case Update(_) => if s == Opened then Opened else Violated
    case End => if s == Opened then Closed else Violated
    case Cancel => if s == Violated then Violated else Closed
  }

  /** The filter, the session it has led the recognizer through, and what the recognizer was
      told altogether, by the filter or by the registration of shortcuts. */
  datatype Screen = Screen(touch: Touch, session: Session, history: seq<Op>)
  {
    function Recognizer(): Recognizer { Run(history) }

    predicate SessionOpen() { touch.taken && !touch.cancelled }
  }

  function OpOf(c: Call): Op {
    match c
    case Start(n) => DoStartSwipe(n)
    case Update(delta) => DoUpdateSwipe(delta)
    case Cancel => DoCancelSwipe
    case End => DoEndSwipe
  }

  datatype ScreenEvent = Touched(e: TouchEvent) | Registration(op: Op)

  predicate IsRegistration(op: Op) { op.DoRegister? || op.DoUnregister? || op.DoDestroy? }

  function Advance(s: Screen, e: ScreenEvent): Screen {
    match e
    case Registration(op) =>
      if IsRegistration(op) && Allowed(s.Recognizer(), op) then s.(history := s.history + [op]) else s
    case Touched(e) =>
      var r := React(s.touch, e);
      if r.call.None? then s.(touch := r.next)
      else Screen(r.next, NextSession(s.session, r.call.value), s.history + [OpOf(r.call.value)])
  }

  function AdvanceAll(es: seq<ScreenEvent>): Screen {
    if es == [] then Screen(UNTOUCHED, Closed, []) else Advance(AdvanceAll(es[..|es| - 1]), es[|es| - 1])
  }

  // ---------- agreement of filter and session ----------

  /** The flags are set only while fingers are tracked. */
  predicate Tracking(t: Touch) { t.points == map[] ==> !t.taken && !t.cancelled }

  predicate InSession(s: Screen) {
    s.session == if s.SessionOpen() then Opened else Closed
  }

  /** The recognizer still has a session the filter does not know of, or was misled already. */
  predicate OutOfSession(s: Screen) {
    s.session == Violated || (s.session == Opened && !s.touch.taken)
  }

  /** No `touchCancel` came from outside while a session was open. */
  predicate NoSessionAbandoned(es: seq<ScreenEvent>) {
    es == [] ||
    (NoSessionAbandoned(es[..|es| - 1]) &&
     (es[|es| - 1] == Touched(CancelAll) ==> !AdvanceAll(es[..|es| - 1]).SessionOpen()))
  }

  lemma EmptyMap(m: map<int, Point>)
    ensures |m| == 0 <==> m == map[]
  {
  }

  /** What a touch event does to the flags and whom it calls. */
  lemma ReactionFlags(t: Touch, e: TouchEvent)
    requires Tracking(t)
    ensures var r := React(t, e);
      && Tracking(r.next)
      && match r.call
         case None =>
           && (t.taken && !t.cancelled ==> e.CancelAll? || (r.next.taken && !r.next.cancelled))
           && (!(t.taken && !t.cancelled) ==> !(r.next.taken && !r.next.cancelled))
           && (!t.taken ==> !r.next.taken)
         case Some(Start(n)) => !t.taken && r.next.taken && !r.next.cancelled && n == |r.next.points| >= 3
         case Some(Update(_)) => t.taken && !t.cancelled && r.next.taken && !r.next.cancelled
         case Some(Cancel) => t.taken && r.next.cancelled
         case Some(End) => t.taken && !t.cancelled && (r.next.taken ==> r.next.cancelled)
  {
    EmptyMap(t.points);
    EmptyMap(React(t, e).next.points);
  }

  lemma AdvanceSession(s: Screen, e: ScreenEvent)
    requires Tracking(s.touch)
    ensures Tracking(Advance(s, e).touch)
    ensures InSession(s) ==>
      if e == Touched(CancelAll) && s.SessionOpen() then OutOfSession(Advance(s, e)) else InSession(Advance(s, e))
    ensures OutOfSession(s) ==> OutOfSession(Advance(s, e))
  {
    if e.Touched? {
      ReactionFlags(s.touch, e.e);
    }
  }

  /** The session led by the filter is open exactly while a gesture is taken and not
      cancelled, and no call has ever come out of turn, exactly in the runs in which no
      outside `touchCancel` has hit an open session: that leaves the session open behind the
      filter's back, or makes the next start come out of turn. */
  lemma {:induction false} SessionAgreesIff(es: seq<ScreenEvent>)
    ensures Tracking(AdvanceAll(es).touch)
    ensures InSession(AdvanceAll(es)) <==> NoSessionAbandoned(es)
    ensures !NoSessionAbandoned(es) ==> OutOfSession(AdvanceAll(es))
  {
    if es != [] {
      SessionAgreesIff(es[..|es| - 1]);
      AdvanceSession(AdvanceAll(es[..|es| - 1]), es[|es| - 1]);
    }
  }

  function Touches(es: seq<TouchEvent>): seq<ScreenEvent> {
    seq(|es|, i requires 0 <= i < |es| => Touched(es[i]))
  }

  lemma TouchesSnoc(es: seq<ScreenEvent>, ts: seq<TouchEvent>)
    requires ts != []
    ensures es + Touches(ts) == es + Touches(ts[..|ts| - 1]) + [Touched(ts[|ts| - 1])]
  {
  }

  lemma {:induction false} AdvanceFolds(es: seq<ScreenEvent>, ts: seq<TouchEvent>)
    ensures AdvanceAll(es + Touches(ts)).touch == Fold(AdvanceAll(es).touch, ts)
    ensures NoSessionAbandoned(es) && (forall i :: 0 <= i < |ts| ==> !ts[i].CancelAll?) ==>
      NoSessionAbandoned(es + Touches(ts))
  {
    if ts == [] {
      assert es + Touches(ts) == es;
    } else {
      AdvanceFolds(es, ts[..|ts| - 1]);
      AppendTouch(es + Touches(ts[..|ts| - 1]), ts[|ts| - 1]);
      TouchesSnoc(es, ts);
    }
  }

  /** From any state in which nothing is touched, any three fingers put down together and an
      outside cancel abandon a session. */
  lemma SessionCanBeAbandoned(es: seq<ScreenEvent>, a: int, b: int, c: int, p: Point)
    requires NoSessionAbandoned(es) && AdvanceAll(es).touch.points == map[]
    requires a != b && b != c && c != a
    ensures var down := es + Touches(ThreePresses(a, b, c, p, AdvanceAll(es).touch.lastDown));
      NoSessionAbandoned(down) && OutOfSession(AdvanceAll(down + [Touched(CancelAll)]))
  {
    var t := AdvanceAll(es).touch;
    var presses := ThreePresses(a, b, c, p, t.lastDown);
    var down := es + Touches(presses);
    SessionAgreesIff(es);
    ThreeDown(t, a, b, c, p);
    AdvanceFolds(es, presses);
    AppendTouch(down, CancelAll);
    SessionAgreesIff(down + [Touched(CancelAll)]);
  }

  lemma AppendTouch(es: seq<ScreenEvent>, e: TouchEvent)
    ensures AdvanceAll(es + [Touched(e)]).touch == React(AdvanceAll(es).touch, e).next
    ensures NoSessionAbandoned(es + [Touched(e)]) <==>
      NoSessionAbandoned(es) && (e.CancelAll? ==> !AdvanceAll(es).SessionOpen())
  {
    assert (es + [Touched(e)])[..|es|] == es;
  }

  /** When the last tracked finger is lifted, both flags are cleared. */
  lemma LiftingLastFingerClears(es: seq<ScreenEvent>, id: int)
    requires AdvanceAll(es).touch.points.Keys <= {id}
    ensures var t := Advance(AdvanceAll(es), Touched(Lift(id))).touch;
      t.points == map[] && !t.taken && !t.cancelled
  {
    var t := AdvanceAll(es).touch;
    assert (t.points - {id}).Keys == {};
    EmptyMap(t.points - {id});
  }

  /** What a touch event makes the recognizer do: the third finger in time starts a swipe with
      the number of fingers, another one cancels it, a motion moves it and a lifted finger ends
      it, both only in a session that is not cancelled. */
  lemma TouchTells(s: Screen, e: TouchEvent)
    requires Tracking(s.touch)
    ensures var t := Advance(s, Touched(e));
      match e
      case Press(id, pos, time, fx, fy) =>
        if s.touch.taken then t.history == s.history + [DoCancelSwipe]
        else if t.touch.taken then t.history == s.history + [DoStartSwipe(|t.touch.points|)]
        else t.history == s.history
      case Motion(id, pos, fx, fy) =>
        if s.SessionOpen() then exists move :: t.history == s.history + [DoUpdateSwipe(move)]
        else t.history == s.history
      case Lift(id) => t.history == if s.SessionOpen() then s.history + [DoEndSwipe] else s.history
      case CancelAll => t.history == s.history
  {
    match e
    case Press(id, pos, time, fx, fy) => PressSends(s.touch, id, pos, time, fx, fy);
    case Motion(id, pos, fx, fy) => MotionSends(s.touch, id, pos, fx, fy);
    case Lift(id) => LiftSends(s.touch, id);
    case CancelAll =>
  }

  // ---------- the two agree again ----------

  /** The last start, end or cancel the recognizer was told of was a start. */
  predicate OpenSession(ops: seq<Op>) {
    if ops == [] then false else
      match ops[|ops| - 1]
      case DoStartSwipe(_) => true
      case DoEndSwipe => false
      case DoCancelSwipe => false
      case _ => OpenSession(ops[..|ops| - 1])
  }

  /** Start, end and cancel: the calls that tell the recognizer anew. */
  predicate Resettles(c: Option<Call>) { c.Some? && !c.value.Update? }

  /** An outside cancel hit an open session and no call has told the recognizer anew since. */
  predicate Hanging(es: seq<ScreenEvent>) {
    if es == [] then false else
      var before, e := AdvanceAll(es[..|es| - 1]), es[|es| - 1];
      if e == Touched(CancelAll) && before.SessionOpen() then true
      else Hanging(es[..|es| - 1]) && !(e.Touched? && Resettles(React(before.touch, e.e).call))
  }

  lemma AppendOpens(ops: seq<Op>, op: Op)
    ensures OpenSession(ops + [op]) ==
      if op.DoStartSwipe? then true else if op.DoEndSwipe? || op.DoCancelSwipe? then false else OpenSession(ops)
  {
    assert (ops + [op])[..|ops|] == ops;
  }

  lemma AdvanceOpens(s: Screen, e: ScreenEvent)
    ensures OpenSession(Advance(s, e).history) ==
      if e.Touched? && Resettles(React(s.touch, e.e).call) then React(s.touch, e.e).call.value.Start?
      else OpenSession(s.history)
  {
    if e.Registration? {
      AppendOpens(s.history, e.op);
    } else if React(s.touch, e.e).call.Some? {
      AppendOpens(s.history, OpOf(React(s.touch, e.e).call.value));
    }
  }

  /** The recognizer has a session exactly while the filter holds one, except from an outside
      cancel of an open session to the next start, end or cancel. */
  lemma {:induction false} OpenAgreesIff(es: seq<ScreenEvent>)
    ensures Tracking(AdvanceAll(es).touch)
    ensures (OpenSession(AdvanceAll(es).history) <==> AdvanceAll(es).SessionOpen()) <==> !Hanging(es)
    ensures Hanging(es) ==> !AdvanceAll(es).touch.taken
  {
    if es != [] {
      var init, e := es[..|es| - 1], es[|es| - 1];
      OpenAgreesIff(init);
      AdvanceOpens(AdvanceAll(init), e);
      if e.Touched? {
        ReactionFlags(AdvanceAll(init).touch, e.e);
      }
    }
  }

  // ---------- how far the fingers have gone ----------

  function SumDelta(ids: seq<int>, from: map<int, Point>, to: map<int, Point>, fx: real, fy: real, n: nat): Point
    requires n > 0 && Contents(ids) <= from.Keys && Contents(ids) <= to.Keys
  {
    if ids == [] then ORIGIN else
      var id := ids[|ids| - 1];
      assert forall i :: i in ids[..|ids| - 1] ==> i in Contents(ids);
      Plus(SumDelta(ids[..|ids| - 1], from, to, fx, fy, n), SwipeDelta(from[id], to[id], fx, fy, n))
  }

  /** Registrations and movements of the fingers of `points`, with the same factors. */
  predicate Stretch(ms: seq<ScreenEvent>, ids: set<int>, fx: real, fy: real) {
    forall m :: m in ms ==>
      m.Registration? || (m.e.Motion? && m.e.id in ids && m.e.fx == fx && m.e.fy == fy)
  }

  lemma PlusMoves(a: Point, b: Point, c: Point)
    ensures Plus(Plus(a, b), c) == Plus(a, Plus(b, c)) && Plus(a, b) == Plus(b, a) && Plus(a, ORIGIN) == a
  {
  }

  lemma NoWay(p: Point, fx: real, fy: real, n: nat)
    requires n > 0
    ensures SwipeDelta(p, p, fx, fy, n) == ORIGIN
  {
  }

  lemma {:induction false} SumStays(ids: seq<int>, from: map<int, Point>, fx: real, fy: real, n: nat)
    requires n > 0 && Contents(ids) <= from.Keys
    ensures SumDelta(ids, from, from, fx, fy, n) == ORIGIN
  {
    if ids != [] {
      var init := ids[..|ids| - 1];
      assert Contents(init) <= Contents(ids);
      SumStays(init, from, fx, fy, n);
      NoWay(from[ids[|ids| - 1]], fx, fy, n);
    }
  }

  lemma {:induction false} SumUnmoved(ids: seq<int>, from: map<int, Point>, to: map<int, Point>, fx: real, fy: real,
                                      n: nat, id: int, pos: Point)
    requires n > 0 && Contents(ids) <= from.Keys && Contents(ids) <= to.Keys && id !in ids
    ensures SumDelta(ids, from, to[id := pos], fx, fy, n) == SumDelta(ids, from, to, fx, fy, n)
  {
    if ids != [] {
      var init := ids[..|ids| - 1];
      assert Contents(init) <= Contents(ids);
      SumUnmoved(init, from, to, fx, fy, n, id, pos);
    }
  }

  /** Moving one finger adds its movement to the sum. */
  lemma {:induction false} SumMoved(ids: seq<int>, from: map<int, Point>, to: map<int, Point>, fx: real, fy: real,
                                    n: nat, id: int, pos: Point)
    requires n > 0 && Contents(ids) <= from.Keys && Contents(ids) <= to.Keys && NoDup(ids) && id in ids
    ensures SumDelta(ids, from, to[id := pos], fx, fy, n)
         == Plus(SumDelta(ids, from, to, fx, fy, n), SwipeDelta(to[id], pos, fx, fy, n))
  {
    var init, last := ids[..|ids| - 1], ids[|ids| - 1];
    assert Contents(init) <= Contents(ids);
    var sum, step := SumDelta(init, from, to, fx, fy, n), SwipeDelta(to[id], pos, fx, fy, n);
    if id == last {
      SumUnmoved(init, from, to, fx, fy, n, id, pos);
      DeltasTelescope(from[id], to[id], pos, fx, fy, n);
      PlusMoves(sum, SwipeDelta(from[id], to[id], fx, fy, n), step);
    } else {
      assert id in init;
      SumMoved(init, from, to, fx, fy, n, id, pos);
      var other := SwipeDelta(from[last], to[last], fx, fy, n);
      PlusMoves(sum, step, other);
      PlusMoves(sum, other, step);
      PlusMoves(step, other, other);
    }
  }

  lemma TravelledAppend(ops: seq<Op>, op: Op)
    ensures Travelled(ops + [op]) ==
      if ResetsDelta(op) then ORIGIN else if op.DoUpdateSwipe? then Plus(Travelled(ops), op.move) else Travelled(ops)
  {
    assert (ops + [op])[..|ops|] == ops;
  }

  /** One movement of a tracked finger in an open session, or a registration. */
  lemma MotionTravels(s: Screen, m: ScreenEvent)
    requires s.SessionOpen() && (m.Registration? || (m.e.Motion? && m.e.id in s.touch.points))
    ensures var t := Advance(s, m);
      && t.SessionOpen()
      && t.touch.points == (if m.Registration? then s.touch.points else s.touch.points[m.e.id := m.e.pos])
      && t.touch.points.Keys == s.touch.points.Keys
      && Travelled(t.history) ==
         if m.Registration? then Travelled(s.history)
         else Plus(Travelled(s.history), SwipeDelta(s.touch.points[m.e.id], m.e.pos, m.e.fx, m.e.fy, |s.touch.points|))
  {
    if m.Registration? {
      TravelledAppend(s.history, m.op);
    } else {
      var points := s.touch.points[m.e.id := m.e.pos];
      assert points.Keys == s.touch.points.Keys && |points| == |points.Keys| == |s.touch.points|;
      TravelledAppend(s.history, OpOf(React(s.touch, m.e).call.value));
    }
  }

  /** What the fingers of `down` have moved altogether since `s`, and that they are still
      the tracked ones in the open session. */
  ghost predicate Moved(s: Screen, t: Screen, ids: seq<int>, fx: real, fy: real) {
    && t.SessionOpen() && t.touch.points.Keys == s.touch.points.Keys
    && |s.touch.points| > 0 && Contents(ids) == s.touch.points.Keys
    && Travelled(t.history)
       == Plus(Travelled(s.history), SumDelta(ids, s.touch.points, t.touch.points, fx, fy, |s.touch.points|))
  }

  lemma MotionMoves(s: Screen, t: Screen, m: ScreenEvent, ids: seq<int>, fx: real, fy: real)
    requires Moved(s, t, ids, fx, fy) && NoDup(ids) && Stretch([m], s.touch.points.Keys, fx, fy)
    ensures Moved(s, Advance(t, m), ids, fx, fy)
  {
    assert m in [m];
    MotionTravels(t, m);
    if m.Touched? {
      var n, e := |s.touch.points|, m.e;
      assert |t.touch.points| == |t.touch.points.Keys| == |s.touch.points.Keys| == n;
      assert e.id in Contents(ids);
      SumMoved(ids, s.touch.points, t.touch.points, fx, fy, n, e.id, e.pos);
      PlusMoves(Travelled(s.history), SumDelta(ids, s.touch.points, t.touch.points, fx, fy, n),
                SwipeDelta(t.touch.points[e.id], e.pos, fx, fy, n));
    }
  }

  lemma {:induction false} StretchTravels(es: seq<ScreenEvent>, ms: seq<ScreenEvent>, ids: seq<int>, fx: real, fy: real)
    requires AdvanceAll(es).SessionOpen() && NoDup(ids)
    requires Contents(ids) == AdvanceAll(es).touch.points.Keys && |AdvanceAll(es).touch.points| > 0
    requires Stretch(ms, Contents(ids), fx, fy)
    ensures Moved(AdvanceAll(es), AdvanceAll(es + ms), ids, fx, fy)
    decreases |ms|
  {
    var s := AdvanceAll(es);
    if ms == [] {
      assert es + ms == es;
      SumStays(ids, s.touch.points, fx, fy, |s.touch.points|);
    } else {
      var init, m := ms[..|ms| - 1], ms[|ms| - 1];
      assert forall x :: x in init ==> x in ms;
      StretchTravels(es, init, ids, fx, fy);
      assert (es + ms)[..|es + ms| - 1] == es + init;
      assert m in ms;
      MotionMoves(s, AdvanceAll(es + init), m, ids, fx, fy);
    }
  }

  lemma {:induction false} CountOnce(ids: seq<int>)
    requires NoDup(ids)
    ensures |Contents(ids)| == |ids|
  {
    if ids != [] {
      var init, last := ids[..|ids| - 1], ids[|ids| - 1];
      CountOnce(init);
      assert Contents(ids) == Contents(init) + {last} && last !in Contents(init);
    }
  }

  function Times(n: nat, share: Point): Point {
    if n == 0 then ORIGIN else Plus(Times(n - 1, share), share)
  }

  function Multiple(n: nat, k: real): real {
    if n == 0 then 0.0 else Multiple(n - 1, k) + k
  }

  lemma {:induction false} MultipleIsProduct(n: nat, k: real)
    ensures Multiple(n, k) == n as real * k
  {
    if n > 0 {
      MultipleIsProduct(n - 1, k);
      OneShareMore(n, k);
    }
  }

  lemma {:induction false} TimesIsMultiple(n: nat, share: Point)
    ensures Times(n, share) == Point(Multiple(n, share.x), Multiple(n, share.y))
  {
    if n > 0 {
      TimesIsMultiple(n - 1, share);
    }
  }

  /** The sum of equal movements. */
  lemma {:induction false} SumUniform(ids: seq<int>, from: map<int, Point>, to: map<int, Point>, fx: real, fy: real,
                                      n: nat, share: Point)
    requires n > 0 && Contents(ids) <= from.Keys && Contents(ids) <= to.Keys
    requires forall id :: id in ids ==> SwipeDelta(from[id], to[id], fx, fy, n) == share
    ensures SumDelta(ids, from, to, fx, fy, n) == Times(|ids|, share)
  {
    if ids != [] {
      var init, last := ids[..|ids| - 1], ids[|ids| - 1];
      assert Contents(init) <= Contents(ids);
      assert forall id :: id in init ==> id in ids;
      assert last in ids;
      SumUniform(init, from, to, fx, fy, n, share);
    }
  }

  lemma OneShareMore(n: nat, k: real)
    requires n > 0
    ensures (n - 1) as real * k + k == n as real * k
  {
    var m := (n - 1) as real;
    assert n as real == m + 1.0;
    assert (m + 1.0) * k == m * k + k;
  }

  lemma AllShares(k: real, n: real)
    requires n > 0.0
    ensures n * (k / n) == k
  {
    assert k / n * n == k;
  }

  function Share(fx: real, fy: real, v: Point, n: nat): Point
    requires n > 0
  {
    Point(5.0 * (fx * v.x) / n as real, 5.0 * (fy * v.y) / n as real)
  }

  lemma ShareIs(from: Point, to: Point, fx: real, fy: real, n: nat, v: Point)
    requires n > 0 && to.x == from.x + v.x && to.y == from.y + v.y
    ensures SwipeDelta(from, to, fx, fy, n) == Share(fx, fy, v, n)
  {
    assert to.x - from.x == v.x && to.y - from.y == v.y;
  }

  lemma AllShared(fx: real, fy: real, v: Point, n: nat)
    requires n > 0
    ensures var share := Share(fx, fy, v, n);
      n as real * share.x == 5.0 * (fx * v.x) && n as real * share.y == 5.0 * (fy * v.y)
  {
    AllShares(5.0 * (fx * v.x), n as real);
    AllShares(5.0 * (fy * v.y), n as real);
  }

  /** All fingers have moved by `v`. */
  ghost predicate Together(down: map<int, Point>, now: map<int, Point>, v: Point) {
    && now.Keys == down.Keys
    && forall id :: id in down ==> now[id].x == down[id].x + v.x && now[id].y == down[id].y + v.y
  }

  lemma EqualShares(down: map<int, Point>, now: map<int, Point>, fx: real, fy: real, v: Point)
    requires |down| > 0 && Together(down, now, v)
    ensures forall id :: id in down ==> SwipeDelta(down[id], now[id], fx, fy, |down|) == Share(fx, fy, v, |down|)
  {
    forall id | id in down ensures SwipeDelta(down[id], now[id], fx, fy, |down|) == Share(fx, fy, v, |down|) {
      ShareIs(down[id], now[id], fx, fy, |down|, v);
    }
  }

  lemma SumOfShares(ids: seq<int>, down: map<int, Point>, now: map<int, Point>, fx: real, fy: real, share: Point)
    requires NoDup(ids) && Contents(ids) == down.Keys == now.Keys && |down| > 0
    requires forall id :: id in down ==> SwipeDelta(down[id], now[id], fx, fy, |down|) == share
    ensures SumDelta(ids, down, now, fx, fy, |down|) == Times(|down|, share)
  {
    CountOnce(ids);
    assert |down| == |down.Keys| == |ids|;
    assert forall id :: id in ids ==> id in Contents(ids);
    SumUniform(ids, down, now, fx, fy, |down|, share);
  }

  lemma AllSharesTogether(fx: real, fy: real, v: Point, n: nat)
    requires n > 0
    ensures Times(n, Share(fx, fy, v, n)) == Point(5.0 * (fx * v.x), 5.0 * (fy * v.y))
  {
    var share := Share(fx, fy, v, n);
    TimesIsMultiple(n, share);
    MultipleIsProduct(n, share.x);
    MultipleIsProduct(n, share.y);
    AllShared(fx, fy, v, n);
  }

  lemma TogetherSums(ids: seq<int>, down: map<int, Point>, now: map<int, Point>, fx: real, fy: real, v: Point)
    requires NoDup(ids) && Contents(ids) == down.Keys && |down| > 0 && Together(down, now, v)
    ensures SumDelta(ids, down, now, fx, fy, |down|) == Point(5.0 * (fx * v.x), 5.0 * (fy * v.y))
  {
    EqualShares(down, now, fx, fy, v);
    SumOfShares(ids, down, now, fx, fy, Share(fx, fy, v, |down|));
    AllSharesTogether(fx, fy, v, |down|);
  }

  // ---------- what this means for the recognizer ----------

  predicate NeverPinches(ops: seq<Op>) {
    ops == [] ||
    var op := ops[|ops| - 1];
    NeverPinches(ops[..|ops| - 1]) && !op.DoEndPinch? && !op.DoStartPinch? && !op.DoUpdatePinch?
  }

  lemma AppendOp(ops: seq<Op>, op: Op)
    requires Legal(ops) && NeverPinches(ops) && Allowed(Run(ops), op)
    requires !op.DoEndPinch? && !op.DoStartPinch? && !op.DoUpdatePinch?
    ensures Legal(ops + [op]) && NeverPinches(ops + [op]) && Run(ops + [op]) == Step(Run(ops), op)
  {
    assert (ops + [op])[..|ops + [op]| - 1] == ops;
  }

  lemma {:induction false} HistoryLegal(es: seq<ScreenEvent>)
    ensures Legal(AdvanceAll(es).history) && NeverPinches(AdvanceAll(es).history)
  {
    if es != [] {
      var before, e := AdvanceAll(es[..|es| - 1]), es[|es| - 1];
      HistoryLegal(es[..|es| - 1]);
      if e.Registration? && IsRegistration(e.op) && Allowed(before.Recognizer(), e.op) {
        AppendOp(before.history, e.op);
      } else if e.Touched? && React(before.touch, e.e).call.Some? {
        AppendOp(before.history, OpOf(React(before.touch, e.e).call.value));
      }
    }
  }

  lemma {:induction false} WithoutPinches(ops: seq<Op>)
    requires Legal(ops) && NeverPinches(ops)
    ensures NoSwipeDropped(ops) && NoLongSwipeCut(ops) && Run(ops).activePinches == []
  {
    if ops != [] {
      WithoutPinches(ops[..|ops| - 1]);
    }
  }

  /** On the touchscreen the gesture protocol is kept in every run, outside cancels included. */
  lemma TouchscreenAlwaysBracketed(es: seq<ScreenEvent>)
    ensures Bracketed(AdvanceAll(es).Recognizer())
    ensures AxisAgreesThroughout(AdvanceAll(es).history)
  {
    var ops := AdvanceAll(es).history;
    HistoryLegal(es);
    WithoutPinches(ops);
    BracketedIffNoSwipeDropped(ops);
    AxisAgreesIff(ops);
  }

  lemma AppendLeavesIdle(ops: seq<Op>, op: Op)
    ensures op.DoCancelSwipe? || op.DoEndSwipe? ==> Run(ops + [op]).activeSwipes == []
    ensures IsRegistration(op) && Run(ops).activeSwipes == [] ==> Run(ops + [op]).activeSwipes == []
  {
    assert (ops + [op])[..|ops + [op]| - 1] == ops;
  }

  /** No swipe is active and no distance is kept. */
  predicate AtRest(ops: seq<Op>) { Run(ops).activeSwipes == [] && Travelled(ops) == ORIGIN }

  lemma AdvanceLeavesIdle(s: Screen, e: ScreenEvent)
    requires !OpenSession(s.history) ==> AtRest(s.history) && !s.SessionOpen()
    requires Tracking(s.touch)
    ensures !OpenSession(Advance(s, e).history) ==> AtRest(Advance(s, e).history)
  {
    AdvanceOpens(s, e);
    if e.Registration? {
      AppendLeavesIdle(s.history, e.op);
      TravelledAppend(s.history, e.op);
    } else if React(s.touch, e.e).call.Some? {
      ReactionFlags(s.touch, e.e);
      AppendLeavesIdle(s.history, OpOf(React(s.touch, e.e).call.value));
      TravelledAppend(s.history, OpOf(React(s.touch, e.e).call.value));
    }
  }

  /** While the recognizer has no session no touchscreen gesture is active, and no distance
      is kept. */
  lemma {:induction false} ClosedMeansIdle(es: seq<ScreenEvent>)
    ensures var s := AdvanceAll(es);
      !OpenSession(s.history) ==> AtRest(s.history) && !s.Recognizer().Busy() && s.Recognizer().delta == ORIGIN
  {
    HistoryLegal(es);
    WithoutPinches(AdvanceAll(es).history);
    DeltaIsTravelled(AdvanceAll(es).history);
    if es != [] {
      ClosedMeansIdle(es[..|es| - 1]);
      OpenAgreesIff(es[..|es| - 1]);
      AdvanceLeavesIdle(AdvanceAll(es[..|es| - 1]), es[|es| - 1]);
    }
  }

  /** So, unless a session is left hanging, gestures are active only while the filter holds a
      gesture that is not cancelled, and none is left once the last finger is lifted. */
  lemma ActiveOnlyInSession(es: seq<ScreenEvent>)
    requires !Hanging(es)
    ensures AdvanceAll(es).Recognizer().Busy() ==> AdvanceAll(es).SessionOpen()
    ensures AdvanceAll(es).touch.points == map[] ==> !AdvanceAll(es).Recognizer().Busy()
  {
    OpenAgreesIff(es);
    ClosedMeansIdle(es);
  }

  /** From the press that starts a session on, as long as tracked fingers move over the same
      output, the recognizer's distance is the sum over the fingers of their ways from where
      they were put down to where they are now, on top of what a hanging session has left. */
  lemma SessionTravels(es: seq<ScreenEvent>, press: TouchEvent, ms: seq<ScreenEvent>, ids: seq<int>, fx: real, fy: real)
    requires React(AdvanceAll(es).touch, press).call.Some? && React(AdvanceAll(es).touch, press).call.value.Start?
    requires NoDup(ids) && Contents(ids) == React(AdvanceAll(es).touch, press).next.points.Keys
    requires Stretch(ms, Contents(ids), fx, fy)
    ensures var down, now := React(AdvanceAll(es).touch, press).next.points, AdvanceAll(es + [Touched(press)] + ms);
      && now.SessionOpen() && now.touch.points.Keys == down.Keys && |down| >= 3
      && now.Recognizer().delta ==
         Plus(if Hanging(es) then AdvanceAll(es).Recognizer().delta else ORIGIN,
              SumDelta(ids, down, now.touch.points, fx, fy, |down|))
  {
    var s, begun := AdvanceAll(es), es + [Touched(press)];
    OpenAgreesIff(es);
    ReactionFlags(s.touch, press);
    ClosedMeansIdle(es);
    AppendTouch(es, press);
    assert begun[..|es|] == es && begun[|es|] == Touched(press);
    TravelledAppend(s.history, OpOf(React(s.touch, press).call.value));
    DeltaIsTravelled(s.history);
    EmptyMap(React(s.touch, press).next.points);
    assert ids == [] ==> Contents(ids) == {};
    StretchTravels(begun, ms, ids, fx, fy);
    DeltaIsTravelled(AdvanceAll(begun + ms).history);
  }

  /** So if all fingers move by the same way, the recognizer's distance grows by five times
      that way in millimetres, however many they are. */
  lemma TogetherTravels(es: seq<ScreenEvent>, press: TouchEvent, ms: seq<ScreenEvent>, ids: seq<int>,
                        fx: real, fy: real, v: Point)
    requires React(AdvanceAll(es).touch, press).call.Some? && React(AdvanceAll(es).touch, press).call.value.Start?
    requires NoDup(ids) && Contents(ids) == React(AdvanceAll(es).touch, press).next.points.Keys
    requires Stretch(ms, Contents(ids), fx, fy)
    requires Together(React(AdvanceAll(es).touch, press).next.points,
                      AdvanceAll(es + [Touched(press)] + ms).touch.points, v)
    ensures var before := if Hanging(es) then AdvanceAll(es).Recognizer().delta else ORIGIN;
      AdvanceAll(es + [Touched(press)] + ms).Recognizer().delta
      == Point(before.x + 5.0 * (fx * v.x), before.y + 5.0 * (fy * v.y))
  {
    SessionTravels(es, press, ms, ids, fx, fy);
    var down := React(AdvanceAll(es).touch, press).next.points;
    TogetherSums(ids, down, AdvanceAll(es + [Touched(press)] + ms).touch.points, fx, fy, v);
  }
}
