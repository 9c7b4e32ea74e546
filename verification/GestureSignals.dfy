/** Which signals each operation of the gesture recognizer sends, one by one and in order, and
    which gestures it starts: told by the fields of the gestures, not by the recognizer's own
    tests. */
module GestureSignals {
  import opened Lists
  import opened Gestures
  import opened GestureProtocol

  /** The events tell each gesture of the list the same signal, in the order of the list. */
  ghost predicate ToldEach(news: seq<Event>, gs: seq<Gesture>, signal: Signal) {
    |news| == |gs| && forall i :: 0 <= i < |gs| ==> news[i] == Event(gs[i], signal)
  }

  /** From `r` to `s` signals were only added. */
  ghost predicate Extends(r: Recognizer, s: Recognizer) {
    |r.emitted| <= |s.emitted| && s.emitted[..|r.emitted|] == r.emitted
  }

  lemma {:induction false} EmitSingle(gs: seq<Gesture>, f: Gesture -> seq<Signal>)
    requires forall g :: |f(g)| == 1
    ensures |Emit(gs, f)| == |gs|
    ensures forall i :: 0 <= i < |gs| ==> Emit(gs, f)[i] == Event(gs[i], f(gs[i])[0])
  {
    if gs != [] {
      var init := gs[..|gs| - 1];
      EmitSingle(init, f);
      assert forall i :: 0 <= i < |init| ==> init[i] == gs[i];
    }
  }

  // ---------- cancelling ----------

  /** The signals are one cancellation for each gesture that was active, swipes first, each
      kind in its order, and nothing else; none is active any more. */
  ghost predicate CancelsAll(r: Recognizer, s: Recognizer) {
    && Extends(r, s) && !s.Busy()
    && ToldEach(News(r, s), r.activeSwipes + r.activePinches, Cancelled)
    && NoDup(News(r, s))
    && forall e :: e in News(r, s) <==> r.Active(e.gesture) && e.signal == Cancelled
  }

  lemma EachCancelled(r: Recognizer, s: Recognizer)
    requires Sound(r) && Extends(r, s) && !s.Busy()
    requires ToldEach(News(r, s), r.activeSwipes + r.activePinches, Cancelled)
    ensures CancelsAll(r, s)
  {
    var news, gs := News(r, s), r.activeSwipes + r.activePinches;
    NoDupAppend(r.activeSwipes, r.activePinches);
    forall e ensures e in news <==> r.Active(e.gesture) && e.signal == Cancelled {
      if r.Active(e.gesture) && e.signal == Cancelled {
        assert e.gesture in gs;
        var i :| 0 <= i < |gs| && gs[i] == e.gesture;
        assert news[i] == e;
      }
    }
  }

  /** A cancelled swipe or pinch tells every active gesture that it is cancelled, once. */
  lemma CancelTellsAll(r: Recognizer)
    requires Sound(r)
    ensures CancelsAll(r, CancelSwipe(r)) && CancelsAll(r, CancelPinch(r))
  {
    var gs := r.activeSwipes + r.activePinches;
    EmitSingle(gs, Cancelling());
    EmittingNews(r, gs, Cancelling());
    EachCancelled(r, CancelSwipe(r));
    EachCancelled(r, CancelPinch(r));
  }

  /** Unregistering, and destroying, tells the gesture that it is cancelled exactly if it was
      active, and tells no other gesture anything. */
  lemma UnregisterTells(r: Recognizer, g: Gesture)
    requires Sound(r)
    ensures var s := Step(r, DoUnregister(g));
      Extends(r, s) && News(r, s) == if r.Active(g) then [Event(g, Cancelled)] else []
    ensures var s := Step(r, DoDestroy(g));
      Extends(r, s) && News(r, s) == if r.Active(g) then [Event(g, Cancelled)] else []
  {
  }

  // ---------- ending ----------

  /** The verdict on a swipe: it has gone as far along its direction as is asked for, if
      anything is, and has moved there at all. */
  predicate WentFar(g: Gesture, delta: Point)
    requires g.Swipe?
  {
    match g.minDelta
    case None => true
    case Some(need) =>
      need == Point(0.0, 0.0) ||
      (if g.direction.Up? || g.direction.Down? then Abs(delta.y) >= Abs(need.y) && delta.y != 0.0
       else Abs(delta.x) >= Abs(need.x) && delta.x != 0.0)
  }

  /** Each active swipe is told its verdict on the distance so far, in order. */
  lemma EndSwipeTells(r: Recognizer)
    requires Sound(r)
    ensures var s := EndSwipe(r);
      && Extends(r, s) && s.activeSwipes == [] && s.activePinches == r.activePinches
      && |News(r, s)| == |r.activeSwipes|
      && forall i :: 0 <= i < |r.activeSwipes| ==>
          var g := r.activeSwipes[i];
          g.Swipe? && News(r, s)[i] == Event(g, if WentFar(g, r.delta) then Triggered else Cancelled)
  {
    EmitSingle(r.activeSwipes, Ending(r.delta, r.scale));
    EmittingNews(r, r.activeSwipes, Ending(r.delta, r.scale));
    forall i | 0 <= i < |r.activeSwipes|
      ensures r.activeSwipes[i].Swipe?
      ensures Full(DeltaToProgress(r.activeSwipes[i], r.delta)) <==> WentFar(r.activeSwipes[i], r.delta)
    {
      assert r.activeSwipes[i] in r.activeSwipes;
      SwipeReachedIff(r.activeSwipes[i], r.delta);
    }
  }

  /** Each active pinch is told its verdict on the scale so far, in order; swipes are told
      nothing. */
  lemma EndPinchTells(r: Recognizer)
    requires Sound(r)
    ensures var s := EndPinch(r);
      && Extends(r, s) && !s.Busy()
      && |News(r, s)| == |r.activePinches|
      && forall i :: 0 <= i < |r.activePinches| ==>
          var g := r.activePinches[i];
          && g.Pinch?
          && News(r, s)[i] == Event(g,
               if 0.0 <= g.minScaleDelta <= Abs(r.scale - 1.0) && r.scale != 1.0 then Triggered else Cancelled)
  {
    EmitSingle(r.activePinches, Ending(r.delta, r.scale));
    EmittingNews(r, r.activePinches, Ending(r.delta, r.scale));
    forall i | 0 <= i < |r.activePinches|
      ensures r.activePinches[i].Pinch?
      ensures Full(ScaleToProgress(r.activePinches[i], r.scale)) <==>
        0.0 <= r.activePinches[i].minScaleDelta <= Abs(r.scale - 1.0) && r.scale != 1.0
    {
      assert r.activePinches[i] in r.activePinches;
      PinchReachedIff(r.activePinches[i], r.scale);
    }
  }

  // ---------- starting ----------

  predicate Within(low: Option<int>, v: real, high: Option<int>) {
    (low.Some? ==> low.value as real <= v) && (high.Some? ==> v <= high.value as real)
  }

  /** The number of fingers is in the gesture's range. */
  predicate FingersWithin(g: Gesture, n: nat) {
    (g.minFingers.Some? ==> n >= g.minFingers.value) && (g.maxFingers.Some? ==> n <= g.maxFingers.value)
  }

  /** A start activates, when nothing is active, exactly the registered swipes whose range of
      fingers and, from a touchscreen border, of start positions it meets and whose direction
      is not across the axis; when something is active it changes nothing but the number of
      fingers. A start from a border is one with a single finger. */
  lemma StartSwipeActivates(r: Recognizer, op: Op, g: Gesture)
    requires Sound(r) && (op.DoStartSwipe? || op.DoStartSwipeAt?)
    ensures var s, n := Step(r, op), if op.DoStartSwipe? then op.n else 1;
      && s == r.(fingers := n, activeSwipes := s.activeSwipes, emitted := s.emitted)
      && (g in s.activeSwipes <==>
            if r.Busy() then g in r.activeSwipes
            else
              && g in r.swipes && FingersWithin(g, n)
              && (op.DoStartSwipeAt? ==> Within(g.minX, op.pos.x, g.maxX) && Within(g.minY, op.pos.y, g.maxY))
              && !(r.axis == Horizontal && (g.direction == Up || g.direction == Down))
              && !(r.axis == Vertical && (g.direction == Left || g.direction == Right)))
  {
  }

  /** And pinches alike. */
  lemma StartPinchActivates(r: Recognizer, n: nat, g: Gesture)
    requires Sound(r)
    ensures var s := StartPinch(r, n);
      && s == r.(fingers := n, activePinches := s.activePinches, emitted := s.emitted)
      && (g in s.activePinches <==> if r.Busy() then g in r.activePinches else g in r.pinches && FingersWithin(g, n))
  {
  }

  /** A start tells exactly the gestures it activates, in their order, that they are started. */
  lemma StartTells(r: Recognizer, n: nat, start: Option<Point>)
    ensures var s := StartSwipe(r, n, start);
      Extends(r, s) && ToldEach(News(r, s), if r.Busy() then [] else s.activeSwipes, Started)
    ensures var s := StartPinch(r, n);
      Extends(r, s) && ToldEach(News(r, s), if r.Busy() then [] else s.activePinches, Started)
  {
    var swipes, pinches := Filter(r.swipes, IsStartable(n, start, r.axis)), Filter(r.pinches, IsPinchable(n));
    EmitSingle(swipes, Starting());
    EmitSingle(pinches, Starting());
  }

  /** The number of fingers of the last start, 0 after an end or a cancel. */
  function FingersLeft(ops: seq<Op>): nat {
    if ops == [] then 0 else
      match ops[|ops| - 1]
      case DoStartSwipe(n) => n
      case DoStartSwipeAt(_) => 1
      case DoStartPinch(n) => n
      case DoCancelSwipe | DoEndSwipe | DoCancelPinch | DoEndPinch => 0
      case _ => FingersLeft(ops[..|ops| - 1])
  }

  lemma StepFingers(r: Recognizer, op: Op)
    ensures Step(r, op).fingers ==
      match op
      case DoStartSwipe(n) => n
      case DoStartSwipeAt(_) => 1
      case DoStartPinch(n) => n
      case DoCancelSwipe | DoEndSwipe | DoCancelPinch | DoEndPinch => 0
      case _ => r.fingers
  {
  }

  lemma {:induction false} FingersAreLeft(ops: seq<Op>)
    ensures Run(ops).fingers == FingersLeft(ops)
  {
    if ops != [] {
      FingersAreLeft(ops[..|ops| - 1]);
      StepFingers(Run(ops[..|ops| - 1]), ops[|ops| - 1]);
    }
  }

  // ---------- updating ----------

  /** The direction of a movement on an axis that may be locked: along the locked axis, or the
      one of the larger component, the horizontal one if they are equal. */
  predicate GoesAlong(d: SwipeDirection, axis: Axis, delta: Point) {
    var horizontal := axis == Horizontal || (axis == NoAxis && Abs(delta.x) >= Abs(delta.y));
    match d
    case Left => horizontal && delta.x < 0.0
    case Right => horizontal && delta.x >= 0.0
    case Up => !horizontal && delta.y < 0.0
    case Down => !horizontal && delta.y >= 0.0
  }

  /** An update adds the movement, locks an open axis exactly when a component reaches 5, to
      that of the larger one, and leaves only swipes active that go along or are bounded on
      all four sides. */
  lemma UpdateSwipeMoves(r: Recognizer, move: Point, g: Gesture)
    ensures var s := UpdateSwipe(r, move);
      && s.delta == Point(r.delta.x + move.x, r.delta.y + move.y)
      && (r.axis != NoAxis ==> s.axis == r.axis)
      && (r.axis == NoAxis ==>
            if Abs(s.delta.x) < 5.0 && Abs(s.delta.y) < 5.0 then s.axis == NoAxis
            else if Abs(s.delta.x) >= Abs(s.delta.y) then s.axis == Horizontal else s.axis == Vertical)
      && (g in s.activeSwipes ==>
            && g.Swipe?
            && (GoesAlong(g.direction, r.axis, s.delta)
                || (g.minX.Some? && g.maxX.Some? && g.minY.Some? && g.maxY.Some?)))
      && s.activePinches == r.activePinches && s.scale == r.scale && s.fingers == r.fingers
  {
    var moved := Plus(r.delta, move);
    var d := Heading(r.axis, moved);
    var q := r.(delta := moved, axis := LockAxis(r.axis, moved));
    SwipePassKeepsRest(q, d);
    SwipePassKeepsRest(SwipePass(q, d), d);
    assert GoesAlong(d, r.axis, moved);
  }

  /** The swipe goes along a movement, or is bounded on all four sides, as one from a border. */
  predicate Stays(g: Gesture, axis: Axis, delta: Point)
    requires g.Swipe?
  {
    GoesAlong(g.direction, axis, delta) || (g.minX.Some? && g.maxX.Some? && g.minY.Some? && g.maxY.Some?)
  }

  /** Which swipes an update leaves active: those that were active and go along or come from a
      border; if there are none and no pinch is active, the registered ones that do, whose
      range of fingers is met and whose direction is not across the axis. */
  lemma UpdateSwipeKeepsWhatGoesAlong(r: Recognizer, move: Point, g: Gesture)
    requires Sound(r)
    ensures var s := UpdateSwipe(r, move);
      var kept := exists h :: h in r.activeSwipes && h.Swipe? && Stays(h, r.axis, s.delta);
      g in s.activeSwipes <==>
        && g.Swipe? && Stays(g, r.axis, s.delta)
        && (if kept then g in r.activeSwipes
            else
              && r.activePinches == [] && g in r.swipes && FingersWithin(g, r.fingers)
              && !(s.axis == Horizontal && (g.direction == Up || g.direction == Down))
              && !(s.axis == Vertical && (g.direction == Left || g.direction == Right)))
  {
    var moved := Plus(r.delta, move);
    UpdateChooses(r, move);
    StepMoves(r, DoUpdateSwipe(move));
    SurvivorsStay(r.activeSwipes, r.axis, moved, g);
    RestartedStay(r.swipes, r.fingers, r.axis, moved, g);
  }

  lemma SurvivorsStay(gs: seq<Gesture>, axis: Axis, delta: Point, g: Gesture)
    ensures var kept := Filter(gs, FollowsHeading(Heading(axis, delta)));
      && (g in kept <==> g in gs && g.Swipe? && Stays(g, axis, delta))
      && (kept != [] <==> exists h :: h in gs && h.Swipe? && Stays(h, axis, delta))
  {
    var kept := Filter(gs, FollowsHeading(Heading(axis, delta)));
    forall h: Gesture | h.Swipe? ensures Stays(h, axis, delta) <==> Follows(h, Heading(axis, delta)) {
      FollowsIsStays(h, axis, delta);
    }
    SomeIff(kept);
    assert forall h :: h in kept <==> h in gs && h.Swipe? && Stays(h, axis, delta);
  }

  lemma RestartedStay(gs: seq<Gesture>, n: nat, axis: Axis, delta: Point, g: Gesture)
    ensures var locked := LockAxis(axis, delta);
      g in Filter(gs, IsRestartable(n, locked, Heading(axis, delta))) <==>
        && g in gs && g.Swipe? && Stays(g, axis, delta) && FingersWithin(g, n)
        && !(locked == Horizontal && (g.direction == Up || g.direction == Down))
        && !(locked == Vertical && (g.direction == Left || g.direction == Right))
  {
    if g.Swipe? {
      FollowsIsStays(g, axis, delta);
    }
  }

  lemma SomeIff(gs: seq<Gesture>)
    ensures gs != [] <==> exists g :: g in gs
  {
    if gs != [] {
      assert gs[0] in gs;
    }
  }

  lemma FollowsIsStays(g: Gesture, axis: Axis, delta: Point)
    requires g.Swipe?
    ensures Stays(g, axis, delta) <==> Follows(g, Heading(axis, delta))
  {
  }

  /** And which pinches: those that were active and go the same way; if there are none and no
      swipe is active, the registered ones that do and whose range of fingers is met. */
  lemma UpdatePinchKeepsWhatGoesAlong(r: Recognizer, factor: real, g: Gesture)
    requires Sound(r)
    ensures var s := UpdatePinch(r, factor);
      var kept := exists h :: h in r.activePinches && h.Pinch? && (h.pinchDirection == Contracting <==> factor < 1.0);
      g in s.activePinches <==>
        && g.Pinch? && (g.pinchDirection == Contracting <==> factor < 1.0)
        && (if kept then g in r.activePinches
            else r.activeSwipes == [] && g in r.pinches && FingersWithin(g, r.fingers))
  {
    UpdatePinchChooses(r, factor);
    PinchSurvivorsStay(r.activePinches, factor, g);
  }

  lemma PinchSurvivorsStay(gs: seq<Gesture>, factor: real, g: Gesture)
    ensures var kept := Filter(gs, Pinches(PinchHeading(factor)));
      && (g in kept <==> g in gs && g.Pinch? && (g.pinchDirection == Contracting <==> factor < 1.0))
      && (kept != [] <==> exists h :: h in gs && h.Pinch? && (h.pinchDirection == Contracting <==> factor < 1.0))
  {
    var kept := Filter(gs, Pinches(PinchHeading(factor)));
    SomeIff(kept);
    assert forall h :: h in kept <==> h in gs && h.Pinch? && (h.pinchDirection == Contracting <==> factor < 1.0);
  }

  /** An update of a pinch sets the scale and leaves only pinches active that contract or
      expand as the scale does. */
  lemma UpdatePinchScales(r: Recognizer, factor: real, g: Gesture)
    ensures var s := UpdatePinch(r, factor);
      && s.scale == factor && s.delta == r.delta && s.axis == r.axis && s.activeSwipes == r.activeSwipes
      && (g in s.activePinches ==>
            g.Pinch? && (g.pinchDirection == Contracting <==> factor < 1.0))
  {
    var d := PinchHeading(factor);
    PinchPassKeepsRest(r.(scale := factor), d);
    PinchPassKeepsRest(PinchPass(r.(scale := factor), d), d);
  }

  /** The progress told for a swipe: the share of the required component that is reached, at
      most 1; complete if nothing is required, undefined for nothing of nothing. */
  predicate IsShare(p: Double, have: real, want: real) {
    if want == 0.0 then p == (if have == 0.0 then NaN else Finite(1.0))
    else p.Finite? && p.value * want == if have <= want then have else want
  }

  predicate IsSwipeProgress(g: Gesture, delta: Point, p: Double)
    requires g.Swipe?
  {
    match g.minDelta
    case None => p == Finite(1.0)
    case Some(need) =>
      if need == Point(0.0, 0.0) then p == Finite(1.0)
      else if g.direction.Up? || g.direction.Down? then IsShare(p, Abs(delta.y), Abs(need.y))
      else IsShare(p, Abs(delta.x), Abs(need.x))
  }

  lemma QuotientShare(have: real, want: real)
    requires have >= 0.0 && want >= 0.0
    ensures IsShare(Clamp(Quotient(have, want)), have, want)
  {
    if want > 0.0 {
      assert have / want * want == have;
      QuotientAtLeastOne(have, want);
    }
  }

  lemma SwipeProgressIs(g: Gesture, delta: Point)
    requires g.Swipe?
    ensures IsSwipeProgress(g, delta, DeltaToProgress(g, delta))
  {
    QuotientShare(Abs(delta.x), if g.minDelta.Some? then Abs(g.minDelta.value.x) else 0.0);
    QuotientShare(Abs(delta.y), if g.minDelta.Some? then Abs(g.minDelta.value.y) else 0.0);
  }

  lemma {:induction false} EmitPairs(gs: seq<Gesture>, f: Gesture -> seq<Signal>)
    requires forall g :: g in gs ==> |f(g)| == 2
    ensures |Emit(gs, f)| == 2 * |gs|
    ensures forall i :: 0 <= i < |gs| ==>
      Emit(gs, f)[2 * i] == Event(gs[i], f(gs[i])[0]) && Emit(gs, f)[2 * i + 1] == Event(gs[i], f(gs[i])[1])
  {
    if gs != [] {
      var n := |gs| - 1;
      var init, last := gs[..n], gs[n];
      assert forall g :: g in init ==> g in gs;
      EmitPairs(init, f);
      assert last in gs;
      var front, all := Emit(init, f), Emit(gs, f);
      assert all == front + [Event(last, f(last)[0]), Event(last, f(last)[1])];
      forall i | 0 <= i < |gs|
        ensures all[2 * i] == Event(gs[i], f(gs[i])[0]) && all[2 * i + 1] == Event(gs[i], f(gs[i])[1])
      {
        if i < n {
          assert init[i] == gs[i] && all[2 * i] == front[2 * i] && all[2 * i + 1] == front[2 * i + 1];
        }
      }
    }
  }

  /** From `r` to `s` a swipe that was active and is no longer was told that it is cancelled,
      one that is and was not that it is started. */
  ghost predicate ChangesTold(r: Recognizer, s: Recognizer, g: Gesture)
    requires Extends(r, s)
  {
    && (g in r.activeSwipes && g !in s.activeSwipes ==> Event(g, Cancelled) in News(r, s))
    && (g !in r.activeSwipes && g in s.activeSwipes ==> Event(g, Started) in News(r, s))
    && (g in r.activePinches && g !in s.activePinches ==> Event(g, Cancelled) in News(r, s))
    && (g !in r.activePinches && g in s.activePinches ==> Event(g, Started) in News(r, s))
  }

  lemma ChangesCompose(r: Recognizer, s: Recognizer, t: Recognizer, g: Gesture)
    requires Extends(r, s) && Extends(s, t) && ChangesTold(r, s, g) && ChangesTold(s, t, g)
    ensures Extends(r, t) && ChangesTold(r, t, g)
  {
    assert t.emitted == r.emitted + (News(r, s) + News(s, t));
    assert News(r, t) == News(r, s) + News(s, t);
  }

  lemma StartTellsChanges(r: Recognizer, g: Gesture)
    ensures Extends(r, StartSwipe(r, r.fingers, None)) && ChangesTold(r, StartSwipe(r, r.fingers, None), g)
    ensures Extends(r, StartPinch(r, r.fingers)) && ChangesTold(r, StartPinch(r, r.fingers), g)
  {
    var swipes := Filter(r.swipes, IsStartable(r.fingers, None, r.axis));
    var pinches := Filter(r.pinches, IsPinchable(r.fingers));
    EmitMembers(swipes, Starting(), Event(g, Started));
    EmitMembers(pinches, Starting(), Event(g, Started));
  }

  lemma SwipePassTells(r: Recognizer, d: SwipeDirection, g: Gesture)
    ensures Extends(r, SwipePass(r, d)) && ChangesTold(r, SwipePass(r, d), g)
  {
    var q := if r.activeSwipes == [] then StartSwipe(r, r.fingers, None) else r;
    StartTellsChanges(r, g);
    var gone := Filter(q.activeSwipes, Not(FollowsHeading(d)));
    EmitMembers(gone, Cancelling(), Event(g, Cancelled));
    EmittingNews(q, gone, Cancelling());
    ChangesCompose(r, q, SwipePass(r, d), g);
  }

  lemma PinchPassTells(r: Recognizer, d: PinchDirection, g: Gesture)
    ensures Extends(r, PinchPass(r, d)) && ChangesTold(r, PinchPass(r, d), g)
    ensures forall e :: e in News(r, PinchPass(r, d)) ==> e.signal == Started || e.signal == Cancelled
  {
    var q := if r.activePinches == [] then StartPinch(r, r.fingers) else r;
    StartTellsChanges(r, g);
    var gone := Filter(q.activePinches, Not(Pinches(d)));
    EmitMembers(gone, Cancelling(), Event(g, Cancelled));
    EmittingNews(q, gone, Cancelling());
    ChangesCompose(r, q, PinchPass(r, d), g);
    PinchPassOnly(r, d);
  }

  lemma PinchPassOnly(r: Recognizer, d: PinchDirection)
    ensures OnlyStartsAndCancels(r, PinchPass(r, d))
  {
    var fit := Filter(r.pinches, IsPinchable(r.fingers));
    var q := if r.activePinches == [] then StartPinch(r, r.fingers) else r;
    forall e | e in Emit(fit, Starting()) ensures e.signal == Started {
      EmitMembers(fit, Starting(), e);
    }
    EmittingNews(r, fit, Starting());
    assert OnlyStartsAndCancels(r, q);
    var gone := Filter(q.activePinches, Not(Pinches(d)));
    EmittingNews(q, gone, Cancelling());
    forall e | e in Emit(gone, Cancelling()) ensures e.signal == Cancelled {
      EmitMembers(gone, Cancelling(), e);
    }
    StartsAndCancelsCompose(r, q, PinchPass(r, d));
  }

  predicate StartsOrCancels(news: seq<Event>) {
    forall i :: 0 <= i < |news| ==> news[i].signal == Started || news[i].signal == Cancelled
  }

  /** For each swipe its progress, and then the distance. */
  ghost predicate SwipeReports(told: seq<Event>, gs: seq<Gesture>, delta: Point) {
    && |told| == 2 * |gs|
    && forall i :: 0 <= i < |gs| ==>
        && gs[i].Swipe?
        && told[2 * i].gesture == gs[i] && told[2 * i].signal.Progress?
        && IsSwipeProgress(gs[i], delta, told[2 * i].signal.progress)
        && told[2 * i + 1] == Event(gs[i], DeltaProgress(delta))
  }

  /** Starts and cancellations come first, and no verdict among them; then the reports to the
      swipes left active. */
  ghost predicate SwipeUpdateTold(s: Recognizer, news: seq<Event>) {
    var k := |news| - 2 * |s.activeSwipes|;
    k >= 0 && StartsOrCancels(news[..k]) && SwipeReports(news[k..], s.activeSwipes, s.delta)
  }

  lemma ReportsTold(gs: seq<Gesture>, moved: Point)
    requires forall g :: g in gs ==> g.Swipe?
    ensures SwipeReports(Emit(gs, Reporting(moved)), gs, moved)
  {
    EmitPairs(gs, Reporting(moved));
    forall i | 0 <= i < |gs|
      ensures gs[i].Swipe? && IsSwipeProgress(gs[i], moved, DeltaToProgress(gs[i], moved))
    {
      assert gs[i] in gs;
      SwipeProgressIs(gs[i], moved);
    }
  }

  /** Signals after what was told between `r` and `t` are the last news. */
  lemma NewsAfter(r: Recognizer, t: Recognizer, told: seq<Event>)
    requires OnlyStartsAndCancels(r, t)
    ensures var news, k := News(r, t.(emitted := t.emitted + told)), |News(r, t)|;
      news == News(r, t) + told && StartsOrCancels(news[..k]) && news[k..] == told
  {
    var s := t.(emitted := t.emitted + told);
    assert News(r, s) == News(r, t) + told;
    assert forall e :: e in News(r, t) ==> e.signal == Started || e.signal == Cancelled;
    assert forall i :: 0 <= i < |News(r, t)| ==> News(r, t)[i] in News(r, t);
  }

  lemma ChangesStayTold(r: Recognizer, t: Recognizer, told: seq<Event>, g: Gesture)
    requires OnlyStartsAndCancels(r, t) && Extends(r, t) && ChangesTold(r, t, g)
    ensures var s := t.(emitted := t.emitted + told); Extends(r, s) && ChangesTold(r, s, g)
  {
    NewsAfter(r, t, told);
  }

  lemma TwoSwipePassesTell(q: Recognizer, d: SwipeDirection, g: Gesture)
    requires Sound(q)
    ensures var twice := SwipePass(SwipePass(q, d), d);
      Sound(twice) && OnlyStartsAndCancels(q, twice) && Extends(q, twice) && ChangesTold(q, twice, g)
  {
    var once := SwipePass(q, d);
    SwipePassTells(q, d, g);
    SwipePassTells(once, d, g);
    ChangesCompose(q, once, SwipePass(once, d), g);
    SwipePassNews(q, d);
    SwipePassNews(once, d);
    StartsAndCancelsCompose(q, once, SwipePass(once, d));
    SwipePassSound(q, d);
    SwipePassSound(once, d);
  }

  /** The reports come after what the passes have told. */
  lemma SwipeReportsFollow(r: Recognizer, t: Recognizer, moved: Point, g: Gesture)
    requires Sound(t) && OnlyStartsAndCancels(r, t) && Extends(r, t) && ChangesTold(r, t, g) && t.delta == moved
    ensures var s := t.Emitting(t.activeSwipes, Reporting(moved));
      Extends(r, s) && SwipeUpdateTold(s, News(r, s)) && ChangesTold(r, s, g)
  {
    ReportsTold(t.activeSwipes, moved);
    NewsAfter(r, t, Emit(t.activeSwipes, Reporting(moved)));
    ChangesStayTold(r, t, Emit(t.activeSwipes, Reporting(moved)), g);
  }

  /** An update tells every change in what is active and no verdict, and reports progress and
      distance to exactly the swipes it leaves active. */
  lemma UpdateSwipeTells(r: Recognizer, move: Point, g: Gesture)
    requires Sound(r)
    ensures var s := UpdateSwipe(r, move);
      Extends(r, s) && SwipeUpdateTold(s, News(r, s)) && ChangesTold(r, s, g)
  {
    var moved := Plus(r.delta, move);
    var d := Heading(r.axis, moved);
    var q := r.(delta := moved, axis := LockAxis(r.axis, moved));
    TwoSwipePassesTell(q, d, g);
    var twice := SwipePass(SwipePass(q, d), d);
    SwipePassKeepsRest(q, d);
    SwipePassKeepsRest(SwipePass(q, d), d);
    SwipeReportsFollow(q, twice, moved, g);
    SameNews(r, q, twice.Emitting(twice.activeSwipes, Reporting(moved)), g);
  }

  lemma SameNews(r: Recognizer, q: Recognizer, s: Recognizer, g: Gesture)
    requires q.emitted == r.emitted && q.activeSwipes == r.activeSwipes && q.activePinches == r.activePinches
    requires Extends(q, s) && ChangesTold(q, s, g)
    ensures Extends(r, s) && ChangesTold(r, s, g) && News(r, s) == News(q, s)
  {
  }

  /** For each pinch its progress. */
  ghost predicate PinchReports(told: seq<Event>, gs: seq<Gesture>, scale: real) {
    && |told| == |gs|
    && forall i :: 0 <= i < |gs| ==>
        && gs[i].Pinch?
        && told[i].gesture == gs[i] && told[i].signal.Progress?
        && (gs[i].minScaleDelta >= 0.0 ==> IsShare(told[i].signal.progress, Abs(scale - 1.0), gs[i].minScaleDelta))
  }

  ghost predicate PinchUpdateTold(s: Recognizer, news: seq<Event>) {
    var k := |news| - |s.activePinches|;
    k >= 0 && StartsOrCancels(news[..k]) && PinchReports(news[k..], s.activePinches, s.scale)
  }

  lemma {:induction false} ScalesTold(gs: seq<Gesture>, scale: real)
    requires forall g :: g in gs ==> g.Pinch?
    ensures PinchReports(Emit(gs, Scaling(scale)), gs, scale)
  {
    if gs != [] {
      var init, g := gs[..|gs| - 1], gs[|gs| - 1];
      assert forall h :: h in init ==> h in gs;
      assert g in gs;
      ScalesTold(init, scale);
      assert forall i :: 0 <= i < |init| ==> init[i] == gs[i];
      if g.minScaleDelta >= 0.0 {
        QuotientShare(Abs(scale - 1.0), g.minScaleDelta);
      }
    }
  }

  lemma TwoPinchPassesTell(q: Recognizer, d: PinchDirection, g: Gesture)
    requires Sound(q)
    ensures var twice := PinchPass(PinchPass(q, d), d);
      Sound(twice) && OnlyStartsAndCancels(q, twice) && Extends(q, twice) && ChangesTold(q, twice, g)
  {
    var once := PinchPass(q, d);
    PinchPassTells(q, d, g);
    PinchPassTells(once, d, g);
    ChangesCompose(q, once, PinchPass(once, d), g);
    PinchPassOnly(q, d);
    PinchPassOnly(once, d);
    StartsAndCancelsCompose(q, once, PinchPass(once, d));
    PinchPassSound(q, d);
    PinchPassSound(once, d);
  }

  lemma PinchReportsFollow(r: Recognizer, t: Recognizer, scale: real, g: Gesture)
    requires Sound(t) && OnlyStartsAndCancels(r, t) && Extends(r, t) && ChangesTold(r, t, g) && t.scale == scale
    ensures var s := t.Emitting(t.activePinches, Scaling(scale));
      Extends(r, s) && PinchUpdateTold(s, News(r, s)) && ChangesTold(r, s, g)
  {
    var told := Emit(t.activePinches, Scaling(scale));
    NewsAfter(r, t, told);
    ChangesStayTold(r, t, told, g);
    assert |told| == |t.activePinches| && PinchReports(told, t.activePinches, scale) by {
      ScalesTold(t.activePinches, scale);
    }
  }

  /** The same for pinches. */
  lemma UpdatePinchTells(r: Recognizer, factor: real, g: Gesture)
    requires Sound(r)
    ensures var s := UpdatePinch(r, factor);
      Extends(r, s) && PinchUpdateTold(s, News(r, s)) && ChangesTold(r, s, g)
  {
    var q, d := r.(scale := factor), PinchHeading(factor);
    TwoPinchPassesTell(q, d, g);
    var twice := PinchPass(PinchPass(q, d), d);
    PinchPassKeepsRest(q, d);
    PinchPassKeepsRest(PinchPass(q, d), d);
    PinchReportsFollow(q, twice, factor, g);
    SameNews(r, q, twice.Emitting(twice.activePinches, Scaling(factor)), g);
  }
}
