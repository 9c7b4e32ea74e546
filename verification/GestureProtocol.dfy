/** What holds of the gesture recognizer in every run: which lists it keeps, in which order
    the signals of a gesture come, and which gestures an update leaves active. */
module GestureProtocol {
  import opened Lists
  import opened Gestures

  // ---------- the lists ----------

  /** The lists name each gesture once, only registered gestures are active, every
      registered gesture is watched for its destruction, and swipes exclude pinches. */
  ghost predicate Sound(r: Recognizer) {
    && NoDup(r.swipes) && NoDup(r.pinches) && NoDup(r.activeSwipes) && NoDup(r.activePinches)
    && (forall g :: g in r.swipes ==> g.Swipe?)
    && (forall g :: g in r.pinches ==> g.Pinch?)
    && (forall g :: g in r.activeSwipes ==> g in r.swipes)
    && (forall g :: g in r.activePinches ==> g in r.pinches)
    && (forall g :: g in r.connections <==> g in r.swipes || g in r.pinches)
    && (r.activeSwipes == [] || r.activePinches == [])
  }

  lemma StartSwipeSound(r: Recognizer, fingers: nat, start: Option<Point>)
    requires Sound(r)
    ensures Sound(StartSwipe(r, fingers, start))
  {
    FilterNoDup(r.swipes, IsStartable(fingers, start, r.axis));
  }

  lemma SwipePassSound(r: Recognizer, d: SwipeDirection)
    requires Sound(r)
    ensures Sound(SwipePass(r, d))
  {
    StartSwipeSound(r, r.fingers, None);
    var q := if r.activeSwipes == [] then StartSwipe(r, r.fingers, None) else r;
    FilterNoDup(q.activeSwipes, FollowsHeading(d));
  }

  lemma StartPinchSound(r: Recognizer, fingers: nat)
    requires Sound(r)
    ensures Sound(StartPinch(r, fingers))
  {
    FilterNoDup(r.pinches, IsPinchable(fingers));
  }

  lemma PinchPassSound(r: Recognizer, d: PinchDirection)
    requires Sound(r)
    ensures Sound(PinchPass(r, d))
  {
    StartPinchSound(r, r.fingers);
    var q := if r.activePinches == [] then StartPinch(r, r.fingers) else r;
    FilterNoDup(q.activePinches, Pinches(d));
  }

  lemma UnregisterSound(r: Recognizer, g: Gesture)
    requires Sound(r)
    ensures g.Swipe? ==> Sound(UnregisterSwipe(r, g))
    ensures g.Pinch? ==> Sound(UnregisterPinch(r, g))
  {
    WithoutNoDup(r.swipes, g);
    WithoutNoDup(r.pinches, g);
    WithoutNoDup(r.activeSwipes, g);
    WithoutNoDup(r.activePinches, g);
    RemoveOneIsWithout(r.activeSwipes, g);
    RemoveOneIsWithout(r.activePinches, g);
  }

  lemma UpdateSwipeSound(r: Recognizer, move: Point)
    requires Sound(r)
    ensures Sound(UpdateSwipe(r, move))
  {
    var moved := Plus(r.delta, move);
    var d := Heading(r.axis, moved);
    var q := r.(delta := moved, axis := LockAxis(r.axis, moved));
    SwipePassSound(q, d);
    SwipePassSound(SwipePass(q, d), d);
  }

  lemma UpdatePinchSound(r: Recognizer, factor: real)
    requires Sound(r)
    ensures Sound(UpdatePinch(r, factor))
  {
    var q := r.(scale := factor);
    var d := PinchHeading(factor);
    PinchPassSound(q, d);
    PinchPassSound(PinchPass(q, d), d);
  }

  lemma StepSound(r: Recognizer, op: Op)
    requires Sound(r) && Allowed(r, op)
    ensures Sound(Step(r, op))
  {
    match op
    case DoRegister(g) =>
      NoDupAppend(r.swipes, [g]);
      NoDupAppend(r.pinches, [g]);
    case DoUnregister(g) => UnregisterSound(r, g);
    case DoDestroy(g) => UnregisterSound(r, g);
    case DoStartSwipe(n) => StartSwipeSound(r, n, None);
    case DoStartSwipeAt(pos) => StartSwipeSound(r, 1, Some(pos));
    case DoUpdateSwipe(move) => UpdateSwipeSound(r, move);
    case DoStartPinch(n) => StartPinchSound(r, n);
    case DoUpdatePinch(factor) => UpdatePinchSound(r, factor);
    case _ =>
  }

  /** In every run the lists are in order; in particular a destroyed gesture is in none. */
  lemma {:induction false} RunSound(ops: seq<Op>)
    requires Legal(ops)
    ensures Sound(Run(ops))
    ensures ops != [] && ops[|ops| - 1].DoDestroy? ==>
      var g := ops[|ops| - 1].g;
      g !in Run(ops).swipes && g !in Run(ops).pinches && !Run(ops).Active(g)
  {
    if ops != [] {
      var before := Run(ops[..|ops| - 1]);
      RunSound(ops[..|ops| - 1]);
      StepSound(before, ops[|ops| - 1]);
      if ops[|ops| - 1].DoDestroy? {
        RemoveOneIsWithout(before.activeSwipes, ops[|ops| - 1].g);
        RemoveOneIsWithout(before.activePinches, ops[|ops| - 1].g);
      }
    }
  }

  // ---------- the signal protocol ----------

  /** Where a gesture stands after the signals so far. Broken: a signal came out of order. */
  datatype Phase = Idle | Open | Broken

  function Next(p: Phase, signal: Signal): Phase {
    match signal
    case Started => if p == Idle then Open else Broken
    case Triggered | Cancelled => if p == Open then Idle else Broken
    case Progress(_) | DeltaProgress(_) => if p == Open then Open else Broken
  }

  function Advance(p: Phase, signals: seq<Signal>): Phase {
    if signals == [] then p else Next(Advance(p, signals[..|signals| - 1]), signals[|signals| - 1])
  }

  function PhaseOf(events: seq<Event>, g: Gesture): Phase {
    if events == [] then Idle else
      var p := PhaseOf(events[..|events| - 1], g);
      var e := events[|events| - 1];
      if e.gesture == g then Next(p, e.signal) else p
  }

  /** The gesture's last lifecycle signal is `started` exactly when it is active, and its
      signals so far came in order. */
  ghost predicate Good(r: Recognizer, g: Gesture) {
    PhaseOf(r.emitted, g) == if r.Active(g) then Open else Idle
  }

  /** The gesture was started, is no longer active and was never told, or worse. */
  ghost predicate Lost(r: Recognizer, g: Gesture) {
    PhaseOf(r.emitted, g) == Broken || (PhaseOf(r.emitted, g) == Open && !r.Active(g))
  }

  ghost predicate Bracketed(r: Recognizer) { forall g :: Good(r, g) }

  lemma {:induction false} TagPhase(t: seq<Event>, h: Gesture, signals: seq<Signal>, g: Gesture)
    ensures PhaseOf(t + Tag(h, signals), g) == if g == h then Advance(PhaseOf(t, g), signals) else PhaseOf(t, g)
  {
    var tagged := Tag(h, signals);
    if signals == [] {
      assert t + tagged == t;
    } else {
      var init := signals[..|signals| - 1];
      TagPhase(t, h, init, g);
      assert (t + tagged)[..|t + tagged| - 1] == t + Tag(h, init);
    }
  }

  lemma {:induction false} EmitPhase(t: seq<Event>, gs: seq<Gesture>, f: Gesture -> seq<Signal>, g: Gesture)
    requires NoDup(gs)
    ensures PhaseOf(t + Emit(gs, f), g) == if g in gs then Advance(PhaseOf(t, g), f(g)) else PhaseOf(t, g)
  {
    if gs == [] {
      assert t + Emit(gs, f) == t;
    } else {
      var init, h := gs[..|gs| - 1], gs[|gs| - 1];
      assert g in gs <==> g in init || g == h by { assert gs == init + [h]; }
      assert h !in init;
      EmitPhase(t, init, f, g);
      var before := t + Emit(init, f);
      TagPhase(before, h, f(h), g);
      assert t + Emit(gs, f) == before + Tag(h, f(h));
    }
  }

  lemma AdvanceSmall(p: Phase, signals: seq<Signal>)
    ensures signals == [] ==> Advance(p, signals) == p
    ensures |signals| == 1 ==> Advance(p, signals) == Next(p, signals[0])
    ensures |signals| == 2 ==> Advance(p, signals) == Next(Next(p, signals[0]), signals[1])
  {
    if |signals| == 2 {
      assert signals[..1] == [signals[0]];
    }
  }

  /** From `r` to `s` a gesture that stood well still does, and a lost one is not found again. */
  ghost predicate Keeps(r: Recognizer, s: Recognizer, g: Gesture) {
    (Good(r, g) ==> Good(s, g)) && (Lost(r, g) ==> Lost(s, g))
  }

  lemma StartSwipeKeeps(r: Recognizer, fingers: nat, start: Option<Point>, g: Gesture)
    requires Sound(r)
    ensures Keeps(r, StartSwipe(r, fingers, start), g)
  {
    var gs := Filter(r.swipes, IsStartable(fingers, start, r.axis));
    FilterNoDup(r.swipes, IsStartable(fingers, start, r.axis));
    EmitPhase(r.emitted, gs, Starting(), g);
    AdvanceSmall(PhaseOf(r.emitted, g), Starting()(g));
  }

  lemma StartPinchKeeps(r: Recognizer, fingers: nat, g: Gesture)
    requires Sound(r)
    ensures Keeps(r, StartPinch(r, fingers), g)
  {
    var gs := Filter(r.pinches, IsPinchable(fingers));
    FilterNoDup(r.pinches, IsPinchable(fingers));
    EmitPhase(r.emitted, gs, Starting(), g);
    AdvanceSmall(PhaseOf(r.emitted, g), Starting()(g));
  }

  lemma SwipeEliminationKeeps(r: Recognizer, d: SwipeDirection, g: Gesture)
    requires Sound(r)
    ensures var gone := Filter(r.activeSwipes, Not(FollowsHeading(d)));
      Keeps(r, r.(activeSwipes := Filter(r.activeSwipes, FollowsHeading(d))).Emitting(gone, Cancelling()), g)
  {
    var gone := Filter(r.activeSwipes, Not(FollowsHeading(d)));
    FilterNoDup(r.activeSwipes, Not(FollowsHeading(d)));
    EmitPhase(r.emitted, gone, Cancelling(), g);
    AdvanceSmall(PhaseOf(r.emitted, g), Cancelling()(g));
  }

  lemma SwipePassKeeps(r: Recognizer, d: SwipeDirection, g: Gesture)
    requires Sound(r)
    ensures Keeps(r, SwipePass(r, d), g)
  {
    StartSwipeSound(r, r.fingers, None);
    StartSwipeKeeps(r, r.fingers, None, g);
    SwipeEliminationKeeps(if r.activeSwipes == [] then StartSwipe(r, r.fingers, None) else r, d, g);
  }

  lemma PinchEliminationKeeps(r: Recognizer, d: PinchDirection, g: Gesture)
    requires Sound(r)
    ensures var gone := Filter(r.activePinches, Not(Pinches(d)));
      Keeps(r, r.(activePinches := Filter(r.activePinches, Pinches(d))).Emitting(gone, Cancelling()), g)
  {
    var gone := Filter(r.activePinches, Not(Pinches(d)));
    FilterNoDup(r.activePinches, Not(Pinches(d)));
    EmitPhase(r.emitted, gone, Cancelling(), g);
    AdvanceSmall(PhaseOf(r.emitted, g), Cancelling()(g));
  }

  lemma PinchPassKeeps(r: Recognizer, d: PinchDirection, g: Gesture)
    requires Sound(r)
    ensures Keeps(r, PinchPass(r, d), g)
  {
    StartPinchSound(r, r.fingers);
    StartPinchKeeps(r, r.fingers, g);
    PinchEliminationKeeps(if r.activePinches == [] then StartPinch(r, r.fingers) else r, d, g);
  }

  lemma TwoSwipePasses(r: Recognizer, d: SwipeDirection, g: Gesture)
    requires Sound(r)
    ensures Sound(SwipePass(SwipePass(r, d), d)) && Keeps(r, SwipePass(SwipePass(r, d), d), g)
  {
    var once := SwipePass(r, d);
    SwipePassSound(r, d);
    SwipePassKeeps(r, d, g);
    SwipePassSound(once, d);
    SwipePassKeeps(once, d, g);
  }

  lemma TwoPinchPasses(r: Recognizer, d: PinchDirection, g: Gesture)
    requires Sound(r)
    ensures Sound(PinchPass(PinchPass(r, d), d)) && Keeps(r, PinchPass(PinchPass(r, d), d), g)
  {
    var once := PinchPass(r, d);
    PinchPassSound(r, d);
    PinchPassKeeps(r, d, g);
    PinchPassSound(once, d);
    PinchPassKeeps(once, d, g);
  }

  lemma ReportKeeps(r: Recognizer, delta: Point, g: Gesture)
    requires Sound(r)
    ensures Keeps(r, r.Emitting(r.activeSwipes, Reporting(delta)), g)
  {
    EmitPhase(r.emitted, r.activeSwipes, Reporting(delta), g);
    AdvanceSmall(PhaseOf(r.emitted, g), Reporting(delta)(g));
  }

  lemma ScalingKeeps(r: Recognizer, scale: real, g: Gesture)
    requires Sound(r)
    ensures Keeps(r, r.Emitting(r.activePinches, Scaling(scale)), g)
  {
    EmitPhase(r.emitted, r.activePinches, Scaling(scale), g);
    AdvanceSmall(PhaseOf(r.emitted, g), Scaling(scale)(g));
  }

  lemma UpdateSwipeKeeps(r: Recognizer, move: Point, g: Gesture)
    requires Sound(r)
    ensures Keeps(r, UpdateSwipe(r, move), g)
  {
    var moved := Plus(r.delta, move);
    var d := Heading(r.axis, moved);
    var q := r.(delta := moved, axis := LockAxis(r.axis, moved));
    assert Keeps(r, q, g);
    TwoSwipePasses(q, d, g);
    ReportKeeps(SwipePass(SwipePass(q, d), d), moved, g);
  }

  lemma UpdatePinchKeeps(r: Recognizer, factor: real, g: Gesture)
    requires Sound(r)
    ensures Keeps(r, UpdatePinch(r, factor), g)
  {
    var d := PinchHeading(factor);
    var q := r.(scale := factor);
    assert Keeps(r, q, g);
    TwoPinchPasses(q, d, g);
    ScalingKeeps(PinchPass(PinchPass(q, d), d), factor, g);
  }

  lemma CancelActiveKeeps(r: Recognizer, g: Gesture)
    requires Sound(r)
    ensures Keeps(r, CancelActive(r), g)
  {
    NoDupAppend(r.activeSwipes, r.activePinches);
    EmitPhase(r.emitted, r.activeSwipes + r.activePinches, Cancelling(), g);
    AdvanceSmall(PhaseOf(r.emitted, g), Cancelling()(g));
  }

  lemma EndSwipeKeeps(r: Recognizer, g: Gesture)
    requires Sound(r)
    ensures Keeps(r, EndSwipe(r), g)
  {
    EmitPhase(r.emitted, r.activeSwipes, Ending(r.delta, r.scale), g);
    AdvanceSmall(PhaseOf(r.emitted, g), Ending(r.delta, r.scale)(g));
  }

  /** Ending a pinch gesture keeps the protocol except for the active swipes, which are lost. */
  lemma EndPinchKeepsOrLoses(r: Recognizer, g: Gesture)
    requires Sound(r)
    ensures if g in r.activeSwipes && Good(r, g) then Lost(EndPinch(r), g) else Keeps(r, EndPinch(r), g)
  {
    EmitPhase(r.emitted, r.activePinches, Ending(r.delta, r.scale), g);
    AdvanceSmall(PhaseOf(r.emitted, g), Ending(r.delta, r.scale)(g));
  }

  lemma CancelledPhase(t: seq<Event>, h: Gesture, g: Gesture)
    ensures PhaseOf(t + [Event(h, Cancelled)], g) == if g == h then Next(PhaseOf(t, g), Cancelled) else PhaseOf(t, g)
  {
    assert (t + [Event(h, Cancelled)])[..|t|] == t;
  }

  lemma UnregisterSwipeKeeps(r: Recognizer, h: Gesture, g: Gesture)
    requires Sound(r)
    ensures Keeps(r, UnregisterSwipe(r, h), g)
  {
    RemoveOneIsWithout(r.activeSwipes, h);
    CancelledPhase(r.emitted, h, g);
    assert r.emitted + [] == r.emitted;
  }

  lemma UnregisterPinchKeeps(r: Recognizer, h: Gesture, g: Gesture)
    requires Sound(r)
    ensures Keeps(r, UnregisterPinch(r, h), g)
  {
    RemoveOneIsWithout(r.activePinches, h);
    CancelledPhase(r.emitted, h, g);
    assert r.emitted + [] == r.emitted;
  }

  lemma UnregisterKeeps(r: Recognizer, h: Gesture, g: Gesture)
    requires Sound(r)
    ensures h.Swipe? ==> Keeps(r, UnregisterSwipe(r, h), g)
    ensures h.Pinch? ==> Keeps(r, UnregisterPinch(r, h), g)
  {
    UnregisterSwipeKeeps(r, h, g);
    UnregisterPinchKeeps(r, h, g);
  }

  lemma StepKeeps(r: Recognizer, op: Op, g: Gesture)
    requires Sound(r) && Allowed(r, op)
    ensures if op.DoEndPinch? && g in r.activeSwipes && Good(r, g) then Lost(Step(r, op), g)
        else Keeps(r, Step(r, op), g)
  {
    match op
    case DoRegister(h) =>
    case DoUnregister(h) => UnregisterKeeps(r, h, g);
    case DoDestroy(h) => UnregisterKeeps(r, h, g);
    case DoStartSwipe(n) => StartSwipeKeeps(r, n, None, g);
    case DoStartSwipeAt(pos) => StartSwipeKeeps(r, 1, Some(pos), g);
    case DoUpdateSwipe(move) => UpdateSwipeKeeps(r, move, g);
    case DoCancelSwipe => CancelActiveKeeps(r, g);
    case DoEndSwipe => EndSwipeKeeps(r, g);
    case DoStartPinch(n) => StartPinchKeeps(r, n, g);
    case DoUpdatePinch(factor) => UpdatePinchKeeps(r, factor, g);
    case DoCancelPinch => CancelActiveKeeps(r, g);
    case DoEndPinch => EndPinchKeepsOrLoses(r, g);
  }

  /** No pinch gesture was ended while swipes were active. */
  predicate NoSwipeDropped(ops: seq<Op>) {
    ops == [] ||
    (NoSwipeDropped(ops[..|ops| - 1]) &&
     (ops[|ops| - 1].DoEndPinch? ==> Run(ops[..|ops| - 1]).activeSwipes == []))
  }

  /** The protocol of `started`, `triggered` and `cancelled` is kept for every gesture
      exactly in the runs that never end a pinch while swipes are active; otherwise some
      gesture is lost for good. */
  lemma {:induction false} BracketedIffNoSwipeDropped(ops: seq<Op>)
    requires Legal(ops)
    ensures Bracketed(Run(ops)) <==> NoSwipeDropped(ops)
    ensures !NoSwipeDropped(ops) ==> exists g :: Lost(Run(ops), g)
  {
    if ops != [] {
      var before, op := Run(ops[..|ops| - 1]), ops[|ops| - 1];
      BracketedIffNoSwipeDropped(ops[..|ops| - 1]);
      RunSound(ops[..|ops| - 1]);
      if !NoSwipeDropped(ops[..|ops| - 1]) {
        var g :| Lost(before, g);
        StepKeeps(before, op, g);
        assert Lost(Run(ops), g) && !Good(Run(ops), g);
      } else if op.DoEndPinch? && before.activeSwipes != [] {
        var g := before.activeSwipes[0];
        StepKeeps(before, op, g);
        assert Lost(Run(ops), g) && !Good(Run(ops), g);
      } else {
        forall g ensures Good(Run(ops), g) {
          assert Good(before, g);
          StepKeeps(before, op, g);
        }
      }
    }
  }

  /** The protocol can indeed be broken: after any lossless run that left the recognizer
      idle, start a registered swipe and end a pinch. */
  lemma SwipeCanBeDropped(ops: seq<Op>, g: Gesture, n: nat)
    requires Legal(ops) && NoSwipeDropped(ops) && !Run(ops).Busy()
    requires g in Run(ops).swipes && Startable(g, n, None, Run(ops).axis)
    ensures var broken := ops + [DoStartSwipe(n)] + [DoEndPinch];
      Legal(broken) && !Bracketed(Run(broken)) && Lost(Run(broken), g)
  {
    var started := ops + [DoStartSwipe(n)];
    RunSnoc(ops, DoStartSwipe(n));
    RunSnoc(started, DoEndPinch);
    assert g in Run(started).activeSwipes;
    BracketedIffNoSwipeDropped(started);
    RunSound(started);
    assert Good(Run(started), g);
    StepKeeps(Run(started), DoEndPinch, g);
    assert !Good(Run(started + [DoEndPinch]), g);
  }

  lemma RunSnoc(ops: seq<Op>, op: Op)
    ensures Run(ops + [op]) == Step(Run(ops), op)
    ensures Legal(ops + [op]) <==> Legal(ops) && Allowed(Run(ops), op)
    ensures NoSwipeDropped(ops + [op]) <==> NoSwipeDropped(ops) && (op.DoEndPinch? ==> Run(ops).activeSwipes == [])
  {
    assert (ops + [op])[..|ops + [op]| - 1] == ops;
  }

  // ---------- which swipes an update leaves active ----------

  /** The restart that the two rounds of elimination amount to. */
  predicate Restartable(g: Gesture, fingers: nat, axis: Axis, d: SwipeDirection) {
    Startable(g, fingers, None, axis) && Follows(g, d)
  }

  function IsRestartable(fingers: nat, axis: Axis, d: SwipeDirection): Gesture -> bool {
    (g: Gesture) => Restartable(g, fingers, axis, d)
  }

  lemma {:induction false} FilterBoth(s: seq<Gesture>, fingers: nat, axis: Axis, d: SwipeDirection)
    ensures Filter(Filter(s, IsStartable(fingers, None, axis)), FollowsHeading(d))
         == Filter(s, IsRestartable(fingers, axis, d))
  {
    if s != [] {
      var init, g := s[..|s| - 1], s[|s| - 1];
      FilterBoth(init, fingers, axis, d);
      var inner := Filter(init, IsStartable(fingers, None, axis));
      FilterAppend(inner, [g], FollowsHeading(d));
      assert inner + [] == inner;
    }
  }

  /** After an update the active swipes are those that were active and still follow the
      movement (or started at a border); only when there are none, and no pinch is active,
      they are the registered swipes that fit fingers, axis and movement, in their order. */
  lemma UpdateChooses(r: Recognizer, move: Point)
    ensures var moved := Plus(r.delta, move);
      var d := Heading(r.axis, moved);
      var survivors := Filter(r.activeSwipes, FollowsHeading(d));
      UpdateSwipe(r, move).activeSwipes ==
        (if survivors != [] then survivors
         else if r.activePinches != [] then []
         else Filter(r.swipes, IsRestartable(r.fingers, LockAxis(r.axis, moved), d)))
  {
    var moved := Plus(r.delta, move);
    var d := Heading(r.axis, moved);
    var q := r.(delta := moved, axis := LockAxis(r.axis, moved));
    var once := SwipePass(q, d);
    FilterBoth(r.swipes, r.fingers, q.axis, d);
    FilterIdempotent(r.activeSwipes, FollowsHeading(d));
    FilterIdempotent(Filter(r.swipes, IsStartable(r.fingers, None, q.axis)), FollowsHeading(d));
  }

  /** The heading goes along the locked axis, otherwise along the larger component of the
      movement, and its sign is the movement's. */
  lemma HeadingFollowsMovement(locked: Axis, delta: Point)
    ensures var d := Heading(locked, delta);
      && OnAxis(d, locked)
      && (locked == NoAxis ==> Abs(Along(d, delta)) >= Abs(delta.x) && Abs(Along(d, delta)) >= Abs(delta.y))
      && (d.Up? || d.Left? <==> Along(d, delta) < 0.0)
  {
  }

  /** The same choice for pinches: those that were active and go the same way, otherwise,
      with no swipe active, the registered ones that fit the fingers and go that way. */
  lemma UpdatePinchChooses(r: Recognizer, scale: real)
    ensures var d := PinchHeading(scale);
      var survivors := Filter(r.activePinches, Pinches(d));
      UpdatePinch(r, scale).activePinches ==
        (if survivors != [] then survivors
         else if r.activeSwipes != [] then []
         else Filter(Filter(r.pinches, IsPinchable(r.fingers)), Pinches(d)))
  {
    var d := PinchHeading(scale);
    FilterIdempotent(r.activePinches, Pinches(d));
    FilterIdempotent(Filter(r.pinches, IsPinchable(r.fingers)), Pinches(d));
  }

  // ---------- distance and axis of a swipe ----------

  predicate ResetsDelta(op: Op) { op.DoCancelSwipe? || op.DoEndSwipe? || op.DoCancelPinch? }

  /** The sum of all movements since the last reset. */
  function Travelled(ops: seq<Op>): Point {
    if ops == [] then ORIGIN else
      var op := ops[|ops| - 1];
      if ResetsDelta(op) then ORIGIN
      else if op.DoUpdateSwipe? then
        var before := Travelled(ops[..|ops| - 1]);
        Point(before.x + op.move.x, before.y + op.move.y)
      else Travelled(ops[..|ops| - 1])
  }

  lemma SwipePassKeepsRest(r: Recognizer, d: SwipeDirection)
    ensures SwipePass(r, d) == r.(activeSwipes := SwipePass(r, d).activeSwipes, emitted := SwipePass(r, d).emitted)
    ensures forall g :: g in SwipePass(r, d).activeSwipes ==> Follows(g, d)
  {
  }

  lemma PinchPassKeepsRest(r: Recognizer, d: PinchDirection)
    ensures PinchPass(r, d) == r.(activePinches := PinchPass(r, d).activePinches, emitted := PinchPass(r, d).emitted)
  {
  }

  /** What an operation does to the distance and the axis. */
  lemma StepMoves(r: Recognizer, op: Op)
    ensures Step(r, op).delta ==
      if ResetsDelta(op) then ORIGIN else if op.DoUpdateSwipe? then Plus(r.delta, op.move) else r.delta
    ensures Step(r, op).axis ==
      if ResetsDelta(op) || op.DoEndPinch? then NoAxis
      else if op.DoUpdateSwipe? then LockAxis(r.axis, Plus(r.delta, op.move)) else r.axis
  {
  }

  lemma {:induction false} DeltaIsTravelled(ops: seq<Op>)
    ensures Run(ops).delta == Travelled(ops)
  {
    if ops != [] {
      DeltaIsTravelled(ops[..|ops| - 1]);
      StepMoves(Run(ops[..|ops| - 1]), ops[|ops| - 1]);
    }
  }

  predicate Short(p: Point) { Abs(p.x) < 5.0 && Abs(p.y) < 5.0 }

  /** No axis is chosen for a short movement only, and once one is chosen the active swipes
      lie on it, those from a border excepted. */
  ghost predicate AxisAgrees(r: Recognizer) {
    && (r.axis == NoAxis ==> Short(r.delta))
    && (r.axis != NoAxis ==> forall g :: g in r.activeSwipes && g.Swipe? ==>
        FourSided(g) || OnAxis(g.direction, r.axis))
  }

  lemma FollowersLieOnAxis(s: Recognizer, locked: Axis)
    requires s.axis == LockAxis(locked, s.delta)
    requires forall g :: g in s.activeSwipes ==> Follows(g, Heading(locked, s.delta))
    ensures AxisAgrees(s)
  {
  }

  lemma UpdateFollows(r: Recognizer, move: Point)
    ensures forall g :: g in UpdateSwipe(r, move).activeSwipes ==> Follows(g, Heading(r.axis, Plus(r.delta, move)))
  {
    var moved := Plus(r.delta, move);
    SwipePassKeepsRest(SwipePass(r.(delta := moved, axis := LockAxis(r.axis, moved)), Heading(r.axis, moved)),
                       Heading(r.axis, moved));
  }

  lemma UpdateAxis(r: Recognizer, move: Point)
    ensures AxisAgrees(UpdateSwipe(r, move))
  {
    StepMoves(r, DoUpdateSwipe(move));
    UpdateFollows(r, move);
    FollowersLieOnAxis(Step(r, DoUpdateSwipe(move)), r.axis);
  }

  lemma StepAxis(r: Recognizer, op: Op)
    requires Sound(r) && Allowed(r, op) && AxisAgrees(r)
    ensures AxisAgrees(Step(r, op)) <==> !(op.DoEndPinch? && !Short(r.delta))
    ensures r.axis != NoAxis && !ResetsDelta(op) && !op.DoEndPinch? ==> Step(r, op).axis == r.axis
  {
    StepMoves(r, op);
    match op
    case DoUnregister(g) => RemoveOneIsWithout(r.activeSwipes, g);
    case DoDestroy(g) => RemoveOneIsWithout(r.activeSwipes, g);
    case DoUpdateSwipe(move) => UpdateAxis(r, move);
    case DoUpdatePinch(factor) =>
      var d := PinchHeading(factor);
      PinchPassKeepsRest(r.(scale := factor), d);
      PinchPassKeepsRest(PinchPass(r.(scale := factor), d), d);
    case _ =>
  }

  /** No pinch gesture was ended on top of a swipe of five units or more. */
  predicate NoLongSwipeCut(ops: seq<Op>) {
    ops == [] ||
    (NoLongSwipeCut(ops[..|ops| - 1]) &&
     (ops[|ops| - 1].DoEndPinch? ==> Short(Travelled(ops[..|ops| - 1]))))
  }

  ghost predicate AxisAgreesThroughout(ops: seq<Op>) {
    AxisAgrees(Run(ops)) && (ops == [] || AxisAgreesThroughout(ops[..|ops| - 1]))
  }

  /** The axis rule holds at every moment of a run exactly when no pinch gesture is ended
      while the swipe distance kept by the recognizer is five or more. */
  lemma {:induction false} AxisAgreesIff(ops: seq<Op>)
    requires Legal(ops)
    ensures AxisAgreesThroughout(ops) <==> NoLongSwipeCut(ops)
  {
    if ops != [] {
      var init := ops[..|ops| - 1];
      AxisAgreesIff(init);
      RunSound(init);
      DeltaIsTravelled(init);
      if AxisAgreesThroughout(init) {
        StepAxis(Run(init), ops[|ops| - 1]);
      }
    }
  }

  /** The axis rule can indeed be broken: from any state, by a long movement and the end of a
      pinch. */
  lemma AxisRuleCanBreak(ops: seq<Op>, move: Point)
    requires Legal(ops) && !Short(Plus(Run(ops).delta, move))
    ensures var broken := ops + [DoUpdateSwipe(move)] + [DoEndPinch];
      Legal(broken) && !AxisAgrees(Run(broken))
  {
    var moved := ops + [DoUpdateSwipe(move)];
    RunSnoc(ops, DoUpdateSwipe(move));
    RunSnoc(moved, DoEndPinch);
    StepMoves(Run(ops), DoUpdateSwipe(move));
    StepMoves(Run(moved), DoEndPinch);
  }

  // ---------- lifting the fingers ----------

  /** The signals of an operation. */
  function News(r: Recognizer, s: Recognizer): seq<Event>
    requires |r.emitted| <= |s.emitted|
  {
    s.emitted[|r.emitted|..]
  }

  lemma {:induction false} EmitMembers(gs: seq<Gesture>, f: Gesture -> seq<Signal>, e: Event)
    ensures e in Emit(gs, f) <==> e.gesture in gs && e.signal in f(e.gesture)
  {
    if gs != [] {
      var init, g := gs[..|gs| - 1], gs[|gs| - 1];
      EmitMembers(init, f, e);
      assert gs == init + [g];
      var tagged := Tag(g, f(g));
      if e.gesture == g && e.signal in f(g) {
        var i :| 0 <= i < |f(g)| && f(g)[i] == e.signal;
        assert tagged[i] == e;
      }
      assert forall i | 0 <= i < |tagged| :: tagged[i] == Event(g, f(g)[i]);
    }
  }

  /** From `r` to `s` nothing but starts and cancellations was told. */
  ghost predicate OnlyStartsAndCancels(r: Recognizer, s: Recognizer) {
    && |r.emitted| <= |s.emitted| && s.emitted[..|r.emitted|] == r.emitted
    && forall e :: e in News(r, s) ==> e.signal == Started || e.signal == Cancelled
  }

  lemma EmittingNews(r: Recognizer, gs: seq<Gesture>, f: Gesture -> seq<Signal>)
    ensures var s := r.Emitting(gs, f);
      |r.emitted| <= |s.emitted| && s.emitted[..|r.emitted|] == r.emitted && News(r, s) == Emit(gs, f)
  {
  }

  lemma StartsAndCancelsCompose(r: Recognizer, s: Recognizer, t: Recognizer)
    requires OnlyStartsAndCancels(r, s) && OnlyStartsAndCancels(s, t)
    ensures OnlyStartsAndCancels(r, t)
  {
    assert t.emitted == r.emitted + (News(r, s) + News(s, t));
    assert News(r, t) == News(r, s) + News(s, t);
  }

  lemma StartSwipeNews(r: Recognizer, fingers: nat)
    ensures OnlyStartsAndCancels(r, StartSwipe(r, fingers, None))
  {
    var gs := Filter(r.swipes, IsStartable(fingers, None, r.axis));
    if !r.Busy() {
      EmittingNews(r, gs, Starting());
      forall e | e in Emit(gs, Starting()) ensures e.signal == Started {
        EmitMembers(gs, Starting(), e);
      }
    }
  }

  lemma SwipePassNews(r: Recognizer, d: SwipeDirection)
    ensures OnlyStartsAndCancels(r, SwipePass(r, d))
  {
    StartSwipeNews(r, r.fingers);
    var q := if r.activeSwipes == [] then StartSwipe(r, r.fingers, None) else r;
    var gs := Filter(q.activeSwipes, Not(FollowsHeading(d)));
    EmittingNews(q, gs, Cancelling());
    forall e | e in Emit(gs, Cancelling()) ensures e.signal == Cancelled {
      EmitMembers(gs, Cancelling(), e);
    }
    StartsAndCancelsCompose(r, q, SwipePass(r, d));
  }

  /** An update reports the distance to exactly the gestures it leaves active. */
  lemma UpdateReportsToActive(r: Recognizer, move: Point, g: Gesture, delta: Point)
    requires g.Swipe?
    ensures var s := UpdateSwipe(r, move);
      && |r.emitted| <= |s.emitted|
      && (Event(g, DeltaProgress(delta)) in News(r, s) <==> g in s.activeSwipes && delta == Plus(r.delta, move))
  {
    var moved := Plus(r.delta, move);
    var d := Heading(r.axis, moved);
    var q := r.(delta := moved, axis := LockAxis(r.axis, moved));
    var once := SwipePass(q, d);
    var twice := SwipePass(once, d);
    SwipePassNews(q, d);
    SwipePassNews(once, d);
    StartsAndCancelsCompose(q, once, twice);
    ReportedAfter(r, q, twice, moved, g, delta);
  }

  lemma ReportedAfter(r: Recognizer, q: Recognizer, s: Recognizer, moved: Point, g: Gesture, delta: Point)
    requires g.Swipe? && q.emitted == r.emitted && OnlyStartsAndCancels(q, s)
    ensures var t := s.Emitting(s.activeSwipes, Reporting(moved));
      && |r.emitted| <= |t.emitted|
      && (Event(g, DeltaProgress(delta)) in News(r, t) <==> g in s.activeSwipes && delta == moved)
  {
    var told := Emit(s.activeSwipes, Reporting(moved));
    var t := s.Emitting(s.activeSwipes, Reporting(moved));
    assert News(r, t) == News(q, s) + told;
    EmitMembers(s.activeSwipes, Reporting(moved), Event(g, DeltaProgress(delta)));
  }

  /** Ending a swipe triggers exactly the active gestures whose required component is
      reached by the distance travelled since the last reset, and cancels the others. */
  lemma EndSwipeTriggersExactly(ops: seq<Op>, g: Gesture)
    requires Legal(ops) && g.Swipe?
    ensures var r, s := Run(ops), Step(Run(ops), DoEndSwipe);
      && s.emitted == r.emitted + News(r, s)
      && s.activeSwipes == []
      && (Event(g, Triggered) in News(r, s) <==> g in r.activeSwipes && Full(DeltaToProgress(g, Travelled(ops))))
      && (Event(g, Cancelled) in News(r, s) <==> g in r.activeSwipes && !Full(DeltaToProgress(g, Travelled(ops))))
  {
    RunSound(ops);
    DeltaIsTravelled(ops);
    var r := Run(ops);
    EmitMembers(r.activeSwipes, Ending(r.delta, r.scale), Event(g, Triggered));
    EmitMembers(r.activeSwipes, Ending(r.delta, r.scale), Event(g, Cancelled));
  }

  /** The scale that decides about a pinch that was never updated: what the last operation
      on it left, which is 0 after a cancelled swipe. */
  function ScaleLeft(ops: seq<Op>): real {
    if ops == [] then 1.0 else
      match ops[|ops| - 1]
      case DoUpdatePinch(factor) => factor
      case DoCancelSwipe => 0.0
      case DoCancelPinch | DoEndPinch => 1.0
      case _ => ScaleLeft(ops[..|ops| - 1])
  }

  lemma StepScale(r: Recognizer, op: Op)
    ensures Step(r, op).scale ==
      match op
      case DoUpdatePinch(factor) => factor
      case DoCancelSwipe => 0.0
      case DoCancelPinch | DoEndPinch => 1.0
      case _ => r.scale
  {
  }

  lemma {:induction false} ScaleIsScaleLeft(ops: seq<Op>)
    ensures Run(ops).scale == ScaleLeft(ops)
  {
    if ops != [] {
      ScaleIsScaleLeft(ops[..|ops| - 1]);
      StepScale(Run(ops[..|ops| - 1]), ops[|ops| - 1]);
    }
  }

  lemma EndPinchTriggersExactly(r: Recognizer, g: Gesture)
    requires g.Pinch?
    ensures Event(g, Triggered) in News(r, EndPinch(r)) <==>
      g in r.activePinches && Full(ScaleToProgress(g, r.scale))
  {
    var told := Emit(r.activePinches, Ending(r.delta, r.scale));
    EmitMembers(r.activePinches, Ending(r.delta, r.scale), Event(g, Triggered));
    assert News(r, EndPinch(r)) == told;
  }

  lemma UntouchedPinch(r: Recognizer, n: nat, g: Gesture)
    requires g.Pinch?
    ensures Event(g, Triggered) in News(StartPinch(r, n), EndPinch(StartPinch(r, n))) <==>
      (if r.Busy() then g in r.activePinches
          else g in r.pinches && FitsFingers(g, n)) && Full(ScaleToProgress(g, r.scale))
  {
    EndPinchTriggersExactly(StartPinch(r, n), g);
  }

  /** A pinch that is started and ended without any update triggers exactly when its
      required scale difference is met by the scale left over from earlier. */
  lemma PinchWithoutUpdateTriggersIff(ops: seq<Op>, n: nat, g: Gesture)
    requires Legal(ops) && g.Pinch?
    ensures var r := StartPinch(Run(ops), n);
      Event(g, Triggered) in News(r, EndPinch(r)) <==>
        (if Run(ops).Busy() then g in Run(ops).activePinches else g in Run(ops).pinches && FitsFingers(g, n)) &&
        Full(ScaleToProgress(g, ScaleLeft(ops)))
  {
    ScaleIsScaleLeft(ops);
    UntouchedPinch(Run(ops), n, g);
  }

  lemma AfterCancelledSwipe(ops: seq<Op>)
    requires Legal(ops)
    ensures var all := ops + [DoCancelSwipe];
      && Legal(all) && !Run(all).Busy() && Run(all).pinches == Run(ops).pinches && ScaleLeft(all) == 0.0
  {
    RunSnoc(ops, DoCancelSwipe);
    assert (ops + [DoCancelSwipe])[..|ops|] == ops;
  }

  /** So right after a cancelled swipe every fitting pinch with a required difference of at
      most 1 triggers without having been moved at all. */
  lemma CancelledSwipeArmsPinches(ops: seq<Op>, n: nat, g: Gesture)
    requires Legal(ops) && g.Pinch? && g in Run(ops).pinches && FitsFingers(g, n) && 0.0 <= g.minScaleDelta <= 1.0
    ensures var r := StartPinch(Run(ops + [DoCancelSwipe]), n);
      Event(g, Triggered) in News(r, EndPinch(r))
  {
    AfterCancelledSwipe(ops);
    PinchWithoutUpdateTriggersIff(ops + [DoCancelSwipe], n, g);
    PinchReachedIff(g, 0.0);
  }
}
