/** The separation of minimized windows from the others in the focus chains, over whole runs:
    the option to put minimized windows to the end, and what spoils it. A window may change
    its minimized state without the chains being told. */
module FocusSeparation {
  import opened Handles
  import opened Lists
  import opened FocusChains

  /** Before a window of `m` there are only windows of `n`. */
  ghost predicate Guarded(c: Chain, m: set<Window>, n: set<Window>) {
    forall i, j :: 0 <= i < j < |c| && c[j] in m ==> c[i] in n
  }

  /** Every minimized window comes before every other one, that is, is less recent. */
  ghost predicate Parted(c: Chain, minimized: set<Window>) { Guarded(c, minimized, minimized) }

  /** `w` is the most recent window of its class. */
  ghost predicate HeadsItsClass(c: Chain, w: Window, minimized: set<Window>) {
    exists i :: 0 <= i < |c| && c[i] == w && forall j :: i < j < |c| ==> (c[j] in minimized <==> w !in minimized)
  }

  predicate All(c: Chain, minimized: set<Window>) { forall x :: x in c ==> x in minimized }

  predicate Not(c: Chain, minimized: set<Window>) { forall x :: x in c ==> x !in minimized }

  // ---------- one window among the others ----------

  lemma {:induction false} WithoutGuarded(c: Chain, w: Window, m: set<Window>, n: set<Window>)
    requires Guarded(c, m, n)
    ensures Guarded(Without(c, w), m, n)
  {
    if c != [] {
      var init := c[..|c| - 1];
      assert Guarded(init, m, n) by { assert forall i :: 0 <= i < |init| ==> init[i] == c[i]; }
      WithoutGuarded(init, w, m, n);
      var r := Without(init, w);
      if c[|c| - 1] in m {
        forall i | 0 <= i < |r| ensures r[i] in n {
          assert r[i] in r;
          var k :| 0 <= k < |init| && init[k] == r[i];
          assert c[k] == init[k];
        }
      }
    }
  }

  /** The classes may change as long as the listed windows do not notice. */
  lemma SameGuarded(c: Chain, m: set<Window>, n: set<Window>, m': set<Window>, n': set<Window>)
    requires Guarded(c, m, n) && forall x :: x in c ==> (x in m' ==> x in m) && (x in n ==> x in n')
    ensures Guarded(c, m', n')
  {
    forall i, j | 0 <= i < j < |c| && c[j] in m' ensures c[i] in n' {
      assert c[i] in c && c[j] in c;
    }
  }

  /** Without `w`, a chain stays parted when only `w` has changed its class. */
  lemma OthersParted(c: Chain, w: Window, m: set<Window>, n: set<Window>)
    requires Parted(c, m) && forall x :: x in c && x != w ==> (x in m <==> x in n)
    ensures Parted(Without(c, w), n)
  {
    WithoutGuarded(c, w, m, m);
    SameGuarded(Without(c, w), m, m, n, n);
  }

  lemma InsertGuarded(c: Chain, k: nat, w: Window, m: set<Window>, n: set<Window>)
    requires Guarded(c, m, n) && k <= |c|
    requires w in m ==> forall i :: 0 <= i < k ==> c[i] in n
    requires w in n || forall i :: k <= i < |c| ==> c[i] !in m
    ensures Guarded(InsertAt(c, k, w), m, n)
  {
    var r := InsertAt(c, k, w);
    forall i, j | 0 <= i < j < |r| && r[j] in m ensures r[i] in n {
      assert r[i] == if i < k then c[i] else if i == k then w else c[i - 1];
      assert r[j] == if j < k then c[j] else if j == k then w else c[j - 1];
    }
  }

  lemma PartedAround(c: Chain, k: nat, w: Window, minimized: set<Window>)
    requires k <= |c| && Parted(InsertAt(c, k, w), minimized)
    ensures w in minimized ==> forall i :: 0 <= i < k ==> c[i] in minimized
    ensures w !in minimized ==> forall i :: k <= i < |c| ==> c[i] !in minimized
  {
    var r := InsertAt(c, k, w);
    assert r[k] == w;
    forall i | 0 <= i < |c| ensures r[if i < k then i else i + 1] == c[i] {
    }
  }

  lemma SplitAt(c: Chain, k: nat, minimized: set<Window>)
    requires k <= |c|
    ensures All(c[..k], minimized) <==> forall i :: 0 <= i < k ==> c[i] in minimized
    ensures Not(c[k..], minimized) <==> forall i :: k <= i < |c| ==> c[i] !in minimized
  {
    assert forall i :: 0 <= i < k ==> c[i] in c[..k];
    assert forall i :: k <= i < |c| ==> c[i] == c[k..][i - k] && c[i] in c[k..];
  }

  /** Put in at place `k`, a minimized window needs only minimized ones before it, another
      one none behind it. */
  lemma InsertPartedIff(c: Chain, k: nat, w: Window, minimized: set<Window>)
    requires Parted(c, minimized) && k <= |c|
    ensures Parted(InsertAt(c, k, w), minimized) <==>
      if w in minimized then All(c[..k], minimized) else Not(c[k..], minimized)
  {
    SplitAt(c, k, minimized);
    if Parted(InsertAt(c, k, w), minimized) {
      PartedAround(c, k, w, minimized);
    } else if if w in minimized then All(c[..k], minimized) else Not(c[k..], minimized) {
      InsertGuarded(c, k, w, minimized, minimized);
    }
  }

  /** A listed window stands where it belongs. */
  predicate StandsRight(c: Chain, w: Window, minimized: set<Window>)
    requires w in c
  {
    var i := IndexOf(c, w);
    if w in minimized then All(c[..i], minimized) else Not(c[i + 1..], minimized)
  }

  lemma WithoutBetween(front: Chain, w: Window, back: Chain)
    requires w !in front && w !in back
    ensures Without(front + [w] + back, w) == front + back
  {
    WithoutAppend(front + [w], back, w);
    WithoutAbsent(front, w);
    WithoutAbsent(back, w);
    assert (front + [w])[..|front|] == front;
  }

  lemma TakenOut(c: Chain, w: Window)
    requires NoDup(c) && w in c
    ensures var i := IndexOf(c, w);
      && Without(c, w) == c[..i] + c[i + 1..]
      && InsertAt(Without(c, w), i, w) == c
  {
    var i := IndexOf(c, w);
    var front, back := c[..i], c[i + 1..];
    assert w !in back;
    assert c == front + [w] + back;
    WithoutBetween(front, w, back);
    Rejoined(front, w, back);
  }

  lemma Rejoined(front: Chain, w: Window, back: Chain)
    ensures InsertAt(front + back, |front|, w) == front + [w] + back
  {
    var c := front + back;
    assert c[..|front|] == front && c[|front|..] == back;
    if front == [] {
      assert c == back && [w] + back == front + [w] + back;
    }
  }

  lemma StaysPartedIff(c: Chain, w: Window, minimized: set<Window>)
    requires NoDup(c) && w in c && Parted(Without(c, w), minimized)
    ensures Parted(c, minimized) <==> StandsRight(c, w, minimized)
  {
    TakenOut(c, w);
    var i, rest := IndexOf(c, w), Without(c, w);
    assert rest[..i] == c[..i] && rest[i..] == c[i + 1..];
    InsertPartedIff(rest, i, w, minimized);
  }

  // ---------- one operation on one chain ----------

  /** When an update puts the window where it belongs among the others. */
  predicate UpdateFits(c: Chain, w: Window, change: Change, active: Option<Window>, world: World) {
    var m, others := world.minimized, Without(c, w);
    match change
    case MakeFirst => world.minimizedToEnd || w !in m || All(others, m)
    case MakeLast => w in m || Not(others, m)
    case Update =>
      if w in c then StandsRight(c, w, m)
      else if ActiveFirst(c, active) then
        if w in m then All(c[..|c| - 1], m) else active.value !in m
      else w !in m || All(c, m)
  }

  /** With the option on, if all windows but `w` are parted, making `w` the first leaves the
      whole chain parted and `w` the most recent of its class. */
  lemma MakeFirstParts(c: Chain, w: Window, world: World)
    requires world.minimizedToEnd && Parted(Without(c, w), world.minimized)
    ensures Parted(MakeFirstIn(c, w, world), world.minimized)
    ensures HeadsItsClass(MakeFirstIn(c, w, world), w, world.minimized)
  {
    var m, others, r := world.minimized, Without(c, w), MakeFirstIn(c, w, world);
    var k := if w in m then LastIn(others, m) + 1 else |others|;
    assert r == InsertAt(others, k, w);
    InsertPartedIff(others, k, w, m);
    if w in m {
      assert forall i :: 0 <= i < k ==> others[i] in m;
    }
    assert r[k] == w && forall j :: k < j < |r| ==> r[j] == others[j - 1];
  }

  lemma PlainPartsIff(c: Chain, w: Window, active: Option<Window>, world: World)
    requires NoDup(c) && Parted(Without(c, w), world.minimized)
    ensures Parted(InsertWindow(c, w, active), world.minimized) <==> UpdateFits(c, w, Update, active, world)
  {
    var m := world.minimized;
    if w in c {
      StaysPartedIff(c, w, m);
    } else {
      WithoutAbsent(c, w);
      if ActiveFirst(c, active) {
        assert c[|c| - 1] in c && c[|c| - 1..] == [active.value];
        InsertPartedIff(c, |c| - 1, w, m);
      } else {
        assert InsertAt(c, |c|, w) == c + [w] && c[..|c|] == c;
        InsertPartedIff(c, |c|, w, m);
      }
    }
  }

  /** If the others are parted, an update leaves the chain parted exactly if it fits. */
  lemma UpdatePartsIff(c: Chain, w: Window, change: Change, active: Option<Window>, world: World)
    requires NoDup(c) && Parted(Without(c, w), world.minimized)
    ensures Parted(UpdateIn(c, w, change, active, world), world.minimized) <==> UpdateFits(c, w, change, active, world)
  {
    var m, others := world.minimized, Without(c, w);
    match change
    case MakeFirst =>
      if world.minimizedToEnd {
        MakeFirstParts(c, w, world);
      } else {
        InsertPartedIff(others, |others|, w, m);
        assert InsertAt(others, |others|, w) == others + [w] && others[..|others|] == others;
      }
    case MakeLast =>
      InsertPartedIff(others, 0, w, m);
      assert InsertAt(others, 0, w) == [w] + others && others[0..] == others;
    case Update => PlainPartsIff(c, w, active, world);
  }

  /** The same for a move: the window goes behind the reference, or behind the most recent
      window of its application. */
  predicate MoveFits(c: Chain, w: Window, reference: Window, world: World)
    requires w != reference
  {
    var m, others := world.minimized, Without(c, w);
    if reference !in c then w in c ==> StandsRight(c, w, m)
    else
      var i := if (reference, w) in world.sameApp then IndexOf(others, reference)
               else LastIn(others, AppOf(reference, world));
      i >= 0 ==> if w in m then All(others[..i], m) else Not(others[i..], m)
  }

  lemma MovePartsIff(c: Chain, w: Window, reference: Window, world: World)
    requires NoDup(c) && Parted(Without(c, w), world.minimized)
    requires w != reference && (reference, reference) in world.sameApp
    ensures Parted(MoveAfterIn(c, w, reference, world), world.minimized) <==> MoveFits(c, w, reference, world)
  {
    var m, others := world.minimized, Without(c, w);
    if reference !in c {
      KeptPartedIff(c, w, m);
    } else {
      assert reference in others;
      LastInFinds(others, AppOf(reference, world), reference);
      var i := if (reference, w) in world.sameApp then IndexOf(others, reference)
               else LastIn(others, AppOf(reference, world));
      InsertPartedIff(others, i, w, m);
    }
  }

  /** A chain that an operation leaves as it is. */
  lemma KeptPartedIff(c: Chain, w: Window, minimized: set<Window>)
    requires NoDup(c) && Parted(Without(c, w), minimized)
    ensures Parted(c, minimized) <==> (w in c ==> StandsRight(c, w, minimized))
  {
    if w in c {
      StaysPartedIff(c, w, minimized);
    } else {
      WithoutAbsent(c, w);
    }
  }

  // ---------- one operation on all chains ----------

  /** The minimized windows after an operation, as it finds them. */
  function MinimizedBy(op: Op, before: set<Window>): set<Window> {
    if op.DoUpdate? || op.DoMoveAfter? then op.world.minimized else before
  }

  /** Only the window an operation is about has changed its minimized state since the last. */
  predicate Steady(f: Focus, before: set<Window>, op: Op) {
    Subject(op).Some? ==>
      forall x :: x in f.mru && x != op.w ==> (x in MinimizedBy(op, before) <==> x in before)
  }

  /** When an operation puts its window where it belongs in the MRU chain. */
  predicate FitsMru(f: Focus, op: Op)
    requires Allowed(op)
  {
    match op
    case DoUpdate(w, change, world) => w in world.wantsTabFocus ==> UpdateFits(f.mru, w, change, f.active, world)
    case DoMoveAfter(w, reference, world) =>
      if w in world.wantsTabFocus then MoveFits(f.mru, w, reference, world)
      else w in f.mru ==> StandsRight(f.mru, w, world.minimized)
    case _ => true
  }

  /** And in the chain of desktop `d`: a window on all desktops is made first or last on the
      current one only and merely inserted into the others. */
  predicate FitsOn(f: Focus, op: Op, d: Desktop)
    requires Allowed(op) && d in f.chains
  {
    var c := f.chains[d];
    match op
    case DoUpdate(w, change, world) =>
      w in world.wantsTabFocus && world.OnDesktop(w, d) ==>
        UpdateFits(c, w, if w in world.sticky && f.current != Some(d) then Update else change, f.active, world)
    case DoMoveAfter(w, reference, world) =>
      if w in world.wantsTabFocus && world.OnDesktop(w, d) then MoveFits(c, w, reference, world)
      else w in c ==> StandsRight(c, w, world.minimized)
    case _ => true
  }

  lemma StepPartsMruIff(f: Focus, op: Op, before: set<Window>)
    requires Chained(f) && Allowed(op) && Steady(f, before, op) && Parted(f.mru, before)
    ensures Parted(Step(f, op).mru, MinimizedBy(op, before)) <==> FitsMru(f, op)
  {
    if Subject(op).Some? {
      var c, m := f.mru, MinimizedBy(op, before);
      OthersParted(c, op.w, before, m);
      match op
      case DoUpdate(w, change, world) => UpdatePartsIff(c, w, change, f.active, world);
      case DoMoveAfter(w, reference, world) =>
        MovePartsIff(c, w, reference, world);
        KeptPartedIff(c, w, m);
      case DoRemove(_) =>
    }
  }

  /** Every operation leaves the chain of every desktop parted exactly if it puts its window
      there where it belongs. */
  lemma StepPartsDesktopIff(f: Focus, op: Op, before: set<Window>, d: Desktop)
    requires Chained(f) && Allowed(op) && Steady(f, before, op)
    requires d in f.chains && d in Step(f, op).chains && Parted(f.chains[d], before)
    ensures Parted(Step(f, op).chains[d], MinimizedBy(op, before)) <==> FitsOn(f, op, d)
  {
    if Subject(op).Some? {
      var c, m := f.chains[d], MinimizedBy(op, before);
      OthersParted(c, op.w, before, m);
      match op
      case DoUpdate(w, change, world) =>
        UpdatePartsIff(c, w, change, f.active, world);
        UpdatePartsIff(c, w, Update, f.active, world);
      case DoMoveAfter(w, reference, world) =>
        MovePartsIff(c, w, reference, world);
        KeptPartedIff(c, w, m);
      case DoRemove(_) =>
    }
  }

  // ---------- over whole runs ----------

  /** The chains are told of an operation, or a window changes its minimized state and they
      are not told, as whenever one is unminimized. */
  datatype Event = Told(op: Op) | Turned(w: Window)

  datatype Moment = Moment(focus: Focus, minimized: set<Window>)

  predicate Possible(e: Event) { e.Told? ==> Allowed(e.op) }

  function Toggled(minimized: set<Window>, w: Window): set<Window> {
    if w in minimized then minimized - {w} else minimized + {w}
  }

  function Next(s: Moment, e: Event): Moment
    requires Possible(e)
  {
    match e
    case Told(op) => Moment(Step(s.focus, op), MinimizedBy(op, s.minimized))
    case Turned(w) => s.(minimized := Toggled(s.minimized, w))
  }

  predicate AllPossible(es: seq<Event>) { forall i :: 0 <= i < |es| ==> Possible(es[i]) }

  function Play(es: seq<Event>): Moment
    requires AllPossible(es)
  {
    if es == [] then Moment(NO_FOCUS, {}) else Next(Play(es[..|es| - 1]), es[|es| - 1])
  }

  /** An operation finds the minimized states as they were left, but for its own window. */
  predicate SteadyRun(es: seq<Event>)
    requires AllPossible(es)
  {
    es == [] ||
    var s, e := Play(es[..|es| - 1]), es[|es| - 1];
    SteadyRun(es[..|es| - 1]) && (e.Told? ==> Steady(s.focus, s.minimized, e.op))
  }

  lemma {:induction false} AlwaysChainedToo(es: seq<Event>)
    requires AllPossible(es)
    ensures Chained(Play(es).focus)
  {
    if es != [] {
      AlwaysChainedToo(es[..|es| - 1]);
      if es[|es| - 1].Told? {
        StepChained(Play(es[..|es| - 1]).focus, es[|es| - 1].op);
      }
    }
  }

  /** A window that turns stays where it is: that fits if it stands right by then. */
  predicate TurnFits(c: Chain, w: Window, minimized: set<Window>) {
    w in c ==> StandsRight(c, w, Toggled(minimized, w))
  }

  predicate EventFitsMru(s: Moment, e: Event)
    requires Possible(e)
  {
    match e
    case Told(op) => FitsMru(s.focus, op)
    case Turned(w) => TurnFits(s.focus.mru, w, s.minimized)
  }

  ghost predicate EventFitsAll(s: Moment, e: Event)
    requires Possible(e)
  {
    match e
    case Told(op) => FitsAll(s.focus, op)
    case Turned(w) => forall d :: d in s.focus.chains ==> TurnFits(s.focus.chains[d], w, s.minimized)
  }

  ghost predicate FitsAll(f: Focus, op: Op)
    requires Allowed(op)
  {
    forall d :: d in f.chains ==> FitsOn(f, op, d)
  }

  ghost predicate DesktopsParted(f: Focus, minimized: set<Window>) {
    forall d :: d in f.chains ==> Parted(f.chains[d], minimized)
  }

  lemma TurnPartsIff(c: Chain, w: Window, minimized: set<Window>)
    requires NoDup(c) && Parted(c, minimized)
    ensures Parted(c, Toggled(minimized, w)) <==> TurnFits(c, w, minimized)
  {
    OthersParted(c, w, minimized, Toggled(minimized, w));
    KeptPartedIff(c, w, Toggled(minimized, w));
  }

  lemma StepPartsAllIff(f: Focus, op: Op, before: set<Window>)
    requires Chained(f) && Allowed(op) && Steady(f, before, op) && DesktopsParted(f, before)
    ensures DesktopsParted(Step(f, op), MinimizedBy(op, before)) <==> FitsAll(f, op)
  {
    var g := Step(f, op);
    forall d | d in f.chains && d in g.chains
      ensures Parted(g.chains[d], MinimizedBy(op, before)) <==> FitsOn(f, op, d)
    {
      StepPartsDesktopIff(f, op, before, d);
    }
    assert Subject(op).Some? ==> g.chains.Keys == f.chains.Keys;
  }

  lemma NextPartsAllIff(s: Moment, e: Event)
    requires Chained(s.focus) && Possible(e) && (e.Told? ==> Steady(s.focus, s.minimized, e.op))
    requires DesktopsParted(s.focus, s.minimized)
    ensures DesktopsParted(Next(s, e).focus, Next(s, e).minimized) <==> EventFitsAll(s, e)
  {
    match e
    case Told(op) => StepPartsAllIff(s.focus, op, s.minimized);
    case Turned(w) =>
      forall d | d in s.focus.chains
        ensures Parted(s.focus.chains[d], Toggled(s.minimized, w)) <==> TurnFits(s.focus.chains[d], w, s.minimized)
      {
        TurnPartsIff(s.focus.chains[d], w, s.minimized);
      }
  }

  /** At every moment of a run the MRU chain was parted. */
  ghost predicate MruPartedThroughout(es: seq<Event>)
    requires AllPossible(es)
  {
    es == [] || (MruPartedThroughout(es[..|es| - 1]) && Parted(Play(es).focus.mru, Play(es).minimized))
  }

  predicate AllFitMru(es: seq<Event>)
    requires AllPossible(es)
  {
    es == [] || (AllFitMru(es[..|es| - 1]) && EventFitsMru(Play(es[..|es| - 1]), es[|es| - 1]))
  }

  /** At every moment of a run the chains of all desktops were parted. */
  ghost predicate DesktopsPartedThroughout(es: seq<Event>)
    requires AllPossible(es)
  {
    es == [] || (DesktopsPartedThroughout(es[..|es| - 1]) && DesktopsParted(Play(es).focus, Play(es).minimized))
  }

  ghost predicate AllFitDesktops(es: seq<Event>)
    requires AllPossible(es)
  {
    es == [] || (AllFitDesktops(es[..|es| - 1]) && EventFitsAll(Play(es[..|es| - 1]), es[|es| - 1]))
  }

  /** The MRU chain is parted at every moment of a run exactly if every operation put its
      window where it belongs and every window that turned untold stood right by then. */
  lemma {:induction false} MruPartedIff(es: seq<Event>)
    requires AllPossible(es) && SteadyRun(es)
    ensures MruPartedThroughout(es) <==> AllFitMru(es)
    ensures MruPartedThroughout(es) ==> Parted(Play(es).focus.mru, Play(es).minimized)
  {
    if es != [] {
      var init, e := es[..|es| - 1], es[|es| - 1];
      MruPartedIff(init);
      AlwaysChainedToo(init);
      var s := Play(init);
      if MruPartedThroughout(init) {
        match e
        case Told(op) => StepPartsMruIff(s.focus, op, s.minimized);
        case Turned(w) => TurnPartsIff(s.focus.mru, w, s.minimized);
      }
    }
  }

  /** And so are the chains of all desktops. */
  lemma {:induction false} DesktopsPartedIff(es: seq<Event>)
    requires AllPossible(es) && SteadyRun(es)
    ensures DesktopsPartedThroughout(es) <==> AllFitDesktops(es)
    ensures DesktopsPartedThroughout(es) ==> DesktopsParted(Play(es).focus, Play(es).minimized)
  {
    if es != [] {
      var init := es[..|es| - 1];
      DesktopsPartedIff(init);
      AlwaysChainedToo(init);
      if DesktopsPartedThroughout(init) {
        NextPartsAllIff(Play(init), es[|es| - 1]);
      }
    }
  }

  // ---------- runs that re-insert ----------

  /** With the option on, a window is inserted with `MakeFirst`, also when it is minimized;
      other windows have not changed their state meanwhile. A listed window changes it untold
      only by being unminimized. */
  predicate Tidy(s: Moment, e: Event) {
    match e
    case Turned(w) => w in s.minimized || w !in s.focus.mru
    case Told(DoUpdate(w, change, world)) =>
      var same := w in world.minimized <==> w in s.minimized;
      && (forall x :: x in s.focus.mru && x != w ==> (x in world.minimized <==> x in s.minimized))
      && (w in world.wantsTabFocus ==>
            world.minimizedToEnd && (change == MakeFirst || (change == Update && w in s.focus.mru && same)))
    case Told(DoMoveAfter(_, _, _)) => false
    case _ => true
  }

  predicate TidyRun(es: seq<Event>)
    requires AllPossible(es)
  {
    es == [] || (TidyRun(es[..|es| - 1]) && Tidy(Play(es[..|es| - 1]), es[|es| - 1]))
  }

  /** The windows unminimized untold and not made first or removed since. */
  function StrayedBy(e: Event, strayed: set<Window>): set<Window> {
    match e
    case Turned(w) => strayed + {w}
    case Told(DoUpdate(w, change, world)) =>
      if w !in world.wantsTabFocus || change == MakeFirst then strayed - {w} else strayed
    case Told(DoRemove(w)) => strayed - {w}
    case _ => strayed
  }

  function Strayed(es: seq<Event>): set<Window> {
    if es == [] then {} else StrayedBy(es[|es| - 1], Strayed(es[..|es| - 1]))
  }

  /** Before a minimized window there are only minimized and strayed ones. */
  ghost predicate PartedButFor(c: Chain, minimized: set<Window>, strayed: set<Window>) {
    Guarded(c, minimized, minimized + strayed)
  }

  lemma DropKeeps(c: Chain, w: Window, before: set<Window>, minimized: set<Window>, strayed: set<Window>)
    requires PartedButFor(c, before, strayed)
    requires forall x :: x in c && x != w ==> (x in minimized <==> x in before)
    ensures PartedButFor(Without(c, w), minimized, strayed - {w})
  {
    WithoutGuarded(c, w, before, before + strayed);
    SameGuarded(Without(c, w), before, before + strayed, minimized, minimized + (strayed - {w}));
  }

  lemma MakeFirstKeeps(c: Chain, w: Window, before: set<Window>, world: World, strayed: set<Window>)
    requires PartedButFor(c, before, strayed) && world.minimizedToEnd
    requires forall x :: x in c && x != w ==> (x in world.minimized <==> x in before)
    ensures PartedButFor(MakeFirstIn(c, w, world), world.minimized, strayed - {w})
  {
    var m, others := world.minimized, Without(c, w);
    DropKeeps(c, w, before, m, strayed);
    var k := if w in m then LastIn(others, m) + 1 else |others|;
    assert InsertAt(others, |others|, w) == others + [w];
    assert w in m && k > 0 ==> others[k - 1] in m;
    InsertGuarded(others, k, w, m, m + (strayed - {w}));
  }

  lemma TurnKeeps(c: Chain, w: Window, minimized: set<Window>, strayed: set<Window>)
    requires PartedButFor(c, minimized, strayed) && (w in minimized || w !in c)
    ensures PartedButFor(c, Toggled(minimized, w), strayed + {w})
  {
    SameGuarded(c, minimized, minimized + strayed, Toggled(minimized, w), Toggled(minimized, w) + (strayed + {w}));
  }

  lemma TidyKeepsMru(s: Moment, e: Event, strayed: set<Window>)
    requires Possible(e) && Tidy(s, e) && PartedButFor(s.focus.mru, s.minimized, strayed)
    ensures PartedButFor(Next(s, e).focus.mru, Next(s, e).minimized, StrayedBy(e, strayed))
  {
    var c := s.focus.mru;
    match e
    case Turned(w) => TurnKeeps(c, w, s.minimized, strayed);
    case Told(DoUpdate(w, change, world)) =>
      if w !in world.wantsTabFocus {
        DropKeeps(c, w, s.minimized, world.minimized, strayed);
      } else if change == MakeFirst {
        MakeFirstKeeps(c, w, s.minimized, world, strayed);
      } else {
        SameGuarded(c, s.minimized, s.minimized + strayed, world.minimized, world.minimized + strayed);
      }
    case Told(DoRemove(w)) => DropKeeps(c, w, s.minimized, s.minimized, strayed);
    case _ =>
  }

  /** In every tidy run only windows unminimized since they were last made first stand before
      minimized ones in the MRU chain; without such windows it is parted. */
  lemma {:induction false} MruStaysParted(es: seq<Event>)
    requires AllPossible(es) && TidyRun(es)
    ensures var s := Play(es);
      && PartedButFor(s.focus.mru, s.minimized, Strayed(es))
      && ((forall x :: x in s.focus.mru ==> x !in Strayed(es)) ==> Parted(s.focus.mru, s.minimized))
  {
    if es != [] {
      MruStaysParted(es[..|es| - 1]);
      TidyKeepsMru(Play(es[..|es| - 1]), es[|es| - 1], Strayed(es[..|es| - 1]));
    }
    NoneStrayed(Play(es).focus.mru, Play(es).minimized, Strayed(es));
  }

  lemma NoneStrayed(c: Chain, minimized: set<Window>, strayed: set<Window>)
    requires PartedButFor(c, minimized, strayed)
    ensures (forall x :: x in c ==> x !in strayed) ==> Parted(c, minimized)
  {
    if forall x :: x in c ==> x !in strayed {
      SameGuarded(c, minimized, minimized + strayed, minimized, minimized);
    }
  }

  /** Windows are only ever made first, and none is on all desktops. */
  predicate Strict(e: Event) {
    e.Told? && e.op.DoUpdate? ==>
      e.op.w in e.op.world.wantsTabFocus ==> e.op.change == MakeFirst && e.op.w !in e.op.world.sticky
  }

  lemma StrictKeepsDesktop(s: Moment, e: Event, strayed: set<Window>, d: Desktop)
    requires Chained(s.focus) && Possible(e) && Tidy(s, e) && Strict(e)
    requires d in Next(s, e).focus.chains
    requires d in s.focus.chains ==> PartedButFor(s.focus.chains[d], s.minimized, strayed)
    ensures PartedButFor(Next(s, e).focus.chains[d], Next(s, e).minimized, StrayedBy(e, strayed))
  {
    match e
    case Turned(w) => TurnKeeps(s.focus.chains[d], w, s.minimized, strayed);
    case Told(DoUpdate(w, change, world)) =>
      DropKeeps(s.focus.chains[d], w, s.minimized, world.minimized, strayed);
      if w in world.wantsTabFocus {
        MakeFirstKeeps(s.focus.chains[d], w, s.minimized, world, strayed);
      }
    case Told(DoRemove(w)) => DropKeeps(s.focus.chains[d], w, s.minimized, s.minimized, strayed);
    case _ =>
  }

  ghost predicate DesktopsPartedButFor(f: Focus, minimized: set<Window>, strayed: set<Window>) {
    forall d :: d in f.chains ==> PartedButFor(f.chains[d], minimized, strayed)
  }

  lemma {:induction false} StrictKeepsAll(es: seq<Event>)
    requires AllPossible(es) && TidyRun(es) && forall i :: 0 <= i < |es| ==> Strict(es[i])
    ensures DesktopsPartedButFor(Play(es).focus, Play(es).minimized, Strayed(es))
  {
    if es != [] {
      var init, e := es[..|es| - 1], es[|es| - 1];
      StrictKeepsAll(init);
      AlwaysChainedToo(init);
      var s := Next(Play(init), e);
      forall d | d in s.focus.chains ensures PartedButFor(s.focus.chains[d], s.minimized, Strayed(es)) {
        StrictKeepsDesktop(Play(init), e, Strayed(init), d);
      }
    }
  }

  /** The same holds of every desktop's chain as long as no window is on all desktops and
      none is updated otherwise than by making it first. */
  lemma DesktopsStayParted(es: seq<Event>, d: Desktop)
    requires AllPossible(es) && TidyRun(es) && forall i :: 0 <= i < |es| ==> Strict(es[i])
    requires d in Play(es).focus.chains
    ensures var c, minimized := Play(es).focus.chains[d], Play(es).minimized;
      && PartedButFor(c, minimized, Strayed(es))
      && ((forall x :: x in c ==> x !in Strayed(es)) ==> Parted(c, minimized))
  {
    StrictKeepsAll(es);
    NoneStrayed(Play(es).focus.chains[d], Play(es).minimized, Strayed(es));
  }

  // ---------- losing the separation ----------

  lemma Append(es: seq<Event>, e: Event)
    requires AllPossible(es) && Possible(e)
    ensures AllPossible(es + [e]) && Play(es + [e]) == Next(Play(es), e)
    ensures TidyRun(es) && Tidy(Play(es), e) ==> TidyRun(es + [e])
  {
    assert (es + [e])[..|es|] == es;
  }

  /** The option is on, and the minimized windows are the ones of `c` and `w`. */
  predicate Minimizing(world: World, c: Chain, w: Window) {
    world.minimizedToEnd && w in world.wantsTabFocus && w in world.minimized && All(c, world.minimized)
  }

  lemma MinimizedJoins(f: Focus, w: Window, world: World)
    requires w !in f.mru && Minimizing(world, f.mru, w)
    ensures UpdateWindow(f, w, MakeFirst, world).mru == f.mru + [w]
  {
    WithoutAbsent(f.mru, w);
    if f.mru != [] {
      assert f.mru[|f.mru| - 1] in f.mru;
    }
    assert InsertAt(f.mru, |f.mru|, w) == f.mru + [w];
  }

  lemma FirstJoins(s: Moment, w: Window, world: World)
    requires s.focus.mru == [] && Minimizing(world, [], w)
    ensures Next(s, Told(DoUpdate(w, MakeFirst, world))).focus.mru == [w]
  {
    MinimizedJoins(s.focus, w, world);
  }

  lemma SecondJoins(s: Moment, w: Window, x: Window, world: World)
    requires s.focus.mru == [w] && x != w && Minimizing(world, [w], x)
    ensures Next(s, Told(DoUpdate(x, MakeFirst, world))).focus.mru == [w, x]
  {
    MinimizedJoins(s.focus, x, world);
    assert [w] + [x] == [w, x];
  }

  lemma TidyMinimized(s: Moment, w: Window, world: World)
    requires Minimizing(world, s.focus.mru, w) && All(s.focus.mru, s.minimized)
    ensures Tidy(s, Told(DoUpdate(w, MakeFirst, world)))
  {
  }

  /** In any run the separation is lost when a window is unminimized that stands before
      another minimized one: it stays where it is. */
  lemma UnminimizingLosesSeparation(es: seq<Event>, i: nat, j: nat)
    requires AllPossible(es) && i < j < |Play(es).focus.mru|
    requires Play(es).focus.mru[i] in Play(es).minimized && Play(es).focus.mru[j] in Play(es).minimized
    ensures var s := Next(Play(es), Turned(Play(es).focus.mru[i]));
      s.focus == Play(es).focus && !Parted(s.focus.mru, s.minimized)
    ensures TidyRun(es) ==>
      var more := es + [Turned(Play(es).focus.mru[i])]; AllPossible(more) && TidyRun(more)
  {
    AlwaysChainedToo(es);
    Append(es, Turned(Play(es).focus.mru[i]));
  }

  lemma OneMinimized(w: Window, world: World)
    requires Minimizing(world, [], w)
    ensures var es := [Told(DoUpdate(w, MakeFirst, world))];
      AllPossible(es) && TidyRun(es) && Play(es) == Next(Play([]), Told(DoUpdate(w, MakeFirst, world)))
  {
    var e := Told(DoUpdate(w, MakeFirst, world));
    TidyMinimized(Play([]), w, world);
    Append([], e);
    assert [] + [e] == [e];
  }

  /** Such runs there are, from the start: two windows are minimized one after the other. */
  lemma BothMinimized(w: Window, x: Window, one: World, two: World)
    requires w != x && Minimizing(one, [], w) && Minimizing(two, [w], x)
    ensures var es := [Told(DoUpdate(w, MakeFirst, one))] + [Told(DoUpdate(x, MakeFirst, two))];
      AllPossible(es) && TidyRun(es) && Play(es).focus.mru == [w, x] && Play(es).minimized == two.minimized
  {
    var first := [Told(DoUpdate(w, MakeFirst, one))];
    OneMinimized(w, one);
    FirstJoins(Play([]), w, one);
    TidyMinimized(Play(first), x, two);
    SecondJoins(Play(first), w, x, two);
    Append(first, Told(DoUpdate(x, MakeFirst, two)));
  }

  /** The option is on, `w` is on all desktops and `x` on desktop `e` only. */
  function Shared(w: Window, x: Window, e: Desktop, minimized: set<Window>): World {
    World({w, x}, {w}, {(x, e)}, minimized, {}, true)
  }

  /** Two desktops, of which `d` is the current one, and two windows. */
  function Opening(w: Window, x: Window, d: Desktop, e: Desktop): seq<Event> {
    [Told(DoAddDesktop(d))] + [Told(DoAddDesktop(e))] + [Told(DoSwitch(Some(d)))]
      + [Told(DoUpdate(x, MakeFirst, Shared(w, x, e, {})))] + [Told(DoUpdate(w, MakeFirst, Shared(w, x, e, {})))]
  }

  lemma FirstEnters(w: Window, x: Window, d: Desktop, e: Desktop)
    requires w != x && d != e
    ensures Step(Focus([], map[d := [], e := []], None, Some(d)), DoUpdate(x, MakeFirst, Shared(w, x, e, {})))
         == Focus([x], map[d := [], e := [x]], None, Some(d))
  {
    var f, world := Focus([], map[d := [], e := []], None, Some(d)), Shared(w, x, e, {});
    assert UpdateOn(f, d, x, MakeFirst, world) == [] && UpdateOn(f, e, x, MakeFirst, world) == [x];
  }

  lemma SecondEnters(w: Window, x: Window, d: Desktop, e: Desktop)
    requires w != x && d != e
    ensures Step(Focus([x], map[d := [], e := [x]], None, Some(d)), DoUpdate(w, MakeFirst, Shared(w, x, e, {})))
         == Focus([x, w], map[d := [w], e := [x, w]], None, Some(d))
  {
    var f, world := Focus([x], map[d := [], e := [x]], None, Some(d)), Shared(w, x, e, {});
    WithoutAbsent([x], w);
    assert [x] + [w] == [x, w] && [] + [w] == [w];
    assert UpdateOn(f, d, w, MakeFirst, world) == [w] && UpdateOn(f, e, w, MakeFirst, world) == [x, w];
  }

  lemma AfterDesktops(d: Desktop, e: Desktop)
    requires d != e
    ensures var es := [Told(DoAddDesktop(d))] + [Told(DoAddDesktop(e))] + [Told(DoSwitch(Some(d)))];
      && AllPossible(es) && TidyRun(es)
      && Play(es) == Moment(Focus([], map[d := [], e := []], None, Some(d)), {})
  {
    var one := [Told(DoAddDesktop(d))];
    Append([], Told(DoAddDesktop(d)));
    assert [] + one == one;
    Append(one, Told(DoAddDesktop(e)));
    Append(one + [Told(DoAddDesktop(e))], Told(DoSwitch(Some(d))));
  }

  lemma AfterOpening(w: Window, x: Window, d: Desktop, e: Desktop)
    requires w != x && d != e
    ensures var es := Opening(w, x, d, e);
      && AllPossible(es) && TidyRun(es)
      && Play(es) == Moment(Focus([x, w], map[d := [w], e := [x, w]], None, Some(d)), {})
  {
    var world := Shared(w, x, e, {});
    var es := [Told(DoAddDesktop(d))] + [Told(DoAddDesktop(e))] + [Told(DoSwitch(Some(d)))];
    AfterDesktops(d, e);
    Append(es, Told(DoUpdate(x, MakeFirst, world)));
    FirstEnters(w, x, d, e);
    Append(es + [Told(DoUpdate(x, MakeFirst, world))], Told(DoUpdate(w, MakeFirst, world)));
    SecondEnters(w, x, d, e);
  }

  lemma StaysElsewhere(f: Focus, w: Window, x: Window, e: Desktop)
    requires e in f.chains && f.chains[e] == [x, w] && f.current != Some(e)
    ensures var g := UpdateWindow(f, w, MakeFirst, Shared(w, x, e, {w})); e in g.chains && g.chains[e] == [x, w]
  {
  }

  lemma MinimizedElsewhere(s: Moment, w: Window, x: Window, e: Desktop)
    requires w != x && s.focus.mru == [x, w] && s.minimized == {}
    requires e in s.focus.chains && s.focus.chains[e] == [x, w] && s.focus.current != Some(e)
    ensures var event := Told(DoUpdate(w, MakeFirst, Shared(w, x, e, {w})));
      && Tidy(s, event)
      && var t := Next(s, event);
         e in t.focus.chains && t.focus.chains[e] == [x, w] && !Parted(t.focus.chains[e], t.minimized)
  {
    StaysElsewhere(s.focus, w, x, e);
    assert [x, w][1] in {w} && [x, w][0] !in {w};
  }

  /** When a window on all desktops is minimized, it stays in front of the other one in the
      chain of desktop `e`: a tidy run in which every change is told and after which that
      chain is not parted. */
  lemma SeparationCanBeLost(w: Window, x: Window, d: Desktop, e: Desktop)
    requires w != x && d != e
    ensures var es := Opening(w, x, d, e) + [Told(DoUpdate(w, MakeFirst, Shared(w, x, e, {w})))];
      && AllPossible(es) && TidyRun(es)
      && e in Play(es).focus.chains && Play(es).focus.chains[e] == [x, w]
      && !Parted(Play(es).focus.chains[e], Play(es).minimized)
  {
    AfterOpening(w, x, d, e);
    MinimizedElsewhere(Play(Opening(w, x, d, e)), w, x, e);
    Append(Opening(w, x, d, e), Told(DoUpdate(w, MakeFirst, Shared(w, x, e, {w}))));
  }
}
