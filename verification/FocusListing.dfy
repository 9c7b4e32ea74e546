/** Which windows the focus chains list, which desktops have a chain, and what is active and
    current, over whole runs: told by the operations of the run. */
module FocusListing {
  import opened Handles
  import opened Lists
  import opened FocusChains

  /** The desktop was added and not removed since. */
  predicate Present(ops: seq<Op>, d: Desktop) {
    if ops == [] then false else
      match ops[|ops| - 1]
      case DoAddDesktop(e) => e == d || Present(ops[..|ops| - 1], d)
      case DoRemoveDesktop(e) => e != d && Present(ops[..|ops| - 1], d)
      case _ => Present(ops[..|ops| - 1], d)
  }

  function ActiveWindow(ops: seq<Op>): Option<Window> {
    if ops == [] then None else
      match ops[|ops| - 1]
      case DoActivate(active) => active
      case _ => ActiveWindow(ops[..|ops| - 1])
  }

  /** The desktop last switched to, unless it was removed since. */
  function CurrentDesktop(ops: seq<Op>): Option<Desktop> {
    if ops == [] then None else
      var before := CurrentDesktop(ops[..|ops| - 1]);
      match ops[|ops| - 1]
      case DoSwitch(current) => current
      case DoRemoveDesktop(d) => if before == Some(d) then None else before
      case _ => before
  }

  /** At its last update the window wanted tab focus, or it was moved behind a listed one, and
      it was not removed since. */
  predicate Listed(ops: seq<Op>, w: Window) {
    if ops == [] then false else
      var init := ops[..|ops| - 1];
      match ops[|ops| - 1]
      case DoUpdate(x, _, world) => if x == w then w in world.wantsTabFocus else Listed(init, w)
      case DoRemove(x) => x != w && Listed(init, w)
      case DoMoveAfter(x, reference, world) =>
        Listed(init, w) || (x == w && w in world.wantsTabFocus && Listed(init, reference))
      case _ => Listed(init, w)
  }

  /** The same for the chain of a desktop: the window was on it, or on all, and the chain has
      not been emptied since by adding the desktop again. */
  predicate ListedOn(ops: seq<Op>, w: Window, d: Desktop) {
    if ops == [] then false else
      var init := ops[..|ops| - 1];
      match ops[|ops| - 1]
      case DoUpdate(x, _, world) =>
        if x == w then Present(init, d) && w in world.wantsTabFocus && (w in world.sticky || (w, d) in world.placed)
        else ListedOn(init, w, d)
      case DoRemove(x) => x != w && ListedOn(init, w, d)
      case DoMoveAfter(x, reference, world) =>
        ListedOn(init, w, d) ||
        (x == w && w in world.wantsTabFocus && (w in world.sticky || (w, d) in world.placed)
         && ListedOn(init, reference, d))
      case DoAddDesktop(e) => e != d && ListedOn(init, w, d)
      case DoRemoveDesktop(e) => e != d && ListedOn(init, w, d)
      case _ => ListedOn(init, w, d)
  }

  lemma {:induction false} DesktopsArePresent(ops: seq<Op>, d: Desktop)
    requires Legal(ops)
    ensures d in Run(ops).chains <==> Present(ops, d)
    ensures Run(ops).active == ActiveWindow(ops) && Run(ops).current == CurrentDesktop(ops)
  {
    if ops != [] {
      var init, op := ops[..|ops| - 1], ops[|ops| - 1];
      DesktopsArePresent(init, d);
      if Subject(op).Some? {
        StepKeepsDesktops(Run(init), op);
      }
    }
  }

  lemma StepListsMru(f: Focus, op: Op, w: Window)
    requires Chained(f) && Allowed(op) && Subject(op).Some?
    ensures w in Step(f, op).mru <==>
      if op.DoUpdate? && op.w == w then w in op.world.wantsTabFocus
      else if op.DoRemove? && op.w == w then false
      else w in f.mru || (op.DoMoveAfter? && op.w == w && w in op.world.wantsTabFocus && op.reference in f.mru)
  {
    StepRearrangesMru(f, op);
    if w != op.w {
      OthersStay(f.mru, Step(f, op).mru, op.w, w);
    } else if op.DoUpdate? {
      UpdateInRearranges(f.mru, w, op.change, f.active, op.world);
    } else if op.DoMoveAfter? {
      MoveAfterInRearranges(f.mru, w, op.reference, op.world);
    }
  }

  lemma StepListsOn(f: Focus, op: Op, w: Window, d: Desktop)
    requires Chained(f) && Allowed(op) && Subject(op).Some? && d in f.chains
    ensures d in Step(f, op).chains
    ensures w in Step(f, op).chains[d] <==>
      if op.DoUpdate? && op.w == w then
        w in op.world.wantsTabFocus && (w in op.world.sticky || (w, d) in op.world.placed)
      else if op.DoRemove? && op.w == w then false
      else
        w in f.chains[d] ||
        (op.DoMoveAfter? && op.w == w && w in op.world.wantsTabFocus
         && (w in op.world.sticky || (w, d) in op.world.placed) && op.reference in f.chains[d])
  {
    StepRearrangesDesktop(f, op, d);
    if w != op.w {
      OthersStay(f.chains[d], Step(f, op).chains[d], op.w, w);
    } else if op.DoUpdate? {
      UpdateOnRearranges(f, d, w, op.change, op.world);
    } else if op.DoMoveAfter? {
      MoveAfterInRearranges(f.chains[d], w, op.reference, op.world);
    }
  }

  /** In every run the MRU chain lists exactly the windows that want tab focus by their last
      update or were moved behind listed ones, not removed since. */
  lemma {:induction false} MruLists(ops: seq<Op>, w: Window)
    requires Legal(ops)
    ensures w in Run(ops).mru <==> Listed(ops, w)
  {
    if ops != [] {
      var init, op := ops[..|ops| - 1], ops[|ops| - 1];
      MruLists(init, w);
      AlwaysChained(init);
      if op.DoMoveAfter? {
        MruLists(init, op.reference);
      }
      if Subject(op).Some? {
        StepListsMru(Run(init), op, w);
      }
    }
  }

  /** And the chain of a desktop those that were also on the desktop; a desktop has a chain
      exactly from its last adding to its removal. */
  lemma {:induction false} DesktopLists(ops: seq<Op>, w: Window, d: Desktop)
    requires Legal(ops)
    ensures d in Run(ops).chains && w in Run(ops).chains[d] <==> ListedOn(ops, w, d)
  {
    if ops != [] {
      var init, op := ops[..|ops| - 1], ops[|ops| - 1];
      DesktopLists(init, w, d);
      DesktopsArePresent(init, d);
      AlwaysChained(init);
      if op.DoMoveAfter? {
        DesktopLists(init, op.reference, d);
      }
      if Subject(op).Some? {
        StepKeepsDesktops(Run(init), op);
        if d in Run(init).chains {
          StepListsOn(Run(init), op, w, d);
        }
      }
    }
  }

  // ---------- places ----------

  /** Made last, a window is the least recent one. */
  lemma MakeLastPlaces(c: Chain, w: Window, active: Option<Window>, world: World)
    ensures var r := UpdateIn(c, w, MakeLast, active, world); r != [] && r[0] == w
  {
  }

  /** The windows of an application are those the reference belongs to it with. */
  lemma AppIs(w: Window, x: Window, world: World)
    ensures x in AppOf(w, world) <==> (w, x) in world.sameApp
  {
    if (w, x) in world.sameApp {
      assert (w, x).0 == w && (w, x).1 == x;
    }
  }

  /** The next window after one that is not listed is the least recent one, and from there the
      walk goes on as a tour. */
  lemma WalkFromOutside(ops: seq<Op>, w: Window)
    requires Legal(ops) && Run(ops).mru != [] && w !in Run(ops).mru
    ensures var c := Run(ops).mru; Walk(c, w, 1) == c[0] && Tour(c, 0)
  {
    WalkVisitsAllOnce(ops, 0);
    assert Walk(Run(ops).mru, w, 1) == Next(Run(ops).mru, Walk(Run(ops).mru, w, 0));
  }

  /** The walk goes to the next less recent window, and from the least recent one back to the
      most recent one. */
  lemma WalkGoesBack(c: Chain, i: nat)
    requires NoDup(c) && i < |c|
    ensures Next(c, c[i]) == if i == 0 then c[|c| - 1] else c[i - 1]
  {
    assert c[i] in c;
    assert IndexOf(c, c[i]) == i;
  }
}
