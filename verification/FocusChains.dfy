/** Focus chains (src/focuschain.h, src/focuschain.cpp): lists of windows, the most recently
    used one last, one for all windows and one for each virtual desktop. The operations on
    one list, and what they do to all of them; the class is in FocusChain.dfy. */
module FocusChains {
  import opened Handles
  import opened Lists

  type Desktop = nat
  type Chain = seq<Window>

  /** What windows and options answer when they are asked. */
  datatype World = World(
    wantsTabFocus: set<Window>,
    sticky: set<Window>,
    placed: set<(Window, Desktop)>,
    minimized: set<Window>,
    sameApp: set<(Window, Window)>,
    minimizedToEnd: bool)
  {
    predicate OnDesktop(w: Window, d: Desktop) { w in sticky || (w, d) in placed }
  }

  datatype Change = MakeFirst | MakeLast | Update

  // ---------- one chain ----------

  function InsertAt(c: Chain, i: nat, w: Window): Chain
    requires i <= |c|
  {
    if i == 0 then [w] + c else c[..i] + [w] + c[i..]
  }

  /** The last position of a window of `s`, or -1. */
  function LastIn(c: Chain, s: set<Window>): (i: int)
    ensures -1 <= i < |c|
    ensures i >= 0 ==> c[i] in s
    ensures forall j :: i < j < |c| ==> c[j] !in s
  {
    if c == [] then -1 else if c[|c| - 1] in s then |c| - 1 else LastIn(c[..|c| - 1], s)
  }

  function InsertWindow(c: Chain, w: Window, active: Option<Window>): Chain {
    if w in c then c
    else if active.Some? && active.value != w && c != [] && c[|c| - 1] == active.value then InsertAt(c, |c| - 1, w)
    else c + [w]
  }

  function MakeFirstIn(c: Chain, w: Window, world: World): Chain {
    var c := Without(c, w);
    if world.minimizedToEnd && w in world.minimized then InsertAt(c, LastIn(c, world.minimized) + 1, w) else c + [w]
  }

  function MakeLastIn(c: Chain, w: Window): Chain { [w] + Without(c, w) }

  function UpdateIn(c: Chain, w: Window, change: Change, active: Option<Window>, world: World): Chain {
    match change
    case MakeFirst => MakeFirstIn(c, w, world)
    case MakeLast => MakeLastIn(c, w)
    case Update => InsertWindow(c, w, active)
  }

  /** The windows that belong to the application of `w`. */
  function AppOf(w: Window, world: World): set<Window> {
    set p | p in world.sameApp && p.0 == w :: p.1
  }

  function MoveAfterIn(c: Chain, w: Window, reference: Window, world: World): Chain
    requires w != reference
  {
    if reference !in c then c else
      var c := Without(c, w);
      if (reference, w) in world.sameApp then InsertAt(c, IndexOf(c, reference), w)
      else
        var i := LastIn(c, AppOf(reference, world));
        if i == -1 then c else InsertAt(c, i, w)
  }

  // ---------- all chains ----------

  datatype Focus = Focus(mru: Chain, chains: map<Desktop, Chain>, active: Option<Window>, current: Option<Desktop>)

  const NO_FOCUS := Focus([], map[], None, None)

  function Remove(f: Focus, w: Window): Focus {
    f.(mru := Without(f.mru, w), chains := map d | d in f.chains :: Without(f.chains[d], w))
  }

  /** What an update does to the chain of desktop `d`. */
  function UpdateOn(f: Focus, d: Desktop, w: Window, change: Change, world: World): Chain
    requires d in f.chains
  {
    if w in world.sticky then
      if f.current == Some(d) then UpdateIn(f.chains[d], w, change, f.active, world)
      else InsertWindow(f.chains[d], w, f.active)
    else if world.OnDesktop(w, d) then UpdateIn(f.chains[d], w, change, f.active, world)
    else Without(f.chains[d], w)
  }

  function UpdateWindow(f: Focus, w: Window, change: Change, world: World): Focus {
    if w !in world.wantsTabFocus then Remove(f, w)
    else f.(mru := UpdateIn(f.mru, w, change, f.active, world),
            chains := map d | d in f.chains :: UpdateOn(f, d, w, change, world))
  }

  function MoveOn(f: Focus, d: Desktop, w: Window, reference: Window, world: World): Chain
    requires d in f.chains && w != reference
  {
    if world.OnDesktop(w, d) then MoveAfterIn(f.chains[d], w, reference, world) else f.chains[d]
  }

  function MoveAfter(f: Focus, w: Window, reference: Window, world: World): Focus
    requires w != reference
  {
    if w !in world.wantsTabFocus then f
    else f.(mru := MoveAfterIn(f.mru, w, reference, world),
            chains := map d | d in f.chains :: MoveOn(f, d, w, reference, world))
  }

  function AddDesktop(f: Focus, d: Desktop): Focus { f.(chains := f.chains[d := []]) }

  function RemoveDesktop(f: Focus, d: Desktop): Focus {
    f.(chains := f.chains - {d}, current := if f.current == Some(d) then None else f.current)
  }

  datatype Op =
    | DoUpdate(w: Window, change: Change, world: World)
    | DoRemove(w: Window)
    | DoMoveAfter(w: Window, reference: Window, world: World)
    | DoAddDesktop(d: Desktop)
    | DoRemoveDesktop(d: Desktop)
    | DoActivate(active: Option<Window>)
    | DoSwitch(current: Option<Desktop>)

  /** Nothing is moved behind itself, and a window belongs to its own application. */
  predicate Allowed(op: Op) {
    op.DoMoveAfter? ==> op.w != op.reference && (op.reference, op.reference) in op.world.sameApp
  }

  function Step(f: Focus, op: Op): Focus
    requires Allowed(op)
  {
    match op
    case DoUpdate(w, change, world) => UpdateWindow(f, w, change, world)
    case DoRemove(w) => Remove(f, w)
    case DoMoveAfter(w, reference, world) => MoveAfter(f, w, reference, world)
    case DoAddDesktop(d) => AddDesktop(f, d)
    case DoRemoveDesktop(d) => RemoveDesktop(f, d)
    case DoActivate(active) => f.(active := active)
    case DoSwitch(current) => f.(current := current)
  }

  predicate Legal(ops: seq<Op>) { forall i :: 0 <= i < |ops| ==> Allowed(ops[i]) }

  function Run(ops: seq<Op>): Focus
    requires Legal(ops)
  {
    if ops == [] then NO_FOCUS else Step(Run(ops[..|ops| - 1]), ops[|ops| - 1])
  }

  // ---------- what an operation leaves alone ----------

  /** From `c` to `r` only `w` has moved, come or gone, and nothing is listed twice. */
  ghost predicate Rearranged(c: Chain, r: Chain, w: Window) {
    NoDup(r) && Without(r, w) == Without(c, w)
  }

  lemma OthersStay(c: Chain, r: Chain, w: Window, x: Window)
    requires Without(r, w) == Without(c, w) && x != w
    ensures x in r <==> x in c
  {
    assert x in Without(r, w) <==> x in r;
    assert x in Without(c, w) <==> x in c;
  }

  lemma InsertAtNoDup(c: Chain, i: nat, w: Window)
    requires NoDup(c) && w !in c && i <= |c|
    ensures NoDup(InsertAt(c, i, w))
  {
    var r := InsertAt(c, i, w);
    forall a, b | 0 <= a < b < |r| ensures r[a] != r[b] {
      assert r[a] == if a < i then c[a] else if a == i then w else c[a - 1];
      assert r[b] == if b < i then c[b] else if b == i then w else c[b - 1];
    }
  }

  lemma InsertAtWithout(c: Chain, i: nat, w: Window)
    requires w !in c && i <= |c|
    ensures Without(InsertAt(c, i, w), w) == c
  {
    WithoutAppend(c[..i] + [w], c[i..], w);
    WithoutAppend(c[..i], [w], w);
    WithoutAbsent(c[..i], w);
    WithoutAbsent(c[i..], w);
    assert Without([w], w) == [];
  }

  lemma InsertAtRearranges(c: Chain, i: nat, w: Window)
    requires NoDup(c) && w !in c && i <= |c|
    ensures Rearranged(c, InsertAt(c, i, w), w) && w in InsertAt(c, i, w)
  {
    InsertAtNoDup(c, i, w);
    InsertAtWithout(c, i, w);
    WithoutAbsent(c, w);
    assert InsertAt(c, i, w)[i] == w;
  }

  /** Taking `w` out and putting it in again somewhere. */
  lemma ReinsertRearranges(c: Chain, i: nat, w: Window)
    requires NoDup(c) && i <= |Without(c, w)|
    ensures var r := InsertAt(Without(c, w), i, w); Rearranged(c, r, w) && w in r
  {
    WithoutNoDup(c, w);
    InsertAtRearranges(Without(c, w), i, w);
    WithoutAbsent(Without(c, w), w);
  }

  lemma WithoutRearranges(c: Chain, w: Window)
    requires NoDup(c)
    ensures Rearranged(c, Without(c, w), w) && w !in Without(c, w)
  {
    WithoutNoDup(c, w);
    WithoutAbsent(Without(c, w), w);
  }

  lemma InsertWindowRearranges(c: Chain, w: Window, active: Option<Window>)
    requires NoDup(c)
    ensures Rearranged(c, InsertWindow(c, w, active), w) && w in InsertWindow(c, w, active)
  {
    if w !in c {
      InsertAtRearranges(c, |c|, w);
      assert InsertAt(c, |c|, w) == c + [w];
      if c != [] { InsertAtRearranges(c, |c| - 1, w); }
    }
  }

  lemma UpdateInRearranges(c: Chain, w: Window, change: Change, active: Option<Window>, world: World)
    requires NoDup(c)
    ensures var r := UpdateIn(c, w, change, active, world); Rearranged(c, r, w) && w in r
  {
    var rest := Without(c, w);
    match change
    case MakeFirst =>
      if world.minimizedToEnd && w in world.minimized {
        ReinsertRearranges(c, LastIn(rest, world.minimized) + 1, w);
      } else {
        ReinsertRearranges(c, |rest|, w);
        assert InsertAt(rest, |rest|, w) == rest + [w];
      }
    case MakeLast =>
      ReinsertRearranges(c, 0, w);
      assert InsertAt(rest, 0, w) == [w] + rest;
    case Update => InsertWindowRearranges(c, w, active);
  }

  lemma LastInFinds(c: Chain, s: set<Window>, x: Window)
    requires x in c && x in s
    ensures LastIn(c, s) >= 0
  {
  }

  lemma MoveAfterInRearranges(c: Chain, w: Window, reference: Window, world: World)
    requires NoDup(c) && w != reference && (reference, reference) in world.sameApp
    ensures var r := MoveAfterIn(c, w, reference, world);
      Rearranged(c, r, w) && (if reference in c then w in r else r == c)
  {
    if reference in c {
      var rest := Without(c, w);
      assert reference in rest;
      if (reference, w) in world.sameApp {
        ReinsertRearranges(c, IndexOf(rest, reference), w);
      } else {
        LastInFinds(rest, AppOf(reference, world), reference);
        ReinsertRearranges(c, LastIn(rest, AppOf(reference, world)), w);
      }
    }
  }

  // ---------- the invariant ----------

  /** No chain holds a window twice, and what a desktop's chain holds the MRU chain holds. */
  ghost predicate Chained(f: Focus) {
    && NoDup(f.mru)
    && (forall d :: d in f.chains ==> NoDup(f.chains[d]))
    && (forall d, x :: d in f.chains && x in f.chains[d] ==> x in f.mru)
  }

  /** The window an operation is about. */
  function Subject(op: Op): Option<Window> {
    if op.DoUpdate? || op.DoRemove? || op.DoMoveAfter? then Some(op.w) else None
  }

  lemma UpdateOnRearranges(f: Focus, d: Desktop, w: Window, change: Change, world: World)
    requires d in f.chains && NoDup(f.chains[d])
    ensures var r := UpdateOn(f, d, w, change, world);
      Rearranged(f.chains[d], r, w) && (w in r <==> world.OnDesktop(w, d))
  {
    UpdateInRearranges(f.chains[d], w, change, f.active, world);
    InsertWindowRearranges(f.chains[d], w, f.active);
    WithoutRearranges(f.chains[d], w);
  }

  lemma StepRearrangesDesktop(f: Focus, op: Op, d: Desktop)
    requires Chained(f) && Allowed(op) && Subject(op).Some? && d in f.chains
    ensures d in Step(f, op).chains && Rearranged(f.chains[d], Step(f, op).chains[d], op.w)
  {
    WithoutRearranges(f.chains[d], op.w);
    if op.DoUpdate? {
      UpdateOnRearranges(f, d, op.w, op.change, op.world);
    } else if op.DoMoveAfter? {
      MoveAfterInRearranges(f.chains[d], op.w, op.reference, op.world);
    }
  }

  lemma StepRearrangesMru(f: Focus, op: Op)
    requires Chained(f) && Allowed(op) && Subject(op).Some?
    ensures Rearranged(f.mru, Step(f, op).mru, op.w)
  {
    WithoutRearranges(f.mru, op.w);
    if op.DoUpdate? {
      UpdateInRearranges(f.mru, op.w, op.change, f.active, op.world);
    } else if op.DoMoveAfter? {
      MoveAfterInRearranges(f.mru, op.w, op.reference, op.world);
    }
  }

  lemma StepKeepsDesktops(f: Focus, op: Op)
    requires Allowed(op) && Subject(op).Some?
    ensures Step(f, op).chains.Keys == f.chains.Keys
  {
  }

  /** Every operation about a window leaves the order of all the others alone, in every
      chain; the other operations touch no chain they keep. */
  lemma StepRearranges(f: Focus, op: Op)
    requires Chained(f) && Allowed(op) && Subject(op).Some?
    ensures var g := Step(f, op);
      && Rearranged(f.mru, g.mru, op.w)
      && g.chains.Keys == f.chains.Keys
      && forall d :: d in f.chains ==> Rearranged(f.chains[d], g.chains[d], op.w)
  {
    StepRearrangesMru(f, op);
    StepKeepsDesktops(f, op);
    var g := Step(f, op);
    forall d | d in f.chains ensures Rearranged(f.chains[d], g.chains[d], op.w) {
      StepRearrangesDesktop(f, op, d);
    }
  }

  /** A window that an operation puts or leaves in a desktop's chain is in the MRU chain. */
  lemma StepListsSubject(f: Focus, op: Op, d: Desktop)
    requires Chained(f) && Allowed(op) && Subject(op).Some? && d in f.chains
    requires op.w in Step(f, op).chains[d]
    ensures op.w in Step(f, op).mru
  {
    WithoutRearranges(f.chains[d], op.w);
    if op.DoUpdate? {
      UpdateInRearranges(f.mru, op.w, op.change, f.active, op.world);
    } else if op.DoMoveAfter? {
      MoveAfterInRearranges(f.mru, op.w, op.reference, op.world);
      MoveAfterInRearranges(f.chains[d], op.w, op.reference, op.world);
    }
  }

  lemma StepChained(f: Focus, op: Op)
    requires Chained(f) && Allowed(op)
    ensures Chained(Step(f, op))
  {
    if Subject(op).Some? {
      StepRearranges(f, op);
      var g := Step(f, op);
      forall d, x | d in g.chains && x in g.chains[d] ensures x in g.mru {
        if x == op.w {
          StepListsSubject(f, op, d);
        } else {
          OthersStay(f.chains[d], g.chains[d], op.w, x);
          OthersStay(f.mru, g.mru, op.w, x);
        }
      }
    }
  }

  lemma {:induction false} AlwaysChained(ops: seq<Op>)
    requires Legal(ops)
    ensures Chained(Run(ops))
  {
    if ops != [] {
      AlwaysChained(ops[..|ops| - 1]);
      StepChained(Run(ops[..|ops| - 1]), ops[|ops| - 1]);
    }
  }

  /** Right after its update a window is in the chain of a known desktop exactly if it wants
      tab focus and is on that desktop, and in the MRU chain exactly if it wants tab focus. */
  lemma UpdateLists(f: Focus, w: Window, change: Change, world: World, d: Desktop)
    requires Chained(f) && d in f.chains
    ensures var g := UpdateWindow(f, w, change, world);
      && (w in g.mru <==> w in world.wantsTabFocus)
      && (w in g.chains[d] <==> w in world.wantsTabFocus && world.OnDesktop(w, d))
  {
    WithoutRearranges(f.mru, w);
    WithoutRearranges(f.chains[d], w);
    UpdateInRearranges(f.mru, w, change, f.active, world);
    UpdateOnRearranges(f, d, w, change, world);
  }

  /** The active window heads the chain. */
  predicate ActiveFirst(c: Chain, active: Option<Window>) {
    active.Some? && c != [] && c[|c| - 1] == active.value
  }

  lemma InsertKeepsLast(c: Chain, w: Window, active: Option<Window>)
    requires ActiveFirst(c, active) && active != Some(w)
    ensures ActiveFirst(InsertWindow(c, w, active), active)
  {
    if w !in c {
      assert InsertAt(c, |c| - 1, w)[|c|] == c[|c| - 1];
    }
  }

  lemma WithoutKeepsLast(c: Chain, w: Window)
    requires c != [] && c[|c| - 1] != w
    ensures Without(c, w) != [] && Without(c, w)[|Without(c, w)| - 1] == c[|c| - 1]
  {
  }

  /** A plain update of another window never displaces the active window from the most
      recent place, in any chain. */
  lemma UpdateKeepsActiveFirst(f: Focus, w: Window, world: World)
    requires f.active != Some(w)
    ensures ActiveFirst(f.mru, f.active) ==> ActiveFirst(UpdateWindow(f, w, Update, world).mru, f.active)
    ensures forall d :: d in f.chains && ActiveFirst(f.chains[d], f.active) ==>
      ActiveFirst(UpdateWindow(f, w, Update, world).chains[d], f.active)
  {
    if ActiveFirst(f.mru, f.active) {
      WithoutKeepsLast(f.mru, w);
      InsertKeepsLast(f.mru, w, f.active);
    }
    forall d | d in f.chains && ActiveFirst(f.chains[d], f.active)
      ensures ActiveFirst(UpdateWindow(f, w, Update, world).chains[d], f.active)
    {
      WithoutKeepsLast(f.chains[d], w);
      InsertKeepsLast(f.chains[d], w, f.active);
    }
  }

  /** Behind `w` only windows outside `s` are more recent, and directly before it is one of `s`. */
  predicate TopsOff(c: Chain, w: Window, s: set<Window>) {
    exists i :: 0 <= i < |c| && c[i] == w && BoundaryAt(c, i, s)
  }

  predicate BoundaryAt(c: Chain, i: nat, s: set<Window>)
    requires i < |c|
  {
    (i > 0 ==> c[i - 1] in s) && forall j :: i < j < |c| ==> c[j] !in s
  }

  predicate IsMostRecent(c: Chain, w: Window) { c != [] && c[|c| - 1] == w }

  /** Where `MakeFirst` puts a window: it is the most recent one, or, with the option on and
      the window minimized, it comes right after the most recent other minimized one. */
  lemma MakeFirstPlaces(c: Chain, w: Window, world: World)
    ensures if world.minimizedToEnd && w in world.minimized
            then TopsOff(MakeFirstIn(c, w, world), w, world.minimized)
            else IsMostRecent(MakeFirstIn(c, w, world), w)
  {
    if world.minimizedToEnd && w in world.minimized {
      var rest, r := Without(c, w), MakeFirstIn(c, w, world);
      var i := LastIn(rest, world.minimized) + 1;
      assert r[i] == w && (i > 0 ==> r[i - 1] == rest[i - 1]);
      assert BoundaryAt(r, i, world.minimized) by { assert forall j :: i < j < |r| ==> r[j] == rest[j - 1]; }
    }
  }

  /** A plain update leaves a listed window where it is; it puts a new one directly behind the
      active window if that is the most recent one, and otherwise makes it the most recent. */
  lemma PlainUpdatePlaces(c: Chain, w: Window, active: Option<Window>, world: World)
    ensures var r := UpdateIn(c, w, Update, active, world);
      if w in c then r == c
      else if ActiveFirst(c, active) && active != Some(w) then DirectlyBehind(r, w, active.value) &&
          IsMostRecent(r, active.value)
      else IsMostRecent(r, w)
  {
    if w !in c && ActiveFirst(c, active) && active != Some(w) {
      InsertedBehind(c, |c| - 1, w);
    }
  }

  /** What is documented of a plain update: the active window becomes the most recent one, any
      other comes directly after the active window, which is the most recent one. */
  predicate AsDocumented(c: Chain, w: Window, active: Option<Window>) {
    active.Some? ==>
      if active.value == w then IsMostRecent(c, w)
      else |c| >= 2 && c[|c| - 1] == active.value && c[|c| - 2] == w
  }

  /** A plain update places a window as documented exactly if it is listed there already, or
      if it is new and is the active window or finds the active window the most recent. */
  lemma PlainUpdateAsDocumentedIff(c: Chain, w: Window, active: Option<Window>, world: World)
    ensures AsDocumented(UpdateIn(c, w, Update, active, world), w, active) <==>
      if w in c then AsDocumented(c, w, active)
      else active.None? || active.value == w || ActiveFirst(c, active)
  {
    var r := UpdateIn(c, w, Update, active, world);
    if w !in c && active.Some? && active.value != w {
      if ActiveFirst(c, active) {
        assert r[|r| - 1] == c[|c| - 1] && r[|r| - 2] == w;
      } else {
        assert r[|r| - 1] == w;
      }
    }
  }

  // ---------- placement behind a reference ----------

  /** `w` directly precedes `x` in the list, that is, comes directly after it in use. */
  predicate DirectlyBehind(c: Chain, w: Window, x: Window) {
    exists i :: 0 <= i < |c| - 1 && c[i] == w && c[i + 1] == x
  }

  /** The most recently used window of `s`. */
  predicate MostRecentOf(c: Chain, x: Window, s: set<Window>) {
    exists i :: 0 <= i < |c| && c[i] == x && x in s && forall j :: i < j < |c| ==> c[j] !in s
  }

  /** Moving puts `w` once into a chain that holds the reference: directly behind it if the
      two share an application, otherwise directly behind the most recent window of the
      reference's application; all other windows stay as they are. */
  lemma MoveAfterPlaces(c: Chain, w: Window, reference: Window, world: World)
    requires NoDup(c) && reference in c && w != reference && (reference, reference) in world.sameApp
    ensures var r := MoveAfterIn(c, w, reference, world);
      && Rearranged(c, r, w) && Contents(r) == Contents(c) + {w}
      && ((reference, w) in world.sameApp ==> DirectlyBehind(r, w, reference))
      && ((reference, w) !in world.sameApp ==>
            exists x :: DirectlyBehind(r, w, x) && MostRecentOf(Without(c, w), x, AppOf(reference, world)))
  {
    MoveAfterInRearranges(c, w, reference, world);
    var rest, r := Without(c, w), MoveAfterIn(c, w, reference, world);
    forall x ensures x in Contents(r) <==> x in Contents(c) + {w} {
      if x != w { OthersStay(c, r, w, x); }
    }
    assert reference in rest;
    if (reference, w) in world.sameApp {
      InsertedBehind(rest, IndexOf(rest, reference), w);
    } else {
      var i := LastIn(rest, AppOf(reference, world));
      LastInFinds(rest, AppOf(reference, world), reference);
      InsertedBehind(rest, i, w);
      assert MostRecentOf(rest, rest[i], AppOf(reference, world));
    }
  }

  lemma InsertedBehind(c: Chain, i: nat, w: Window)
    requires i < |c|
    ensures DirectlyBehind(InsertAt(c, i, w), w, c[i])
  {
    assert InsertAt(c, i, w)[i] == w && InsertAt(c, i, w)[i + 1] == c[i];
  }

  // ---------- walking the MRU chain ----------

  /** `nextMostRecentlyUsed`, for a chain that is not empty. */
  function Next(c: Chain, reference: Window): (w: Window)
    requires c != []
    ensures w in c
  {
    var i := IndexOf(c, reference);
    if i == -1 then c[0] else if i == 0 then c[|c| - 1] else c[i - 1]
  }

  function Walk(c: Chain, w: Window, steps: nat): Window
    requires c != []
  {
    if steps == 0 then w else Next(c, Walk(c, w, steps - 1))
  }

  /** Where a walk of `steps` steps backwards from position `i` arrives. */
  function Back(n: nat, i: nat, steps: nat): nat
    requires i < n && steps <= n
  {
    if steps <= i then i - steps else n + i - steps
  }

  lemma {:induction false} WalkArrives(c: Chain, i: nat, steps: nat)
    requires NoDup(c) && i < |c| && steps <= |c|
    ensures Walk(c, c[i], steps) == c[Back(|c|, i, steps)]
  {
    if steps > 0 {
      WalkArrives(c, i, steps - 1);
      var k := Back(|c|, i, steps - 1);
      var p := IndexOf(c, c[k]);
      assert c[k] in c;
      assert p == k;
    }
  }

  lemma WalkReaches(c: Chain, i: nat, j: nat)
    requires NoDup(c) && i < |c| && j < |c|
    ensures exists k :: 0 <= k < |c| && Walk(c, c[i], k) == c[j]
  {
    WalkArrives(c, i, if j <= i then i - j else |c| + i - j);
  }

  lemma WalkRepeatsNothing(c: Chain, i: nat, k: nat, l: nat)
    requires NoDup(c) && i < |c| && k < l < |c|
    ensures Walk(c, c[i], k) != Walk(c, c[i], l)
  {
    WalkArrives(c, i, k);
    WalkArrives(c, i, l);
  }

  /** The walk from position `i` is a tour: back at the start after as many steps as there
      are windows, no window twice before, none left out. */
  ghost predicate Tour(c: Chain, i: nat)
    requires i < |c|
  {
    && Walk(c, c[i], |c|) == c[i]
    && (forall k, l :: 0 <= k < l < |c| ==> Walk(c, c[i], k) != Walk(c, c[i], l))
    && (forall j :: 0 <= j < |c| ==> exists k :: 0 <= k < |c| && Walk(c, c[i], k) == c[j])
  }

  lemma WalkIsTour(c: Chain, i: nat)
    requires NoDup(c) && i < |c|
    ensures Tour(c, i)
  {
    WalkArrives(c, i, |c|);
    forall k, l | 0 <= k < l < |c| ensures Walk(c, c[i], k) != Walk(c, c[i], l) {
      WalkRepeatsNothing(c, i, k, l);
    }
    forall j | 0 <= j < |c| ensures exists k :: 0 <= k < |c| && Walk(c, c[i], k) == c[j] {
      WalkReaches(c, i, j);
    }
  }

  /** Walking from any listed window visits every window of the chain exactly once before it
      is back at the start. */
  lemma WalkVisitsAllOnce(ops: seq<Op>, i: nat)
    requires Legal(ops) && i < |Run(ops).mru|
    ensures Tour(Run(ops).mru, i)
  {
    AlwaysChained(ops);
    WalkIsTour(Run(ops).mru, i);
  }
}
