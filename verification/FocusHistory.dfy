/** What the chains mean over whole runs: they are the history of activations, the MRU chain
    of all of them, a desktop's chain of those that concern the desktop. */
module FocusHistory {
  import opened Handles
  import opened Lists
  import opened FocusChains

  // ---------- the history of a run ----------

  /** A window was made the most recent one, or it lost that place without another use: it was
      removed, moved, made last, or set aside as a minimized one. */
  datatype Entry = Used(w: Window) | Dropped(w: Window)

  /** What a change leaves in the history. */
  function EntryFor(w: Window, change: Change, world: World): Option<Entry> {
    match change
    case MakeFirst => if world.minimizedToEnd && w in world.minimized then Some(Dropped(w)) else Some(Used(w))
    case MakeLast => Some(Dropped(w))
    case Update => None
  }

  /** What an operation on `f` adds to the history. */
  function Recorded(f: Focus, op: Op): Option<Entry> {
    match op
    case DoUpdate(w, change, world) =>
      if w !in world.wantsTabFocus then Some(Dropped(w)) else EntryFor(w, change, world)
    case DoRemove(w) => Some(Dropped(w))
    case DoMoveAfter(w, reference, world) =>
      if w in world.wantsTabFocus && reference in f.mru then Some(Dropped(w)) else None
    case _ => None
  }

  function History(ops: seq<Op>): seq<Entry>
    requires Legal(ops)
  {
    if ops == [] then [] else
      var init := ops[..|ops| - 1];
      match Recorded(Run(init), ops[|ops| - 1])
      case Some(entry) => History(init) + [entry]
      case None => History(init)
  }

  /** The position of the last entry about `w`, or -1. */
  function LastUse(h: seq<Entry>, w: Window): (i: int)
    ensures -1 <= i < |h|
    ensures i >= 0 ==> h[i].w == w
    ensures forall j :: i < j < |h| ==> h[j].w != w
  {
    if h == [] then -1 else if h[|h| - 1].w == w then |h| - 1 else LastUse(h[..|h| - 1], w)
  }

  /** The last entry about `w` is a use. */
  predicate Live(h: seq<Entry>, w: Window) { LastUse(h, w) >= 0 && h[LastUse(h, w)].Used? }

  /** The live windows stand in the order of their last uses, whatever is listed among them. */
  ghost predicate Ordered(c: Chain, h: seq<Entry>) {
    forall i, j :: 0 <= i < j < |c| && Live(h, c[i]) && Live(h, c[j]) ==> LastUse(h, c[i]) < LastUse(h, c[j])
  }

  /** All live windows are listed, in the order of their last uses. */
  ghost predicate Records(c: Chain, h: seq<Entry>) {
    (forall w :: Live(h, w) ==> w in c) && Ordered(c, h)
  }

  // ---------- the MRU chain records it ----------

  lemma LastUseAppend(h: seq<Entry>, u: Entry, w: Window)
    ensures LastUse(h + [u], w) == if u.w == w then |h| else LastUse(h, w)
    ensures Live(h + [u], w) <==> if u.w == w then u.Used? else Live(h, w)
  {
    assert (h + [u])[..|h|] == h;
  }

  /** A window that is not live does not matter for the order. */
  lemma {:induction false} WithoutOrdered(c: Chain, h: seq<Entry>, w: Window)
    ensures Ordered(c, h) ==> Ordered(Without(c, w), h)
    ensures !Live(h, w) && Ordered(Without(c, w), h) ==> Ordered(c, h)
  {
    if c != [] {
      var init, last := c[..|c| - 1], c[|c| - 1];
      WithoutOrdered(init, h, w);
      OrderedSnoc(init, last, h);
      OrderedSnoc(Without(init, w), last, h);
      assert c == init + [last];
    }
  }

  lemma OrderedSnoc(c: Chain, w: Window, h: seq<Entry>)
    ensures Ordered(c + [w], h) <==>
      Ordered(c, h) && forall x :: x in c && Live(h, x) && Live(h, w) ==> LastUse(h, x) < LastUse(h, w)
  {
    var r := c + [w];
    assert forall i :: 0 <= i < |c| ==> r[i] == c[i];
    if Ordered(r, h) {
      forall x | x in c && Live(h, x) && Live(h, w) ensures LastUse(h, x) < LastUse(h, w) {
        var i :| 0 <= i < |c| && c[i] == x;
        assert r[i] == x && r[|c|] == w;
      }
    }
  }

  /** An entry about `w` changes no order among the others. */
  lemma AppendOrdered(c: Chain, h: seq<Entry>, u: Entry)
    requires Ordered(c, h) && u.w !in c
    ensures Ordered(c, h + [u])
    ensures forall x :: x in c ==> LastUse(h + [u], x) < |h|
  {
    forall x | x in c ensures LastUse(h + [u], x) == LastUse(h, x) && (Live(h + [u], x) <==> Live(h, x)) {
      LastUseAppend(h, u, x);
    }
  }

  /** Whatever happens to `w` alone, and however it is rearranged, is recorded if it is not
      a use. */
  lemma DroppedRecorded(c: Chain, r: Chain, h: seq<Entry>, w: Window)
    requires Records(c, h) && Without(r, w) == Without(c, w)
    ensures Records(r, h + [Dropped(w)])
  {
    var g := h + [Dropped(w)];
    WithoutOrdered(c, h, w);
    AppendOrdered(Without(c, w), h, Dropped(w));
    LastUseAppend(h, Dropped(w), w);
    WithoutOrdered(r, g, w);
    forall x | Live(g, x) ensures x in r {
      LastUseAppend(h, Dropped(w), x);
      OthersStay(c, r, w, x);
    }
  }

  lemma UsedRecorded(c: Chain, h: seq<Entry>, w: Window)
    requires Records(c, h)
    ensures Records(Without(c, w) + [w], h + [Used(w)])
  {
    var rest, g := Without(c, w), h + [Used(w)];
    WithoutOrdered(c, h, w);
    AppendOrdered(rest, h, Used(w));
    LastUseAppend(h, Used(w), w);
    OrderedSnoc(rest, w, g);
    forall x | Live(g, x) ensures x in rest + [w] {
      LastUseAppend(h, Used(w), x);
      assert x == w || x in rest;
    }
  }

  /** A plain update lists a window without a use. */
  lemma InsertRecorded(c: Chain, h: seq<Entry>, w: Window, active: Option<Window>)
    requires NoDup(c) && Records(c, h)
    ensures Records(InsertWindow(c, w, active), h)
  {
    var r := InsertWindow(c, w, active);
    if w !in c {
      InsertWindowRearranges(c, w, active);
      WithoutOrdered(c, h, w);
      WithoutOrdered(r, h, w);
      forall x | Live(h, x) ensures x in r {
        OthersStay(c, r, w, x);
      }
    }
  }

  lemma StepRecorded(f: Focus, op: Op, h: seq<Entry>)
    requires Chained(f) && Allowed(op) && Records(f.mru, h)
    ensures Records(Step(f, op).mru, match Recorded(f, op) case Some(entry) => h + [entry] case None => h)
  {
    match Recorded(f, op)
    case Some(Dropped(w)) =>
      StepRearrangesMru(f, op);
      DroppedRecorded(f.mru, Step(f, op).mru, h, w);
    case Some(Used(w)) => UsedRecorded(f.mru, h, w);
    case None =>
      if op.DoUpdate? {
        InsertRecorded(f.mru, h, op.w, f.active);
      }
  }

  /** In every run the windows whose last entry is a use are all in the MRU chain, in the
      order of those last uses, whatever was inserted, moved or made last among them. */
  lemma {:induction false} MruRecordsHistory(ops: seq<Op>)
    requires Legal(ops)
    ensures Records(Run(ops).mru, History(ops))
  {
    if ops != [] {
      var init := ops[..|ops| - 1];
      MruRecordsHistory(init);
      AlwaysChained(init);
      StepRecorded(Run(init), ops[|ops| - 1], History(init));
    }
  }

  // ---------- the chain of a desktop ----------

  /** What an operation adds to the history of desktop `d`: a window on all desktops is used on
      the current one only. */
  function RecordedOn(f: Focus, op: Op, d: Desktop): Option<Entry>
    requires d in f.chains
  {
    match op
    case DoUpdate(w, change, world) =>
      if w !in world.wantsTabFocus || !world.OnDesktop(w, d) then Some(Dropped(w))
      else if w in world.sticky && f.current != Some(d) then None
      else EntryFor(w, change, world)
    case DoRemove(w) => Some(Dropped(w))
    case DoMoveAfter(w, reference, world) =>
      if w in world.wantsTabFocus && world.OnDesktop(w, d) && reference in f.chains[d] then Some(Dropped(w)) else None
    case _ => None
  }

  /** The history of a desktop begins anew when the desktop is added. */
  function HistoryOn(ops: seq<Op>, d: Desktop): seq<Entry>
    requires Legal(ops)
  {
    if ops == [] then [] else
      var init, op := ops[..|ops| - 1], ops[|ops| - 1];
      var f := Run(init);
      if op == DoAddDesktop(d) || d !in f.chains then []
      else
        match RecordedOn(f, op, d)
        case Some(entry) => HistoryOn(init, d) + [entry]
        case None => HistoryOn(init, d)
  }

  lemma EntryRecorded(c: Chain, h: seq<Entry>, w: Window, change: Change, active: Option<Window>, world: World)
    requires NoDup(c) && Records(c, h)
    ensures Records(UpdateIn(c, w, change, active, world),
      match EntryFor(w, change, world) case Some(entry) => h + [entry] case None => h)
  {
    UpdateInRearranges(c, w, change, active, world);
    match EntryFor(w, change, world)
    case Some(Dropped(_)) => DroppedRecorded(c, UpdateIn(c, w, change, active, world), h, w);
    case Some(Used(_)) => UsedRecorded(c, h, w);
    case None => InsertRecorded(c, h, w, active);
  }

  lemma StepRecordedOn(f: Focus, op: Op, d: Desktop, h: seq<Entry>)
    requires Chained(f) && Allowed(op) && d in f.chains && Records(f.chains[d], h)
    requires d in Step(f, op).chains && op != DoAddDesktop(d)
    ensures Records(Step(f, op).chains[d], match RecordedOn(f, op, d) case Some(entry) => h + [entry] case None => h)
  {
    var c := f.chains[d];
    if Subject(op).Some? {
      StepRearrangesDesktop(f, op, d);
    }
    match op
    case DoUpdate(w, change, world) =>
      if w !in world.wantsTabFocus || !world.OnDesktop(w, d) {
        DroppedRecorded(c, Without(c, w), h, w);
      } else if w in world.sticky && f.current != Some(d) {
        InsertRecorded(c, h, w, f.active);
      } else {
        EntryRecorded(c, h, w, change, f.active, world);
      }
    case DoRemove(w) => DroppedRecorded(c, Without(c, w), h, w);
    case DoMoveAfter(w, _, _) =>
      if RecordedOn(f, op, d).Some? {
        DroppedRecorded(c, Step(f, op).chains[d], h, w);
      }
    case _ =>
  }

  /** In every run the windows whose last entry about a desktop is a use are all in the chain
      of that desktop, in the order of those last uses. */
  lemma {:induction false} DesktopRecordsHistory(ops: seq<Op>, d: Desktop)
    requires Legal(ops) && d in Run(ops).chains
    ensures Records(Run(ops).chains[d], HistoryOn(ops, d))
  {
    if ops != [] {
      var init, op := ops[..|ops| - 1], ops[|ops| - 1];
      if op != DoAddDesktop(d) {
        DesktopRecordsHistory(init, d);
        AlwaysChained(init);
        StepRecordedOn(Run(init), op, d, HistoryOn(init, d));
      }
    }
  }

  // ---------- when the MRU chain holds nothing else ----------

  /** Windows enter with `MakeFirst` only, the minimized option is off, a plain update is
      for listed windows, and nothing is moved behind another window. */
  predicate Plain(f: Focus, op: Op) {
    match op
    case DoUpdate(w, change, world) =>
      w in world.wantsTabFocus ==>
        !world.minimizedToEnd && (change == MakeFirst || (change == Update && w in f.mru))
    case DoMoveAfter(_, _, _) => false
    case _ => true
  }

  predicate PlainRun(ops: seq<Op>)
    requires Legal(ops)
  {
    ops == [] || (PlainRun(ops[..|ops| - 1]) && Plain(Run(ops[..|ops| - 1]), ops[|ops| - 1]))
  }

  /** The chain lists exactly the live windows, in the order of their last uses. */
  ghost predicate Reflects(c: Chain, h: seq<Entry>) {
    && (forall w :: w in c <==> Live(h, w))
    && forall i, j :: 0 <= i < j < |c| ==> LastUse(h, c[i]) < LastUse(h, c[j])
  }

  lemma PlainStepLists(f: Focus, op: Op, x: Window)
    requires Allowed(op) && Plain(f, op) && x in Step(f, op).mru
    ensures match Recorded(f, op)
      case Some(Used(w)) => x == w || x in f.mru
      case Some(Dropped(w)) => x != w && x in f.mru
      case None => x in f.mru
  {
    match op
    case DoUpdate(w, change, world) => assert x in Without(f.mru, w) ==> x in f.mru && x != w;
    case DoRemove(w) => assert x in Without(f.mru, w);
    case _ =>
  }

  lemma {:induction false} PlainListsLiveOnly(ops: seq<Op>, x: Window)
    requires Legal(ops) && PlainRun(ops) && x in Run(ops).mru
    ensures Live(History(ops), x)
  {
    if ops != [] {
      var init, op := ops[..|ops| - 1], ops[|ops| - 1];
      PlainStepLists(Run(init), op, x);
      if x in Run(init).mru {
        PlainListsLiveOnly(init, x);
      }
      if Recorded(Run(init), op).Some? {
        LastUseAppend(History(init), Recorded(Run(init), op).value, x);
      }
    }
  }

  /** In a plain run the MRU chain is the activation history with only the last use of each
      live window kept. */
  lemma MruIsHistory(ops: seq<Op>)
    requires Legal(ops) && PlainRun(ops)
    ensures Reflects(Run(ops).mru, History(ops))
  {
    MruRecordsHistory(ops);
    forall x | x in Run(ops).mru ensures Live(History(ops), x) {
      PlainListsLiveOnly(ops, x);
    }
    var c := Run(ops).mru;
    assert forall i :: 0 <= i < |c| ==> c[i] in c;
  }
}
