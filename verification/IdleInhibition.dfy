/** Idle detection (src/idledetector.cpp), the lists of detectors and inhibitors
    (src/input.cpp) and the windows that inhibit (src/idle_inhibition.cpp). */
module IdleInhibition {
  import opened Handles
  import opened Lists

  datatype Signal = Idle | Resumed

  datatype Detector = Detector(timer: bool, idle: bool, inhibited: bool, emitted: seq<Signal>)

  function SetInhibited(d: Detector, inhibited: bool): Detector {
    if d.inhibited == inhibited then d else d.(inhibited := inhibited, timer := !inhibited)
  }

  function MarkAsIdle(d: Detector): Detector {
    if d.idle then d else d.(idle := true, emitted := d.emitted + [Idle])
  }

  function MarkAsResumed(d: Detector): Detector {
    if d.idle then d.(idle := false, emitted := d.emitted + [Resumed]) else d
  }

  function Activity(d: Detector): Detector {
    if d.inhibited then d else MarkAsResumed(d.(timer := true))
  }

  /** The single-shot timer runs out. */
  function Timeout(d: Detector): Detector { MarkAsIdle(d.(timer := false)) }

  // ---------- lists ----------

  datatype Input = Input(detectors: seq<Detector>, inhibitors: seq<Window>)

  /** What a window answers when it is asked; `inhibits` is false without a surface. */
  datatype Facts = Facts(internal: bool, shown: bool, onCurrentDesktop: bool, inhibits: bool)

  function SetAll(ds: seq<Detector>, inhibited: bool): seq<Detector> {
    seq(|ds|, i requires 0 <= i < |ds| => SetInhibited(ds[i], inhibited))
  }

  function AllActive(ds: seq<Detector>): seq<Detector> {
    seq(|ds|, i requires 0 <= i < |ds| => Activity(ds[i]))
  }

  /** A new detector starts its timer, then it is added to the list. */
  function AddDetector(s: Input): Input {
    s.(detectors := s.detectors + [SetInhibited(Detector(true, false, false, []), s.inhibitors != [])])
  }

  function AddInhibitor(s: Input, w: Window): Input {
    if w in s.inhibitors then s else Input(SetAll(s.detectors, true), s.inhibitors + [w])
  }

  function RemoveInhibitor(s: Input, w: Window): Input {
    if w !in s.inhibitors then s
    else
      var rest := RemoveOne(s.inhibitors, w);
      Input(if rest == [] then SetAll(s.detectors, false) else s.detectors, rest)
  }

  predicate Inhibits(f: Facts) { f.shown && f.onCurrentDesktop && f.inhibits }

  function UpdateWindow(s: Input, w: Window, f: Facts): Input {
    if f.internal then s else if Inhibits(f) then AddInhibitor(s, w) else RemoveInhibitor(s, w)
  }

  datatype Op =
    | DoCreate | DoDestroy(i: nat) | DoTimeout(i: nat) | DoActivity
    | DoUpdate(w: Window, f: Facts) | DoClose(w: Window)

  /** A timer that is stopped does not run out. */
  predicate Allowed(s: Input, op: Op) {
    match op
    case DoDestroy(i) => i < |s.detectors|
    case DoTimeout(i) => i < |s.detectors| && s.detectors[i].timer
    case _ => true
  }

  function Step(s: Input, op: Op): Input
    requires Allowed(s, op)
  {
    match op
    case DoCreate => AddDetector(s)
    case DoDestroy(i) => s.(detectors := s.detectors[..i] + s.detectors[i + 1..])
    case DoTimeout(i) => s.(detectors := s.detectors[i := Timeout(s.detectors[i])])
    case DoActivity => s.(detectors := AllActive(s.detectors))
    case DoUpdate(w, f) => UpdateWindow(s, w, f)
    case DoClose(w) => RemoveInhibitor(s, w)
  }

  predicate Legal(ops: seq<Op>)
    decreases |ops|, 0
  {
    ops == [] || (Legal(ops[..|ops| - 1]) && Allowed(Run(ops[..|ops| - 1]), ops[|ops| - 1]))
  }

  function Run(ops: seq<Op>): Input
    requires Legal(ops)
    decreases |ops|, 1
  {
    if ops == [] then Input([], []) else Step(Run(ops[..|ops| - 1]), ops[|ops| - 1])
  }

  // ---------- agreement ----------

  /** Idle and resumed take turns, and the flag tells whose turn it is; an inhibited detector
      has no timer, one that is neither inhibited nor idle has. */
  ghost predicate Sound(d: Detector) {
    && (forall k :: 0 <= k < |d.emitted| ==> d.emitted[k] == if k % 2 == 0 then Idle else Resumed)
    && (d.idle <==> |d.emitted| % 2 == 1)
    && (d.inhibited ==> !d.timer)
    && (!d.inhibited && !d.idle ==> d.timer)
  }

  ghost predicate Agree(s: Input) {
    && NoDup(s.inhibitors)
    && (forall i :: 0 <= i < |s.detectors| ==>
          Sound(s.detectors[i]) && (s.detectors[i].inhibited <==> s.inhibitors != []))
  }

  lemma DetectorSteps(d: Detector, inhibited: bool)
    requires Sound(d)
    ensures Sound(SetInhibited(d, inhibited)) && SetInhibited(d, inhibited).inhibited == inhibited
    ensures SetInhibited(d, inhibited).emitted == d.emitted
    ensures Sound(Activity(d)) && Activity(d).inhibited == d.inhibited
    ensures d.timer ==> Sound(Timeout(d)) && Timeout(d).inhibited == d.inhibited
  {
  }

  lemma InhibitorsAgree(s: Input, w: Window)
    requires Agree(s)
    ensures Agree(AddInhibitor(s, w)) && Agree(RemoveInhibitor(s, w))
    ensures forall x :: x in AddInhibitor(s, w).inhibitors <==> x in s.inhibitors || x == w
    ensures forall x :: x in RemoveInhibitor(s, w).inhibitors <==> x in s.inhibitors && x != w
  {
    RemoveOneIsWithout(s.inhibitors, w);
    WithoutNoDup(s.inhibitors, w);
    if w !in s.inhibitors {
      NoDupAppend(s.inhibitors, [w]);
    }
    forall i | 0 <= i < |s.detectors| ensures
      && Sound(SetInhibited(s.detectors[i], true)) && Sound(SetInhibited(s.detectors[i], false))
      && SetInhibited(s.detectors[i], true).inhibited && !SetInhibited(s.detectors[i], false).inhibited
    {
      DetectorSteps(s.detectors[i], true);
      DetectorSteps(s.detectors[i], false);
    }
  }

  lemma StepAgrees(s: Input, op: Op)
    requires Agree(s) && Allowed(s, op)
    ensures Agree(Step(s, op))
  {
    match op
    case DoCreate => DetectorSteps(Detector(true, false, false, []), s.inhibitors != []);
    case DoTimeout(i) => DetectorSteps(s.detectors[i], true);
    case DoActivity =>
      forall i | 0 <= i < |s.detectors| ensures Sound(Activity(s.detectors[i])) {
        DetectorSteps(s.detectors[i], true);
      }
    case DoUpdate(w, f) => InhibitorsAgree(s, w);
    case DoClose(w) => InhibitorsAgree(s, w);
    case DoDestroy(i) =>
  }

  /** The verdict of the last event about a window: an update that found it visible and
      inhibiting, not an update that did not, and not its being closed. */
  predicate Verdict(ops: seq<Op>, w: Window) {
    if ops == [] then false else
      match ops[|ops| - 1]
      case DoUpdate(x, f) =>
        if x == w && !f.internal then f.shown && f.onCurrentDesktop && f.inhibits else Verdict(ops[..|ops| - 1], w)
      case DoClose(x) => x != w && Verdict(ops[..|ops| - 1], w)
      case _ => Verdict(ops[..|ops| - 1], w)
  }

  /** In every run the inhibitors are exactly the windows whose last verdict says so, each
      once, and every detector is inhibited exactly if there is such a window. */
  lemma {:induction false} AlwaysAgrees(ops: seq<Op>)
    requires Legal(ops)
    ensures Agree(Run(ops))
    ensures forall w :: w in Run(ops).inhibitors <==> Verdict(ops, w)
  {
    if ops != [] {
      var init, op := ops[..|ops| - 1], ops[|ops| - 1];
      AlwaysAgrees(init);
      StepAgrees(Run(init), op);
      if op.DoUpdate? || op.DoClose? {
        InhibitorsAgree(Run(init), op.w);
      }
    }
  }

  // ---------- what a detector has been through ----------

  /** Some window inhibits. */
  ghost predicate Inhibited(ops: seq<Op>) { exists w :: Verdict(ops, w) }

  /** How many detectors there are. */
  function Count(ops: seq<Op>): int {
    if ops == [] then 0 else
      var n := Count(ops[..|ops| - 1]);
      match ops[|ops| - 1]
      case DoCreate => n + 1
      case DoDestroy(_) => n - 1
      case _ => n
  }

  /** Where the detector at position `i` was before the last operation of a run. */
  function Before(op: Op, i: nat): nat {
    if op.DoDestroy? && op.i <= i then i + 1 else i
  }

  /** The detector at position `i` was just created. */
  predicate Created(ops: seq<Op>, i: nat)
    requires ops != []
  {
    ops[|ops| - 1].DoCreate? && i == Count(ops[..|ops| - 1])
  }

  /** The timer of the detector has run out since the last activity that was not made under
      inhibition, and since its creation. */
  ghost predicate RanOut(ops: seq<Op>, i: nat) {
    if ops == [] then false else
      var init, op := ops[..|ops| - 1], ops[|ops| - 1];
      if Created(ops, i) then false
      else if op == DoTimeout(i) then true
      else if op.DoActivity? && !Inhibited(init) then false
      else RanOut(init, Before(op, i))
  }

  /** The timer was started, by creation, activity or the end of an inhibition, and neither
      ran out nor was stopped by an inhibition since. */
  ghost predicate TimerRuns(ops: seq<Op>, i: nat) {
    if ops == [] then false else
      var init, op := ops[..|ops| - 1], ops[|ops| - 1];
      if Inhibited(ops) then false
      else if Created(ops, i) || Inhibited(init) || op.DoActivity? then true
      else op != DoTimeout(i) && TimerRuns(init, Before(op, i))
  }

  lemma InhibitedIff(ops: seq<Op>)
    requires Legal(ops)
    ensures Inhibited(ops) <==> Run(ops).inhibitors != []
  {
    AlwaysAgrees(ops);
    if Run(ops).inhibitors != [] {
      assert Run(ops).inhibitors[0] in Run(ops).inhibitors;
    }
  }

  lemma {:induction false} CountIs(ops: seq<Op>)
    requires Legal(ops)
    ensures |Run(ops).detectors| == Count(ops)
  {
    if ops != [] {
      CountIs(ops[..|ops| - 1]);
    }
  }

  lemma StepIdles(s: Input, op: Op, i: nat)
    requires Agree(s) && Allowed(s, op) && i < |Step(s, op).detectors|
    ensures if op.DoCreate? && i == |s.detectors| then !Step(s, op).detectors[i].idle
      else
        && Before(op, i) < |s.detectors|
        && (Step(s, op).detectors[i].idle <==>
              op == DoTimeout(i) || (s.detectors[Before(op, i)].idle && !(op.DoActivity? && s.inhibitors == [])))
  {
  }

  lemma StepTimes(s: Input, op: Op, i: nat)
    requires Agree(s) && Allowed(s, op) && i < |Step(s, op).detectors|
    ensures Step(s, op).inhibitors != [] ==> !Step(s, op).detectors[i].timer
    ensures Step(s, op).inhibitors == []
            && ((op.DoCreate? && i == |s.detectors|) || s.inhibitors != [] || op.DoActivity?) ==>
      Step(s, op).detectors[i].timer
    ensures Step(s, op).inhibitors == [] && s.inhibitors == []
            && !op.DoActivity? && !(op.DoCreate? && i == |s.detectors|) ==>
      && Before(op, i) < |s.detectors|
      && (Step(s, op).detectors[i].timer <==> op != DoTimeout(i) && s.detectors[Before(op, i)].timer)
  {
    StepAgrees(s, op);
    assert Sound(Step(s, op).detectors[i]);
  }

  /** In every run a detector is idle exactly if its timer has run out since the last activity
      not made under inhibition. */
  lemma {:induction false} IdleIffRanOut(ops: seq<Op>, i: nat)
    requires Legal(ops) && i < |Run(ops).detectors|
    ensures Run(ops).detectors[i].idle <==> RanOut(ops, i)
  {
    var init, op := ops[..|ops| - 1], ops[|ops| - 1];
    CountIs(init);
    AlwaysAgrees(init);
    InhibitedIff(init);
    StepIdles(Run(init), op, i);
    if !Created(ops, i) {
      IdleIffRanOut(init, Before(op, i));
    }
  }

  /** And its timer runs exactly if it was started and neither ran out nor was stopped since. */
  lemma {:induction false} TimerIffRuns(ops: seq<Op>, i: nat)
    requires Legal(ops) && i < |Run(ops).detectors|
    ensures Run(ops).detectors[i].timer <==> TimerRuns(ops, i)
  {
    var init, op := ops[..|ops| - 1], ops[|ops| - 1];
    CountIs(init);
    AlwaysAgrees(init);
    AlwaysAgrees(ops);
    InhibitedIff(init);
    InhibitedIff(ops);
    StepTimes(Run(init), op, i);
    if !Created(ops, i) {
      TimerIffRuns(init, Before(op, i));
    }
  }

  /** Activity with no window inhibiting leaves no detector idle, and tells exactly those that
      were that they have resumed. */
  lemma ActivityResumes(ops: seq<Op>, i: nat)
    requires Legal(ops) && !Inhibited(ops) && i < |Run(ops).detectors|
    ensures var d, e := Run(ops).detectors[i], Step(Run(ops), DoActivity).detectors[i];
      && !e.idle && e.timer && !e.inhibited
      && e.emitted == d.emitted + if d.idle then [Resumed] else []
  {
    AlwaysAgrees(ops);
    InhibitedIff(ops);
  }

  /** A timeout leaves its detector idle, and tells it so if it was not; the others are told
      nothing. */
  lemma TimeoutIdles(ops: seq<Op>, i: nat, j: nat)
    requires Legal(ops) && Allowed(Run(ops), DoTimeout(i)) && j < |Run(ops).detectors|
    ensures var d, e := Run(ops).detectors[j], Step(Run(ops), DoTimeout(i)).detectors[j];
      if j == i then e.idle && !e.timer && e.emitted == d.emitted + (if d.idle then [] else [Idle]) else e == d
  {
  }

  /** While any window inhibits, no detector emits anything, whatever happens. */
  lemma InhibitedIsSilent(ops: seq<Op>, op: Op, w: Window, i: nat)
    requires Legal(ops) && Allowed(Run(ops), op) && Verdict(ops, w)
    requires i < |Run(ops).detectors| && !op.DoDestroy?
    ensures i < |Step(Run(ops), op).detectors|
    ensures Step(Run(ops), op).detectors[i].emitted == Run(ops).detectors[i].emitted
  {
    AlwaysAgrees(ops);
    var s := Run(ops);
    assert w in s.inhibitors;
    assert forall k :: 0 <= k < |s.detectors| ==>
        Sound(s.detectors[k]) && s.detectors[k].inhibited && !s.detectors[k].timer;
  }

  // ---------- the classes ----------

  class IdleDetector {
    var timerActive: bool
    var isIdle: bool
    var isInhibited: bool
    /** The signals emitted so far. */
    var emitted: seq<Signal>

    function Snapshot(): Detector
      reads this
    {
      Detector(timerActive, isIdle, isInhibited, emitted)
    }

    constructor ()
      ensures Snapshot() == Detector(true, false, false, [])
    {
      timerActive, isIdle, isInhibited, emitted := true, false, false, [];
    }

    method SetInhibitedTo(inhibited: bool)
      modifies this
      ensures Snapshot() == SetInhibited(old(Snapshot()), inhibited)
    {
      if isInhibited == inhibited {
        return;
      }
      isInhibited := inhibited;
      if inhibited {
        timerActive := false;
      } else {
        timerActive := true;
      }
    }

    method NoteActivity()
      modifies this
      ensures Snapshot() == Activity(old(Snapshot()))
    {
      if !isInhibited {
        timerActive := true;
        if isIdle {
          isIdle := false;
          emitted := emitted + [Resumed];
        }
      }
    }

    method TimedOut()
      modifies this
      ensures Snapshot() == Timeout(old(Snapshot()))
    {
      timerActive := false;
      if !isIdle {
        isIdle := true;
        emitted := emitted + [Idle];
      }
    }
  }

  class InputRedirection {
    var idleDetectors: seq<IdleDetector>
    var idleInhibitors: seq<Window>

    ghost predicate Valid()
      reads this
    {
      forall i, j :: 0 <= i < j < |idleDetectors| ==> idleDetectors[i] != idleDetectors[j]
    }

    ghost function Snapshot(): Input
      reads this, idleDetectors
    {
      Input(Snapshots(idleDetectors), idleInhibitors)
    }

    constructor ()
      ensures Valid() && Snapshot() == Input([], [])
    {
      idleDetectors, idleInhibitors := [], [];
    }

    /** A detector registers itself when it is created. */
    method AddIdleDetector(d: IdleDetector)
      requires Valid() && d !in idleDetectors && d.Snapshot() == Detector(true, false, false, [])
      modifies this, d
      ensures Valid() && idleDetectors == old(idleDetectors) + [d]
      ensures Snapshot() == AddDetector(old(Snapshot()))
    {
      d.SetInhibitedTo(idleInhibitors != []);
      idleDetectors := idleDetectors + [d];
      assert Snapshot().detectors == old(Snapshot()).detectors + [d.Snapshot()];
    }

    method SetAllInhibited(inhibited: bool)
      requires Valid()
      modifies idleDetectors
      ensures Snapshots(idleDetectors) == SetAll(old(Snapshots(idleDetectors)), inhibited)
    {
      for i := 0 to |idleDetectors|
        invariant forall k :: 0 <= k < |idleDetectors| ==>
          idleDetectors[k].Snapshot() ==
            if k < i then SetInhibited(old(idleDetectors[k].Snapshot()), inhibited)
                else old(idleDetectors[k].Snapshot())
      {
        idleDetectors[i].SetInhibitedTo(inhibited);
      }
    }

    method SimulateUserActivity()
      requires Valid()
      modifies idleDetectors
      ensures Snapshot() == Step(old(Snapshot()), DoActivity)
    {
      for i := 0 to |idleDetectors|
        invariant forall k :: 0 <= k < |idleDetectors| ==>
          idleDetectors[k].Snapshot() ==
            if k < i then Activity(old(idleDetectors[k].Snapshot())) else old(idleDetectors[k].Snapshot())
      {
        idleDetectors[i].NoteActivity();
      }
    }

    method AddIdleInhibitor(w: Window)
      requires Valid()
      modifies this, idleDetectors
      ensures Valid() && idleDetectors == old(idleDetectors)
      ensures Snapshot() == AddInhibitor(old(Snapshot()), w)
    {
      if w !in idleInhibitors {
        idleInhibitors := idleInhibitors + [w];
        SetAllInhibited(true);
      }
    }

    method RemoveIdleInhibitor(w: Window)
      requires Valid()
      modifies this, idleDetectors
      ensures Valid() && idleDetectors == old(idleDetectors)
      ensures Snapshot() == RemoveInhibitor(old(Snapshot()), w)
    {
      if w in idleInhibitors {
        idleInhibitors := RemoveOne(idleInhibitors, w);
        if idleInhibitors == [] {
          SetAllInhibited(false);
        }
      }
    }

    /** `IdleInhibition::update`. */
    method Update(w: Window, f: Facts)
      requires Valid()
      modifies this, idleDetectors
      ensures Valid() && idleDetectors == old(idleDetectors)
      ensures Snapshot() == UpdateWindow(old(Snapshot()), w, f)
    {
      if f.internal {
        return;
      }
      var visible := f.shown && f.onCurrentDesktop;
      if visible && f.inhibits {
        AddIdleInhibitor(w);
      } else {
        RemoveIdleInhibitor(w);
      }
    }
  }

  ghost function Snapshots(ds: seq<IdleDetector>): (r: seq<Detector>)
    reads ds
    ensures |r| == |ds| && forall i :: 0 <= i < |ds| ==> r[i] == ds[i].Snapshot()
  {
    if ds == [] then [] else Snapshots(ds[..|ds| - 1]) + [ds[|ds| - 1].Snapshot()]
  }
}
