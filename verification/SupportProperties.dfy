/** Support properties (src/effects.cpp, src/composite.cpp): effects announce properties on
    the root window; the last one to withdraw leaves the property to a timer, which deletes
    it later unless it was announced again, possibly after the compositor was restarted. */
module SupportProperties {
  import opened Handles
  import opened Lists

  type Property = nat

  /** An X atom stands for the name it was interned from; registration may fail. */
  datatype Atom = NoAtom | AtomOf(p: Property)

  datatype State = Off | Starting | On | Stopping

  /** The effects handler's tables, which live as long as the handler, and what outlives it:
      the compositor's list and timer and the properties on the root window. */
  datatype System = System(
    holders: map<Property, seq<Effect>>,
    managed: map<Property, Atom>,
    registered: map<Atom, int>,
    alive: set<Effect>,
    unused: seq<Atom>,
    timer: bool,
    state: State,
    root: set<Atom>)

  const INITIAL := System(map[], map[], map[], {}, [], false, Off, {})

  // ---------- operations ----------

  function Registered(m: map<Atom, int>, a: Atom): int { if a in m then m[a] else 0 }

  function RegisterType(m: map<Atom, int>, a: Atom, reg: bool): map<Atom, int> {
    if reg then m[a := Registered(m, a) + 1]
    else if Registered(m, a) - 1 == 0 then m - {a}
    else m[a := Registered(m, a) - 1]
  }

  /** `ok` tells whether the X server answers with an atom. */
  function Announce(s: System, p: Property, e: Effect, ok: bool): System {
    if p in s.holders then
      if e in s.holders[p] then s else s.(holders := s.holders[p := s.holders[p] + [e]])
    else
      var s := s.(holders := s.holders[p := [e]]);
      if !ok then s
      else
        var a := AtomOf(p);
        s.(root := s.root + {a}, unused := Without(s.unused, a), managed := s.managed[p := a],
           registered := RegisterType(s.registered, a, true))
  }

  function Withdraw(s: System, p: Property, e: Effect): System {
    if p !in s.holders || e !in s.holders[p] then s
    else
      var rest := Without(s.holders[p], e);
      if rest != [] then s.(holders := s.holders[p := rest])
      else
        var a := if p in s.managed then s.managed[p] else NoAtom;
        s.(holders := s.holders - {p}, managed := s.managed - {p},
           registered := RegisterType(s.registered, a, false), unused := s.unused + [a], timer := true)
  }

  /** `destroyEffect`; `ps` lists the properties in the order the hash has them. */
  function WithdrawAll(s: System, ps: seq<Property>, e: Effect): System
    decreases |ps|
  {
    if ps == [] then s else WithdrawAll(Withdraw(s, ps[0], e), ps[1..], e)
  }

  function Destroy(s: System, e: Effect, ps: seq<Property>): System {
    var s := WithdrawAll(s, ps, e);
    s.(alive := s.alive - {e})
  }

  /** An effect to destroy with the listing of the properties at that moment. */
  datatype Doomed = Doomed(e: Effect, ps: seq<Property>)

  function DestroyAll(s: System, ds: seq<Doomed>): System
    decreases |ds|
  {
    if ds == [] then s else DestroyAll(Destroy(s, ds[0].e, ds[0].ps), ds[1..])
  }

  /** Every listing is complete. */
  predicate Listed(s: System, ds: seq<Doomed>)
    decreases |ds|
  {
    ds == [] || (s.holders.Keys <= Contents(ds[0].ps) && Listed(Destroy(s, ds[0].e, ds[0].ps), ds[1..]))
  }

  predicate Covers(ds: seq<Doomed>, alive: set<Effect>) {
    forall e :: e in alive ==> exists i :: 0 <= i < |ds| && ds[i].e == e
  }

  /** The compositor stops: the handler destroys its effects and goes away with its tables. */
  function Stop(s: System, ds: seq<Doomed>): System {
    DestroyAll(s, ds).(holders := map[], managed := map[], registered := map[], alive := {}, state := Off)
  }

  /** The timer of `deleteUnusedSupportProperties` fires. */
  function Fire(s: System): System {
    if s.state == Starting || s.state == Stopping then s.(timer := true)
    else s.(root := s.root - Contents(s.unused), unused := [], timer := false)
  }

  datatype Op =
    | DoCreate(e: Effect)
    | DoAnnounce(p: Property, e: Effect, ok: bool)
    | DoWithdraw(p: Property, e: Effect)
    | DoUnload(e: Effect, ps: seq<Property>)
    | DoBeginStop | DoFinishStop(ds: seq<Doomed>)
    | DoBeginStart | DoFinishStart | DoStartFails
    | DoFire

  /** Effects announce from their construction to their destruction; unloading lists all
      properties there are, stopping destroys all effects that are alive; the states of the
      compositor follow one another. */
  predicate Allowed(s: System, op: Op) {
    match op
    case DoCreate(e) => s.state == On
    case DoAnnounce(p, e, ok) => e in s.alive
    case DoWithdraw(p, e) => true
    case DoUnload(e, ps) => s.holders.Keys <= Contents(ps)
    case DoBeginStop => s.state == On
    case DoFinishStop(ds) => s.state == Stopping && Covers(ds, s.alive) && Listed(s, ds)
    case DoBeginStart => s.state == Off
    case DoFinishStart => s.state == Starting
    case DoStartFails => s.state == Starting
    case DoFire => s.timer
  }

  function Step(s: System, op: Op): System {
    match op
    case DoCreate(e) => s.(alive := s.alive + {e})
    case DoAnnounce(p, e, ok) => Announce(s, p, e, ok)
    case DoWithdraw(p, e) => Withdraw(s, p, e)
    case DoUnload(e, ps) => Destroy(s, e, ps)
    case DoBeginStop => s.(state := Stopping)
    case DoFinishStop(ds) => Stop(s, ds)
    case DoBeginStart => s.(state := Starting)
    case DoFinishStart => s.(state := On)
    case DoStartFails => s.(state := Off)
    case DoFire => Fire(s)
  }

  function Run(ops: seq<Op>): System {
    if ops == [] then INITIAL else Step(Run(ops[..|ops| - 1]), ops[|ops| - 1])
  }

  predicate Legal(ops: seq<Op>) {
    ops == [] || (Legal(ops[..|ops| - 1]) && Allowed(Run(ops[..|ops| - 1]), ops[|ops| - 1]))
  }

  // ---------- safety ----------

  /** A managed property is held, is on the root window and is not up for deletion. */
  ghost predicate Safe(s: System) {
    forall p :: p in s.managed ==>
      s.managed[p] == AtomOf(p) && p in s.holders && AtomOf(p) in s.root && AtomOf(p) !in s.unused
  }

  lemma AnnounceSafe(s: System, p: Property, e: Effect, ok: bool)
    requires Safe(s)
    ensures Safe(Announce(s, p, e, ok))
  {
  }

  lemma WithdrawSafe(s: System, p: Property, e: Effect)
    requires Safe(s)
    ensures Safe(Withdraw(s, p, e))
  {
  }

  lemma {:induction false} WithdrawAllSafe(s: System, ps: seq<Property>, e: Effect)
    requires Safe(s)
    ensures Safe(WithdrawAll(s, ps, e))
    decreases |ps|
  {
    if ps != [] {
      WithdrawSafe(s, ps[0], e);
      WithdrawAllSafe(Withdraw(s, ps[0], e), ps[1..], e);
    }
  }

  lemma StepSafe(s: System, op: Op)
    requires Safe(s)
    ensures Safe(Step(s, op))
  {
    match op
    case DoAnnounce(p, e, ok) => AnnounceSafe(s, p, e, ok);
    case DoWithdraw(p, e) => WithdrawSafe(s, p, e);
    case DoUnload(e, ps) => WithdrawAllSafe(s, ps, e);
    case DoFire =>
      forall p | p in s.managed ensures AtomOf(p) in Fire(s).root {
        assert AtomOf(p) !in Contents(s.unused);
      }
    case _ =>
  }

  /** In every run, failed registrations and restarts of the compositor included, the timer
      never deletes a property that is managed for an effect. */
  lemma {:induction false} AlwaysSafe(ops: seq<Op>)
    ensures Safe(Run(ops))
  {
    if ops != [] {
      AlwaysSafe(ops[..|ops| - 1]);
      StepSafe(Run(ops[..|ops| - 1]), ops[|ops| - 1]);
    }
  }

  // ---------- agreement of the tables ----------

  function Users(managed: map<Property, Atom>, a: Atom): set<Property> {
    set p | p in managed && managed[p] == a
  }

  /** A property is managed exactly if it has holders, which are effects alive, named once. */
  ghost predicate HoldersAgree(s: System) {
    && s.managed.Keys == s.holders.Keys
    && (forall p :: p in s.managed ==> s.managed[p] == AtomOf(p))
    && (forall p :: p in s.holders ==> s.holders[p] != [] && NoDup(s.holders[p]))
    && (forall p, e :: p in s.holders && e in s.holders[p] ==> e in s.alive)
  }

  /** An atom's count is the number of the managed properties that use it. */
  ghost predicate CountsAgree(s: System) {
    && (forall a :: a in s.registered <==> a.AtomOf? && a.p in s.managed)
    && (forall a :: a in s.registered ==> s.registered[a] == |Users(s.managed, a)|)
  }

  /** What is on the root window is managed or waits for the timer, never both. */
  ghost predicate RootAgrees(s: System) {
    && (forall a :: a in s.root <==> (a.AtomOf? && a.p in s.managed) || a in s.unused)
    && (forall p :: p in s.managed ==> AtomOf(p) !in s.unused)
    && (s.unused != [] ==> s.timer)
  }

  ghost predicate Agree(s: System) { HoldersAgree(s) && CountsAgree(s) && RootAgrees(s) }

  /** Names and atoms correspond one to one, so the count is always 1. */
  lemma OneUser(managed: map<Property, Atom>, a: Atom)
    requires forall p :: p in managed ==> managed[p] == AtomOf(p)
    requires a.AtomOf? && a.p in managed
    ensures Users(managed, a) == {a.p} && |Users(managed, a)| == 1
  {
    assert Users(managed, a) == {a.p};
  }

  lemma CountsAreOne(s: System)
    requires HoldersAgree(s)
    ensures CountsAgree(s) <==>
      (forall a :: a in s.registered <==> a.AtomOf? && a.p in s.managed) &&
      (forall a :: a in s.registered ==> s.registered[a] == 1)
  {
    forall a: Atom | a.AtomOf? && a.p in s.managed ensures |Users(s.managed, a)| == 1 {
      OneUser(s.managed, a);
    }
  }

  lemma FirstAnnouncementHolders(s: System, p: Property, e: Effect)
    requires HoldersAgree(s) && e in s.alive && p !in s.holders
    ensures HoldersAgree(Announce(s, p, e, true))
  {
    assert NoDup([e]);
  }

  lemma FirstAnnouncementCounts(s: System, p: Property, e: Effect)
    requires HoldersAgree(s) && CountsAgree(s) && e in s.alive && p !in s.holders
    ensures CountsAgree(Announce(s, p, e, true))
  {
    FirstAnnouncementHolders(s, p, e);
    CountsAreOne(s);
    CountsAreOne(Announce(s, p, e, true));
    assert AtomOf(p) !in s.registered;
  }

  lemma FirstAnnouncementAgrees(s: System, p: Property, e: Effect)
    requires Agree(s) && e in s.alive && p !in s.holders
    ensures Agree(Announce(s, p, e, true))
  {
    FirstAnnouncementHolders(s, p, e);
    FirstAnnouncementCounts(s, p, e);
    assert RootAgrees(Announce(s, p, e, true));
  }

  lemma LaterAnnouncementHolders(s: System, p: Property, e: Effect, ok: bool)
    requires HoldersAgree(s) && e in s.alive && p in s.holders && e !in s.holders[p]
    ensures HoldersAgree(Announce(s, p, e, ok))
  {
    NoDupAppend(s.holders[p], [e]);
  }

  lemma LaterAnnouncementAgrees(s: System, p: Property, e: Effect, ok: bool)
    requires Agree(s) && e in s.alive && p in s.holders
    ensures Agree(Announce(s, p, e, ok))
  {
    if e !in s.holders[p] {
      LaterAnnouncementHolders(s, p, e, ok);
    }
  }

  /** Announcing keeps the tables in agreement exactly when the property was announced
      before or the X server hands out an atom. */
  lemma AnnounceAgreesIff(s: System, p: Property, e: Effect, ok: bool)
    requires Agree(s) && e in s.alive
    ensures Agree(Announce(s, p, e, ok)) <==> p in s.holders || ok
  {
    if p in s.holders {
      LaterAnnouncementAgrees(s, p, e, ok);
    } else if ok {
      FirstAnnouncementAgrees(s, p, e);
    } else {
      assert p in Announce(s, p, e, ok).holders && p !in Announce(s, p, e, ok).managed;
    }
  }

  lemma LastWithdrawalHolders(s: System, p: Property, e: Effect)
    requires HoldersAgree(s) && p in s.holders && e in s.holders[p] && Without(s.holders[p], e) == []
    ensures HoldersAgree(Withdraw(s, p, e))
    ensures Withdraw(s, p, e).managed == s.managed - {p}
    ensures Withdraw(s, p, e).registered == RegisterType(s.registered, AtomOf(p), false)
  {
  }

  lemma LastWithdrawalCounts(s: System, p: Property, e: Effect)
    requires HoldersAgree(s) && CountsAgree(s)
    requires p in s.holders && e in s.holders[p] && Without(s.holders[p], e) == []
    ensures CountsAgree(Withdraw(s, p, e))
  {
    LastWithdrawalHolders(s, p, e);
    CountsAreOne(s);
    assert s.registered[AtomOf(p)] == 1;
    assert RegisterType(s.registered, AtomOf(p), false) == s.registered - {AtomOf(p)};
    CountsAreOne(Withdraw(s, p, e));
  }

  lemma LastWithdrawalRoot(s: System, p: Property, e: Effect)
    requires HoldersAgree(s) && RootAgrees(s)
    requires p in s.holders && e in s.holders[p] && Without(s.holders[p], e) == []
    ensures RootAgrees(Withdraw(s, p, e))
  {
    var t := Withdraw(s, p, e);
    assert t.unused == s.unused + [AtomOf(p)] && t.managed == s.managed - {p};
    assert forall a :: a in t.unused <==> a in s.unused || a == AtomOf(p);
  }

  lemma WithdrawAgrees(s: System, p: Property, e: Effect)
    requires Agree(s)
    ensures Agree(Withdraw(s, p, e))
  {
    if p in s.holders && e in s.holders[p] {
      WithoutNoDup(s.holders[p], e);
      if Without(s.holders[p], e) == [] {
        LastWithdrawalHolders(s, p, e);
        LastWithdrawalCounts(s, p, e);
        LastWithdrawalRoot(s, p, e);
      }
    }
  }

  /** From `s` to `t` holders were only removed. */
  ghost predicate Fewer(t: System, s: System) {
    && t.alive == s.alive
    && forall q :: q in t.holders ==> q in s.holders && forall f :: f in t.holders[q] ==> f in s.holders[q]
  }

  lemma WithdrawFewer(s: System, p: Property, e: Effect)
    ensures Fewer(Withdraw(s, p, e), s)
    ensures p in Withdraw(s, p, e).holders ==> e !in Withdraw(s, p, e).holders[p]
  {
  }

  lemma {:induction false} WithdrawAllAgrees(s: System, ps: seq<Property>, e: Effect)
    requires Agree(s)
    ensures Agree(WithdrawAll(s, ps, e)) && Fewer(WithdrawAll(s, ps, e), s)
    ensures forall q :: q in ps && q in WithdrawAll(s, ps, e).holders ==> e !in WithdrawAll(s, ps, e).holders[q]
    decreases |ps|
  {
    if ps != [] {
      var u := Withdraw(s, ps[0], e);
      WithdrawAgrees(s, ps[0], e);
      WithdrawFewer(s, ps[0], e);
      WithdrawAllAgrees(u, ps[1..], e);
    }
  }

  lemma DestroyAgrees(s: System, e: Effect, ps: seq<Property>)
    requires Agree(s) && s.holders.Keys <= Contents(ps)
    ensures Agree(Destroy(s, e, ps)) && Destroy(s, e, ps).holders.Keys <= s.holders.Keys
    ensures Destroy(s, e, ps).alive == s.alive - {e}
  {
    WithdrawAllAgrees(s, ps, e);
    var t := WithdrawAll(s, ps, e);
    forall q | q in t.holders ensures e !in t.holders[q] {
      assert q in Contents(ps);
    }
  }

  lemma {:induction false} DestroyAllAgrees(s: System, ds: seq<Doomed>)
    requires Agree(s) && Listed(s, ds)
    ensures Agree(DestroyAll(s, ds))
    ensures forall e :: e in DestroyAll(s, ds).alive ==> e in s.alive && forall i :: 0 <= i < |ds| ==> ds[i].e != e
    decreases |ds|
  {
    if ds != [] {
      var t := Destroy(s, ds[0].e, ds[0].ps);
      DestroyAgrees(s, ds[0].e, ds[0].ps);
      DestroyAllAgrees(t, ds[1..]);
      assert forall i :: 1 <= i < |ds| ==> ds[i] == ds[1..][i - 1];
    }
  }

  /** When all effects are destroyed no table has an entry left, so that the handler can go. */
  lemma NoEffectsNoEntries(s: System)
    requires Agree(s) && s.alive == {}
    ensures s.holders == map[] && s.managed == map[] && s.registered == map[]
  {
    assert forall p :: p in s.holders ==> s.holders[p][0] in s.holders[p] && s.holders[p][0] in s.alive;
    assert s.holders.Keys == {} && s.managed.Keys == {};
    assert s.registered.Keys == {};
  }

  lemma StopAgrees(s: System, ds: seq<Doomed>)
    requires Agree(s) && Covers(ds, s.alive) && Listed(s, ds)
    ensures Agree(Stop(s, ds))
  {
    DestroyAllAgrees(s, ds);
    assert DestroyAll(s, ds).alive == {};
    NoEffectsNoEntries(DestroyAll(s, ds));
  }

  /** The X server hands out an atom, or none is asked for. */
  predicate Answered(s: System, op: Op) { op.DoAnnounce? ==> op.ok || op.p in s.holders }

  /** More effects, or another state of the compositor, leave the tables as they are. */
  lemma SameTablesAgree(s: System, alive: set<Effect>, state: State)
    requires Agree(s) && s.alive <= alive
    ensures Agree(s.(alive := alive, state := state))
  {
    var t := s.(alive := alive, state := state);
    assert HoldersAgree(t) && CountsAgree(t) && RootAgrees(t);
  }

  lemma StepAgreesIff(s: System, op: Op)
    requires Agree(s) && Allowed(s, op)
    ensures Agree(Step(s, op)) <==> Answered(s, op)
  {
    match op
    case DoAnnounce(p, e, ok) => AnnounceAgreesIff(s, p, e, ok);
    case DoWithdraw(p, e) => WithdrawAgrees(s, p, e);
    case DoUnload(e, ps) => DestroyAgrees(s, e, ps);
    case DoFinishStop(ds) => StopAgrees(s, ds);
    case DoFire => FireAgrees(s);
    case _ => SameTablesAgree(s, Step(s, op).alive, Step(s, op).state);
  }

  lemma FireAgrees(s: System)
    requires Agree(s)
    ensures Agree(Fire(s))
  {
    forall a ensures a in Contents(s.unused) <==> a in s.unused {
    }
  }

  /** At every moment of a run the tables agreed. */
  ghost predicate AgreeThroughout(ops: seq<Op>) {
    Agree(Run(ops)) && (ops == [] || AgreeThroughout(ops[..|ops| - 1]))
  }

  /** In a run no property was left without the atom it was to get. */
  predicate NoRefusal(ops: seq<Op>) {
    ops == [] || (NoRefusal(ops[..|ops| - 1]) && Answered(Run(ops[..|ops| - 1]), ops[|ops| - 1]))
  }

  /** Across any number of restarts the tables agree at every moment (no property is lost,
      none deleted while it is held, none kept without need) exactly in the runs in which the
      X server refuses no first announcement. */
  lemma {:induction false} AgreesIffNoRefusal(ops: seq<Op>)
    requires Legal(ops)
    ensures AgreeThroughout(ops) <==> NoRefusal(ops)
    ensures NoRefusal(ops) ==> Agree(Run(ops))
  {
    if ops != [] {
      var init := ops[..|ops| - 1];
      AgreesIffNoRefusal(init);
      if NoRefusal(init) {
        StepAgreesIff(Run(init), ops[|ops| - 1]);
      }
    }
  }

  lemma Append(ops: seq<Op>, op: Op)
    ensures Run(ops + [op]) == Step(Run(ops), op)
    ensures Legal(ops + [op]) <==> Legal(ops) && Allowed(Run(ops), op)
    ensures NoRefusal(ops + [op]) <==> NoRefusal(ops) && Answered(Run(ops), op)
  {
    assert (ops + [op])[..|ops|] == ops;
  }

  /** The shortest run that spoils the tables: the first effect is refused its atom. */
  lemma RefusalSpoilsTables(p: Property, e: Effect)
    ensures var ops := [DoBeginStart] + [DoFinishStart] + [DoCreate(e)];
      && Legal(ops) && AgreeThroughout(ops)
      && Legal(ops + [DoAnnounce(p, e, false)]) && !Agree(Run(ops + [DoAnnounce(p, e, false)]))
  {
    Append([], DoBeginStart);
    assert [] + [DoBeginStart] == [DoBeginStart];
    Append([DoBeginStart], DoFinishStart);
    Append([DoBeginStart] + [DoFinishStart], DoCreate(e));
    var ops := [DoBeginStart] + [DoFinishStart] + [DoCreate(e)];
    Append(ops, DoAnnounce(p, e, false));
    AgreesIffNoRefusal(ops);
    StepAgreesIff(Run(ops), DoAnnounce(p, e, false));
  }

  /** Effect `e` holds property `p`. */
  predicate Holds(s: System, p: Property, e: Effect) { p in s.holders && e in s.holders[p] }

  lemma AnnounceHolds(s: System, p: Property, e: Effect, ok: bool, q: Property, f: Effect)
    ensures Holds(Announce(s, p, e, ok), q, f) <==> Holds(s, q, f) || (q == p && f == e)
  {
  }

  lemma WithdrawHolds(s: System, p: Property, e: Effect, q: Property, f: Effect)
    ensures Holds(Withdraw(s, p, e), q, f) <==> Holds(s, q, f) && !(q == p && f == e)
  {
    if p in s.holders && e in s.holders[p] {
      assert q == p && f != e && f in s.holders[p] ==> f in Without(s.holders[p], e);
    }
  }

  lemma {:induction false} WithdrawAllHolds(s: System, ps: seq<Property>, e: Effect, q: Property, f: Effect)
    ensures Holds(WithdrawAll(s, ps, e), q, f) <==> Holds(s, q, f) && !(q in ps && f == e)
    decreases |ps|
  {
    if ps != [] {
      WithdrawHolds(s, ps[0], e, q, f);
      WithdrawAllHolds(Withdraw(s, ps[0], e), ps[1..], e, q, f);
      assert ps == [ps[0]] + ps[1..];
    }
  }

  /** The last event about effect and property was an announcement: not a withdrawal, not the
      unloading of the effect, not a stop of the compositor. */
  predicate Claims(ops: seq<Op>, p: Property, e: Effect) {
    if ops == [] then false else
      match ops[|ops| - 1]
      case DoAnnounce(q, f, _) => (q == p && f == e) || Claims(ops[..|ops| - 1], p, e)
      case DoWithdraw(q, f) => !(q == p && f == e) && Claims(ops[..|ops| - 1], p, e)
      case DoUnload(f, _) => f != e && Claims(ops[..|ops| - 1], p, e)
      case DoFinishStop(_) => false
      case _ => Claims(ops[..|ops| - 1], p, e)
  }

  /** In every run an effect holds exactly the properties it claims. */
  lemma {:induction false} HoldsWhatItClaims(ops: seq<Op>, p: Property, e: Effect)
    requires Legal(ops)
    ensures Holds(Run(ops), p, e) <==> Claims(ops, p, e)
  {
    if ops != [] {
      var init := ops[..|ops| - 1];
      var s := Run(init);
      HoldsWhatItClaims(init, p, e);
      match ops[|ops| - 1]
      case DoAnnounce(q, f, ok) => AnnounceHolds(s, q, f, ok, p, e);
      case DoWithdraw(q, f) => WithdrawHolds(s, q, f, p, e);
      case DoUnload(f, ps) =>
        WithdrawAllHolds(s, ps, f, p, e);
        assert p in s.holders ==> p in Contents(ps);
      case _ =>
    }
  }

  /** While the compositor starts or stops the timer deletes nothing: it is only started again,
      so that what is announced in time survives a restart. */
  lemma FiringWaits(s: System)
    requires s.state == Starting || s.state == Stopping
    ensures Step(s, DoFire) == s.(timer := true)
  {
  }

  lemma {:induction false} WithdrawAllKeepsRoot(s: System, ps: seq<Property>, e: Effect)
    ensures WithdrawAll(s, ps, e).root == s.root
    decreases |ps|
  {
    if ps != [] {
      WithdrawAllKeepsRoot(Withdraw(s, ps[0], e), ps[1..], e);
    }
  }

  lemma {:induction false} DestroyAllKeepsRoot(s: System, ds: seq<Doomed>)
    ensures DestroyAll(s, ds).root == s.root
    decreases |ds|
  {
    if ds != [] {
      WithdrawAllKeepsRoot(s, ds[0].ps, ds[0].e);
      DestroyAllKeepsRoot(Destroy(s, ds[0].e, ds[0].ps), ds[1..]);
    }
  }

  /** The root window changes in two ways only: a first announcement that gets its atom adds
      it, and the timer, fired outside a restart, deletes what waits. */
  lemma RootChanges(s: System, op: Op, a: Atom)
    ensures a in Step(s, op).root <==>
      || (a in s.root && !(op.DoFire? && (s.state == On || s.state == Off) && a in s.unused))
      || (op.DoAnnounce? && op.ok && op.p !in s.holders && a == AtomOf(op.p))
  {
    match op
    case DoUnload(e, ps) => WithdrawAllKeepsRoot(s, ps, e);
    case DoFinishStop(ds) => DestroyAllKeepsRoot(s, ds);
    case DoFire => assert a in Contents(s.unused) <==> a in s.unused;
    case _ =>
  }

  /** Once the timer has fired on a running or stopped compositor, the root window carries
      exactly the properties that effects hold. */
  lemma FiringCleans(ops: seq<Op>)
    requires Legal(ops) && NoRefusal(ops) && Run(ops).timer
    requires Run(ops).state == On || Run(ops).state == Off
    ensures var t := Step(Run(ops), DoFire);
      forall a :: a in t.root <==> a.AtomOf? && a.p in t.holders
  {
    AgreesIffNoRefusal(ops);
    StepAgreesIff(Run(ops), DoFire);
  }
}
