/** `FocusChain` (src/focuschain.cpp): the class with its lists, edited in place, and the
    loops over desktops and windows. */
module FocusChainManagement {
  import opened Handles
  import opened Lists
  import opened FocusChains

  class FocusChain {
    var mostRecentlyUsed: Chain
    var desktopFocusChains: map<Desktop, Chain>
    var activeWindow: Option<Window>
    var currentDesktop: Option<Desktop>

    function Snapshot(): Focus
      reads this
    {
      Focus(mostRecentlyUsed, desktopFocusChains, activeWindow, currentDesktop)
    }

    constructor ()
      ensures Snapshot() == NO_FOCUS
    {
      mostRecentlyUsed, desktopFocusChains, activeWindow, currentDesktop := [], map[], None, None;
    }

    method RemoveWindow(w: Window)
      modifies this
      ensures Snapshot() == Remove(old(Snapshot()), w)
    {
      var todo := desktopFocusChains.Keys;
      while todo != {}
        modifies this`desktopFocusChains
        invariant desktopFocusChains.Keys == old(desktopFocusChains).Keys && todo <= desktopFocusChains.Keys
        invariant forall d :: d in desktopFocusChains ==>
          desktopFocusChains[d] == if d in todo then old(desktopFocusChains)[d]
              else Without(old(desktopFocusChains)[d], w)
      {
        var d :| d in todo;
        desktopFocusChains := desktopFocusChains[d := Without(desktopFocusChains[d], w)];
        todo := todo - {d};
      }
      mostRecentlyUsed := Without(mostRecentlyUsed, w);
    }

    method AddVirtualDesktop(d: Desktop)
      modifies this
      ensures Snapshot() == AddDesktop(old(Snapshot()), d)
    {
      desktopFocusChains := desktopFocusChains[d := []];
    }

    method RemoveVirtualDesktop(d: Desktop)
      modifies this
      ensures Snapshot() == RemoveDesktop(old(Snapshot()), d)
    {
      if currentDesktop == Some(d) {
        currentDesktop := None;
      }
      desktopFocusChains := desktopFocusChains - {d};
    }

    method SetActiveWindow(active: Option<Window>)
      modifies this
      ensures Snapshot() == Step(old(Snapshot()), DoActivate(active))
    {
      activeWindow := active;
    }

    method SetCurrentDesktop(current: Option<Desktop>)
      modifies this
      ensures Snapshot() == Step(old(Snapshot()), DoSwitch(current))
    {
      currentDesktop := current;
    }

    method InsertWindowIntoChain(w: Window, chain: Chain) returns (r: Chain)
      ensures r == InsertWindow(chain, w, activeWindow)
    {
      if w in chain {
        return chain;
      }
      if activeWindow.Some? && activeWindow.value != w && |chain| > 0 && chain[|chain| - 1] == activeWindow.value {
        r := chain[..|chain| - 1] + [w] + chain[|chain| - 1..];
      } else {
        r := chain + [w];
      }
    }

    /** Inserts a minimized window before the first minimized one, or at the end. */
    method MakeFirstInChain(w: Window, chain: Chain, world: World) returns (r: Chain)
      ensures r == MakeFirstIn(chain, w, world)
    {
      r := Without(chain, w);
      if world.minimizedToEnd {
        if w in world.minimized {
          var i := |r| - 1;
          while i >= 0
            invariant -1 <= i < |r|
            invariant forall j :: i < j < |r| ==> r[j] !in world.minimized
          {
            if r[i] in world.minimized {
              LastInIs(r, world.minimized, i);
              return r[..i + 1] + [w] + r[i + 1..];
            }
            i := i - 1;
          }
          assert InsertAt(r, 0, w) == [w] + r;
          r := [w] + r;
        } else {
          r := r + [w];
        }
      } else {
        r := r + [w];
      }
    }

    method MakeLastInChain(w: Window, chain: Chain) returns (r: Chain)
      ensures r == MakeLastIn(chain, w)
    {
      r := [w] + Without(chain, w);
    }

    method UpdateWindowInChain(w: Window, change: Change, chain: Chain, world: World) returns (r: Chain)
      ensures r == UpdateIn(chain, w, change, activeWindow, world)
    {
      if change == MakeFirst {
        r := MakeFirstInChain(w, chain, world);
      } else if change == MakeLast {
        r := MakeLastInChain(w, chain);
      } else {
        r := InsertWindowIntoChain(w, chain);
      }
    }

    /** One desktop's share of an update. */
    method UpdateDesktopChain(d: Desktop, w: Window, change: Change, world: World) returns (r: Chain)
      requires d in desktopFocusChains
      ensures r == UpdateOn(Snapshot(), d, w, change, world)
    {
      var chain := desktopFocusChains[d];
      if w in world.sticky {
        // making first or last works only on the current desktop
        if currentDesktop == Some(d) && (change == MakeFirst || change == MakeLast) {
          if change == MakeFirst {
            r := MakeFirstInChain(w, chain, world);
          } else {
            r := MakeLastInChain(w, chain);
          }
        } else {
          r := InsertWindowIntoChain(w, chain);
        }
      } else if world.OnDesktop(w, d) {
        r := UpdateWindowInChain(w, change, chain, world);
      } else {
        r := Without(chain, w);
      }
    }

    method UpdateChains(w: Window, change: Change, world: World)
      modifies this
      ensures Snapshot() == UpdateWindow(old(Snapshot()), w, change, world)
    {
      if w !in world.wantsTabFocus {
        RemoveWindow(w);
        return;
      }
      UpdateDesktopChains(w, change, world);
      mostRecentlyUsed := UpdateWindowInChain(w, change, mostRecentlyUsed, world);
    }

    method UpdateDesktopChains(w: Window, change: Change, world: World)
      modifies this`desktopFocusChains
      ensures desktopFocusChains ==
        map d | d in old(desktopFocusChains) :: UpdateOn(old(Snapshot()), d, w, change, world)
    {
      ghost var f := Snapshot();
      var todo := desktopFocusChains.Keys;
      while todo != {}
        invariant desktopFocusChains.Keys == f.chains.Keys && todo <= f.chains.Keys
        invariant forall d :: d in f.chains ==>
          desktopFocusChains[d] == if d in todo then f.chains[d] else UpdateOn(f, d, w, change, world)
      {
        var d :| d in todo;
        var chain := UpdateDesktopChain(d, w, change, world);
        assert chain == UpdateOn(f, d, w, change, world);
        desktopFocusChains := desktopFocusChains[d := chain];
        todo := todo - {d};
      }
    }

    method MoveAfterWindowInChain(w: Window, reference: Window, chain: Chain, world: World) returns (r: Chain)
      requires w != reference
      ensures r == MoveAfterIn(chain, w, reference, world)
    {
      if reference !in chain {
        return chain;
      }
      r := Without(chain, w);
      assert reference in r;
      if (reference, w) in world.sameApp {
        var i := IndexOf(r, reference);
        r := r[..i] + [w] + r[i..];
      } else {
        var i := |r| - 1;
        while i >= 0
          invariant -1 <= i < |r|
          invariant forall j :: i < j < |r| ==> r[j] !in AppOf(reference, world)
        {
          if (reference, r[i]) in world.sameApp {
            LastInIs(r, AppOf(reference, world), i);
            return r[..i] + [w] + r[i..];
          }
          i := i - 1;
        }
      }
    }

    method MoveAfterWindow(w: Window, reference: Window, world: World)
      requires w != reference
      modifies this
      ensures Snapshot() == MoveAfter(old(Snapshot()), w, reference, world)
    {
      if w !in world.wantsTabFocus {
        return;
      }
      ghost var f := Snapshot();
      var todo := desktopFocusChains.Keys;
      while todo != {}
        modifies this`desktopFocusChains
        invariant desktopFocusChains.Keys == f.chains.Keys && todo <= f.chains.Keys
        invariant forall d :: d in f.chains ==>
          desktopFocusChains[d] == if d in todo then f.chains[d] else MoveOn(f, d, w, reference, world)
      {
        var d :| d in todo;
        if world.OnDesktop(w, d) {
          var chain := MoveAfterWindowInChain(w, reference, desktopFocusChains[d], world);
          desktopFocusChains := desktopFocusChains[d := chain];
        }
        todo := todo - {d};
      }
      mostRecentlyUsed := MoveAfterWindowInChain(w, reference, mostRecentlyUsed, world);
    }

    method NextMostRecentlyUsed(reference: Window) returns (r: Option<Window>)
      ensures r == if mostRecentlyUsed == [] then None else Some(Next(mostRecentlyUsed, reference))
    {
      if mostRecentlyUsed == [] {
        return None;
      }
      var index := IndexOf(mostRecentlyUsed, reference);
      if index == -1 {
        return Some(mostRecentlyUsed[0]);
      }
      if index == 0 {
        return Some(mostRecentlyUsed[|mostRecentlyUsed| - 1]);
      }
      return Some(mostRecentlyUsed[index - 1]);
    }

    /** The most recent window of the desktop's chain that is usable and not the reference. */
    method NextForDesktop(reference: Option<Window>, d: Desktop, usable: set<Window>) returns (r: Option<Window>)
      ensures r.None? <==> (d !in desktopFocusChains ||
                            forall w :: w in desktopFocusChains[d] ==> w !in usable || Some(w) == reference)
      ensures r.Some? ==> (r != reference &&
                           MostRecentOf(desktopFocusChains[d], r.value,
                                        if reference.Some? then usable - {reference.value} else usable))
    {
      if d !in desktopFocusChains {
        return None;
      }
      var chain := desktopFocusChains[d];
      var i := |chain| - 1;
      while i >= 0
        invariant -1 <= i < |chain|
        invariant forall j :: i < j < |chain| ==> chain[j] !in usable || Some(chain[j]) == reference
      {
        if Some(chain[i]) != reference && chain[i] in usable {
          assert chain[i] in chain;
          return Some(chain[i]);
        }
        i := i - 1;
      }
      return None;
    }
  }

  lemma LastInIs(c: Chain, s: set<Window>, i: nat)
    requires i < |c| && c[i] in s && forall j :: i < j < |c| ==> c[j] !in s
    ensures LastIn(c, s) == i
  {
  }
}
