/** The two objects that keep support properties: the compositor with its delayed deletion
    (src/composite.cpp) and the tables of the effects handler (src/effects.cpp). */
module SupportPropertyManagement {
  import opened Handles
  import opened Lists
  import opened SupportProperties

  class Compositor {
    var state: State
    var unusedSupportProperties: seq<Atom>
    var unusedSupportPropertyTimer: bool
    /** The properties on the root window, as the X server keeps them. */
    var rootProperties: set<Atom>

    constructor ()
      ensures state == Off && unusedSupportProperties == [] && !unusedSupportPropertyTimer && rootProperties == {}
    {
      state, unusedSupportProperties, unusedSupportPropertyTimer, rootProperties := Off, [], false, {};
    }

    method KeepSupportProperty(a: Atom)
      modifies this`unusedSupportProperties
      ensures unusedSupportProperties == Without(old(unusedSupportProperties), a)
    {
      unusedSupportProperties := Without(unusedSupportProperties, a);
    }

    method RemoveSupportProperty(a: Atom)
      modifies this`unusedSupportProperties, this`unusedSupportPropertyTimer
      ensures unusedSupportProperties == old(unusedSupportProperties) + [a] && unusedSupportPropertyTimer
    {
      unusedSupportProperties := unusedSupportProperties + [a];
      unusedSupportPropertyTimer := true;
    }

    /** The single-shot timer has fired. */
    method DeleteUnusedSupportProperties()
      modifies this
      ensures state == old(state)
      ensures var busy := old(state) == Starting || old(state) == Stopping;
        && unusedSupportPropertyTimer == busy
        && unusedSupportProperties == (if busy then old(unusedSupportProperties) else [])
        && rootProperties == (if busy then old(rootProperties)
            else old(rootProperties) - Contents(old(unusedSupportProperties)))
    {
      unusedSupportPropertyTimer := false;
      if state == Starting || state == Stopping {
        unusedSupportPropertyTimer := true;
        return;
      }
      for i := 0 to |unusedSupportProperties|
        modifies this`rootProperties
        invariant rootProperties == old(rootProperties) - Contents(unusedSupportProperties[..i])
      {
        assert unusedSupportProperties[..i + 1] == unusedSupportProperties[..i] + [unusedSupportProperties[i]];
        assert Contents(unusedSupportProperties[..i + 1]) ==
            Contents(unusedSupportProperties[..i]) + {unusedSupportProperties[i]};
        rootProperties := rootProperties - {unusedSupportProperties[i]};
      }
      assert unusedSupportProperties[..|unusedSupportProperties|] == unusedSupportProperties;
      unusedSupportProperties := [];
    }
  }

  /** The handler's tables; `alive` are the effects constructed and not yet destroyed. */
  class PropertyHandler {
    const compositor: Compositor
    var propertiesForEffects: map<Property, seq<Effect>>
    var managedProperties: map<Property, Atom>
    var registeredAtoms: map<Atom, int>
    var alive: set<Effect>

    function Snapshot(): System
      reads this, compositor
    {
      System(propertiesForEffects, managedProperties, registeredAtoms, alive,
             compositor.unusedSupportProperties, compositor.unusedSupportPropertyTimer, compositor.state,
             compositor.rootProperties)
    }

    constructor (c: Compositor)
      ensures compositor == c
      ensures propertiesForEffects == map[] && managedProperties == map[] && registeredAtoms == map[] && alive == {}
    {
      compositor := c;
      propertiesForEffects, managedProperties, registeredAtoms, alive := map[], map[], map[], {};
    }

    /** An effect is constructed; from then on it may announce properties, also before the
        handler is told that it is loaded. */
    method CreateEffect(e: Effect)
      modifies this`alive
      ensures Snapshot() == Step(old(Snapshot()), DoCreate(e))
    {
      alive := alive + {e};
    }

    method RegisterPropertyType(a: Atom, reg: bool)
      modifies this`registeredAtoms
      ensures registeredAtoms == RegisterType(old(registeredAtoms), a, reg)
    {
      var count := if a in registeredAtoms then registeredAtoms[a] else 0;
      if reg {
        registeredAtoms := registeredAtoms[a := count + 1];
      } else {
        registeredAtoms := registeredAtoms[a := count - 1];
        if count - 1 == 0 {
          registeredAtoms := registeredAtoms - {a};
        }
      }
    }

    /** `ok`: the X server answers the request for the atom. */
    method AnnounceSupportProperty(p: Property, e: Effect, ok: bool) returns (a: Atom)
      modifies this, compositor
      ensures Snapshot() == Announce(old(Snapshot()), p, e, ok)
      ensures a == if p in old(propertiesForEffects)
                   then (if p in managedProperties then managedProperties[p] else NoAtom)
                   else (if ok then AtomOf(p) else NoAtom)
    {
      if p in propertiesForEffects {
        if e !in propertiesForEffects[p] {
          propertiesForEffects := propertiesForEffects[p := propertiesForEffects[p] + [e]];
        }
        return if p in managedProperties then managedProperties[p] else NoAtom;
      }
      propertiesForEffects := propertiesForEffects[p := [e]];
      if !ok {
        return NoAtom;
      }
      a := AtomOf(p);
      compositor.rootProperties := compositor.rootProperties + {a};
      compositor.KeepSupportProperty(a);
      managedProperties := managedProperties[p := a];
      RegisterPropertyType(a, true);
    }

    method RemoveSupportProperty(p: Property, e: Effect)
      modifies this, compositor
      ensures Snapshot() == Withdraw(old(Snapshot()), p, e)
    {
      if p !in propertiesForEffects {
        return;
      }
      if e !in propertiesForEffects[p] {
        return;
      }
      var rest := Without(propertiesForEffects[p], e);
      if rest != [] {
        propertiesForEffects := propertiesForEffects[p := rest];
        return;
      }
      var a := if p in managedProperties then managedProperties[p] else NoAtom;
      managedProperties := managedProperties - {p};
      RegisterPropertyType(a, false);
      propertiesForEffects := propertiesForEffects - {p};
      compositor.RemoveSupportProperty(a);
    }

    /** Withdraws the effect from all properties, listed in whatever order `ps` turns out. */
    method DestroyEffect(e: Effect) returns (ghost ps: seq<Property>)
      modifies this, compositor
      ensures old(propertiesForEffects).Keys <= Contents(ps)
      ensures Snapshot() == Destroy(old(Snapshot()), e, ps)
    {
      var todo := propertiesForEffects.Keys;
      ps := [];
      while todo != {}
        invariant old(propertiesForEffects).Keys <= todo + Contents(ps)
        invariant Snapshot() == WithdrawAll(old(Snapshot()), ps, e)
      {
        var p :| p in todo;
        WithdrawSnoc(old(Snapshot()), ps, p, e);
        assert Contents(ps + [p]) == Contents(ps) + {p};
        RemoveSupportProperty(p, e);
        ps := ps + [p];
        todo := todo - {p};
      }
      alive := alive - {e};
    }
  }

  lemma {:induction false} WithdrawSnoc(s: System, ps: seq<Property>, p: Property, e: Effect)
    ensures WithdrawAll(s, ps + [p], e) == Withdraw(WithdrawAll(s, ps, e), p, e)
    decreases |ps|
  {
    if ps == [] {
      assert [] + [p] == [p];
    } else {
      assert (ps + [p])[1..] == ps[1..] + [p];
      WithdrawSnoc(Withdraw(s, ps[0], e), ps[1..], p, e);
    }
  }

  lemma {:induction false} DestroySnoc(s: System, ds: seq<Doomed>, d: Doomed)
    ensures DestroyAll(s, ds + [d]) == Destroy(DestroyAll(s, ds), d.e, d.ps)
    ensures Listed(s, ds + [d]) <==> Listed(s, ds) && DestroyAll(s, ds).holders.Keys <= Contents(d.ps)
    decreases |ds|
  {
    if ds == [] {
      assert [] + [d] == [d];
    } else {
      assert (ds + [d])[1..] == ds[1..] + [d];
      DestroySnoc(Destroy(s, ds[0].e, ds[0].ps), ds[1..], d);
    }
  }
}
