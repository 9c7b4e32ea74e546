/** The effect list and the painting passes of `EffectsHandlerImpl` (src/effects.cpp). Its
    tables of support properties are in an object of their own. */
module EffectsHandling {
  import opened Handles
  import opened EffectChain
  import EffectLoading
  import SupportProperties
  import SupportPropertyManagement

  class EffectsHandler {
    /** The multimap from chain positions to effects, as the sequence of its entries. */
    var effectOrder: seq<Loaded>
    var loadedEffects: seq<Loaded>
    var activeEffects: seq<Effect>
    /** The three shared iterators, as positions in `activeEffects`. */
    var current: Iterators
    /** The effects and scene entered so far while painting. */
    var trace: seq<Event>
    const properties: SupportPropertyManagement.PropertyHandler
    const loadQueue: EffectLoading.EffectLoadQueue

    constructor (properties: SupportPropertyManagement.PropertyHandler, loadQueue: EffectLoading.EffectLoadQueue)
      ensures this.properties == properties && this.loadQueue == loadQueue
      ensures effectOrder == loadedEffects == [] && activeEffects == [] && current == BEGIN && trace == []
    {
      this.properties, this.loadQueue := properties, loadQueue;
      effectOrder, loadedEffects, activeEffects, current, trace := [], [], [], BEGIN, [];
    }

    method EffectsChanged()
      modifies this
      ensures loadedEffects == effectOrder && activeEffects == [] && current == BEGIN
      ensures effectOrder == old(effectOrder) && trace == old(trace)
    {
      loadedEffects := [];
      activeEffects := [];
      for i := 0 to |effectOrder|
        modifies this`loadedEffects
        invariant loadedEffects == effectOrder[..i]
      {
        loadedEffects := loadedEffects + [effectOrder[i]];
      }
      current := BEGIN;
    }

    method EffectLoaded(position: int, name: nat, effect: Effect)
      modifies this
      ensures effectOrder == Insert(old(effectOrder), Loaded(position, name, effect))
      ensures loadedEffects == effectOrder && activeEffects == [] && current == BEGIN && trace == old(trace)
    {
      effectOrder := Insert(effectOrder, Loaded(position, name, effect));
      loadedEffects := loadedEffects + [Loaded(position, name, effect)];
      EffectsChanged();
    }

    /** `ps` is the order in which the effect is withdrawn from the properties there are. */
    method UnloadEffect(name: nat) returns (ghost ps: seq<SupportProperties.Property>)
      modifies this, properties, properties.compositor
      ensures effectOrder == Unload(old(effectOrder), name) && trace == old(trace)
      ensures var i := FindName(old(effectOrder), name);
        if i < |old(effectOrder)| then
          && loadedEffects == effectOrder && activeEffects == [] && current == BEGIN
          && SupportProperties.Allowed(old(properties.Snapshot()),
              SupportProperties.DoUnload(old(effectOrder)[i].effect, ps))
          && properties.Snapshot()
             == SupportProperties.Step(old(properties.Snapshot()),
                 SupportProperties.DoUnload(old(effectOrder)[i].effect, ps))
        else
          && loadedEffects == old(loadedEffects) && activeEffects == old(activeEffects) && current == old(current)
          && properties.Snapshot() == old(properties.Snapshot())
    {
      var i := 0;
      while i < |effectOrder| && effectOrder[i].name != name
        invariant i <= |effectOrder|
        invariant forall j :: 0 <= j < i ==> effectOrder[j].name != name
      {
        i := i + 1;
      }
      FoundName(effectOrder, name, i);
      ps := [];
      if i == |effectOrder| {
        return;
      }
      ps := properties.DestroyEffect(effectOrder[i].effect);
      effectOrder := effectOrder[..i] + effectOrder[i + 1..];
      EffectsChanged();
    }

    /** `ds` are the loaded effects, each with the order in which it is withdrawn. */
    method UnloadAllEffects() returns (ghost ds: seq<SupportProperties.Doomed>)
      modifies this, properties, properties.compositor, loadQueue
      ensures effectOrder == loadedEffects == [] && activeEffects == [] && current == BEGIN && trace == old(trace)
      ensures |ds| == |old(loadedEffects)| && forall i :: 0 <= i < |ds| ==> ds[i].e == old(loadedEffects)[i].effect
      ensures SupportProperties.Listed(old(properties.Snapshot()), ds)
      ensures properties.Snapshot() == SupportProperties.DestroyAll(old(properties.Snapshot()), ds)
      ensures loadQueue.Snapshot() == EffectLoading.Clear(old(loadQueue.Snapshot()))
    {
      ds := [];
      for i := 0 to |loadedEffects|
        modifies properties, properties.compositor
        invariant |ds| == i && forall k :: 0 <= k < i ==> ds[k].e == loadedEffects[k].effect
        invariant SupportProperties.Listed(old(properties.Snapshot()), ds)
        invariant properties.Snapshot() == SupportProperties.DestroyAll(old(properties.Snapshot()), ds)
      {
        ghost var ps := properties.DestroyEffect(loadedEffects[i].effect);
        ghost var d := SupportProperties.Doomed(loadedEffects[i].effect, ps);
        SupportPropertyManagement.DestroySnoc(old(properties.Snapshot()), ds, d);
        ds := ds + [d];
      }
      effectOrder := [];
      loadQueue.ClearQueue();
      EffectsChanged();
    }

    /** The effects that say they are active, in their order. */
    method StartPaint(isActive: set<Effect>)
      modifies this
      ensures activeEffects == ActiveOf(loadedEffects, isActive) && current == BEGIN
      ensures forall x :: x in activeEffects <==> x in isActive && exists e :: e in loadedEffects && e.effect == x
      ensures InOrder(loadedEffects) ==> InChainOrder(activeEffects, loadedEffects)
      ensures effectOrder == old(effectOrder) && loadedEffects == old(loadedEffects) && trace == old(trace)
    {
      activeEffects := [];
      for i := 0 to |loadedEffects|
        modifies this`activeEffects
        invariant activeEffects == ActiveOf(loadedEffects[..i], isActive)
      {
        assert loadedEffects[..i + 1][..i] == loadedEffects[..i];
        if loadedEffects[i].effect in isActive {
          activeEffects := activeEffects + [loadedEffects[i].effect];
        }
      }
      assert loadedEffects[..|loadedEffects|] == loadedEffects;
      ActiveIs(loadedEffects, isActive);
      current := BEGIN;
    }

    /** `paintScreen`, `paintWindow`, `drawWindow` and their relatives: enter the effect at the
        stage's iterator, which is one further while the effect runs, or else the scene. For
        all effects that make finitely many calls, of whatever stage, and all scenes whose
        calls go to later stages, the recursion ends and the iterators are as they were. */
    method Enter(p: Plans, c: Call)
      requires Descending(p)
      modifies this`current, this`trace
      ensures current == old(current)
      ensures trace == Visit(p, activeEffects, current, c, old(trace))
      decreases Ahead(current, |activeEffects|), c.Stage(), 0, 0
    {
      var stage := c.Stage();
      ghost var before := current;
      if current.At(stage) < |activeEffects| {
        var effect := activeEffects[current.At(stage)];
        var calls := p.effect(effect, c, trace);
        current := current.Advanced(stage);
        trace := trace + [Visited(effect, c)];
        EnterAll(p, 2, calls);
        current := match stage
          case 2 => current.(screen := current.screen - 1)
          case 1 => current.(window := current.window - 1)
          case _ => current.(draw := current.draw - 1);
        assert current == before;
      } else if c.HasFinal() {
        var calls := p.scene(c, trace);
        assert calls != [] ==> calls[0].Stage() < c.Stage();
        trace := trace + [Final(c)];
        if calls != [] {
          EnterAll(p, stage - 1, calls);
        }
      }
    }

    method EnterAll(p: Plans, stage: nat, calls: seq<Call>)
      requires Descending(p) && forall k :: 0 <= k < |calls| ==> calls[k].Stage() <= stage
      modifies this`current, this`trace
      ensures current == old(current)
      ensures trace == VisitAll(p, activeEffects, current, stage, calls, old(trace))
      decreases Ahead(current, |activeEffects|), stage, 1, |calls|
    {
      for i := 0 to |calls|
        invariant current == old(current)
        invariant VisitAll(p, activeEffects, current, stage, calls[i..], trace)
               == VisitAll(p, activeEffects, current, stage, calls, old(trace))
      {
        assert calls[i..][1..] == calls[i + 1..];
        Enter(p, calls[i]);
      }
    }
  }

  lemma {:induction false} FoundName(order: seq<Loaded>, name: nat, i: nat)
    requires i <= |order| && (i < |order| ==> order[i].name == name)
    requires forall j :: 0 <= j < i ==> order[j].name != name
    ensures FindName(order, name) == i
  {
    if i > 0 {
      assert order[0].name != name;
      FoundName(order[1..], name, i - 1);
    }
  }
}
