/** The chain of effects (src/effects.cpp): the order in which effects are loaded and painted,
    and the re-entrant painting pass in which every effect calls the handler again and the
    shared iterators pick the next effect. */
module EffectChain {
  import opened Handles
  import opened Lists

  /** The entry points an effect may call on the handler. `Pre` and `Post` passes have no
      final code. */
  datatype Kind = Pre | Paint | Post
  datatype Call = ScreenPass(kind: Kind) | WindowPass(kind: Kind, w: Window) | DrawPass(w: Window)
  {
    /** Screen, window and draw passes use an iterator each. */
    function Stage(): (s: nat)
      ensures s <= 2
    {
      if ScreenPass? then 2 else if WindowPass? then 1 else 0
    }

    predicate HasFinal() { DrawPass? || kind == Paint }
  }

  datatype Event = Visited(effect: Effect, call: Call) | Final(call: Call)

  /** What effects and scene do when they are called: the calls they make in turn, which may
      depend on everything that has happened so far. */
  datatype Plans = Plans(effect: (Effect, Call, seq<Event>) -> seq<Call>, scene: (Call, seq<Event>) -> seq<Call>)

  /** The scene calls only later stages than the one it was called in; effects may call any. */
  ghost predicate Descending(p: Plans) {
    forall c, t, k :: 0 <= k < |p.scene(c, t)| ==> p.scene(c, t)[k].Stage() < c.Stage()
  }

  datatype Iterators = Iterators(screen: nat, window: nat, draw: nat)
  {
    function At(stage: nat): nat { if stage == 2 then screen else if stage == 1 then window else draw }

    function Advanced(stage: nat): Iterators {
      if stage == 2 then this.(screen := screen + 1)
      else if stage == 1 then this.(window := window + 1) else this.(draw := draw + 1)
    }
  }

  const BEGIN := Iterators(0, 0, 0)

  /** How many effects are still to come, over all stages. */
  function Ahead(its: Iterators, n: nat): nat {
    Rest(its.screen, n) + Rest(its.window, n) + Rest(its.draw, n)
  }

  function Rest(i: nat, n: nat): nat { if i < n then n - i else 0 }

  // ---------- painting ----------

  /** The events after a call: the effect at the stage's iterator is visited, and whatever it
      calls happens with the iterator one further; behind the last effect the scene paints. */
  ghost function Visit(p: Plans, active: seq<Effect>, its: Iterators, c: Call, t: seq<Event>): seq<Event>
    requires Descending(p)
    decreases Ahead(its, |active|), c.Stage(), 0, 0
  {
    var i := its.At(c.Stage());
    if i < |active| then
      VisitAll(p, active, its.Advanced(c.Stage()), 2, p.effect(active[i], c, t), t + [Visited(active[i], c)])
    else if c.HasFinal() then
      var calls := p.scene(c, t);
      assert calls != [] ==> calls[0].Stage() < c.Stage();
      if calls == [] then t + [Final(c)]
      else VisitAll(p, active, its, c.Stage() - 1, calls, t + [Final(c)])
    else t
  }

  /** One call after the other; none is of a higher stage than `stage`. */
  ghost function VisitAll(p: Plans, active: seq<Effect>, its: Iterators, stage: nat, calls: seq<Call>,
                          t: seq<Event>): seq<Event>
    requires Descending(p) && forall k :: 0 <= k < |calls| ==> calls[k].Stage() <= stage
    decreases Ahead(its, |active|), stage, 1, |calls|
  {
    if calls == [] then t
    else VisitAll(p, active, its, stage, calls[1..], Visit(p, active, its, calls[0], t))
  }

  // ---------- effects that call the next one exactly once ----------

  ghost predicate OnceEach(p: Plans) {
    forall e, c, t :: p.effect(e, c, t) == [c]
  }

  /** Every effect from position `i` on, in order. */
  function Pass(active: seq<Effect>, i: nat, c: Call): seq<Event>
    decreases |active| - i
  {
    if i >= |active| then [] else [Visited(active[i], c)] + Pass(active, i + 1, c)
  }

  lemma OneCall(p: Plans, active: seq<Effect>, its: Iterators, stage: nat, c: Call, t: seq<Event>)
    requires Descending(p) && c.Stage() <= stage
    ensures VisitAll(p, active, its, stage, [c], t) == Visit(p, active, its, c, t)
  {
    assert [c][1..] == [];
  }

  lemma PassSplit(active: seq<Effect>, i: nat, c: Call, t: seq<Event>)
    requires i < |active|
    ensures t + [Visited(active[i], c)] + Pass(active, i + 1, c) == t + Pass(active, i, c)
  {
  }

  /** If every effect calls the next one exactly once, a pass visits the remaining effects in
      order and then the scene once. */
  lemma {:induction false} OncePerEffect(p: Plans, active: seq<Effect>, its: Iterators, c: Call, t: seq<Event>)
    requires Descending(p) && OnceEach(p)
    ensures var passed := t + Pass(active, its.At(c.Stage()), c);
      Visit(p, active, its, c, t) ==
        if !c.HasFinal() then passed
        else if c.Stage() == 0 || p.scene(c, passed) == [] then passed + [Final(c)]
        else
          var ended := Ended(its, c.Stage(), |active|);
          VisitAll(p, active, ended, c.Stage() - 1, p.scene(c, passed), passed + [Final(c)])
    decreases |active| - its.At(c.Stage())
  {
    var i := its.At(c.Stage());
    if i < |active| {
      var next, u := its.Advanced(c.Stage()), t + [Visited(active[i], c)];
      assert p.effect(active[i], c, t) == [c];
      OneCall(p, active, next, 2, c, u);
      assert Ended(next, c.Stage(), |active|) == Ended(its, c.Stage(), |active|);
      OncePerEffect(p, active, next, c, u);
      PassSplit(active, i, c, t);
    } else {
      assert t + Pass(active, i, c) == t;
      assert p.scene(c, t) != [] ==> p.scene(c, t)[0].Stage() < c.Stage();
    }
  }

  /** The iterators when a pass has come to the end of its stage. */
  function Ended(its: Iterators, stage: nat, n: nat): Iterators {
    if its.At(stage) >= n then its
    else if stage == 2 then its.(screen := n) else if stage == 1 then its.(window := n) else its.(draw := n)
  }

  /** The events of one window: the window pass, then the draw pass. */
  function WindowEvents(active: seq<Effect>, w: Window): seq<Event> {
    Pass(active, 0, WindowPass(Paint, w)) + [Final(WindowPass(Paint, w))]
      + Pass(active, 0, DrawPass(w)) + [Final(DrawPass(w))]
  }

  function AllWindowEvents(active: seq<Effect>, ws: seq<Window>): seq<Event> {
    if ws == [] then [] else WindowEvents(active, ws[0]) + AllWindowEvents(active, ws[1..])
  }

  function WindowPasses(kind: Kind, ws: seq<Window>): seq<Call> {
    seq(|ws|, i requires 0 <= i < |ws| => WindowPass(kind, ws[i]))
  }

  /** What the scene calls in turn when it paints the windows `ws`: each of them in order,
      and the drawing of each window that is painted. */
  function SceneCalls(c: Call, ws: seq<Window>): seq<Call> {
    match c
    case ScreenPass(_) => WindowPasses(Paint, ws)
    case WindowPass(_, w) => [DrawPass(w)]
    case DrawPass(_) => []
  }

  /** The scene paints the windows `ws`, as far as stages up to `top` tell. */
  ghost predicate Paints(p: Plans, ws: seq<Window>, top: nat) {
    forall c: Call, t :: c.HasFinal() && c.Stage() <= top ==> p.scene(c, t) == SceneCalls(c, ws)
  }

  lemma WindowTrace(p: Plans, active: seq<Effect>, ws: seq<Window>, its: Iterators, w: Window, t: seq<Event>)
    requires Descending(p) && OnceEach(p) && Paints(p, ws, 2)
    requires its.window == 0 && its.draw == 0
    ensures Visit(p, active, its, WindowPass(Paint, w), t) == t + WindowEvents(active, w)
  {
    var c, d := WindowPass(Paint, w), DrawPass(w);
    OncePerEffect(p, active, its, c, t);
    var u := t + Pass(active, 0, c) + [Final(c)];
    var ended := Ended(its, 1, |active|);
    OneCall(p, active, ended, 0, d, u);
    OncePerEffect(p, active, ended, d, u);
    assert u + Pass(active, 0, d) + [Final(d)] == t + WindowEvents(active, w);
  }

  lemma {:induction false} WindowsTrace(p: Plans, active: seq<Effect>, all: seq<Window>, ws: seq<Window>,
                                        its: Iterators, t: seq<Event>)
    requires Descending(p) && OnceEach(p) && Paints(p, all, 2)
    requires its.window == 0 && its.draw == 0
    ensures VisitAll(p, active, its, 1, WindowPasses(Paint, ws), t) == t + AllWindowEvents(active, ws)
  {
    if ws == [] {
      assert t + AllWindowEvents(active, ws) == t;
    } else {
      var u := t + WindowEvents(active, ws[0]);
      WindowTrace(p, active, all, its, ws[0], t);
      WindowsTrace(p, active, all, ws[1..], its, u);
      assert WindowPasses(Paint, ws)[1..] == WindowPasses(Paint, ws[1..]);
      assert u + AllWindowEvents(active, ws[1..]) == t + AllWindowEvents(active, ws);
    }
  }

  /** The events of painting: all active effects in order and the scene once for the screen,
      then the same for each window and for its drawing. */
  function PaintEvents(active: seq<Effect>, ws: seq<Window>): seq<Event> {
    Pass(active, 0, ScreenPass(Paint)) + [Final(ScreenPass(Paint))] + AllWindowEvents(active, ws)
  }

  lemma PaintTrace(p: Plans, active: seq<Effect>, ws: seq<Window>, t: seq<Event>)
    requires Descending(p) && OnceEach(p) && Paints(p, ws, 2)
    ensures Visit(p, active, BEGIN, ScreenPass(Paint), t) == t + PaintEvents(active, ws)
  {
    var c := ScreenPass(Paint);
    OncePerEffect(p, active, BEGIN, c, t);
    var u := t + Pass(active, 0, c) + [Final(c)];
    assert u + AllWindowEvents(active, ws) == t + PaintEvents(active, ws);
    if ws == [] {
      assert WindowPasses(Paint, ws) == [] && u + AllWindowEvents(active, ws) == u;
    } else {
      assert WindowPasses(Paint, ws) != [];
      WindowsTrace(p, active, ws, ws, Ended(BEGIN, 2, |active|), u);
    }
  }

  /** The passes for calls without final code. */
  function Passes(active: seq<Effect>, calls: seq<Call>): seq<Event> {
    if calls == [] then [] else Pass(active, 0, calls[0]) + Passes(active, calls[1..])
  }

  lemma OnePass(p: Plans, active: seq<Effect>, c: Call, t: seq<Event>)
    requires Descending(p) && OnceEach(p) && !c.HasFinal()
    ensures Visit(p, active, BEGIN, c, t) == t + Pass(active, 0, c)
  {
    OncePerEffect(p, active, BEGIN, c, t);
    assert BEGIN.At(c.Stage()) == 0;
  }

  lemma PassesSplit(active: seq<Effect>, calls: seq<Call>, t: seq<Event>)
    requires calls != []
    ensures t + Passes(active, calls) == t + Pass(active, 0, calls[0]) + Passes(active, calls[1..])
  {
  }

  lemma {:induction false} PassesTrace(p: Plans, active: seq<Effect>, calls: seq<Call>, t: seq<Event>)
    requires Descending(p) && OnceEach(p)
    requires forall k :: 0 <= k < |calls| ==> !calls[k].HasFinal() && calls[k].Stage() <= 2
    ensures VisitAll(p, active, BEGIN, 2, calls, t) == t + Passes(active, calls)
    decreases |calls|
  {
    if calls == [] {
      assert t + Passes(active, calls) == t;
    } else {
      var u := t + Pass(active, 0, calls[0]);
      OnePass(p, active, calls[0], t);
      PassesTrace(p, active, calls[1..], u);
      PassesSplit(active, calls, t);
    }
  }

  lemma {:induction false} VisitAllAppend(p: Plans, active: seq<Effect>, its: Iterators, stage: nat, a: seq<Call>,
                                          b: seq<Call>, t: seq<Event>)
    requires Descending(p)
    requires forall k :: 0 <= k < |a| ==> a[k].Stage() <= stage
    requires forall k :: 0 <= k < |b| ==> b[k].Stage() <= stage
    ensures VisitAll(p, active, its, stage, a + b, t) ==
      VisitAll(p, active, its, stage, b, VisitAll(p, active, its, stage, a, t))
    decreases |a|
  {
    if a == [] {
      assert a + b == b;
    } else {
      assert (a + b)[1..] == a[1..] + b;
      VisitAllAppend(p, active, its, stage, a[1..], b, Visit(p, active, its, a[0], t));
    }
  }

  /** The calls the scene makes for a frame with the windows `ws`: preparation from the screen
      to the windows, painting, and the way back. */
  function Before(ws: seq<Window>): seq<Call> { [ScreenPass(Pre)] + WindowPasses(Pre, ws) }

  function After(ws: seq<Window>): seq<Call> { WindowPasses(Post, ws) + [ScreenPass(Post)] }

  /** A whole frame, when every effect hands on exactly once and the windows `painted` are not
      hidden: each of its passes visits all active effects in order, and where it has final
      code the scene once. */
  lemma FrameTrace(p: Plans, active: seq<Effect>, ws: seq<Window>, painted: seq<Window>, t: seq<Event>)
    requires Descending(p) && OnceEach(p) && Paints(p, painted, 2)
    ensures VisitAll(p, active, BEGIN, 2, Before(ws) + [ScreenPass(Paint)] + After(ws), t) ==
      t + Passes(active, Before(ws)) + PaintEvents(active, painted) + Passes(active, After(ws))
  {
    var c := ScreenPass(Paint);
    VisitAllAppend(p, active, BEGIN, 2, Before(ws) + [c], After(ws), t);
    VisitAllAppend(p, active, BEGIN, 2, Before(ws), [c], t);
    PassesTrace(p, active, Before(ws), t);
    var u := t + Passes(active, Before(ws));
    PaintTrace(p, active, painted, u);
    OneCall(p, active, BEGIN, 2, c, u);
    PassesTrace(p, active, After(ws), u + PaintEvents(active, painted));
  }

  // ---------- effects that call the next one any number of times ----------

  /** In stages up to `top`, effect `e` repeats call `c` that many times: it makes the call
      `times(e, c)` times itself. */
  ghost predicate Repeats(p: Plans, times: (Effect, Call) -> nat, top: nat) {
    forall e, c: Call, t :: c.Stage() <= top ==> p.effect(e, c, t) == seq(times(e, c), _ => c)
  }

  function Product(active: seq<Effect>, i: nat, c: Call, times: (Effect, Call) -> nat): nat
    decreases |active| - i
  {
    if i >= |active| then 1 else times(active[i], c) * Product(active, i + 1, c, times)
  }

  function Count(ws: seq<Window>, w: Window): nat {
    if ws == [] then 0 else (if ws[0] == w then 1 else 0) + Count(ws[1..], w)
  }

  function FinalDraws(t: seq<Event>, w: Window): nat {
    if t == [] then 0 else FinalDraws(t[..|t| - 1], w) + (if t[|t| - 1] == Final(DrawPass(w)) then 1 else 0)
  }

  lemma FinalDrawsAppend(t: seq<Event>, e: Event, w: Window)
    ensures FinalDraws(t + [e], w) == FinalDraws(t, w) + if e == Final(DrawPass(w)) then 1 else 0
  {
  }

  /** How often a painted window is drawn. */
  function DrawsOfWindow(active: seq<Effect>, its: Iterators, w: Window, times: (Effect, Call) -> nat): nat {
    Product(active, its.window, WindowPass(Paint, w), times) * Product(active, its.draw, DrawPass(w), times)
  }

  /** How often the scene draws `w` when call `c` has come to its end. */
  function Draws(active: seq<Effect>, its: Iterators, c: Call, ws: seq<Window>, w: Window,
                 times: (Effect, Call) -> nat): nat
  {
    match c
    case ScreenPass(Paint) => Count(ws, w) * DrawsOfWindow(active, its, w, times)
    case WindowPass(Paint, v) => if v == w then Product(active, its.draw, DrawPass(w), times) else 0
    case DrawPass(v) => if v == w then 1 else 0
    case _ => 0
  }

  /** A call makes the scene draw `w` as often as the repetitions of the effects in its stage,
      and then of those in the later stages, multiply to. */
  lemma {:induction false} CallDraws(p: Plans, active: seq<Effect>, its: Iterators, c: Call, t: seq<Event>,
                                     ws: seq<Window>, w: Window, times: (Effect, Call) -> nat, top: nat)
    requires Descending(p) && Repeats(p, times, top) && Paints(p, ws, top) && c.Stage() <= top
    ensures FinalDraws(Visit(p, active, its, c, t), w) ==
      FinalDraws(t, w) + Product(active, its.At(c.Stage()), c, times) * Draws(active, its, c, ws, w, times)
    decreases Ahead(its, |active|), c.Stage(), 0, 1
  {
    var i := its.At(c.Stage());
    if i < |active| {
      var n, next := times(active[i], c), its.Advanced(c.Stage());
      FinalDrawsAppend(t, Visited(active[i], c), w);
      RepeatedCalls(p, active, next, c, n, t + [Visited(active[i], c)], ws, w, times, top,
                    Product(active, i + 1, c, times) * Draws(active, next, c, ws, w, times));
      Associate(n, Product(active, i + 1, c, times), Draws(active, its, c, ws, w, times));
    } else if c.HasFinal() {
      FinalDrawsAppend(t, Final(c), w);
      SceneDraws(p, active, its, c, t, ws, w, times, top);
    }
  }

  lemma FirstOf(p: Plans, active: seq<Effect>, its: Iterators, c: Call, n: nat, t: seq<Event>)
    requires Descending(p) && n > 0
    ensures VisitAll(p, active, its, 2, seq(n, _ => c), t)
         == VisitAll(p, active, its, 2, seq(n - 1, _ => c), Visit(p, active, its, c, t))
  {
    assert seq(n, _ => c)[1..] == seq(n - 1, _ => c);
  }

  lemma {:induction false} RepeatedCalls(p: Plans, active: seq<Effect>, its: Iterators, c: Call, n: nat, t: seq<Event>,
                                         ws: seq<Window>, w: Window, times: (Effect, Call) -> nat, top: nat, k: nat)
    requires Descending(p) && Repeats(p, times, top) && Paints(p, ws, top) && c.Stage() <= top
    requires k == Product(active, its.At(c.Stage()), c, times) * Draws(active, its, c, ws, w, times)
    ensures FinalDraws(VisitAll(p, active, its, 2, seq(n, _ => c), t), w) == FinalDraws(t, w) + n * k
    decreases Ahead(its, |active|), 2, 1, n
  {
    if n > 0 {
      CallDraws(p, active, its, c, t, ws, w, times, top);
      RepeatedCalls(p, active, its, c, n - 1, Visit(p, active, its, c, t), ws, w, times, top, k);
      FirstOf(p, active, its, c, n, t);
      OneMore(n, k);
    }
  }

  /** What the scene draws at the end of a stage. */
  lemma {:induction false} SceneDraws(p: Plans, active: seq<Effect>, its: Iterators, c: Call, t: seq<Event>,
                                      ws: seq<Window>, w: Window, times: (Effect, Call) -> nat, top: nat)
    requires Descending(p) && Repeats(p, times, top) && Paints(p, ws, top) && c.Stage() <= top
    requires c.HasFinal() && its.At(c.Stage()) >= |active|
    ensures FinalDraws(Visit(p, active, its, c, t), w) == FinalDraws(t, w) + Draws(active, its, c, ws, w, times)
    decreases Ahead(its, |active|), c.Stage(), 0, 0
  {
    var u := t + [Final(c)];
    FinalDrawsAppend(t, Final(c), w);
    assert p.scene(c, t) == SceneCalls(c, ws);
    match c
    case ScreenPass(_) =>
      WindowsDraws(p, active, its, ws, u, ws, w, times, top);
      assert ws == [] ==> WindowPasses(Paint, ws) == [];
      assert ws != [] ==> WindowPasses(Paint, ws) != [];
    case WindowPass(_, v) =>
      CallDraws(p, active, its, DrawPass(v), u, ws, w, times, top);
      OneCall(p, active, its, 0, DrawPass(v), u);
    case DrawPass(_) =>
  }

  lemma {:induction false} WindowsDraws(p: Plans, active: seq<Effect>, its: Iterators, some: seq<Window>, t: seq<Event>,
                                        ws: seq<Window>, w: Window, times: (Effect, Call) -> nat, top: nat)
    requires Descending(p) && Repeats(p, times, top) && Paints(p, ws, top) && 1 <= top
    ensures FinalDraws(VisitAll(p, active, its, 1, WindowPasses(Paint, some), t), w) ==
      FinalDraws(t, w) + Count(some, w) * DrawsOfWindow(active, its, w, times)
    decreases Ahead(its, |active|), 1, 1, |some|
  {
    if some != [] {
      var c := WindowPass(Paint, some[0]);
      CallDraws(p, active, its, c, t, ws, w, times, top);
      assert WindowPasses(Paint, some)[1..] == WindowPasses(Paint, some[1..]);
      WindowsDraws(p, active, its, some[1..], Visit(p, active, its, c, t), ws, w, times, top);
      OneMore(Count(some[1..], w) + 1, DrawsOfWindow(active, its, w, times));
    }
  }

  lemma OneMore(n: nat, k: nat)
    requires n > 0
    ensures k + (n - 1) * k == n * k
  {
  }

  lemma Associate(n: nat, k: nat, l: nat)
    ensures n * (k * l) == (n * k) * l
  {
  }

  lemma {:induction false} NoDraws(p: Plans, active: seq<Effect>, calls: seq<Call>, t: seq<Event>,
                                   ws: seq<Window>, w: Window, times: (Effect, Call) -> nat)
    requires Descending(p) && Repeats(p, times, 2) && Paints(p, ws, 2)
    requires forall k :: 0 <= k < |calls| ==> !calls[k].HasFinal()
    ensures FinalDraws(VisitAll(p, active, BEGIN, 2, calls, t), w) == FinalDraws(t, w)
    decreases |calls|
  {
    if calls != [] {
      CallDraws(p, active, BEGIN, calls[0], t, ws, w, times, 2);
      NoDraws(p, active, calls[1..], Visit(p, active, BEGIN, calls[0], t), ws, w, times);
    }
  }

  /** In a whole frame a window is drawn as often as it is to be painted, times the product of
      all repetitions by all effects in the screen, the window and the draw pass. */
  lemma DrawsMultiply(p: Plans, active: seq<Effect>, ws: seq<Window>, painted: seq<Window>, t: seq<Event>,
                      w: Window, times: (Effect, Call) -> nat)
    requires Descending(p) && Repeats(p, times, 2) && Paints(p, painted, 2)
    ensures FinalDraws(VisitAll(p, active, BEGIN, 2, Before(ws) + [ScreenPass(Paint)] + After(ws), t), w) ==
      FinalDraws(t, w) + Product(active, 0, ScreenPass(Paint), times) * (Count(painted, w) *
        (Product(active, 0, WindowPass(Paint, w), times) * Product(active, 0, DrawPass(w), times)))
  {
    var c := ScreenPass(Paint);
    VisitAllAppend(p, active, BEGIN, 2, Before(ws) + [c], After(ws), t);
    VisitAllAppend(p, active, BEGIN, 2, Before(ws), [c], t);
    var u := VisitAll(p, active, BEGIN, 2, Before(ws), t);
    NoDraws(p, active, Before(ws), t, painted, w, times);
    CallDraws(p, active, BEGIN, c, u, painted, w, times, 2);
    OneCall(p, active, BEGIN, 2, c, u);
    NoDraws(p, active, After(ws), Visit(p, active, BEGIN, c, u), painted, w, times);
  }

  // ---------- the order of effects ----------

  /** A loaded effect. Effects are objects, numbered in the order of their creation. */
  datatype Loaded = Loaded(position: int, name: nat, effect: Effect)

  /** `QMultiMap::insert`: before the entries of the same position, after the lower ones. */
  function Insert(order: seq<Loaded>, e: Loaded): seq<Loaded> {
    if order == [] || order[0].position >= e.position then [e] + order
    else [order[0]] + Insert(order[1..], e)
  }

  /** The position of the first effect of that name, or the length. */
  function FindName(order: seq<Loaded>, name: nat): (i: nat)
    ensures i <= |order|
    ensures i < |order| ==> order[i].name == name
    ensures forall j :: 0 <= j < i ==> order[j].name != name
  {
    if order == [] || order[0].name == name then 0 else 1 + FindName(order[1..], name)
  }

  function Unload(order: seq<Loaded>, name: nat): seq<Loaded> {
    var i := FindName(order, name);
    if i < |order| then order[..i] + order[i + 1..] else order
  }

  /** A lower chain position, or the newer one of two at the same position. */
  predicate Precedes(a: Loaded, b: Loaded) {
    a.position < b.position || (a.position == b.position && a.effect > b.effect)
  }

  ghost predicate InOrder(order: seq<Loaded>) {
    forall i, j :: 0 <= i < j < |order| ==> Precedes(order[i], order[j])
  }

  lemma {:induction false} InsertMembers(order: seq<Loaded>, e: Loaded)
    ensures multiset(Insert(order, e)) == multiset(order) + multiset{e}
  {
    if order != [] && order[0].position < e.position {
      InsertMembers(order[1..], e);
      assert order == [order[0]] + order[1..];
    }
  }

  lemma {:induction false} InsertInOrder(order: seq<Loaded>, e: Loaded)
    requires InOrder(order) && forall i :: 0 <= i < |order| ==> order[i].effect < e.effect
    ensures InOrder(Insert(order, e))
  {
    if order != [] && order[0].position < e.position {
      var rest := order[1..];
      assert forall i :: 0 <= i < |rest| ==> rest[i] == order[i + 1];
      InsertInOrder(rest, e);
      InsertMembers(rest, e);
      var r := Insert(rest, e);
      forall j | 0 <= j < |r| ensures Precedes(order[0], r[j]) {
        assert r[j] in multiset(r);
        if r[j] != e {
          assert r[j] in rest;
        }
      }
    }
  }

  lemma InsertNewest(order: seq<Loaded>, e: Loaded)
    requires forall i :: 0 <= i < |order| ==> order[i].effect < e.effect
    ensures forall i :: 0 <= i < |Insert(order, e)| ==> Insert(order, e)[i].effect < e.effect + 1
  {
    var r := Insert(order, e);
    InsertMembers(order, e);
    forall i | 0 <= i < |r| ensures r[i].effect < e.effect + 1 {
      assert r[i] in multiset(r);
      if r[i] != e {
        assert r[i] in order;
      }
    }
  }

  datatype Request = Load(position: int, name: nat) | Remove(name: nat)

  /** Loading and unloading; `n` is the number of the next effect. */
  function OrderAfter(rs: seq<Request>): (seq<Loaded>, nat) {
    if rs == [] then ([], 0) else
      var (order, n) := OrderAfter(rs[..|rs| - 1]);
      match rs[|rs| - 1]
      case Load(position, name) => (Insert(order, Loaded(position, name, n)), n + 1)
      case Remove(name) => (Unload(order, name), n)
  }

  /** However effects are loaded and unloaded, they stay in the order of their positions. */
  lemma {:induction false} AlwaysInOrder(rs: seq<Request>)
    ensures InOrder(OrderAfter(rs).0)
    ensures forall i :: 0 <= i < |OrderAfter(rs).0| ==> OrderAfter(rs).0[i].effect < OrderAfter(rs).1
  {
    if rs != [] {
      AlwaysInOrder(rs[..|rs| - 1]);
      var (order, n) := OrderAfter(rs[..|rs| - 1]);
      match rs[|rs| - 1]
      case Load(position, name) =>
        InsertInOrder(order, Loaded(position, name, n));
        InsertNewest(order, Loaded(position, name, n));
      case Remove(name) =>
    }
  }

  lemma {:induction false} InsertKeepsOthers(order: seq<Loaded>, e: Loaded, x: Loaded)
    ensures x in Insert(order, e) <==> x in order || x == e
  {
    if order != [] && order[0].position < e.position {
      InsertKeepsOthers(order[1..], e, x);
      assert order == [order[0]] + order[1..];
    }
  }

  /** Unloading takes out exactly the first effect of the name, if there is one. */
  lemma UnloadTakesFirst(order: seq<Loaded>, name: nat)
    ensures (forall e :: e in order ==> e.name != name) ==> Unload(order, name) == order
    ensures (exists e :: e in order && e.name == name) ==>
      exists a: seq<Loaded>, e: Loaded, b: seq<Loaded> ::
        && order == a + [e] + b && e.name == name && (forall x :: x in a ==> x.name != name)
        && Unload(order, name) == a + b
  {
    var i := FindName(order, name);
    if i < |order| {
      var a, e, b := order[..i], order[i], order[i + 1..];
      assert order == a + [e] + b && e in order;
      forall x | x in a ensures x.name != name {
        var j :| 0 <= j < i && order[j] == x;
      }
    } else {
      forall e | e in order ensures e.name != name {
        var j :| 0 <= j < |order| && order[j] == e;
      }
    }
  }

  // ---------- which effects paint ----------

  function ActiveOf(loaded: seq<Loaded>, isActive: set<Effect>): seq<Effect> {
    if loaded == [] then [] else
      var e := loaded[|loaded| - 1].effect;
      var rest := ActiveOf(loaded[..|loaded| - 1], isActive);
      if e in isActive then rest + [e] else rest
  }

  lemma {:induction false} ActiveMembers(loaded: seq<Loaded>, isActive: set<Effect>, x: Effect)
    ensures x in ActiveOf(loaded, isActive) <==> x in isActive && exists e :: e in loaded && e.effect == x
  {
    if loaded != [] {
      var init, last := loaded[..|loaded| - 1], loaded[|loaded| - 1];
      ActiveMembers(init, isActive, x);
      assert loaded == init + [last];
      assert last in loaded && forall e :: e in init ==> e in loaded;
    }
  }

  /** Of two loaded effects the first precedes the second. */
  ghost predicate PaintsBefore(x: Effect, y: Effect, loaded: seq<Loaded>) {
    exists a, b :: a in loaded && b in loaded && a.effect == x && b.effect == y && Precedes(a, b)
  }

  /** Any two effects that paint do so in the order of the chain. */
  ghost predicate InChainOrder(active: seq<Effect>, loaded: seq<Loaded>) {
    forall i, j :: 0 <= i < j < |active| ==> PaintsBefore(active[i], active[j], loaded)
  }

  lemma EarlierPaintsBefore(loaded: seq<Loaded>, x: Effect)
    requires InOrder(loaded) && loaded != []
    requires exists e :: e in loaded[..|loaded| - 1] && e.effect == x
    ensures PaintsBefore(x, loaded[|loaded| - 1].effect, loaded)
  {
    var init, last := loaded[..|loaded| - 1], loaded[|loaded| - 1];
    var e :| e in init && e.effect == x;
    var k :| 0 <= k < |init| && init[k] == e;
    assert loaded[k] == e && Precedes(loaded[k], last);
    assert e in loaded && last in loaded;
  }

  lemma {:induction false} ActiveInOrder(loaded: seq<Loaded>, isActive: set<Effect>)
    requires InOrder(loaded)
    ensures InChainOrder(ActiveOf(loaded, isActive), loaded)
  {
    if loaded != [] {
      var n := |loaded| - 1;
      var init := loaded[..n];
      assert InOrder(init) by { assert forall i :: 0 <= i < n ==> init[i] == loaded[i]; }
      ActiveInOrder(init, isActive);
      var before, active := ActiveOf(init, isActive), ActiveOf(loaded, isActive);
      forall x, y | PaintsBefore(x, y, init) ensures PaintsBefore(x, y, loaded) {
        assert forall e :: e in init ==> e in loaded;
      }
      forall i, j | 0 <= i < j < |active| ensures PaintsBefore(active[i], active[j], loaded) {
        if j < |before| {
          assert active[i] == before[i] && active[j] == before[j];
        } else {
          assert active[i] == before[i] && before[i] in before;
          ActiveMembers(init, isActive, before[i]);
          EarlierPaintsBefore(loaded, before[i]);
        }
      }
    }
  }

  /** No two loaded effects are the same. */
  ghost predicate Distinct(loaded: seq<Loaded>) {
    forall i, j :: 0 <= i < j < |loaded| ==> loaded[i].effect != loaded[j].effect
  }

  lemma {:induction false} ActiveOnce(loaded: seq<Loaded>, isActive: set<Effect>)
    requires Distinct(loaded)
    ensures NoDup(ActiveOf(loaded, isActive))
  {
    if loaded != [] {
      var n := |loaded| - 1;
      var init := loaded[..n];
      assert Distinct(init) by { assert forall i :: 0 <= i < n ==> init[i] == loaded[i]; }
      ActiveOnce(init, isActive);
      var before := ActiveOf(init, isActive);
      forall i | 0 <= i < |before| ensures before[i] != loaded[n].effect {
        assert before[i] in before;
        ActiveMembers(init, isActive, before[i]);
        var a :| a in init && a.effect == before[i];
        var k :| 0 <= k < n && init[k] == a;
        assert loaded[k].effect != loaded[n].effect;
      }
    }
  }

  lemma {:induction false} PassAt(active: seq<Effect>, i: nat, c: Call)
    requires i <= |active|
    ensures |Pass(active, i, c)| == |active| - i
    ensures forall k :: 0 <= k < |active| - i ==> Pass(active, i, c)[k] == Visited(active[i + k], c)
    decreases |active| - i
  {
    if i < |active| {
      PassAt(active, i + 1, c);
      var rest := Pass(active, i + 1, c);
      forall k | 0 <= k < |active| - i ensures Pass(active, i, c)[k] == Visited(active[i + k], c) {
        if k > 0 {
          assert Pass(active, i, c)[k] == rest[k - 1];
        }
      }
    }
  }

  lemma ActiveIs(loaded: seq<Loaded>, isActive: set<Effect>)
    ensures forall x :: x in ActiveOf(loaded, isActive) <==> x in isActive && exists e :: e in loaded && e.effect == x
    ensures InOrder(loaded) ==> InChainOrder(ActiveOf(loaded, isActive), loaded)
  {
    forall x ensures x in ActiveOf(loaded, isActive) <==> x in isActive && exists e :: e in loaded && e.effect == x {
      ActiveMembers(loaded, isActive, x);
    }
    if InOrder(loaded) {
      ActiveInOrder(loaded, isActive);
    }
  }

  /** However effects were loaded and unloaded, a pass of the frame that starts with those that
      are active visits exactly the loaded active effects, each once, in the order of the
      chain. */
  lemma PassVisitsActive(rs: seq<Request>, isActive: set<Effect>, c: Call)
    ensures var order := OrderAfter(rs).0;
      var active, visits := ActiveOf(order, isActive), Pass(ActiveOf(order, isActive), 0, c);
      && |visits| == |active| && (forall k :: 0 <= k < |visits| ==> visits[k] == Visited(active[k], c))
      && NoDup(active) && InChainOrder(active, order)
      && forall x :: x in active <==> x in isActive && exists e :: e in order && e.effect == x
  {
    var order := OrderAfter(rs).0;
    AlwaysInOrder(rs);
    AlwaysDistinct(rs);
    PassAt(ActiveOf(order, isActive), 0, c);
    ActiveIs(order, isActive);
    ActiveOnce(order, isActive);
  }

  lemma {:induction false} InsertDistinct(order: seq<Loaded>, e: Loaded)
    requires Distinct(order) && forall x :: x in order ==> x.effect != e.effect
    ensures Distinct(Insert(order, e))
  {
    if order != [] && order[0].position < e.position {
      var rest := order[1..];
      assert order == [order[0]] + rest;
      assert forall i :: 0 <= i < |rest| ==> rest[i] == order[i + 1];
      InsertDistinct(rest, e);
      var r := Insert(rest, e);
      forall j | 0 <= j < |r| ensures r[j].effect != order[0].effect {
        InsertKeepsOthers(rest, e, r[j]);
        assert order[0] in order;
        if r[j] != e {
          var k :| 0 <= k < |rest| && rest[k] == r[j];
          assert order[0].effect != order[k + 1].effect;
        }
      }
    } else {
      assert forall i :: 0 <= i < |order| ==> order[i] in order;
    }
  }

  lemma {:induction false} AlwaysDistinct(rs: seq<Request>)
    ensures Distinct(OrderAfter(rs).0)
  {
    if rs != [] {
      var init := rs[..|rs| - 1];
      AlwaysDistinct(init);
      AlwaysInOrder(init);
      var (order, n) := OrderAfter(init);
      match rs[|rs| - 1]
      case Load(position, name) =>
        forall x | x in order ensures x.effect != n {
          var k :| 0 <= k < |order| && order[k] == x;
        }
        InsertDistinct(order, Loaded(position, name, n));
      case Remove(name) =>
    }
  }

  /** What is in the order after loading and unloading: the new effect and the old ones, or
      all but the first one of the name. */
  lemma OrderChanges(rs: seq<Request>, r: Request, x: Loaded)
    ensures var (order, n) := OrderAfter(rs);
      match r
      case Load(position, name) => x in OrderAfter(rs + [r]).0 <==> x in order || x == Loaded(position, name, n)
      case Remove(name) => OrderAfter(rs + [r]).0 == Unload(order, name)
  {
    assert (rs + [r])[..|rs|] == rs;
    if r.Load? {
      InsertKeepsOthers(OrderAfter(rs).0, Loaded(r.position, r.name, OrderAfter(rs).1), x);
    }
  }
}
