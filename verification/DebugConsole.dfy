/** The item models of the debug console (src/debug_console.cpp): a tree of categories,
    windows and properties whose nodes are told apart by packed 32-bit ids alone. */
module DebugConsole {
  import opened Lists

  /** A window with the number of its properties. */
  datatype Win = Win(id: nat, properties: nat)

  /** The four lists of windows; `wayland` tells whether all four categories are shown. */
  datatype Model = Model(x11: seq<Win>, unmanaged: seq<Win>, waylandWindows: seq<Win>, internal: seq<Win>,
                         wayland: bool)
  {
    function Windows(k: nat): seq<Win> {
      if k == 1 then x11 else if k == 2 then unmanaged else if k == 3 then waylandWindows else internal
    }

    function TopLevelRowCount(): nat { if wayland then 4 else 2 }
  }

  /** A `QModelIndex` of the one model. */
  datatype Index = Invalid | At(row: int, column: nat, id: nat)

  const ID_DISTANCE := 10000
  const PAGE := 0x1_0000
  const WORD := 0x1_0000_0000

  /** `id & s_propertyBitMask`, as a truth value. */
  predicate HasPropertyBits(id: nat) { id / PAGE % PAGE != 0 }

  /** `id & s_windowBitMask`. */
  function WindowBits(id: nat): nat { id % PAGE }

  /** `quint32(row + 1) << 16 | id`, for an id without bits above the lowest 16. */
  function PropertyId(row: nat, id: nat): nat
    requires id < PAGE
  {
    (row + 1) * PAGE % WORD + id
  }

  /** `windowForIndex`. */
  function Lookup(m: Model, id: nat, k: nat): Option<Win> {
    var row := WindowBits(id) - ID_DISTANCE * k;
    if row < 0 || row >= |m.Windows(k)| then None else Some(m.Windows(k)[row])
  }

  function IndexForWindow(m: Model, row: nat, column: nat, k: nat): Index {
    if column != 0 || row >= |m.Windows(k)| then Invalid
    else At(row, column, (ID_DISTANCE * k + row) % WORD)
  }

  function IndexForProperty(m: Model, row: nat, column: nat, id: nat, k: nat): Index
    requires id < PAGE
  {
    var w := Lookup(m, id, k);
    if w.None? || row >= w.value.properties then Invalid else At(row, column, PropertyId(row, id))
  }

  function IndexAt(m: Model, row: nat, column: nat, parent: Index): Index {
    if parent.Invalid? then
      if column != 0 || row >= m.TopLevelRowCount() then Invalid else At(row, column, row + 1)
    else if column >= 2 then Invalid
    else if 1 <= parent.id <= 4 then IndexForWindow(m, row, column, parent.id)
    else if parent.id < ID_DISTANCE * 2 then IndexForProperty(m, row, column, parent.id, 1)
    else if parent.id < ID_DISTANCE * 3 then IndexForProperty(m, row, column, parent.id, 2)
    else if parent.id < ID_DISTANCE * 4 then IndexForProperty(m, row, column, parent.id, 3)
    else if parent.id < ID_DISTANCE * 5 then IndexForProperty(m, row, column, parent.id, 4)
    else Invalid
  }

  function Parent(child: Index): Index {
    if child.Invalid? || child.id <= 4 then Invalid
    else if HasPropertyBits(child.id) then
      var id := WindowBits(child.id);
      if id < ID_DISTANCE * 2 then At(id - ID_DISTANCE * 1, 0, id)
      else if id < ID_DISTANCE * 3 then At(id - ID_DISTANCE * 2, 0, id)
      else if id < ID_DISTANCE * 4 then At(id - ID_DISTANCE * 3, 0, id)
      else if id < ID_DISTANCE * 5 then At(id - ID_DISTANCE * 4, 0, id)
      else Invalid
    else if child.id < ID_DISTANCE * 2 then At(0, 0, 1)
    else if child.id < ID_DISTANCE * 3 then At(1, 0, 2)
    else if child.id < ID_DISTANCE * 4 then At(2, 0, 3)
    else if child.id < ID_DISTANCE * 5 then At(3, 0, 4)
    else Invalid
  }

  // ---------- the nodes a view can reach ----------

  /** The index reached from the root by going down to a row and column at a time. */
  function Reach(m: Model, path: seq<(nat, nat)>): Index {
    if path == [] then Invalid
    else IndexAt(m, path[|path| - 1].0, path[|path| - 1].1, Reach(m, path[..|path| - 1]))
  }

  function CategoryIndex(k: nat): Index
    requires k >= 1
  {
    At(k - 1, 0, k)
  }

  function WindowIndex(k: nat, r: nat): Index { At(r, 0, ID_DISTANCE * k + r) }

  predicate IsWindow(m: Model, k: nat, r: nat) { 1 <= k <= 4 && r < |m.Windows(k)| }

  /** No category has more than 10000 windows, no window more than 65535 properties. */
  ghost predicate Bounded(m: Model) {
    && (forall k: nat :: 1 <= k <= 4 ==> |m.Windows(k)| <= ID_DISTANCE)
    && (forall k: nat, r: nat :: IsWindow(m, k, r) ==> m.Windows(k)[r].properties < PAGE)
  }

  /** A property's id keeps row and window apart as long as the row fits. */
  lemma PropertyIdParts(row: nat, id: nat)
    requires id < PAGE
    ensures WindowBits(PropertyId(row, id)) == id
    ensures PropertyId(row, id) / PAGE % PAGE == (row + 1) % PAGE
    ensures PropertyId(row, id) == (row + 1) % PAGE * PAGE + id
  {
  }

  /** Of the four lookups exactly the one of the window's own category succeeds. */
  lemma LookupFindsTheOne(m: Model, k: nat, r: nat, id: nat, l: nat)
    requires Bounded(m) && IsWindow(m, k, r) && WindowBits(id) == ID_DISTANCE * k + r && 1 <= l <= 4
    ensures Lookup(m, id, l) == if l == k then Some(m.Windows(k)[r]) else None
  {
  }

  /** A reachable index is invalid or belongs to a category, a window or a property. */
  ghost predicate IsNode(m: Model, i: Index) {
    || i == Invalid
    || (exists k: nat {:trigger CategoryIndex(k)} :: 1 <= k <= 4 && i == CategoryIndex(k))
    || (exists k: nat, r: nat :: IsWindow(m, k, r) && i == WindowIndex(k, r))
    || (exists k: nat, r: nat :: IsWindow(m, k, r) && IsPropertyOf(m, k, r, i))
  }

  /** `i` is a property of window `r` in category `k`. */
  predicate IsPropertyOf(m: Model, k: nat, r: nat, i: Index)
    requires IsWindow(m, k, r)
  {
    && i.At? && i.column < 2 && 0 <= i.row < m.Windows(k)[r].properties
    && ID_DISTANCE * k + r < PAGE && i.id == PropertyId(i.row, ID_DISTANCE * k + r)
  }

  /** What lies below a window: its properties, if it is among the first 10000. An index below
      a window leads back to it exactly if the window is among the first 10000, row and column
      are those of a property, and the row number, counted from one, does not vanish in 16
      bits. */
  lemma PropertyRoundTripIff(m: Model, k: nat, r: nat, row: nat, column: nat)
    requires IsWindow(m, k, r) && r < 0x8000_0000
    ensures var i := IndexAt(m, row, column, WindowIndex(k, r));
      && (r < 10_000 ==> (i.At? <==> column < 2 && row < m.Windows(k)[r].properties))
      && (i.At? && Parent(i) == WindowIndex(k, r) <==>
            r < 10_000 && column < 2 && row < m.Windows(k)[r].properties && (row + 1) % 65_536 != 0)
  {
    var id := ID_DISTANCE * k + r;
    if id < PAGE {
      assert WindowBits(id) == id;
      PropertyIdParts(row, id);
    }
    if r < ID_DISTANCE {
      assert Lookup(m, id, k) == Some(m.Windows(k)[r]);
    }
  }

  /** A window has its category as the parent exactly if it is among the first 10000. */
  lemma WindowRoundTripIff(m: Model, k: nat, r: nat)
    requires IsWindow(m, k, r) && r < 0x8000_0000
    ensures var i := IndexAt(m, r, 0, CategoryIndex(k));
      i.At? && (Parent(i) == CategoryIndex(k) <==> r < 10_000)
  {
  }

  /** The root shows the X11 windows and the unmanaged ones, and on Wayland also the Wayland and
      the internal windows, in this order; below each of them are its windows. */
  lemma CategoriesShow(m: Model, row: nat)
    ensures var i := IndexAt(m, row, 0, Invalid);
      && (i.At? <==> row == 0 || row == 1 || (m.wayland && (row == 2 || row == 3)))
      && (i.At? ==>
            && i == CategoryIndex(row + 1)
            && RowCount(m, i) ==
               match row
               case 0 => |m.x11|
               case 1 => |m.unmanaged|
               case 2 => |m.waylandWindows|
               case _ => |m.internal|)
  {
  }

  /** The lookup in a category finds the window of the row in that category's list. */
  lemma LookupFinds(m: Model, r: nat)
    ensures r < |m.x11| && r < 10_000 ==> Lookup(m, WindowIndex(1, r).id, 1) == Some(m.x11[r])
    ensures r < |m.unmanaged| && r < 10_000 ==> Lookup(m, WindowIndex(2, r).id, 2) == Some(m.unmanaged[r])
    ensures r < |m.waylandWindows| && r < 10_000 ==> Lookup(m, WindowIndex(3, r).id, 3) == Some(m.waylandWindows[r])
    ensures r < |m.internal| && r < 10_000 ==> Lookup(m, WindowIndex(4, r).id, 4) == Some(m.internal[r])
  {
    if r < 10_000 {
      assert WindowBits(ID_DISTANCE * 1 + r) == ID_DISTANCE * 1 + r;
      assert WindowBits(ID_DISTANCE * 2 + r) == ID_DISTANCE * 2 + r;
      assert WindowBits(ID_DISTANCE * 3 + r) == ID_DISTANCE * 3 + r;
      assert WindowBits(ID_DISTANCE * 4 + r) == ID_DISTANCE * 4 + r;
    }
  }

  lemma BelowNode(m: Model, p: Index, row: nat, column: nat)
    requires Bounded(m) && IsNode(m, p)
    ensures var i := IndexAt(m, row, column, p);
      IsNode(m, i) && (i.At? ==> Parent(i) == p)
  {
    var i := IndexAt(m, row, column, p);
    if p == Invalid {
      if i.At? {
        assert i == CategoryIndex(row + 1);
      }
    } else if exists k: nat :: 1 <= k <= 4 && p == CategoryIndex(k) {
      var k: nat :| 1 <= k <= 4 && p == CategoryIndex(k);
      BelowCategory(m, k, row, column);
    } else if exists k: nat, r: nat :: IsWindow(m, k, r) && p == WindowIndex(k, r) {
      var k: nat, r: nat :| IsWindow(m, k, r) && p == WindowIndex(k, r);
      BelowWindow(m, k, r, row, column);
    } else {
      var k: nat, r: nat :| IsWindow(m, k, r) && IsPropertyOf(m, k, r, p);
      BelowProperty(m, k, r, p, row, column);
    }
  }

  lemma BelowCategory(m: Model, k: nat, row: nat, column: nat)
    requires Bounded(m) && 1 <= k <= 4
    ensures var i := IndexAt(m, row, column, CategoryIndex(k));
      IsNode(m, i) && (i.At? ==> Parent(i) == CategoryIndex(k))
  {
    var i := IndexAt(m, row, column, CategoryIndex(k));
    if i.At? {
      assert |m.Windows(k)| <= ID_DISTANCE;
      WindowRoundTripIff(m, k, row);
      assert IsWindow(m, k, row) && i == WindowIndex(k, row);
    }
  }

  lemma BelowWindow(m: Model, k: nat, r: nat, row: nat, column: nat)
    requires Bounded(m) && IsWindow(m, k, r)
    ensures var i := IndexAt(m, row, column, WindowIndex(k, r));
      IsNode(m, i) && (i.At? ==> Parent(i) == WindowIndex(k, r))
  {
    assert |m.Windows(k)| <= ID_DISTANCE;
    var i, id := IndexAt(m, row, column, WindowIndex(k, r)), ID_DISTANCE * k + r;
    assert WindowBits(id) == id;
    LookupFindsTheOne(m, k, r, id, k);
    if i.At? {
      PropertyRoundTripIff(m, k, r, row, column);
      assert IsPropertyOf(m, k, r, i);
    }
  }

  /** Properties have no children. */
  lemma BelowProperty(m: Model, k: nat, r: nat, p: Index, row: nat, column: nat)
    requires Bounded(m) && IsWindow(m, k, r) && IsPropertyOf(m, k, r, p)
    ensures IndexAt(m, row, column, p) == Invalid
  {
  }

  lemma {:induction false} ReachIsNode(m: Model, path: seq<(nat, nat)>)
    requires Bounded(m)
    ensures IsNode(m, Reach(m, path))
  {
    if path != [] {
      ReachIsNode(m, path[..|path| - 1]);
      BelowNode(m, Reach(m, path[..|path| - 1]), path[|path| - 1].0, path[|path| - 1].1);
    }
  }

  /** Whatever index a view has reached: the parent of anything below it is that index. */
  lemma ParentOfIndex(m: Model, path: seq<(nat, nat)>, row: nat, column: nat)
    requires Bounded(m) && IndexAt(m, row, column, Reach(m, path)).At?
    ensures Parent(IndexAt(m, row, column, Reach(m, path))) == Reach(m, path)
  {
    ReachIsNode(m, path);
    BelowNode(m, Reach(m, path), row, column);
  }

  /** `propertyCount`. */
  function PropertyCount(m: Model, id: nat, k: nat): nat {
    var w := Lookup(m, id, k);
    if w.None? then 0 else w.value.properties
  }

  function RowCount(m: Model, parent: Index): nat {
    if parent.Invalid? then m.TopLevelRowCount()
    else if 1 <= parent.id <= 4 then |m.Windows(parent.id)|
    else if HasPropertyBits(parent.id) then 0
    else if parent.id < ID_DISTANCE * 2 then PropertyCount(m, parent.id, 1)
    else if parent.id < ID_DISTANCE * 3 then PropertyCount(m, parent.id, 2)
    else if parent.id < ID_DISTANCE * 4 then PropertyCount(m, parent.id, 3)
    else if parent.id < ID_DISTANCE * 5 then PropertyCount(m, parent.id, 4)
    else 0
  }

  /** Below any index there are valid indices for exactly the counted rows, with the row and
      column asked for. */
  lemma RowsHaveIndices(m: Model, p: Index, row: nat)
    ensures var i := IndexAt(m, row, 0, p);
      (i.At? <==> row < RowCount(m, p)) && (i.At? ==> i.row == row && i.column == 0)
  {
  }

  lemma WindowIdsDiffer(k: nat, r: nat, k': nat, r': nat)
    requires 1 <= k <= 4 && 1 <= k' <= 4 && r < ID_DISTANCE && r' < ID_DISTANCE
    ensures ID_DISTANCE * k + r == ID_DISTANCE * k' + r' ==> k == k' && r == r'
    ensures 4 < ID_DISTANCE * k + r < PAGE
  {
  }

  lemma PropertyIdsDiffer(row: nat, id: nat, row': nat, id': nat)
    requires row + 1 < PAGE && row' + 1 < PAGE && id < PAGE && id' < PAGE
    ensures PropertyId(row, id) == PropertyId(row', id') ==> row == row' && id == id'
    ensures PropertyId(row, id) >= PAGE
  {
    PropertyIdParts(row, id);
    PropertyIdParts(row', id');
  }

  /** Ids of different windows, or of different property rows, never collide. */
  lemma IdsDiffer(m: Model, k: nat, r: nat, k': nat, r': nat, row: nat, row': nat)
    requires Bounded(m) && IsWindow(m, k, r) && IsWindow(m, k', r')
    requires row < m.Windows(k)[r].properties && row' < m.Windows(k')[r'].properties
    ensures WindowIndex(k, r).id == WindowIndex(k', r').id ==> k == k' && r == r'
    ensures PropertyId(row, WindowIndex(k, r).id) == PropertyId(row', WindowIndex(k', r').id) ==>
        k == k' && r == r' && row == row'
    ensures PropertyId(row, WindowIndex(k, r).id) != WindowIndex(k', r').id
    ensures WindowIndex(k, r).id > 4
  {
    assert |m.Windows(k)| <= ID_DISTANCE && |m.Windows(k')| <= ID_DISTANCE;
    WindowIdsDiffer(k, r, k', r');
    WindowIdsDiffer(k', r', k, r);
    PropertyIdsDiffer(row, ID_DISTANCE * k + r, row', ID_DISTANCE * k' + r');
  }

  /** For a property's index exactly one of the four window lookups succeeds. */
  lemma PropertyLookup(m: Model, k: nat, r: nat, i: Index, l: nat)
    requires Bounded(m) && IsWindow(m, k, r) && IsPropertyOf(m, k, r, i) && 1 <= l <= 4
    ensures Lookup(m, i.id, l) == if l == k then Some(m.Windows(k)[r]) else None
  {
    PropertyIdParts(i.row, ID_DISTANCE * k + r);
    LookupFindsTheOne(m, k, r, i.id, l);
  }

  // ---------- input devices ----------

  /** `InputDeviceModel::index`; the sequence holds each device's number of properties. */
  function DeviceIndexAt(devices: seq<nat>, row: nat, column: nat, parent: Index): Index
    requires parent.At? && !HasPropertyBits(parent.id) ==> 0 <= parent.row < |devices| && parent.id < PAGE
  {
    if column >= 2 then Invalid
    else if parent.At? then
      if HasPropertyBits(parent.id) || row >= devices[parent.row] then Invalid
      else At(row, column, PropertyId(row, parent.id))
    else if row >= |devices| then Invalid
    else At(row, column, row + 1)
  }

  function DeviceParent(child: Index): Index {
    if child.At? && HasPropertyBits(child.id) then At(WindowBits(child.id) - 1, 0, WindowBits(child.id)) else Invalid
  }

  /** A device's property leads back to the device exactly from the device's first column
      and as long as its row number does not vanish in 16 bits. */
  lemma DeviceRoundTripIff(devices: seq<nat>, d: nat, c: nat, row: nat, column: nat)
    requires d < |devices| < PAGE && c < 2 && column < 2 && row < devices[d]
    ensures var p := DeviceIndexAt(devices, d, c, Invalid);
      && p == At(d, c, d + 1) && DeviceParent(p) == Invalid
      && (DeviceParent(DeviceIndexAt(devices, row, column, p)) == p <==> c == 0 && (row + 1) % 65_536 != 0)
  {
    PropertyIdParts(row, d + 1);
    assert HasPropertyBits(PropertyId(row, d + 1)) <==> (row + 1) % 65_536 != 0;
  }

  /** The root has an index for each device, a device one for each of its properties, in both
      columns, and a property, its row not vanishing in 16 bits, none. */
  lemma DeviceRowsHaveIndices(devices: seq<nat>, d: nat, c: nat, property: nat, row: nat, column: nat)
    requires d < |devices| < PAGE && c < 2 && property < devices[d] && (property + 1) % 65_536 != 0
    ensures DeviceIndexAt(devices, row, column, Invalid).At? <==> column < 2 && row < |devices|
    ensures var p := DeviceIndexAt(devices, d, c, Invalid);
      && (DeviceIndexAt(devices, row, column, p).At? <==> column < 2 && row < devices[d])
      && DeviceIndexAt(devices, row, column, DeviceIndexAt(devices, property, c, p)) == Invalid
  {
    PropertyIdParts(property, d + 1);
  }

  // ---------- the class ----------

  /** `DebugConsoleModel`: its lists change as windows come and go. */
  class DebugConsoleModel {
    var x11Windows: seq<Win>
    var unmanageds: seq<Win>
    var waylandWindows: seq<Win>
    var internalWindows: seq<Win>
    const wayland: bool

    function Snapshot(): Model
      reads this
    {
      Model(x11Windows, unmanageds, waylandWindows, internalWindows, wayland)
    }

    constructor (wayland: bool)
      ensures Snapshot() == Model([], [], [], [], wayland)
    {
      this.wayland := wayland;
      x11Windows, unmanageds, waylandWindows, internalWindows := [], [], [], [];
    }

    method SetWindows(k: nat, windows: seq<Win>)
      requires 1 <= k <= 4
      modifies this
      ensures forall l :: 1 <= l <= 4 ==> Snapshot().Windows(l) == if l == k then windows
          else old(Snapshot()).Windows(l)
    {
      match k {
        case 1 => x11Windows := windows;
        case 2 => unmanageds := windows;
        case 3 => waylandWindows := windows;
        case _ => internalWindows := windows;
      }
    }

    /** Adds a window to category `k` and tells the view the row it appears in: there its
        index leads to it while its id fits 16 bits, and back to the category for the first
        10000 windows. */
    method Add(k: nat, w: Win) returns (row: nat)
      requires 1 <= k <= 4
      modifies this
      ensures row == |old(Snapshot()).Windows(k)|
      ensures Snapshot().Windows(k) == old(Snapshot()).Windows(k) + [w]
      ensures forall l :: 1 <= l <= 4 && l != k ==> Snapshot().Windows(l) == old(Snapshot()).Windows(l)
      ensures row < 0x8000_0000 ==>
        && IndexAt(Snapshot(), row, 0, CategoryIndex(k)) == WindowIndex(k, row)
        && (Parent(WindowIndex(k, row)) == CategoryIndex(k) <==> row < 10_000)
      ensures WindowIndex(k, row).id < PAGE ==> Lookup(Snapshot(), WindowIndex(k, row).id, k) == Some(w)
    {
      row := |Snapshot().Windows(k)|;
      SetWindows(k, Snapshot().Windows(k) + [w]);
      if ID_DISTANCE * k + row < PAGE {
        assert WindowBits(ID_DISTANCE * k + row) == ID_DISTANCE * k + row;
      }
    }

    /** Removes a window, if it is there, and tells the view the row that goes away: the
        indices of the rows below now lead to the windows that follow. */
    method Remove(k: nat, w: Win) returns (row: int)
      requires 1 <= k <= 4
      modifies this
      ensures row == IndexOf(old(Snapshot()).Windows(k), w)
      ensures Snapshot().Windows(k) ==
        if row == -1 then old(Snapshot()).Windows(k)
        else old(Snapshot()).Windows(k)[..row] + old(Snapshot()).Windows(k)[row + 1..]
      ensures forall l :: 1 <= l <= 4 && l != k ==> Snapshot().Windows(l) == old(Snapshot()).Windows(l)
    {
      var windows := Snapshot().Windows(k);
      row := IndexOf(windows, w);
      if row != -1 {
        SetWindows(k, windows[..row] + windows[row + 1..]);
      }
    }
  }
}
