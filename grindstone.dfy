/**
 * `GrindstoneGui`: a two-slot items component and a one-slot result component
 * on top, and a 9 x 4 player-inventory component below.
 */
module Grindstone {
  import opened Slots
  import opened Grid
  import opened Host

  /** The components of a grindstone gui. */
  datatype Part = Items | Result | PlayerInventory

  /** Width of each component as constructed. */
  function Length(p: Part): nat
  {
    match p
    case Items => 1
    case Result => 1
    case PlayerInventory => 9
  }

  /** Height of each component as constructed. */
  function Height(p: Part): nat
  {
    match p
    case Items => 2
    case Result => 1
    case PlayerInventory => 4
  }

  function Size(p: Part): nat
  {
    Length(p) * Height(p)
  }

  /** Slots of the host's grindstone inventory: two inputs and the result. */
  const TopSize := 3

  /** Raw slots of the open view: the top slots, then the 36 player cells. */
  const RawSlots := 39

  /** Origin offsets at which `show` displays the top components. */
  const ItemsOffset := 0
  const ResultOffset := 2

  /** `click`: the component and local index a raw slot is delivered to. A raw
      slot lies in the view exactly when it reaches an existing cell, and only
      the top slots reach a top component. */
  function Click(rawSlot: int): (d: Delivery<Part>)
    ensures 0 <= rawSlot < RawSlots <==> 0 <= d.local < Size(d.part)
    ensures d.part == PlayerInventory <==> !(0 <= rawSlot < TopSize)
  {
    if 0 <= rawSlot <= 1 then Delivery(Items, rawSlot)
    else if rawSlot == 2 then Delivery(Result, 0)
    else Delivery(PlayerInventory, rawSlot - 3)
  }

  /** The raw slot that reaches a given cell: the inverse of `Click`. */
  function RawSlotOf(d: Delivery<Part>): (rawSlot: int)
    requires 0 <= d.local < Size(d.part)
    ensures 0 <= rawSlot < RawSlots && Click(rawSlot) == d
  {
    match d.part
    case Items => ItemsOffset + d.local
    case Result => ResultOffset + d.local
    case PlayerInventory => TopSize + d.local
  }

  /** Click routing restricted to the view is one-to-one: every raw slot is
      the one `RawSlotOf` gives for its cell, so raw slots 0..38 cover the
      39 cells of the three components exactly once. */
  lemma ClickIsBijective(rawSlot: int)
    requires 0 <= rawSlot < RawSlots
    ensures RawSlotOf(Click(rawSlot)) == rawSlot
  {
  }

  /** The display offsets place each top component on the raw slots that
      `Click` routes to it, and the components tile the raw-slot space. */
  lemma DisplayOffsetsMatchClick(i: int)
    ensures 0 <= i < Size(Items) ==> Click(ItemsOffset + i) == Delivery(Items, i)
    ensures 0 <= i < Size(Result) ==> Click(ResultOffset + i) == Delivery(Result, i)
    ensures 0 <= i < Size(PlayerInventory) ==> Click(TopSize + i) == Delivery(PlayerInventory, i)
    ensures ItemsOffset + Size(Items) == ResultOffset && ResultOffset + Size(Result) == TopSize
    ensures TopSize + Size(PlayerInventory) == RawSlots
  {
  }

  /** What the deprecated `handleClickEvent` asks the host to do. */
  datatype ClickAction = SendItems(top: seq<Slot>, current: Slot) | ClearCursor

  class GrindstoneGui {
    var items: InventoryComponent
    var result: InventoryComponent
    var playerInventory: InventoryComponent
    /** The backing host inventory, created on first use. */
    var inventory: array?<Slot>
    /** The backing inventory must be recreated before it is shown. */
    var dirty: bool
    const cache: HumanEntityCache
    var handlers: Handlers

    function ComponentOf(p: Part): InventoryComponent
      reads this
    {
      match p
      case Items => items
      case Result => result
      case PlayerInventory => playerInventory
    }

    ghost function Repr(): set<object>
      reads this
    {
      {this, cache, items, result, playerInventory, items.cells, result.cells, playerInventory.cells}
      + (if inventory == null then {} else {inventory})
    }

    ghost predicate Valid()
      reads this
    {
      && items.Valid() && items.length == Length(Items) && items.height == Height(Items)
      && result.Valid() && result.length == Length(Result) && result.height == Height(Result)
      && playerInventory.Valid() && playerInventory.length == Length(PlayerInventory)
      && playerInventory.height == Height(PlayerInventory)
      && items.cells != result.cells && items.cells != playerInventory.cells
      && result.cells != playerInventory.cells
      && (inventory != null ==>
            && inventory.Length == TopSize
            && inventory != items.cells && inventory != result.cells && inventory != playerInventory.cells)
    }

    /** The item in the cell a delivery names. */
    ghost function CellAt(d: Delivery<Part>): Slot
      reads this, ComponentOf(d.part).cells
      requires Valid() && 0 <= d.local < Size(d.part)
    {
      ComponentOf(d.part).cells[d.local]
    }

    /** A new grindstone gui with empty components and no backing inventory. */
    constructor ()
      ensures Valid() && fresh(Repr())
      ensures items.cells[..] == EmptySlots(Size(Items)) && result.cells[..] == EmptySlots(Size(Result))
      ensures playerInventory.cells[..] == EmptySlots(Size(PlayerInventory))
      ensures inventory == null && !dirty && cache.stored == map[]
      ensures handlers == NoHandlers
    {
      items := new InventoryComponent(1, 2);
      result := new InventoryComponent(1, 1);
      playerInventory := new InventoryComponent(9, 4);
      cache := new HumanEntityCache();
      inventory, dirty := null, false;
      handlers := NoHandlers;
    }

    /** `getTopItems`: the two inputs and the result, in raw-slot order. */
    function TopItems(): (top: seq<Slot>)
      reads this, items.cells, result.cells
      requires Valid()
      ensures |top| == TopSize
      ensures forall s :: 0 <= s < TopSize ==> top[s] == CellAt(Click(s))
    {
      [items.GetItem(0, 0), items.GetItem(0, 1), result.GetItem(0, 0)]
    }

    /** A gui built from the given components, as `copy` assembles one. */
    constructor WithComponents(items: InventoryComponent, result: InventoryComponent,
                               playerInventory: InventoryComponent, handlers: Handlers)
      requires items.Valid() && items.length == Length(Items) && items.height == Height(Items)
      requires result.Valid() && result.length == Length(Result) && result.height == Height(Result)
      requires playerInventory.Valid() && playerInventory.length == Length(PlayerInventory)
      requires playerInventory.height == Height(PlayerInventory)
      requires items.cells != result.cells && items.cells != playerInventory.cells
      requires result.cells != playerInventory.cells
      ensures Valid() && fresh(cache) && cache.stored == map[]
      ensures this.items == items && this.result == result && this.playerInventory == playerInventory
      ensures inventory == null && !dirty && this.handlers == handlers
    {
      this.items, this.result, this.playerInventory := items, result, playerInventory;
      this.handlers := handlers;
      cache := new HumanEntityCache();
      inventory, dirty := null, false;
    }

    /** `isPlayerInventoryUsed`. */
    method IsPlayerInventoryUsed() returns (used: bool)
      requires Valid()
      ensures used == playerInventory.Occupied()
    {
      used := playerInventory.HasItem();
    }

    /** `createInventory`: a new, empty host grindstone inventory. */
    method CreateInventory() returns (inv: array<Slot>)
      ensures fresh(inv) && inv[..] == EmptySlots(TopSize)
    {
      inv := new Slot[TopSize](_ => None);
    }

    /** `markChanges`, taken to mean that the pending changes are processed. */
    method MarkChanges()
      modifies this`dirty
      ensures !dirty
    {
      dirty := false;
    }

    /** `getInventory`: creates the backing inventory when there is none and
        otherwise returns the one already there. */
    method GetInventory() returns (inv: array<Slot>)
      requires Valid()
      modifies this`inventory
      ensures Valid() && inv == inventory
      ensures old(inventory) != null ==> inv == old(inventory)
      ensures old(inventory) == null ==> fresh(inv) && inv[..] == EmptySlots(TopSize)
    {
      if inventory == null {
        inventory := CreateInventory();
      }
      inv := inventory;
    }

    /** The clear-and-display step of `show`: clears the backing inventory, then displays the
        items at slot 0 and the result at slot 2. */
    method DisplayTop(top: array<Slot>)
      requires Valid() && top == inventory
      modifies top
      ensures top[..] == TopItems()
    {
      ClearSlots(top);
      items.Display(top, ItemsOffset);
      result.Display(top, ResultOffset);
    }

    /** `show`: refuses a viewer that is not a player before changing
        anything; otherwise recreates the backing inventory if dirty, clears
        it, displays the items at slot 0 and the result at slot 2, hands the
        player-inventory component to the viewer, and yields the top items the
        host grindstone is opened with. */
    method Show(viewer: HumanEntity) returns (o: Result<seq<Slot>>)
      requires Valid()
      requires viewer.inventory !in Repr() && playerInventory.cells.Length <= viewer.inventory.Length
      modifies this`inventory, this`dirty, inventory, cache, viewer.inventory
      ensures Valid()
      ensures !viewer.isPlayer ==> o == Err(IllegalArgument)
      ensures !viewer.isPlayer ==>
                && unchanged(this, cache, viewer.inventory)
                && (old(inventory) != null ==> unchanged(old(inventory)))
      ensures viewer.isPlayer ==>
                && !dirty && inventory != null
                && (old(dirty) || old(inventory) == null ==> fresh(inventory))
                && (old(dirty) && old(inventory) != null ==> unchanged(old(inventory)))
                && (!old(dirty) && old(inventory) != null ==> inventory == old(inventory))
                && inventory[..] == TopItems() && o == Ok(TopItems())
      ensures viewer.isPlayer ==>
                && cache.stored == StoredAfter(old(cache.stored), viewer, old(viewer.inventory[..]),
                                               playerInventory.Occupied())
                && viewer.inventory[..]
                   == InventoryAfter(old(cache.stored), viewer, old(viewer.inventory[..]),
                                     playerInventory.Occupied(), playerInventory.cells[..])
    {
      if !viewer.isPlayer {
        return Err(IllegalArgument);
      }
      if dirty {
        inventory := CreateInventory();
        MarkChanges();
      }
      var top := GetInventory();
      DisplayTop(top);
      PlacePlayerItems(playerInventory, cache, viewer);
      o := Ok(TopItems());
    }

    /** `copy`: a new gui whose components are fresh copies of these and
        whose five handlers are the very same objects. */
    method Copy() returns (gui: GrindstoneGui)
      requires Valid()
      ensures gui.Valid() && fresh(gui.Repr())
      ensures gui.items.cells[..] == items.cells[..] && gui.result.cells[..] == result.cells[..]
      ensures gui.playerInventory.cells[..] == playerInventory.cells[..]
      ensures gui.handlers == handlers
      ensures gui.inventory == null && !gui.dirty && gui.cache.stored == map[]
    {
      var itemsCopy := items.Copy();
      var resultCopy := result.Copy();
      var playerInventoryCopy := playerInventory.Copy();
      gui := new GrindstoneGui.WithComponents(itemsCopy, resultCopy, playerInventoryCopy, handlers);
    }

    /** The deprecated `handleClickEvent`: a click anywhere in the view resends
        the top items, and a cancelled click on a top slot also clears the
        cursor; a click outside the view does nothing. */
    function HandleClickEvent(rawSlot: int, current: Slot, cancelled: bool): (actions: seq<ClickAction>)
      reads this, items.cells, result.cells
      requires Valid()
      ensures actions != [] <==> 0 <= Click(rawSlot).local < Size(Click(rawSlot).part)
      ensures actions != [] ==> actions[0] == SendItems(TopItems(), current)
      ensures ClearCursor in actions <==> cancelled && Click(rawSlot).part != PlayerInventory
      ensures actions != [] ==>
                actions[1..] == (if cancelled && Click(rawSlot).part != PlayerInventory then [ClearCursor] else [])
    {
      if 3 <= rawSlot <= 38 then [SendItems(TopItems(), current)]
      else if 0 <= rawSlot <= 2 then
        [SendItems(TopItems(), current)] + (if cancelled then [ClearCursor] else [])
      else []
    }
  }

  /** Clearing every component of a copy leaves every component of the
      original as it was. */
  method CopyIsIndependent(gui: GrindstoneGui) returns (copy: GrindstoneGui)
    requires gui.Valid()
    ensures copy.items.cells[..] == EmptySlots(Size(Items))
    ensures copy.result.cells[..] == EmptySlots(Size(Result))
    ensures copy.playerInventory.cells[..] == EmptySlots(Size(PlayerInventory))
    ensures gui.items.cells[..] == old(gui.items.cells[..])
    ensures gui.result.cells[..] == old(gui.result.cells[..])
    ensures gui.playerInventory.cells[..] == old(gui.playerInventory.cells[..])
  {
    copy := gui.Copy();
    copy.items.Clear();
    copy.result.Clear();
    copy.playerInventory.Clear();
  }
}
