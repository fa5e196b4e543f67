/**
 * `CrafterGui`: a 3 x 3 input component on top and a 9 x 4 player-inventory
 * component below.
 */
module Crafter {
  import opened Slots
  import opened Grid
  import opened Host

  /** The components of a crafter gui. */
  datatype Part = Input | PlayerInventory

  /** Width of each component as constructed. */
  function Length(p: Part): nat
  {
    if p == Input then 3 else 9
  }

  /** Height of each component as constructed. */
  function Height(p: Part): nat
  {
    if p == Input then 3 else 4
  }

  function Size(p: Part): nat
  {
    Length(p) * Height(p)
  }

  /** Slots of the host's crafter inventory: the 3 x 3 grid. */
  const TopSize := 9

  /** Raw slots of the open view: the top slots, then the 36 player cells. */
  const RawSlots := 45

  /** Origin offset at which `show` displays the input component. */
  const InputOffset := 0

  /** `click`: the component and local index a raw slot is delivered to. A raw
      slot lies in the view exactly when it reaches an existing cell, and only
      the top slots reach the input component. */
  function Click(rawSlot: int): (d: Delivery<Part>)
    ensures 0 <= rawSlot < RawSlots <==> 0 <= d.local < Size(d.part)
    ensures d.part == PlayerInventory <==> !(0 <= rawSlot < TopSize)
  {
    if 0 <= rawSlot <= 8 then Delivery(Input, rawSlot)
    else Delivery(PlayerInventory, rawSlot - 9)
  }

  /** The raw slot that reaches a given cell: the inverse of `Click`. */
  function RawSlotOf(d: Delivery<Part>): (rawSlot: int)
    requires 0 <= d.local < Size(d.part)
    ensures 0 <= rawSlot < RawSlots && Click(rawSlot) == d
  {
    match d.part
    case Input => InputOffset + d.local
    case PlayerInventory => TopSize + d.local
  }

  /** Click routing restricted to the view is one-to-one: raw slots 0..44
      cover the 45 cells of the two components exactly once. */
  lemma ClickIsBijective(rawSlot: int)
    requires 0 <= rawSlot < RawSlots
    ensures RawSlotOf(Click(rawSlot)) == rawSlot
  {
  }

  /** The input component, displayed at its offset, fills exactly the raw
      slots `Click` routes to it, and the player component fills the rest. */
  lemma DisplayOffsetsMatchClick(i: int)
    ensures 0 <= i < Size(Input) ==> Click(InputOffset + i) == Delivery(Input, i)
    ensures 0 <= i < Size(PlayerInventory) ==> Click(TopSize + i) == Delivery(PlayerInventory, i)
    ensures InputOffset + Size(Input) == TopSize && TopSize + Size(PlayerInventory) == RawSlots
  {
  }

  class CrafterGui {
    var input: InventoryComponent
    var playerInventory: InventoryComponent
    /** The backing host inventory, created on first use. */
    var inventory: array?<Slot>
    /** The backing inventory must be recreated before it is shown. */
    var dirty: bool
    const cache: HumanEntityCache
    var handlers: Handlers

    function ComponentOf(p: Part): InventoryComponent
      reads this
    {
      match p
      case Input => input
      case PlayerInventory => playerInventory
    }

    ghost function Repr(): set<object>
      reads this
    {
      {this, cache, input, playerInventory, input.cells, playerInventory.cells}
      + (if inventory == null then {} else {inventory})
    }

    ghost predicate Valid()
      reads this
    {
      && input.Valid() && input.length == Length(Input) && input.height == Height(Input)
      && playerInventory.Valid() && playerInventory.length == Length(PlayerInventory)
      && playerInventory.height == Height(PlayerInventory)
      && input.cells != playerInventory.cells
      && (inventory != null ==>
            inventory.Length == TopSize && inventory != input.cells && inventory != playerInventory.cells)
    }

    /** The item in the cell a delivery names. */
    ghost function CellAt(d: Delivery<Part>): Slot
      reads this, ComponentOf(d.part).cells
      requires Valid() && 0 <= d.local < Size(d.part)
    {
      ComponentOf(d.part).cells[d.local]
    }

    /** A new crafter gui with empty components and no backing inventory. */
    constructor ()
      ensures Valid() && fresh(Repr())
      ensures input.cells[..] == EmptySlots(Size(Input))
      ensures playerInventory.cells[..] == EmptySlots(Size(PlayerInventory))
      ensures inventory == null && !dirty && cache.stored == map[] && handlers == NoHandlers
    {
      input := new InventoryComponent(3, 3);
      playerInventory := new InventoryComponent(9, 4);
      cache := new HumanEntityCache();
      inventory, dirty := null, false;
      handlers := NoHandlers;
    }

    /** A gui built from the given components, as `copy` assembles one. */
    constructor WithComponents(input: InventoryComponent, playerInventory: InventoryComponent,
                               handlers: Handlers)
      requires input.Valid() && input.length == Length(Input) && input.height == Height(Input)
      requires playerInventory.Valid() && playerInventory.length == Length(PlayerInventory)
      requires playerInventory.height == Height(PlayerInventory)
      requires input.cells != playerInventory.cells
      ensures Valid() && fresh(cache) && cache.stored == map[]
      ensures this.input == input && this.playerInventory == playerInventory
      ensures inventory == null && !dirty && this.handlers == handlers
    {
      this.input, this.playerInventory := input, playerInventory;
      this.handlers := handlers;
      cache := new HumanEntityCache();
      inventory, dirty := null, false;
    }

    /** `isPlayerInventoryUsed`. */
    method IsPlayerInventoryUsed() returns (used: bool)
      requires Valid()
      ensures used == playerInventory.Occupied()
    {
      used := playerInventory.HasItem();
    }

    /** `createInventory`: a new, empty host crafter inventory. */
    method CreateInventory() returns (inv: array<Slot>)
      ensures fresh(inv) && inv[..] == EmptySlots(TopSize)
    {
      inv := new Slot[TopSize](_ => None);
    }

    /** `markChanges`, taken to mean that the pending changes are processed. */
    method MarkChanges()
      modifies this`dirty
      ensures !dirty
    {
      dirty := false;
    }

    /** `getInventory`: creates the backing inventory when there is none and
        otherwise returns the one already there. */
    method GetInventory() returns (inv: array<Slot>)
      requires Valid()
      modifies this`inventory
      ensures Valid() && inv == inventory
      ensures old(inventory) != null ==> inv == old(inventory)
      ensures old(inventory) == null ==> fresh(inv) && inv[..] == EmptySlots(TopSize)
    {
      if inventory == null {
        inventory := CreateInventory();
      }
      inv := inventory;
    }

    /** The clear-and-display step of `show`: clears the backing inventory and displays the
        input at slot 0, so that every top slot shows the cell a click on it
        is delivered to. */
    method DisplayTop(top: array<Slot>)
      requires Valid() && top == inventory
      modifies top
      ensures top[..] == input.cells[..]
      ensures forall s :: 0 <= s < TopSize ==> top[s] == CellAt(Click(s))
    {
      ClearSlots(top);
      input.Display(top, InputOffset);
    }

    /** `show`: recreates the backing inventory if dirty, displays the input
        component into it and hands the player-inventory component to the
        viewer. */
    method Show(viewer: HumanEntity)
      requires Valid()
      requires viewer.inventory !in Repr() && playerInventory.cells.Length <= viewer.inventory.Length
      modifies this`inventory, this`dirty, inventory, cache, viewer.inventory
      ensures Valid()
      ensures !dirty && inventory != null
      ensures old(dirty) || old(inventory) == null ==> fresh(inventory)
      ensures old(dirty) && old(inventory) != null ==> unchanged(old(inventory))
      ensures !old(dirty) && old(inventory) != null ==> inventory == old(inventory)
      ensures inventory[..] == input.cells[..]
      ensures forall s :: 0 <= s < TopSize ==> inventory[s] == CellAt(Click(s))
      ensures cache.stored == StoredAfter(old(cache.stored), viewer, old(viewer.inventory[..]),
                                          playerInventory.Occupied())
      ensures viewer.inventory[..] == InventoryAfter(old(cache.stored), viewer, old(viewer.inventory[..]),
                                                     playerInventory.Occupied(), playerInventory.cells[..])
    {
      if dirty {
        inventory := CreateInventory();
        MarkChanges();
      }
      var top := GetInventory();
      DisplayTop(top);
      PlacePlayerItems(playerInventory, cache, viewer);
    }

    /** `copy`: a new gui whose components are fresh copies of these and
        whose handlers are the very same objects. */
    method Copy() returns (gui: CrafterGui)
      requires Valid()
      ensures gui.Valid() && fresh(gui.Repr())
      ensures gui.input.cells[..] == input.cells[..]
      ensures gui.playerInventory.cells[..] == playerInventory.cells[..]
      ensures gui.handlers == handlers
      ensures gui.inventory == null && !gui.dirty && gui.cache.stored == map[]
    {
      var inputCopy := input.Copy();
      var playerInventoryCopy := playerInventory.Copy();
      gui := new CrafterGui.WithComponents(inputCopy, playerInventoryCopy, handlers);
    }
  }

  /** Clearing every component of a copy leaves every component of the
      original as it was. */
  method CopyIsIndependent(gui: CrafterGui) returns (copy: CrafterGui)
    requires gui.Valid()
    ensures copy.input.cells[..] == EmptySlots(Size(Input))
    ensures copy.playerInventory.cells[..] == EmptySlots(Size(PlayerInventory))
    ensures gui.input.cells[..] == old(gui.input.cells[..])
    ensures gui.playerInventory.cells[..] == old(gui.playerInventory.cells[..])
  {
    copy := gui.Copy();
    copy.input.Clear();
    copy.playerInventory.Clear();
  }
}
