/**
 * `BlastFurnaceGui`: one-slot ingredient, fuel and output components on top
 * and a 9 x 4 player-inventory component below.
 */
module BlastFurnace {
  import opened Slots
  import opened Grid
  import opened Host

  /** The components of a blast furnace gui. */
  datatype Part = Ingredient | Fuel | Output | PlayerInventory

  /** Width of each component as constructed. */
  function Length(p: Part): nat
  {
    if p == PlayerInventory then 9 else 1
  }

  /** Height of each component as constructed. */
  function Height(p: Part): nat
  {
    if p == PlayerInventory then 4 else 1
  }

  function Size(p: Part): nat
  {
    Length(p) * Height(p)
  }

  /** Slots of the host's blast furnace inventory. */
  const TopSize := 3

  /** Raw slots of the open view: the top slots, then the 36 player cells. */
  const RawSlots := 39

  /** Origin offsets at which `show` displays the top components. */
  const IngredientOffset := 0
  const FuelOffset := 1
  const OutputOffset := 2

  /** `click`: the component and local index a raw slot is delivered to. A raw
      slot lies in the view exactly when it reaches an existing cell, and only
      the top slots reach a top component. */
  function Click(rawSlot: int): (d: Delivery<Part>)
    ensures 0 <= rawSlot < RawSlots <==> 0 <= d.local < Size(d.part)
    ensures d.part == PlayerInventory <==> !(0 <= rawSlot < TopSize)
  {
    if rawSlot == 0 then Delivery(Ingredient, 0)
    else if rawSlot == 1 then Delivery(Fuel, 0)
    else if rawSlot == 2 then Delivery(Output, 0)
    else Delivery(PlayerInventory, rawSlot - 3)
  }

  /** The raw slot that reaches a given cell: the inverse of `Click`. */
  function RawSlotOf(d: Delivery<Part>): (rawSlot: int)
    requires 0 <= d.local < Size(d.part)
    ensures 0 <= rawSlot < RawSlots && Click(rawSlot) == d
  {
    match d.part
    case Ingredient => IngredientOffset + d.local
    case Fuel => FuelOffset + d.local
    case Output => OutputOffset + d.local
    case PlayerInventory => TopSize + d.local
  }

  /** Click routing restricted to the view is one-to-one: raw slots 0..38
      cover the 39 cells of the four components exactly once. */
  lemma ClickIsBijective(rawSlot: int)
    requires 0 <= rawSlot < RawSlots
    ensures RawSlotOf(Click(rawSlot)) == rawSlot
  {
  }

  /** The display offsets place each top component on the raw slot that
      `Click` routes to it, and the components tile the raw-slot space. */
  lemma DisplayOffsetsMatchClick(i: int)
    ensures 0 <= i < Size(Ingredient) ==> Click(IngredientOffset + i) == Delivery(Ingredient, i)
    ensures 0 <= i < Size(Fuel) ==> Click(FuelOffset + i) == Delivery(Fuel, i)
    ensures 0 <= i < Size(Output) ==> Click(OutputOffset + i) == Delivery(Output, i)
    ensures 0 <= i < Size(PlayerInventory) ==> Click(TopSize + i) == Delivery(PlayerInventory, i)
    ensures IngredientOffset + Size(Ingredient) == FuelOffset && FuelOffset + Size(Fuel) == OutputOffset
    ensures OutputOffset + Size(Output) == TopSize && TopSize + Size(PlayerInventory) == RawSlots
  {
  }

  class BlastFurnaceGui {
    var ingredient: InventoryComponent
    var fuel: InventoryComponent
    var output: InventoryComponent
    var playerInventory: InventoryComponent
    /** The backing host inventory, created on first use. */
    var inventory: array?<Slot>
    /** The backing inventory must be recreated before it is shown. */
    var dirty: bool
    const cache: HumanEntityCache
    var handlers: Handlers

    function ComponentOf(p: Part): InventoryComponent
      reads this
    {
      match p
      case Ingredient => ingredient
      case Fuel => fuel
      case Output => output
      case PlayerInventory => playerInventory
    }

    ghost function Repr(): set<object>
      reads this
    {
      {this, cache, ingredient, fuel, output, playerInventory,
       ingredient.cells, fuel.cells, output.cells, playerInventory.cells}
      + (if inventory == null then {} else {inventory})
    }

    ghost predicate Valid()
      reads this
    {
      && ingredient.Valid() && ingredient.length == Length(Ingredient)
      && ingredient.height == Height(Ingredient)
      && fuel.Valid() && fuel.length == Length(Fuel) && fuel.height == Height(Fuel)
      && output.Valid() && output.length == Length(Output) && output.height == Height(Output)
      && playerInventory.Valid() && playerInventory.length == Length(PlayerInventory)
      && playerInventory.height == Height(PlayerInventory)
      && ingredient.cells != fuel.cells && ingredient.cells != output.cells
      && ingredient.cells != playerInventory.cells && fuel.cells != output.cells
      && fuel.cells != playerInventory.cells && output.cells != playerInventory.cells
      && (inventory != null ==>
            && inventory.Length == TopSize
            && inventory != ingredient.cells && inventory != fuel.cells
            && inventory != output.cells && inventory != playerInventory.cells)
    }

    /** The item in the cell a delivery names. */
    ghost function CellAt(d: Delivery<Part>): Slot
      reads this, ComponentOf(d.part).cells
      requires Valid() && 0 <= d.local < Size(d.part)
    {
      ComponentOf(d.part).cells[d.local]
    }

    /** A new blast furnace gui with empty components and no backing inventory. */
    constructor ()
      ensures Valid() && fresh(Repr())
      ensures ingredient.cells[..] == EmptySlots(1) && fuel.cells[..] == EmptySlots(1)
      ensures output.cells[..] == EmptySlots(1)
      ensures playerInventory.cells[..] == EmptySlots(Size(PlayerInventory))
      ensures inventory == null && !dirty && cache.stored == map[] && handlers == NoHandlers
    {
      ingredient := new InventoryComponent(1, 1);
      fuel := new InventoryComponent(1, 1);
      output := new InventoryComponent(1, 1);
      playerInventory := new InventoryComponent(9, 4);
      cache := new HumanEntityCache();
      inventory, dirty := null, false;
      handlers := NoHandlers;
    }

    /** A gui built from the given components, as `copy` assembles one. */
    constructor WithComponents(ingredient: InventoryComponent, fuel: InventoryComponent,
                               output: InventoryComponent, playerInventory: InventoryComponent,
                               handlers: Handlers)
      requires ingredient.Valid() && ingredient.length == Length(Ingredient)
      requires ingredient.height == Height(Ingredient)
      requires fuel.Valid() && fuel.length == Length(Fuel) && fuel.height == Height(Fuel)
      requires output.Valid() && output.length == Length(Output) && output.height == Height(Output)
      requires playerInventory.Valid() && playerInventory.length == Length(PlayerInventory)
      requires playerInventory.height == Height(PlayerInventory)
      requires ingredient.cells != fuel.cells && ingredient.cells != output.cells
      requires ingredient.cells != playerInventory.cells && fuel.cells != output.cells
      requires fuel.cells != playerInventory.cells && output.cells != playerInventory.cells
      ensures Valid() && fresh(cache) && cache.stored == map[]
      ensures this.ingredient == ingredient && this.fuel == fuel && this.output == output
      ensures this.playerInventory == playerInventory
      ensures inventory == null && !dirty && this.handlers == handlers
    {
      this.ingredient, this.fuel, this.output := ingredient, fuel, output;
      this.playerInventory := playerInventory;
      this.handlers := handlers;
      cache := new HumanEntityCache();
      inventory, dirty := null, false;
    }

    /** `isPlayerInventoryUsed`. */
    method IsPlayerInventoryUsed() returns (used: bool)
      requires Valid()
      ensures used == playerInventory.Occupied()
    {
      used := playerInventory.HasItem();
    }

    /** `createInventory`: a new, empty host blast furnace inventory. */
    method CreateInventory() returns (inv: array<Slot>)
      ensures fresh(inv) && inv[..] == EmptySlots(TopSize)
    {
      inv := new Slot[TopSize](_ => None);
    }

    /** `markChanges`, taken to mean that the pending changes are processed. */
    method MarkChanges()
      modifies this`dirty
      ensures !dirty
    {
      dirty := false;
    }

    /** `getInventory`: creates the backing inventory when there is none and
        otherwise returns the one already there. */
    method GetInventory() returns (inv: array<Slot>)
      requires Valid()
      modifies this`inventory
      ensures Valid() && inv == inventory
      ensures old(inventory) != null ==> inv == old(inventory)
      ensures old(inventory) == null ==> fresh(inv) && inv[..] == EmptySlots(TopSize)
    {
      if inventory == null {
        inventory := CreateInventory();
      }
      inv := inventory;
    }

    /** The clear-and-display step of `show`: clears the backing inventory, then displays the
        ingredient at slot 0, the fuel at slot 1 and the output at slot 2, so
        that every top slot shows the cell a click on it is delivered to. */
    method DisplayTop(top: array<Slot>)
      requires Valid() && top == inventory
      modifies top
      ensures forall s :: 0 <= s < TopSize ==> top[s] == CellAt(Click(s))
    {
      ClearSlots(top);
      ingredient.Display(top, IngredientOffset);
      fuel.Display(top, FuelOffset);
      output.Display(top, OutputOffset);
    }

    /** `show`: recreates the backing inventory if dirty, displays the top
        components into it and hands the player-inventory component to the
        viewer. */
    method Show(viewer: HumanEntity)
      requires Valid()
      requires viewer.inventory !in Repr() && playerInventory.cells.Length <= viewer.inventory.Length
      modifies this`inventory, this`dirty, inventory, cache, viewer.inventory
      ensures Valid()
      ensures !dirty && inventory != null
      ensures old(dirty) || old(inventory) == null ==> fresh(inventory)
      ensures old(dirty) && old(inventory) != null ==> unchanged(old(inventory))
      ensures !old(dirty) && old(inventory) != null ==> inventory == old(inventory)
      ensures forall s :: 0 <= s < TopSize ==> inventory[s] == CellAt(Click(s))
      ensures cache.stored == StoredAfter(old(cache.stored), viewer, old(viewer.inventory[..]),
                                          playerInventory.Occupied())
      ensures viewer.inventory[..] == InventoryAfter(old(cache.stored), viewer, old(viewer.inventory[..]),
                                                     playerInventory.Occupied(), playerInventory.cells[..])
    {
      if dirty {
        inventory := CreateInventory();
        MarkChanges();
      }
      var top := GetInventory();
      DisplayTop(top);
      PlacePlayerItems(playerInventory, cache, viewer);
    }

    /** `copy`: a new gui whose four components are fresh copies of these and
        whose handlers are the very same objects. */
    method Copy() returns (gui: BlastFurnaceGui)
      requires Valid()
      ensures gui.Valid() && fresh(gui.Repr())
      ensures gui.ingredient.cells[..] == ingredient.cells[..] && gui.fuel.cells[..] == fuel.cells[..]
      ensures gui.output.cells[..] == output.cells[..]
      ensures gui.playerInventory.cells[..] == playerInventory.cells[..]
      ensures gui.handlers == handlers
      ensures gui.inventory == null && !gui.dirty && gui.cache.stored == map[]
    {
      var ingredientCopy := ingredient.Copy();
      var fuelCopy := fuel.Copy();
      var outputCopy := output.Copy();
      var playerInventoryCopy := playerInventory.Copy();
      gui := new BlastFurnaceGui.WithComponents(ingredientCopy, fuelCopy, outputCopy, playerInventoryCopy,
                                                handlers);
    }
  }

  /** Clearing every component of a copy leaves every component of the
      original as it was. */
  method CopyIsIndependent(gui: BlastFurnaceGui) returns (copy: BlastFurnaceGui)
    requires gui.Valid()
    ensures copy.ingredient.cells[..] == EmptySlots(1)
    ensures copy.fuel.cells[..] == EmptySlots(1)
    ensures copy.output.cells[..] == EmptySlots(1)
    ensures copy.playerInventory.cells[..] == EmptySlots(Size(PlayerInventory))
    ensures gui.ingredient.cells[..] == old(gui.ingredient.cells[..])
    ensures gui.fuel.cells[..] == old(gui.fuel.cells[..])
    ensures gui.output.cells[..] == old(gui.output.cells[..])
    ensures gui.playerInventory.cells[..] == old(gui.playerInventory.cells[..])
  {
    copy := gui.Copy();
    copy.ingredient.Clear();
    copy.fuel.Clear();
    copy.output.Clear();
    copy.playerInventory.Clear();
  }
}
