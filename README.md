# Slot layout and click routing of popcorn's fixed-layout GUIs

This project models, in Dafny, the part of the popcorn inventory library that
does not depend on the game server: how the grindstone, blast furnace and
crafter GUIs lay their item grids ("components") out in one flat raw-slot
space, how a click on a raw slot is routed to a component and a local slot,
how `show` fills the host's top inventory from the components (recreating it
when the GUI is dirty, and swapping the viewer's own inventory out when the
player-inventory component is used), how `copy` and the lazy `getInventory`
behave, and the documented contract of `Rotatable` panes.

Layout of the files:

- `slots.dfy` (module `Slots`): items, slots (`Option<Item>`), the exceptions
  (`IllegalArgument`, `UnsupportedOperation`), and `Delivery`, the place a
  click is delivered to.
- `grid.dfy` (module `Grid`): `InventoryComponent`, a `length` x `height`
  grid stored row by row in an array, with `hasItem`, `clear`, `copy` and
  `display` (write the grid into a host inventory at an origin offset), and
  the row-major addressing of its cells.
- `host.dfy` (module `Host`): the host objects the GUIs touch: handlers (held
  by reference), the viewer and its inventory, the `HumanEntityCache`, and the
  step of `show` shared by all three GUIs that stores the viewer's inventory
  and places the player-inventory component into it.
- `grindstone.dfy`, `blast_furnace.dfy`, `crafter.dfy` (modules `Grindstone`,
  `BlastFurnace`, `Crafter`): one class per GUI with its components, backing
  inventory, dirty flag, cache and handlers; `Click` routing as a function
  with its inverse `RawSlotOf`.
- `rotatable.dfy` (module `Rotation`): a `RotatablePane` class with a
  `rotation` field and the normalisation of a rotation.

The host inventory is an array of optional items. `InventoryComponent`
belongs to the underlying GUI library and is modelled as the grid described
above. The host inventory sizes (3 for the grindstone and the blast furnace,
9 for the crafter) are the sizes of the server's inventory types, taken as
given. A click is modelled by where it is delivered, not by what the
component then does with it.

Two consequences of following the code closely:

- `click` has no out-of-range case: every raw slot that is not a top slot,
  negative ones included, goes to the player-inventory component at
  `rawSlot - 3` (`rawSlot - 9` for the crafter). `Click` is therefore total;
  its contract states that a raw slot lies in the view exactly when the
  delivered local index is a cell of the component.
- `display` is modelled as writing every cell, empty ones included; `show`
  clears the top inventory first, so the resulting top inventory is the same
  as when only non-empty cells are written.

## Model

| member | source | states |
|---|---|---|
| `Grid.InventoryComponent.constructor` | popcorn/src/main/java/dev/kokiriglade/popcorn/inventory/gui/type/GrindstoneGui.java:36-48 | a new component has the given width and height, `width * height` cells, all empty |
| `Grid.InventoryComponent.HasItem` | popcorn/src/main/java/dev/kokiriglade/popcorn/inventory/gui/type/GrindstoneGui.java:95 | `hasItem` is true exactly when some cell holds an item |
| `Grid.InventoryComponent.Clear` | popcorn/src/main/java/dev/kokiriglade/popcorn/inventory/gui/type/GrindstoneGui.java:116-118 | every cell of the grid is empty afterwards; used to show that mutating a copy leaves the original alone |
| `Grid.InventoryComponent.Copy` | popcorn/src/main/java/dev/kokiriglade/popcorn/inventory/gui/type/GrindstoneGui.java:116-118 | the copy is a new object with new storage, the same dimensions and the same items |
| `Grid.InventoryComponent.Display` | popcorn/src/main/java/dev/kokiriglade/popcorn/inventory/gui/type/GrindstoneGui.java:91-92 | cell i lands in slot `offset + i` of the host inventory and every other slot keeps its item |
| `Grid.Overlay` | popcorn/src/main/java/dev/kokiriglade/popcorn/inventory/gui/type/GrindstoneGui.java:91-92 | slot i of the result is grid cell `i - offset` inside the window `[offset, offset + size)` and the base slot outside it; the length is unchanged |
| `Grid.ClearSlots` | popcorn/src/main/java/dev/kokiriglade/popcorn/inventory/gui/type/GrindstoneGui.java:89 | `Inventory.clear` leaves every slot empty |
| `Grid.IndexCoordinates` | popcorn/src/main/java/dev/kokiriglade/popcorn/inventory/gui/type/GrindstoneGui.java:248-250 | cell (x, y) of a grid has a row-major index below the grid's size, and that index denotes (x, y) again |
| `Grid.CoordinatesIndex` | popcorn/src/main/java/dev/kokiriglade/popcorn/inventory/gui/type/GrindstoneGui.java:134 | every local index below the grid's size denotes a cell of the grid whose index is that local index |
| `Grid.InventoryComponent.GetItem` | popcorn/src/main/java/dev/kokiriglade/popcorn/inventory/gui/type/GrindstoneGui.java:248-250 | the item at (x, y) of an in-range cell; any item read there makes `hasItem` true |
| `Grid.GetItemReachesEveryCell` | popcorn/src/main/java/dev/kokiriglade/popcorn/inventory/gui/type/GrindstoneGui.java:248-250 | every stored cell is the item `getItem` returns at the coordinates its index denotes, and those coordinates lie in the grid |
| `Host.HumanEntityCache.constructor` | popcorn/src/main/java/dev/kokiriglade/popcorn/inventory/gui/type/GrindstoneGui.java:96 | a new cache holds no stored inventories |
| `Host.HumanEntityCache.Contains` | popcorn/src/main/java/dev/kokiriglade/popcorn/inventory/gui/type/GrindstoneGui.java:98 | true exactly when a snapshot is stored for the viewer; once it is, the store step of `show` leaves the cache as it is |
| `Host.HumanEntityCache.StoreAndClear` | popcorn/src/main/java/dev/kokiriglade/popcorn/inventory/gui/type/GrindstoneGui.java:98-100 | the viewer's inventory is kept as a snapshot under the viewer and then emptied |
| `Host.StoredAfterKeepsSnapshots` | popcorn/src/main/java/dev/kokiriglade/popcorn/inventory/gui/type/GrindstoneGui.java:95-100 | `show` never overwrites a stored inventory, and it changes the cache exactly when the player component is used and the viewer is not yet cached |
| `Host.PlacePlayerItems` | popcorn/src/main/java/dev/kokiriglade/popcorn/inventory/gui/type/GrindstoneGui.java:95-103 | the same step in all three GUIs (BlastFurnaceGui.java:83-91, CrafterGui.java:73-81): only when the player component has an item is the viewer stored-and-cleared (if not cached) and the component placed into the viewer's inventory; otherwise cache and viewer are untouched |
| `Grindstone.Click` | popcorn/src/main/java/dev/kokiriglade/popcorn/inventory/gui/type/GrindstoneGui.java:129-140 | a raw slot is in 0..38 exactly when its delivery is a cell of the target component, and only slots 0..2 reach a top component |
| `Grindstone.RawSlotOf` | popcorn/src/main/java/dev/kokiriglade/popcorn/inventory/gui/type/GrindstoneGui.java:130-139 | every cell of the three components is reached by a raw slot in 0..38: items cells by 0 and 1, the result by 2, player cell i by `i + 3` |
| `Grindstone.ClickIsBijective` | popcorn/src/main/java/dev/kokiriglade/popcorn/inventory/gui/type/GrindstoneGui.java:130-139 | `RawSlotOf` undoes `Click` on 0..38, so the 39 raw slots and the 39 cells correspond one to one |
| `Grindstone.DisplayOffsetsMatchClick` | popcorn/src/main/java/dev/kokiriglade/popcorn/inventory/gui/type/GrindstoneGui.java:91-92 | displaying the items at 0 and the result at 2 puts each cell on the raw slot whose clicks reach it; 2 + 1 + 36 slots tile 0..38 |
| `Grindstone.GrindstoneGui.constructor` | popcorn/src/main/java/dev/kokiriglade/popcorn/inventory/gui/type/GrindstoneGui.java:36-64 | a 1 x 2 items, 1 x 1 result and 9 x 4 player component, all empty, no backing inventory, not dirty |
| `Grindstone.GrindstoneGui.WithComponents` | popcorn/src/main/java/dev/kokiriglade/popcorn/inventory/gui/type/GrindstoneGui.java:114-124 | a gui holding exactly the given components and handlers, with an empty cache and no backing inventory |
| `Grindstone.GrindstoneGui.TopItems` | popcorn/src/main/java/dev/kokiriglade/popcorn/inventory/gui/type/GrindstoneGui.java:246-252 | three items, and item s is the cell that a click on raw slot s is delivered to |
| `Grindstone.GrindstoneGui.IsPlayerInventoryUsed` | popcorn/src/main/java/dev/kokiriglade/popcorn/inventory/gui/type/GrindstoneGui.java:152-156 | true exactly when the player component holds an item |
| `Grindstone.GrindstoneGui.CreateInventory` | popcorn/src/main/java/dev/kokiriglade/popcorn/inventory/gui/type/GrindstoneGui.java:161-163 | a new, empty three-slot host inventory |
| `Grindstone.GrindstoneGui.MarkChanges` | popcorn/src/main/java/dev/kokiriglade/popcorn/inventory/gui/type/GrindstoneGui.java:86 | the dirty flag is cleared |
| `Grindstone.GrindstoneGui.GetInventory` | popcorn/src/main/java/dev/kokiriglade/popcorn/inventory/gui/type/GrindstoneGui.java:144-150 | a new inventory only when there is none; otherwise the same object, so later calls return it again |
| `Grindstone.GrindstoneGui.DisplayTop` | popcorn/src/main/java/dev/kokiriglade/popcorn/inventory/gui/type/GrindstoneGui.java:89-92 | after clearing and displaying, the top inventory equals `getTopItems` |
| `Grindstone.GrindstoneGui.Show` | popcorn/src/main/java/dev/kokiriglade/popcorn/inventory/gui/type/GrindstoneGui.java:79-107 | a non-player gets `IllegalArgumentException` and nothing changes; otherwise the inventory is recreated only if dirty, dirty is cleared, the top inventory equals `getTopItems`, which is what the host grindstone is opened with, and cache and viewer follow `PlacePlayerItems` |
| `Grindstone.GrindstoneGui.Copy` | popcorn/src/main/java/dev/kokiriglade/popcorn/inventory/gui/type/GrindstoneGui.java:113-127 | a new gui whose components are new objects with the same items and whose handlers are the same references |
| `Grindstone.GrindstoneGui.HandleClickEvent` | popcorn/src/main/java/dev/kokiriglade/popcorn/inventory/gui/type/GrindstoneGui.java:174-187 | the top items are resent exactly for raw slots whose click reaches a cell (0..38); the top items are sent once, first, and the only other action is one cursor clear, exactly for a cancelled click on a top slot |
| `Grindstone.CopyIsIndependent` | popcorn/src/main/java/dev/kokiriglade/popcorn/inventory/gui/type/GrindstoneGui.java:116-118 | clearing all three of the copy's components (items, result, player inventory) leaves each of the original's components with the cells it had |
| `BlastFurnace.Click` | popcorn/src/main/java/dev/kokiriglade/popcorn/inventory/gui/type/BlastFurnaceGui.java:115-128 | a raw slot is in 0..38 exactly when its delivery is a cell of the target component, and only slots 0..2 reach a top component |
| `BlastFurnace.RawSlotOf` | popcorn/src/main/java/dev/kokiriglade/popcorn/inventory/gui/type/BlastFurnaceGui.java:116-127 | every cell is reached by a raw slot in 0..38: ingredient by 0, fuel by 1, output by 2, player cell i by `i + 3` |
| `BlastFurnace.ClickIsBijective` | popcorn/src/main/java/dev/kokiriglade/popcorn/inventory/gui/type/BlastFurnaceGui.java:116-127 | `RawSlotOf` undoes `Click` on 0..38, so raw slots and the 39 cells correspond one to one |
| `BlastFurnace.DisplayOffsetsMatchClick` | popcorn/src/main/java/dev/kokiriglade/popcorn/inventory/gui/type/BlastFurnaceGui.java:78-80 | displaying ingredient, fuel and output at 0, 1 and 2 puts each on the slot whose clicks reach it; 1 + 1 + 1 + 36 slots tile 0..38 |
| `BlastFurnace.BlastFurnaceGui.constructor` | popcorn/src/main/java/dev/kokiriglade/popcorn/inventory/gui/type/BlastFurnaceGui.java:30-55 | three 1 x 1 components and a 9 x 4 player component, all empty, no backing inventory, not dirty |
| `BlastFurnace.BlastFurnaceGui.WithComponents` | popcorn/src/main/java/dev/kokiriglade/popcorn/inventory/gui/type/BlastFurnaceGui.java:99-110 | a gui holding exactly the given components and handlers, with an empty cache and no backing inventory |
| `BlastFurnace.BlastFurnaceGui.IsPlayerInventoryUsed` | popcorn/src/main/java/dev/kokiriglade/popcorn/inventory/gui/type/BlastFurnaceGui.java:139-143 | true exactly when the player component holds an item |
| `BlastFurnace.BlastFurnaceGui.CreateInventory` | popcorn/src/main/java/dev/kokiriglade/popcorn/inventory/gui/type/BlastFurnaceGui.java:145-149 | a new, empty three-slot host inventory |
| `BlastFurnace.BlastFurnaceGui.MarkChanges` | popcorn/src/main/java/dev/kokiriglade/popcorn/inventory/gui/type/BlastFurnaceGui.java:73 | the dirty flag is cleared |
| `BlastFurnace.BlastFurnaceGui.GetInventory` | popcorn/src/main/java/dev/kokiriglade/popcorn/inventory/gui/type/BlastFurnaceGui.java:130-137 | a new inventory only when there is none; otherwise the same object |
| `BlastFurnace.BlastFurnaceGui.DisplayTop` | popcorn/src/main/java/dev/kokiriglade/popcorn/inventory/gui/type/BlastFurnaceGui.java:76-80 | after clearing and displaying, top slot s holds the cell that a click on raw slot s is delivered to |
| `BlastFurnace.BlastFurnaceGui.Show` | popcorn/src/main/java/dev/kokiriglade/popcorn/inventory/gui/type/BlastFurnaceGui.java:69-94 | the inventory is recreated only if dirty, dirty is cleared, top slot s holds the cell clicks on s reach, and cache and viewer follow `PlacePlayerItems` |
| `BlastFurnace.BlastFurnaceGui.Copy` | popcorn/src/main/java/dev/kokiriglade/popcorn/inventory/gui/type/BlastFurnaceGui.java:96-113 | the four components are new objects with the same items; the handlers are the same references |
| `BlastFurnace.CopyIsIndependent` | popcorn/src/main/java/dev/kokiriglade/popcorn/inventory/gui/type/BlastFurnaceGui.java:101-104 | clearing all four of the copy's components (ingredient, fuel, output, player inventory) leaves each of the original's components with the cells it had |
| `Crafter.Click` | popcorn/src/main/java/dev/kokiriglade/popcorn/inventory/gui/type/CrafterGui.java:104-113 | a raw slot is in 0..44 exactly when its delivery is a cell of the target component, and only slots 0..8 reach the input |
| `Crafter.RawSlotOf` | popcorn/src/main/java/dev/kokiriglade/popcorn/inventory/gui/type/CrafterGui.java:105-112 | every cell is reached by a raw slot in 0..44: input cell i by i, player cell i by `i + 9` |
| `Crafter.ClickIsBijective` | popcorn/src/main/java/dev/kokiriglade/popcorn/inventory/gui/type/CrafterGui.java:105-112 | `RawSlotOf` undoes `Click` on 0..44, so raw slots and the 45 cells correspond one to one |
| `Crafter.DisplayOffsetsMatchClick` | popcorn/src/main/java/dev/kokiriglade/popcorn/inventory/gui/type/CrafterGui.java:68-70 | the 3 x 3 input displayed at 0 fills exactly slots 0..8, the ones routed to it; the 9 x 4 player component fills 9..44 |
| `Crafter.CrafterGui.constructor` | popcorn/src/main/java/dev/kokiriglade/popcorn/inventory/gui/type/CrafterGui.java:31-47 | a 3 x 3 input and a 9 x 4 player component, both empty, no backing inventory, not dirty |
| `Crafter.CrafterGui.WithComponents` | popcorn/src/main/java/dev/kokiriglade/popcorn/inventory/gui/type/CrafterGui.java:90-99 | a gui holding exactly the given components and handlers, with an empty cache and no backing inventory |
| `Crafter.CrafterGui.IsPlayerInventoryUsed` | popcorn/src/main/java/dev/kokiriglade/popcorn/inventory/gui/type/CrafterGui.java:125-129 | true exactly when the player component holds an item |
| `Crafter.CrafterGui.CreateInventory` | popcorn/src/main/java/dev/kokiriglade/popcorn/inventory/gui/type/CrafterGui.java:131-140 | a new, empty nine-slot host inventory |
| `Crafter.CrafterGui.MarkChanges` | popcorn/src/main/java/dev/kokiriglade/popcorn/inventory/gui/type/CrafterGui.java:65 | the dirty flag is cleared |
| `Crafter.CrafterGui.GetInventory` | popcorn/src/main/java/dev/kokiriglade/popcorn/inventory/gui/type/CrafterGui.java:115-123 | a new inventory only when there is none; otherwise the same object |
| `Crafter.CrafterGui.DisplayTop` | popcorn/src/main/java/dev/kokiriglade/popcorn/inventory/gui/type/CrafterGui.java:68-70 | after clearing and displaying, the top inventory equals the input grid, and top slot s holds the cell clicks on s reach |
| `Crafter.CrafterGui.Show` | popcorn/src/main/java/dev/kokiriglade/popcorn/inventory/gui/type/CrafterGui.java:61-84 | the inventory is recreated only if dirty, dirty is cleared, the top inventory equals the input grid, and cache and viewer follow `PlacePlayerItems` |
| `Crafter.CrafterGui.Copy` | popcorn/src/main/java/dev/kokiriglade/popcorn/inventory/gui/type/CrafterGui.java:86-102 | input and player components are new objects with the same items; the handlers are the same references |
| `Crafter.CopyIsIndependent` | popcorn/src/main/java/dev/kokiriglade/popcorn/inventory/gui/type/CrafterGui.java:92-93 | clearing both of the copy's components (input, player inventory) leaves each of the original's components with the cells it had |
| `Rotation.Normalize` | popcorn/src/main/java/dev/kokiriglade/popcorn/inventory/pane/Rotatable.java:13-16 | the stored rotation lies in [0, 360), is the same turn modulo 360, and stays a multiple of 90 |
| `Rotation.NormalizeIsUnique` | popcorn/src/main/java/dev/kokiriglade/popcorn/inventory/pane/Rotatable.java:13-16 | no other value in [0, 360) is the same turn, so the normalised value is determined |
| `Rotation.RotatablePane.constructor` | popcorn/src/main/java/dev/kokiriglade/popcorn/inventory/pane/Rotatable.java:26-31 | a pane starts with no rotation, so `getRotation` gives 0 |
| `Rotation.RotatablePane.SetRotation` | popcorn/src/main/java/dev/kokiriglade/popcorn/inventory/pane/Rotatable.java:12-24 | a non-square pane throws `UnsupportedOperationException`, a value not divisible by 90 throws `IllegalArgumentException`, both without change; otherwise the normalised value is stored |
| `Rotation.RotatablePane.GetRotation` | popcorn/src/main/java/dev/kokiriglade/popcorn/inventory/pane/Rotatable.java:26-34 | a read-only accessor whose value is a quarter turn in [0, 360), and 0 for a pane that cannot rotate |
| `Rotation.DocumentedExamples` | popcorn/src/main/java/dev/kokiriglade/popcorn/inventory/pane/Rotatable.java:13-21 | 450 is stored as 90, 1080 as 0, 45 is refused, and a 2 x 3 pane refuses 90 and reports 0 |

## Left out

- Titles (`Component`), the owning `Plugin`, viewer lists and counts (`getViewers`, `getViewerCount`), `addInventory` and opening the inventory on the client (`humanEntity.openInventory`, `GrindstoneInventoryImpl.openInventory`): host I/O. The grindstone's `Show` returns the top items it would open the host grindstone with instead.
- `InventoryComponent.display()` without arguments, which renders the component's panes into its own grid: panes are not part of this model, so the grid is taken as already rendered.
- What a component does with a delivered click (`InventoryComponent.click`): not part of this model; only the routing is.
- `InventoryComponent.placeItems` into the viewer's inventory: modelled as the same row-major copy at slot 0 as `display`; any other mapping the host uses for the player's rows is not modelled.
- `Grid.InventoryComponent.GetItem`: requires the cell to exist; the behaviour of `InventoryComponent.getItem` on a cell outside the grid is not part of this model.
- `HumanEntityCache` internals: the cache is a map from viewer to a snapshot of the viewer's inventory.
- `markChanges` and the dirty flag live in the base gui class, which is not part of this model: `markChanges` is taken to clear the flag, a new gui is taken to be clean, and what sets the flag (a title change, for one) is not modelled.
- `Grindstone.GrindstoneGui.Show`, `BlastFurnace.BlastFurnaceGui.Show`, `Crafter.CrafterGui.Show`: require the viewer's inventory to hold at least the 36 cells of the player component and to be distinct from the gui's own storage, which the host guarantees for a player.
- `Grindstone.GrindstoneGui.Copy`, `BlastFurnace.BlastFurnaceGui.Copy`, `Crafter.CrafterGui.Copy`: build the new gui from the copied components in one constructor call rather than by assigning fields after construction; the resulting state is the same.
- Handlers are grouped into one `Handlers` value of five references; the model does not distinguish setting them one by one.
- The rotation transform itself (which cell is read through a rotated pane, its direction) is implemented by the concrete panes, which are not modelled.
- `Rotation.RotatablePane.SetRotation`: the Javadoc of `Rotatable.setRotation` does not say which exception wins when a non-square pane gets a value not divisible by 90; the model checks squareness first. It also only describes normalising values above 360; negative values are normalised into [0, 360) as well (a Java `%` would leave -90 as -90).
- The clicker of `handleClickEvent`: the source casts it to a player before looking at the slot, so a click by a non-player entity fails with a `ClassCastException` on every slot; the model takes the clicker to be a player and does not model that failure.
- Concurrency: the library runs on the server's main thread; nothing here is concurrent.
