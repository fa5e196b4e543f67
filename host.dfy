/**
 * The host objects a GUI talks to, reduced to the state the GUIs touch: the
 * click and close callbacks (held only by reference), the viewer and its
 * inventory, and the cache in which a viewer's own inventory is kept while
 * the GUI's player-inventory component is shown in its place.
 */
module Host {
  import opened Slots
  import opened Grid

  /** A click or close callback; GUIs store and share it by reference. */
  class Handler {
    constructor ()
    {
    }
  }

  /** The five callbacks of a gui: top, bottom, global and outside click, and
      close; each may be unset. */
  datatype Handlers = Handlers(onTopClick: Handler?, onBottomClick: Handler?, onGlobalClick: Handler?,
                               onOutsideClick: Handler?, onClose: Handler?)

  const NoHandlers := Handlers(null, null, null, null, null)

  /** A human entity that can view an inventory; only players may open a
      grindstone. `inventory` is the entity's own inventory. */
  class HumanEntity {
    const isPlayer: bool
    const inventory: array<Slot>

    constructor (isPlayer: bool, inventorySize: nat)
      ensures this.isPlayer == isPlayer && inventory.Length == inventorySize
      ensures fresh(inventory) && inventory[..] == EmptySlots(inventorySize)
    {
      this.isPlayer := isPlayer;
      inventory := new Slot[inventorySize](_ => None);
    }
  }

  /** `HumanEntityCache`: the inventories of viewers that were stored away
      before a GUI replaced them, keyed by viewer. */
  class HumanEntityCache {
    var stored: map<HumanEntity, seq<Slot>>

    constructor ()
      ensures stored == map[]
    {
      stored := map[];
    }

    /** `contains`: the viewer's inventory is already stored. */
    predicate Contains(viewer: HumanEntity): (b: bool)
      reads this
      ensures b <==> viewer in stored.Keys
      ensures b ==> forall before, used :: StoredAfter(stored, viewer, before, used) == stored
    {
      viewer in stored
    }

    /** `storeAndClear`: keeps a snapshot of the viewer's inventory and then
        empties that inventory. */
    method StoreAndClear(viewer: HumanEntity)
      modifies this, viewer.inventory
      ensures stored == old(stored)[viewer := old(viewer.inventory[..])]
      ensures viewer.inventory[..] == EmptySlots(viewer.inventory.Length)
    {
      stored := stored[viewer := viewer.inventory[..]];
      ClearSlots(viewer.inventory);
    }
  }

  /** The cache after `show` has handled a viewer: a viewer not yet cached is
      stored exactly when the player-inventory component holds an item. */
  function StoredAfter(stored: map<HumanEntity, seq<Slot>>, viewer: HumanEntity,
                       before: seq<Slot>, used: bool): map<HumanEntity, seq<Slot>>
  {
    if used && viewer !in stored then stored[viewer := before] else stored
  }

  /** The viewer's inventory after `show`: when the player-inventory component
      is used, the grid is placed at slot 0 over the inventory, which was first
      emptied unless the viewer had already been cached. */
  function InventoryAfter(stored: map<HumanEntity, seq<Slot>>, viewer: HumanEntity,
                          before: seq<Slot>, used: bool, grid: seq<Slot>): seq<Slot>
    requires |grid| <= |before|
  {
    if !used then before
    else Overlay(if viewer in stored then before else EmptySlots(|before|), 0, grid)
  }

  /** A stored inventory is never overwritten, and a viewer is stored only
      when the component is used and the viewer was not cached. */
  lemma StoredAfterKeepsSnapshots(stored: map<HumanEntity, seq<Slot>>, viewer: HumanEntity,
                                  before: seq<Slot>, used: bool)
    ensures forall h :: h in stored ==> h in StoredAfter(stored, viewer, before, used)
                                         && StoredAfter(stored, viewer, before, used)[h] == stored[h]
    ensures StoredAfter(stored, viewer, before, used) != stored <==> used && viewer !in stored
  {
    if used && viewer !in stored {
      assert viewer in StoredAfter(stored, viewer, before, used);
    }
  }

  /** The player-inventory step of `show`: when the player-inventory component
      holds an item, store and clear the viewer's inventory unless the cache
      already has it, then place the component's items into it. */
  method PlacePlayerItems(component: InventoryComponent, cache: HumanEntityCache, viewer: HumanEntity)
    requires component.cells.Length <= viewer.inventory.Length && viewer.inventory != component.cells
    modifies cache, viewer.inventory
    ensures cache.stored == StoredAfter(old(cache.stored), viewer, old(viewer.inventory[..]),
                                        component.Occupied())
    ensures viewer.inventory[..] == InventoryAfter(old(cache.stored), viewer, old(viewer.inventory[..]),
                                                   component.Occupied(), component.cells[..])
  {
    var used := component.HasItem();
    if used {
      if !cache.Contains(viewer) {
        cache.StoreAndClear(viewer);
      }
      component.Display(viewer.inventory, 0);
    }
  }
}
