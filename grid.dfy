/**
 * The fixed-size item grid every GUI is built from (`InventoryComponent`),
 * with the operations the GUIs use: reading a cell, `hasItem`, `clear`,
 * `copy`, and `display`, which writes the grid into a host inventory at an
 * origin offset.
 */
module Grid {
  import opened Slots

  /** Row-major position of cell (x, y) in a grid `length` cells wide. */
  function Index(length: nat, x: nat, y: nat): nat
  {
    y * length + x
  }

  /** The cell (x, y) a local slot index denotes in a grid `length` cells wide. */
  function Coordinates(length: nat, index: nat): (xy: (nat, nat))
    requires length > 0
    ensures xy.0 < length
  {
    (index % length, index / length)
  }

  lemma MulAtLeast(k: int, d: int)
    requires k >= 1 && d > 0
    ensures k * d >= d
  {
  }

  lemma MulMonotone(a: int, b: int, d: nat)
    requires a >= b
    ensures a * d >= b * d
  {
    assert a * d == b * d + (a - b) * d;
  }

  /** Euclidean division has one quotient and remainder. */
  lemma {:induction false} DivModUnique(n: int, d: int, q: int, r: int)
    requires d > 0 && 0 <= r < d && n == q * d + r
    ensures n / d == q && n % d == r
  {
    var q', r' := n / d, n % d;
    assert (q - q') * d == r' - r;
    if q > q' {
      MulAtLeast(q - q', d);
      assert false;
    } else if q < q' {
      MulAtLeast(q' - q, d);
      assert false;
    }
  }

  /** Every cell of a `length` x `height` grid has an index below its size, and
      reading that index back as coordinates gives the cell again. */
  lemma {:induction false} IndexCoordinates(length: nat, height: nat, x: nat, y: nat)
    requires x < length && y < height
    ensures Index(length, x, y) < length * height
    ensures Coordinates(length, Index(length, x, y)) == (x, y)
  {
    DivModUnique(Index(length, x, y), length, y, x);
    MulAtLeast(height - y, length);
    assert length * height == y * length + (height - y) * length;
  }

  /** Every index below a grid's size denotes a cell of the grid, and that
      cell's index is the index again. */
  lemma {:induction false} CoordinatesIndex(length: nat, height: nat, index: nat)
    requires index < length * height
    ensures length > 0
    ensures Coordinates(length, index).1 < height
    ensures Index(length, Coordinates(length, index).0, Coordinates(length, index).1) == index
  {
    if length == 0 {
      assert false;
    }
    var y := index / length;
    if y >= height {
      MulMonotone(y, height, length);
      assert false;
    }
  }

  /**
   * `base` with `grid` written over it starting at `offset`: what a host
   * inventory holds after a component is displayed into it.
   */
  function Overlay(base: seq<Slot>, offset: nat, grid: seq<Slot>): (r: seq<Slot>)
    requires offset + |grid| <= |base|
    ensures |r| == |base|
    ensures forall i :: 0 <= i < |r| ==>
              r[i] == if offset <= i < offset + |grid| then grid[i - offset] else base[i]
  {
    base[..offset] + grid + base[offset + |grid|..]
  }

  /** Empties every slot of a host inventory (`Inventory.clear`). */
  method ClearSlots(a: array<Slot>)
    modifies a
    ensures a[..] == EmptySlots(a.Length)
  {
    var i := 0;
    while i < a.Length
      invariant 0 <= i <= a.Length
      invariant forall j :: 0 <= j < i ==> a[j] == None
    {
      a[i] := None;
      i := i + 1;
    }
  }

  /** A `length` x `height` grid of optional items, stored row by row. */
  class InventoryComponent {
    const length: nat
    const height: nat
    const cells: array<Slot>

    ghost predicate Valid()
    {
      cells.Length == length * height
    }

    /** A new grid with every cell empty. */
    constructor (length: nat, height: nat)
      ensures Valid() && this.length == length && this.height == height
      ensures fresh(cells) && cells[..] == EmptySlots(length * height)
    {
      this.length, this.height := length, height;
      cells := new Slot[length * height](_ => None);
    }

    /** The item at column x of row y (`getItem(x, y)`). */
    function GetItem(x: nat, y: nat): (s: Slot)
      reads cells
      requires Valid() && x < length && y < height
      ensures s.Some? ==> Occupied()
    {
      IndexCoordinates(length, height, x, y);
      cells[Index(length, x, y)]
    }

    /** Some cell holds an item. */
    ghost predicate Occupied()
      reads cells
    {
      exists i :: 0 <= i < cells.Length && cells[i].Some?
    }

    /** `hasItem`: scans the cells for one that holds an item. */
    method HasItem() returns (b: bool)
      ensures b == Occupied()
    {
      b := false;
      var i := 0;
      while i < cells.Length && !b
        invariant 0 <= i <= cells.Length
        invariant b ==> Occupied()
        invariant !b ==> forall j :: 0 <= j < i ==> cells[j].None?
      {
        b := cells[i].Some?;
        i := i + 1;
      }
    }

    /** `clear`: empties every cell. */
    method Clear()
      modifies cells
      ensures cells[..] == EmptySlots(cells.Length)
    {
      ClearSlots(cells);
    }

    /** `copy`: a new grid of the same dimensions holding the same items and
        sharing no storage with this one. */
    method Copy() returns (c: InventoryComponent)
      requires Valid()
      ensures fresh(c) && fresh(c.cells) && c.Valid()
      ensures c.length == length && c.height == height
      ensures c.cells[..] == cells[..]
    {
      c := new InventoryComponent(length, height);
      var i := 0;
      while i < cells.Length
        invariant 0 <= i <= cells.Length
        invariant forall j :: 0 <= j < i ==> c.cells[j] == cells[j]
      {
        c.cells[i] := cells[i];
        i := i + 1;
      }
    }

    /** `display(inventory, offset)`: writes cell i of the grid into slot
        `offset + i` of the host inventory and leaves every other slot alone. */
    method Display(inventory: array<Slot>, offset: nat)
      requires offset + cells.Length <= inventory.Length && inventory != cells
      modifies inventory
      ensures inventory[..] == Overlay(old(inventory[..]), offset, cells[..])
    {
      var i := 0;
      while i < cells.Length
        invariant 0 <= i <= cells.Length
        invariant forall j :: 0 <= j < inventory.Length ==>
                    inventory[j] == if offset <= j < offset + i then cells[j - offset] else old(inventory[j])
      {
        inventory[offset + i] := cells[i];
        i := i + 1;
      }
    }
  }

  /** `getItem` reaches every cell: each stored slot is the item at the
      coordinates its index denotes. */
  lemma {:induction false} GetItemReachesEveryCell(c: InventoryComponent, i: nat)
    requires c.Valid() && i < c.cells.Length
    ensures c.length > 0
    ensures Coordinates(c.length, i).0 < c.length && Coordinates(c.length, i).1 < c.height
    ensures c.GetItem(Coordinates(c.length, i).0, Coordinates(c.length, i).1) == c.cells[i]
  {
    CoordinatesIndex(c.length, c.height, i);
  }
}
