/**
 * Values shared by every GUI: the items a slot can hold, the exceptions the
 * GUIs and panes throw, and where a click is delivered.
 */
module Slots {

  /** An item stack owned by the host server; only its identity matters here. */
  datatype Item = Item(id: nat)

  datatype Option<+T> = None | Some(value: T)

  /** A cell of a component grid or of a host inventory: empty or one item. */
  type Slot = Option<Item>

  /** The exceptions thrown by `show` and `setRotation`. */
  datatype Error = IllegalArgument | UnsupportedOperation

  /** The outcome of an operation that returns nothing or throws. */
  datatype Outcome = Pass | Fail(error: Error)

  /** The outcome of an operation that returns a value or throws. */
  datatype Result<+T> = Ok(value: T) | Err(error: Error)

  /**
   * Where a click on a raw slot is delivered: the component (named by a GUI's
   * own part type) and the local slot index inside it, as passed to
   * `InventoryComponent.click`.
   */
  datatype Delivery<P> = Delivery(part: P, local: int)

  /** `n` empty slots, the content of a cleared or freshly created inventory. */
  function EmptySlots(n: nat): (s: seq<Slot>)
    ensures |s| == n
    ensures forall i :: 0 <= i < n ==> s[i] == None
  {
    seq(n, _ => None)
  }
}
