/**
 * The documented contract of `Rotatable` panes: a rotation is a whole number
 * of quarter turns, stored normalised into [0, 360), and only square panes
 * accept one.
 */
module Rotation {
  import opened Slots
  import opened Grid

  /** The stored form of a rotation: the same turn, as degrees in [0, 360).
      A whole number of quarter turns stays one. */
  function Normalize(degrees: int): (r: int)
    ensures 0 <= r < 360
    ensures (degrees - r) % 360 == 0
    ensures degrees % 90 == 0 ==> r % 90 == 0
  {
    RemainderFacts(degrees);
    degrees % 360
  }

  lemma RemainderFacts(degrees: int)
    ensures (degrees - degrees % 360) % 360 == 0
    ensures degrees % 90 == 0 ==> (degrees % 360) % 90 == 0
  {
    var r, q := degrees % 360, degrees / 360;
    DivModUnique(degrees - r, 360, q, 0);
    if degrees % 90 == 0 {
      DivModUnique(r, 90, degrees / 90 - 4 * q, 0);
    }
  }

  /** `Normalize` is the only value in [0, 360) a turn of `degrees` can be
      stored as. */
  lemma NormalizeIsUnique(degrees: int, r: int)
    requires 0 <= r < 360 && (degrees - r) % 360 == 0
    ensures r == Normalize(degrees)
  {
    DivModUnique(degrees, 360, (degrees - r) / 360, r);
  }

  /** A pane that may be rotated (`Rotatable`), with its dimensions. */
  class RotatablePane {
    const length: nat
    const height: nat
    var rotation: int

    ghost predicate Valid()
      reads this
    {
      0 <= rotation < 360 && rotation % 90 == 0 && (length != height ==> rotation == 0)
    }

    /** A pane with no rotation set. */
    constructor (length: nat, height: nat)
      ensures Valid() && this.length == length && this.height == height
      ensures rotation == 0
    {
      this.length, this.height := length, height;
      rotation := 0;
    }

    /** `setRotation`: a non-square pane throws `UnsupportedOperationException`
        and a rotation that is not a multiple of 90 throws
        `IllegalArgumentException`, both leaving the rotation as it was;
        otherwise the rotation becomes the normalised value. */
    method SetRotation(degrees: int) returns (o: Outcome)
      requires Valid()
      modifies this`rotation
      ensures Valid()
      ensures length != height ==> o == Fail(UnsupportedOperation)
      ensures length == height && degrees % 90 != 0 ==> o == Fail(IllegalArgument)
      ensures length == height && degrees % 90 == 0 ==> o == Pass
      ensures o.Fail? ==> rotation == old(rotation)
      ensures o.Pass? ==> rotation == Normalize(degrees)
    {
      if length != height {
        return Fail(UnsupportedOperation);
      }
      if degrees % 90 != 0 {
        return Fail(IllegalArgument);
      }
      rotation := Normalize(degrees);
      o := Pass;
    }

    /** `getRotation`: always a quarter turn in [0, 360), and 0 for a pane that
        cannot be rotated. */
    function GetRotation(): (r: int)
      reads this
      requires Valid()
      ensures 0 <= r < 360 && r % 90 == 0
      ensures length != height ==> r == 0
    {
      rotation
    }
  }

  /** The examples the contract documents: 450 degrees is stored as 90 and
      1080 as 0; 45 degrees is refused; a 2 x 3 pane refuses any rotation and
      reports 0. */
  method DocumentedExamples()
    returns (r450: int, r1080: int, o45: Outcome, oNonSquare: Outcome, rNonSquare: int)
    ensures r450 == 90 && r1080 == 0
    ensures o45 == Fail(IllegalArgument)
    ensures oNonSquare == Fail(UnsupportedOperation) && rNonSquare == 0
  {
    var square := new RotatablePane(3, 3);
    var o := square.SetRotation(450);
    r450 := square.GetRotation();
    o := square.SetRotation(1080);
    r1080 := square.GetRotation();
    o45 := square.SetRotation(45);
    var wide := new RotatablePane(2, 3);
    oNonSquare := wide.SetRotation(90);
    rNonSquare := wide.GetRotation();
  }
}
