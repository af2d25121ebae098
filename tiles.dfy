/**
 * A tile of the game as a mutable object: its shape, position and border
 * array are fixed when it is made, while its component, the flags of its
 * border and its power flag change in place. Every operation is specified by
 * the value functions of `TileStates` applied to `State()`.
 */
module Tiles {
  import opened Text
  import opened TileShapes
  import opened Components
  import opened Positions
  import opened TileStates

  class Tile {
    const shape: Shape
    const position: Position
    /** `border[k]` holds when a cable leaves side `k` (sides numbered clockwise from the top). */
    const border: array<bool>
    var component: Component
    var isPowered: bool

    /** The border has exactly one flag per side of the shape. */
    ghost predicate Valid() {
      border.Length == Sides(shape)
    }

    /** The value this tile holds now. */
    function State(): TileState
      reads this, border
    {
      TileState(shape, position, component, border[..], isPowered)
    }

    /** A new tile with no connected side, powered exactly when its component is a source. */
    constructor Of(shape: Shape, position: Position, component: Component)
      ensures Valid() && fresh(border)
      ensures State() == NewTile(shape, position, component)
    {
      this.shape := shape;
      this.position := position;
      this.border := new bool[Sides(shape)](_ => false);
      this.component := component;
      this.isPowered := component == Source;
      new;
      assert border[..] == NoSides(Sides(shape));
    }

    /** A new tile with no component and no connected side. */
    constructor Empty(shape: Shape, position: Position)
      ensures Valid() && fresh(border)
      ensures State() == NewTile(shape, position, Components.Empty)
    {
      this.shape := shape;
      this.position := position;
      this.border := new bool[Sides(shape)](_ => false);
      this.component := Components.Empty;
      this.isPowered := false;
      new;
      assert border[..] == NoSides(Sides(shape));
    }

    /** Replaces the component; the border and the power flag stay as they are. */
    method SetComponent(c: Component)
      modifies this
      ensures State() == WithComponent(old(State()), c)
    {
      component := c;
    }

    /** Whether no side is connected; stops at the first connected side. */
    method IsDisconnected() returns (r: bool)
      ensures r <==> forall k :: 0 <= k < border.Length ==> !border[k]
    {
      var i := 0;
      while i < border.Length
        invariant 0 <= i <= border.Length
        invariant forall k :: 0 <= k < i ==> !border[k]
      {
        if border[i] {
          return false;
        }
        i := i + 1;
      }
      return true;
    }

    /** Whether the tile has no component and no connected side. */
    method IsEmpty() returns (r: bool)
      ensures r == TileStates.IsEmpty(State())
    {
      var disconnected := IsDisconnected();
      r := disconnected && component == Components.Empty;
    }

    /** The number of connected sides. */
    method ConnectedSides() returns (count: nat)
      ensures count == multiset(border[..])[true]
    {
      count := 0;
      var i := 0;
      while i < border.Length
        invariant 0 <= i <= border.Length
        invariant count == multiset(border[..i])[true]
      {
        assert border[..i + 1] == border[..i] + [border[i]];
        if border[i] {
          count := count + 1;
        }
        i := i + 1;
      }
      assert border[..i] == border[..];
    }

    /** The sides that are not connected, in ascending order. */
    method DisconnectedSidesAsIndices() returns (ks: seq<nat>)
      ensures forall k :: k in ks <==> 0 <= k < border.Length && !border[k]
      ensures forall m, l :: 0 <= m < l < |ks| ==> ks[m] < ks[l]
    {
      ks := [];
      var i := 0;
      while i < border.Length
        invariant 0 <= i <= border.Length
        invariant forall k :: k in ks <==> 0 <= k < i && !border[k]
        invariant forall m :: 0 <= m < |ks| ==> ks[m] < i
        invariant forall m, l :: 0 <= m < l < |ks| ==> ks[m] < ks[l]
      {
        if !border[i] {
          ks := ks + [i];
        }
        i := i + 1;
      }
    }

    /** The connected sides written for a level file: a space and the number of each, in ascending order. */
    method BorderLevelFileRepresentation() returns (text: string)
      ensures text == SidesText(Indices(border[..], true))
    {
      ghost var b := border[..];
      text := "";
      var i := 0;
      while i < border.Length
        invariant 0 <= i <= border.Length
        invariant text == SidesText(IndicesBelow(b, true, i))
      {
        SidesTextNext(b, i);
        if border[i] {
          text := text + " " + NatToString(i);
        }
        i := i + 1;
      }
      assert b == border[..];
    }

    /** The cell that describes this tile in a level file. */
    method LevelRep() returns (rep: string)
      ensures rep == TileStates.LevelRep(State())
    {
      rep := Diminutive(component);
      var empty := IsEmpty();
      var disconnected := IsDisconnected();
      if empty || disconnected {
        return;
      }
      var sides := BorderLevelFileRepresentation();
      rep := rep + sides;
    }

    /** Turns the tile one step unless it carries a source. */
    method Rotate()
      requires Valid()
      modifies border
      ensures State() == Rotated(old(State()))
    {
      if Components.CanRotate(component) {
        RotateBorder();
      }
    }

    /** Shifts every flag one side on; the flag of the last side moves to the first. */
    method RotateBorder()
      requires Valid()
      modifies border
      ensures border[..] == RotatedBorder(old(border[..]))
    {
      var n := border.Length;
      var last := border[n - 1];
      var i := n - 1;
      while i > 0
        invariant 0 <= i <= n - 1
        invariant forall k :: i < k < n ==> border[k] == old(border[k - 1])
        invariant forall k :: 0 <= k <= i ==> border[k] == old(border[k])
      {
        border[i] := border[i - 1];
        i := i - 1;
      }
      border[0] := last;
    }

    /** Sets the power flag, which a source ignores. */
    method SetIsPowered(p: bool)
      modifies this
      ensures State() == WithPower(old(State()), p)
    {
      if component != Source {
        isPowered := p;
      }
    }

    /** Removes the component and disconnects every side. */
    method Clear()
      modifies this, border
      ensures State() == Cleared(old(State()))
    {
      component := Components.Empty;
      forall k | 0 <= k < border.Length {
        border[k] := false;
      }
      assert border[..] == NoSides(border.Length);
    }

    /** Sets side `i` to `connect`, telling whether that changed it. */
    method ConnectOrDisconnectAt(connect: bool, i: nat) returns (changed: bool)
      requires i < border.Length
      modifies border
      ensures State() == WithSide(old(State()), i, connect)
      ensures changed <==> old(border[i]) != connect
    {
      var previous := border[i];
      border[i] := connect;
      changed := border[i] != previous;
    }

    /** Connects side `i`, telling whether it was disconnected. */
    method Connect(i: nat) returns (changed: bool)
      requires i < border.Length
      modifies border
      ensures State() == WithSide(old(State()), i, true)
      ensures changed <==> !old(border[i])
    {
      changed := ConnectOrDisconnectAt(true, i);
    }

    /** Disconnects side `i`, telling whether it was connected. */
    method Disconnect(i: nat) returns (changed: bool)
      requires i < border.Length
      modifies border
      ensures State() == WithSide(old(State()), i, false)
      ensures changed <==> old(border[i])
    {
      changed := ConnectOrDisconnectAt(false, i);
    }

    /** Connects every side listed; the other sides keep their flags. */
    method ConnectSides(sides: seq<nat>)
      requires forall k :: 0 <= k < |sides| ==> sides[k] < border.Length
      modifies border
      ensures border[..] == WithSides(old(border[..]), sides)
    {
      var m := 0;
      while m < |sides|
        invariant 0 <= m <= |sides|
        invariant border[..] == WithSides(old(border[..]), sides[..m])
      {
        assert sides[..m + 1] == sides[..m] + [sides[m]];
        border[sides[m]] := true;
        m := m + 1;
      }
      assert sides[..m] == sides;
    }
  }
}
