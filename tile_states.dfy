/**
 * The value of a tile at one moment: its shape, position, component, which of
 * its sides carry a cable, and whether it is powered. The operations of the
 * `Tile` class are specified by the functions of this module.
 */
module TileStates {
  import opened Text
  import opened TileShapes
  import opened Components
  import opened Positions

  datatype TileState = TileState(
    shape: Shape,
    position: Position,
    component: Component,
    border: seq<bool>,
    powered: bool)

  /** A tile has exactly one border flag per side of its shape. */
  predicate WellFormed(t: TileState) {
    |t.border| == Sides(t.shape)
  }

  /** A border of `n` sides none of which is connected. */
  function NoSides(n: nat): (b: seq<bool>)
    ensures |b| == n
  {
    seq(n, _ => false)
  }

  /** No side of the border is connected. */
  predicate IsDisconnected(b: seq<bool>) {
    forall k :: 0 <= k < |b| ==> !b[k]
  }

  /** A tile with no connected side and no component. */
  predicate IsEmpty(t: TileState) {
    IsDisconnected(t.border) && t.component == Empty
  }

  /** A freshly made tile: nothing connected, and powered exactly when it is a source. */
  function NewTile(shape: Shape, position: Position, component: Component): (t: TileState)
    ensures WellFormed(t) && IsDisconnected(t.border)
    ensures t.shape == shape && t.position == position && t.component == component
    ensures t.powered <==> component == Source
  {
    TileState(shape, position, component, NoSides(Sides(shape)), component == Source)
  }

  /** Two tiles are equal when they share position and component; shape, border and power play no part. */
  predicate SameTile(a: TileState, b: TileState) {
    a.position == b.position && a.component == b.component
  }

  /** The indices `k < n` with `b[k] == v`, in ascending order. */
  function IndicesBelow(b: seq<bool>, v: bool, n: nat): (r: seq<nat>)
    requires n <= |b|
    ensures forall k :: k in r <==> 0 <= k < n && b[k] == v
    ensures |r| <= n
    ensures r == [] <==> forall k :: 0 <= k < n ==> b[k] != v
    decreases n
  {
    if n == 0 then [] else IndicesBelow(b, v, n - 1) + (if b[n - 1] == v then [n - 1] else [])
  }

  /** The indices come in ascending order. */
  lemma {:induction false} IndicesBelowAscending(b: seq<bool>, v: bool, n: nat)
    requires n <= |b|
    ensures forall m, l :: 0 <= m < l < |IndicesBelow(b, v, n)| ==> IndicesBelow(b, v, n)[m] < IndicesBelow(b, v, n)[l]
    decreases n
  {
    if n > 0 {
      var prefix := IndicesBelow(b, v, n - 1);
      IndicesBelowAscending(b, v, n - 1);
      assert forall m :: 0 <= m < |prefix| ==> prefix[m] in prefix;
    }
  }

  /** The indices of the sides whose flag is `v`, in ascending order. */
  function Indices(b: seq<bool>, v: bool): (r: seq<nat>) {
    IndicesBelow(b, v, |b|)
  }

  /** Side `i` set to `v`; the method reports a change exactly when the flag was not `v` already. */
  function WithSide(t: TileState, i: nat, v: bool): (r: TileState)
    requires i < |t.border|
    ensures |r.border| == |t.border| && r.border[i] == v
    ensures forall k :: 0 <= k < |t.border| && k != i ==> r.border[k] == t.border[k]
    ensures r.shape == t.shape && r.position == t.position && r.component == t.component && r.powered == t.powered
  {
    t.(border := t.border[i := v])
  }

  /** Every side listed in `sides` connected, the others left as they were. */
  function WithSides(b: seq<bool>, sides: seq<nat>): (r: seq<bool>)
    requires forall k :: 0 <= k < |sides| ==> sides[k] < |b|
    ensures |r| == |b|
    ensures forall k :: 0 <= k < |b| ==> (r[k] <==> b[k] || k in sides)
  {
    seq(|b|, k requires 0 <= k < |b| => b[k] || k in sides)
  }

  /** The border turned one step: each side takes the flag of the side before it, the first that of the last. */
  function RotatedBorder(b: seq<bool>): (r: seq<bool>)
    requires |b| > 0
    ensures |r| == |b|
    ensures r[0] == b[|b| - 1]
    ensures forall i :: 1 <= i < |b| ==> r[i] == b[i - 1]
  {
    [b[|b| - 1]] + b[..|b| - 1]
  }

  /** A turn moves flags round; it neither adds nor removes a connection. */
  lemma RotatedBorderPermutes(b: seq<bool>)
    requires |b| > 0
    ensures multiset(RotatedBorder(b)) == multiset(b)
  {
    assert b == b[..|b| - 1] + [b[|b| - 1]];
  }

  /** The border after `m` single-step turns. */
  function RotatedTimes(b: seq<bool>, m: nat): (r: seq<bool>)
    requires |b| > 0
    ensures |r| == |b|
    decreases m
  {
    if m == 0 then b else RotatedBorder(RotatedTimes(b, m - 1))
  }

  /** After `m` turns (at most one per side) the last `m` flags have moved round to the front. */
  lemma {:induction false} RotatedTimesShift(b: seq<bool>, m: nat)
    requires 0 < |b| && m <= |b|
    ensures RotatedTimes(b, m) == b[|b| - m..] + b[..|b| - m]
    decreases m
  {
    var n := |b|;
    if m == 0 {
      assert b[n..] + b[..n] == b;
    } else {
      RotatedTimesShift(b, m - 1);
      var p := b[n - m + 1..] + b[..n - m];
      ShiftRegroup(b, m);
      RotatedOfLast(p, b[n - m]);
    }
  }

  /** A turn of a border ending in `e` puts `e` in front. */
  lemma RotatedOfLast(p: seq<bool>, e: bool)
    ensures RotatedBorder(p + [e]) == [e] + p
  {
    assert (p + [e])[..|p|] == p;
  }

  /** The two ways of cutting `b` around its `m`-th flag from the end, regrouped. */
  lemma ShiftRegroup(b: seq<bool>, m: nat)
    requires 0 < m <= |b|
    ensures b[|b| - m + 1..] + b[..|b| - m + 1] == (b[|b| - m + 1..] + b[..|b| - m]) + [b[|b| - m]]
    ensures [b[|b| - m]] + (b[|b| - m + 1..] + b[..|b| - m]) == b[|b| - m..] + b[..|b| - m]
  {
    var n := |b|;
    assert b[..n - m + 1] == b[..n - m] + [b[n - m]];
    assert [b[n - m]] + b[n - m + 1..] == b[n - m..];
  }

  /** Turning a tile once per side brings it back to where it started. */
  lemma FullTurn(b: seq<bool>)
    requires |b| > 0
    ensures RotatedTimes(b, |b|) == b
  {
    RotatedTimesShift(b, |b|);
    assert b[0..] + b[..0] == b;
  }

  /** A turn by the player: the border turns one step unless the component is a source. */
  function Rotated(t: TileState): (r: TileState)
    requires WellFormed(t)
    ensures WellFormed(r)
    ensures multiset(r.border) == multiset(t.border)
    ensures r.shape == t.shape && r.position == t.position && r.component == t.component && r.powered == t.powered
    ensures !CanRotate(t.component) ==> r == t
  {
    if CanRotate(t.component) then
      RotatedBorderPermutes(t.border);
      t.(border := RotatedBorder(t.border))
    else t
  }

  /** The new power flag; a source ignores it and stays as it is. */
  function WithPower(t: TileState, p: bool): (r: TileState)
    ensures r.powered == (if t.component == Source then t.powered else p)
    ensures r.(powered := t.powered) == t
  {
    if t.component == Source then t else t.(powered := p)
  }

  /** The component replaced, everything else kept (including the power flag). */
  function WithComponent(t: TileState, c: Component): (r: TileState)
    ensures r.component == c && r.(component := t.component) == t
  {
    t.(component := c)
  }

  /** The tile emptied: no component and no connected side, power flag kept. */
  function Cleared(t: TileState): (r: TileState)
    ensures IsEmpty(r) && |r.border| == |t.border|
    ensures r.shape == t.shape && r.position == t.position && r.powered == t.powered
  {
    t.(component := Empty, border := NoSides(|t.border|))
  }

  /** The text that lists the sides `ks` of a level-file cell: a space before each number. */
  function SidesText(ks: seq<nat>): string
    decreases |ks|
  {
    if ks == [] then "" else SidesText(ks[..|ks| - 1]) + " " + NatToString(ks[|ks| - 1])
  }

  /** One more flag looked at: its index is written after the others when it is set. */
  lemma SidesTextNext(b: seq<bool>, i: nat)
    requires i < |b|
    ensures SidesText(IndicesBelow(b, true, i + 1)) ==
      SidesText(IndicesBelow(b, true, i)) + (if b[i] then " " + NatToString(i) else "")
  {
    var before := IndicesBelow(b, true, i);
    if b[i] {
      assert IndicesBelow(b, true, i + 1) == before + [i];
      assert (before + [i])[..|before|] == before;
    } else {
      assert IndicesBelow(b, true, i + 1) == before;
    }
  }

  /**
   * The cell of a level file that describes a tile: the code of its component,
   * followed by its connected sides when it has any.
   */
  function LevelRep(t: TileState): string {
    Diminutive(t.component)
      + (if IsEmpty(t) || IsDisconnected(t.border) then "" else SidesText(Indices(t.border, true)))
  }

  /** The decimal text of each number. */
  function NumberWords(ks: seq<nat>): (ws: seq<string>)
    ensures |ws| == |ks|
    ensures forall m :: 0 <= m < |ks| ==> ws[m] == NatToString(ks[m])
  {
    seq(|ks|, m requires 0 <= m < |ks| => NatToString(ks[m]))
  }

  /** Gluing strings does not depend on the grouping. */
  lemma GlueThree(a: string, b: string, sep: string, c: string)
    ensures a + b + sep + c == a + (b + sep + c)
  {
  }

  /** The sides written after a component's code are its words joined by single spaces. */
  lemma {:induction false} SidesTextIsJoin(d: string, ks: seq<nat>)
    ensures Join([d] + NumberWords(ks), " ") == d + SidesText(ks)
    decreases |ks|
  {
    if ks != [] {
      var front, last := ks[..|ks| - 1], NatToString(ks[|ks| - 1]);
      SidesTextIsJoin(d, front);
      var ws := [d] + NumberWords(front);
      assert [d] + NumberWords(ks) == ws + [last];
      JoinAppend(ws, last, " ");
      assert SidesText(ks) == SidesText(front) + " " + last;
      GlueThree(d, SidesText(front), " ", last);
    } else {
      assert [d] + NumberWords(ks) == [d];
      assert d + SidesText(ks) == d;
    }
  }

  /**
   * A level-file cell is the component's code and the connected sides in
   * ascending order, separated by single spaces.
   */
  lemma LevelRepIsWords(t: TileState)
    ensures LevelRep(t) == Join([Diminutive(t.component)] + NumberWords(Indices(t.border, true)), " ")
  {
    var ks := Indices(t.border, true);
    SidesTextIsJoin(Diminutive(t.component), ks);
  }

  /**
   * Whether a cable runs from `a` to `b`: both have the same shape, they touch,
   * and both sides that face each other are connected.
   */
  predicate IsLinkedTo(a: TileState, b: TileState)
    requires WellFormed(a) && WellFormed(b)
  {
    var ts := TouchingSide(a.position, b.position, a.shape);
    a.shape == b.shape && ts != -1 && a.border[ts] && b.border[Opposite(ts, a.shape)]
  }

  /** A cable runs both ways. */
  lemma LinkIsSymmetric(a: TileState, b: TileState)
    requires WellFormed(a) && WellFormed(b)
    ensures IsLinkedTo(a, b) <==> IsLinkedTo(b, a)
  {
    if IsLinkedTo(a, b) {
      LinkOneWay(a, b);
    }
    if IsLinkedTo(b, a) {
      LinkOneWay(b, a);
    }
  }

  lemma LinkOneWay(a: TileState, b: TileState)
    requires WellFormed(a) && WellFormed(b) && IsLinkedTo(a, b)
    ensures IsLinkedTo(b, a)
  {
    var ts := TouchingSide(a.position, b.position, a.shape);
    TouchingSideSymmetric(a.position, b.position, a.shape);
    OppositeInvolutive(ts, a.shape);
  }

  /** Only tiles that touch can be linked, so a tile is never linked to itself. */
  lemma LinkedTilesTouch(a: TileState, b: TileState)
    requires WellFormed(a) && WellFormed(b) && IsLinkedTo(a, b)
    ensures IsNeighbor(a.position, b.position, a.shape) && a.position != b.position
  {
    NeighborsAreAdjacent(a.position, b.position, a.shape);
  }
}
