/**
 * The edits the player or the level editor makes to one tile of a circuit,
 * found by its position, and the edits made to every tile at once (clearing,
 * scrambling the orientations).
 */
module CircuitEdits {
  import opened Wrappers
  import opened TileShapes
  import opened Components
  import opened Positions
  import opened TileStates
  import opened CircuitModel

  /** An edit of a single tile. */
  datatype Edit =
    | SetSide(side: nat, connected: bool)
    | SetComponent(component: Component)
    | Clear
    | Rotate

  /** Whether the edit can be made to `t`: a side that is set must exist. */
  predicate Applies(t: TileState, e: Edit) {
    e.SetSide? ==> e.side < |t.border|
  }

  /** The tile after the edit. */
  function Edited(t: TileState, e: Edit): (r: TileState)
    requires WellFormed(t) && Applies(t, e)
    ensures WellFormed(r) && r.shape == t.shape && r.position == t.position
  {
    match e
    case SetSide(i, v) => WithSide(t, i, v)
    case SetComponent(c) => WithComponent(t, c)
    case Clear => Cleared(t)
    case Rotate => Rotated(t)
  }

  /** Whether the edit can be made to the tile at `p`, when there is one. */
  predicate AppliesAt(cs: seq<TileState>, p: Position, e: Edit)
    requires Valid(cs)
  {
    match IndexAt(cs, p)
    case None => true
    case Some(k) => Applies(cs[k], e)
  }

  /** The circuit after editing the tile at `p`; unchanged when there is none. */
  function EditAt(cs: seq<TileState>, p: Position, e: Edit): (r: seq<TileState>)
    requires Valid(cs) && AppliesAt(cs, p, e)
  {
    match IndexAt(cs, p)
    case None => cs
    case Some(k) => cs[k := Edited(cs[k], e)]
  }

  /**
   * An edit keeps the circuit valid and its grid: every tile stays where it
   * is with its shape, every tile not at `p` is untouched, and the tile at
   * `p` is edited.
   */
  lemma EditAtKeepsOthers(cs: seq<TileState>, p: Position, e: Edit)
    requires Valid(cs) && AppliesAt(cs, p, e)
    ensures Valid(EditAt(cs, p, e)) && |EditAt(cs, p, e)| == |cs|
    ensures forall k :: 0 <= k < |cs| ==>
      EditAt(cs, p, e)[k].position == cs[k].position && EditAt(cs, p, e)[k].shape == cs[k].shape
    ensures forall k :: 0 <= k < |cs| && cs[k].position != p ==> EditAt(cs, p, e)[k] == cs[k]
    ensures forall k :: 0 <= k < |cs| && cs[k].position == p ==> EditAt(cs, p, e)[k] == Edited(cs[k], e)
    ensures Extent(EditAt(cs, p, e)) == Extent(cs)
  {
    match IndexAt(cs, p)
    case None =>
      assert EditAt(cs, p, e) == cs;
    case Some(i) =>
      var t := Edited(cs[i], e);
      var r := cs[i := t];
      assert EditAt(cs, p, e) == r;
      assert t.position == cs[i].position && t.shape == cs[i].shape && WellFormed(t);
      assert forall k :: 0 <= k < |cs| ==> r[k].position == cs[k].position && r[k].shape == cs[k].shape && WellFormed(r[k]);
      SameGridStaysValid(cs, r);
      SameGridSameExtent(cs, r);
  }

  /** Well-formed tiles at the positions of a valid circuit, in the same order, form a valid circuit. */
  lemma SameGridStaysValid(a: seq<TileState>, b: seq<TileState>)
    requires Valid(a) && |a| == |b|
    requires forall k :: 0 <= k < |a| ==> a[k].position == b[k].position && WellFormed(b[k])
    ensures Valid(b)
  {
  }

  /** Two circuits with the same positions in the same order have the same dimension. */
  lemma SameGridSameExtent(a: seq<TileState>, b: seq<TileState>)
    requires |a| == |b| && forall k :: 0 <= k < |a| ==> a[k].position == b[k].position
    ensures Extent(a) == Extent(b)
  {
    if a != [] {
      var da, db := Extent(a), Extent(b);
      var ka :| 0 <= ka < |a| && a[ka].position.line == da.height - 1;
      var kb :| 0 <= kb < |b| && b[kb].position.line == db.height - 1;
      assert da.height == db.height;
      var ja :| 0 <= ja < |a| && a[ja].position.column == da.width - 1;
      var jb :| 0 <= jb < |b| && b[jb].position.column == db.width - 1;
      assert da.width == db.width;
    }
  }

  /** After an edit the tile at `p` is found where it was. */
  lemma EditAtSameIndex(cs: seq<TileState>, p: Position, e: Edit)
    requires Valid(cs) && AppliesAt(cs, p, e)
    ensures Valid(EditAt(cs, p, e))
    ensures IndexAt(EditAt(cs, p, e), p) == IndexAt(cs, p)
  {
    EditAtKeepsOthers(cs, p, e);
    if IndexAt(cs, p).Some? {
      IndexAtUnique(EditAt(cs, p, e), IndexAt(cs, p).value);
    }
  }

  /**
   * Connecting a side reports a change exactly when the side was off, and
   * disconnecting it again restores the circuit; likewise the other way round.
   */
  lemma SetSideUndone(cs: seq<TileState>, p: Position, i: nat, v: bool)
    requires Valid(cs) && AppliesAt(cs, p, SetSide(i, v))
    ensures Valid(EditAt(cs, p, SetSide(i, v))) && AppliesAt(EditAt(cs, p, SetSide(i, v)), p, SetSide(i, !v))
    ensures Occupied(cs, p) && cs[IndexAt(cs, p).value].border[i] == !v ==>
      EditAt(EditAt(cs, p, SetSide(i, v)), p, SetSide(i, !v)) == cs
    ensures EditAt(cs, p, SetSide(i, v)) == cs <==> !Occupied(cs, p) || cs[IndexAt(cs, p).value].border[i] == v
  {
    EditAtSameIndex(cs, p, SetSide(i, v));
    var r := EditAt(cs, p, SetSide(i, v));
    match IndexAt(cs, p)
    case None =>
    case Some(k) =>
      var t := cs[k];
      assert r == cs[k := WithSide(t, i, v)];
      if t.border[i] == !v {
        assert WithSide(WithSide(t, i, v), i, !v) == t;
        assert EditAt(r, p, SetSide(i, !v)) == cs[k := t];
        assert cs[k := t] == cs;
        assert r[k] != cs[k];
      } else {
        assert WithSide(t, i, v) == t;
        assert cs[k := t] == cs;
      }
  }

  /** Setting the component a second time overrides the first, and setting the old component back restores the circuit. */
  lemma SetComponentOverrides(cs: seq<TileState>, p: Position, c: Component, d: Component)
    requires Valid(cs)
    ensures Valid(EditAt(cs, p, SetComponent(c)))
    ensures EditAt(EditAt(cs, p, SetComponent(c)), p, SetComponent(d)) == EditAt(cs, p, SetComponent(d))
    ensures Occupied(cs, p) && cs[IndexAt(cs, p).value].component == d ==>
      EditAt(EditAt(cs, p, SetComponent(c)), p, SetComponent(d)) == cs
  {
    EditAtSameIndex(cs, p, SetComponent(c));
    match IndexAt(cs, p)
    case None =>
    case Some(k) =>
      var t := cs[k];
      assert WithComponent(WithComponent(t, c), d) == WithComponent(t, d);
      if t.component == d {
        assert WithComponent(t, d) == t;
        assert cs[k := t] == cs;
      }
  }

  /** Clearing a tile twice is clearing it once, and a cleared tile shows in a level file as a lone `.`. */
  lemma ClearIdempotent(cs: seq<TileState>, p: Position)
    requires Valid(cs)
    ensures Valid(EditAt(cs, p, Clear))
    ensures EditAt(EditAt(cs, p, Clear), p, Clear) == EditAt(cs, p, Clear)
    ensures Occupied(cs, p) ==> LevelRep(EditAt(cs, p, Clear)[IndexAt(cs, p).value]) == "."
  {
    EditAtSameIndex(cs, p, Clear);
    match IndexAt(cs, p)
    case None =>
    case Some(k) =>
      assert Cleared(Cleared(cs[k])) == Cleared(cs[k]);
  }

  /** A turn of the tile at `p` neither connects nor disconnects a side, and a tile that cannot turn stays as it is. */
  lemma RotateAtPermutesSides(cs: seq<TileState>, p: Position)
    requires Valid(cs) && Occupied(cs, p)
    ensures var k := IndexAt(cs, p).value;
      multiset(EditAt(cs, p, Rotate)[k].border) == multiset(cs[k].border)
    ensures var k := IndexAt(cs, p).value;
      !CanRotate(cs[k].component) ==> EditAt(cs, p, Rotate) == cs
  {
    var k := IndexAt(cs, p).value;
    assert cs[k := cs[k]] == cs;
  }

  /** Every tile cleared. */
  function ClearedAll(cs: seq<TileState>): (r: seq<TileState>)
  {
    seq(|cs|, k requires 0 <= k < |cs| => Cleared(cs[k]))
  }

  /** Clearing every tile keeps the grid and leaves a circuit whose every cell shows as `.`. */
  lemma ClearedAllIsBlank(cs: seq<TileState>)
    requires Valid(cs)
    ensures Valid(ClearedAll(cs)) && |ClearedAll(cs)| == |cs|
    ensures forall k :: 0 <= k < |cs| ==>
      ClearedAll(cs)[k].position == cs[k].position && ClearedAll(cs)[k].shape == cs[k].shape
    ensures forall k :: 0 <= k < |cs| ==> IsEmpty(ClearedAll(cs)[k]) && LevelRep(ClearedAll(cs)[k]) == "."
    ensures ClearedAll(ClearedAll(cs)) == ClearedAll(cs)
  {
  }

  /**
   * The numbers of turns a scramble may give: at least one and fewer than a
   * full turn for a tile that can turn (the random draw of the game is
   * repeated until it is not zero).
   */
  predicate ValidTurns(cs: seq<TileState>, turns: seq<nat>) {
    |turns| == |cs| && forall k :: 0 <= k < |cs| && CanRotate(cs[k].component) ==> 0 < turns[k] < |cs[k].border|
  }

  /** Every tile that can turn, turned the given number of times. */
  function Scrambled(cs: seq<TileState>, turns: seq<nat>): (r: seq<TileState>)
    requires Valid(cs) && ValidTurns(cs, turns)
  {
    seq(|cs|, k requires 0 <= k < |cs| =>
      if CanRotate(cs[k].component) then cs[k].(border := RotatedTimes(cs[k].border, turns[k])) else cs[k])
  }

  /** Turns never connect or disconnect a side: every tile keeps its number of connections. */
  lemma {:induction false} RotatedTimesPermutes(b: seq<bool>, m: nat)
    requires |b| > 0
    ensures multiset(RotatedTimes(b, m)) == multiset(b)
    decreases m
  {
    if m > 0 {
      RotatedTimesPermutes(b, m - 1);
      RotatedBorderPermutes(RotatedTimes(b, m - 1));
    }
  }

  /**
   * A scramble keeps the circuit valid, every tile in place with its
   * component and its number of connections, and leaves sources untouched.
   */
  lemma ScrambledKeepsTiles(cs: seq<TileState>, turns: seq<nat>)
    requires Valid(cs) && ValidTurns(cs, turns)
    ensures Valid(Scrambled(cs, turns)) && |Scrambled(cs, turns)| == |cs|
    ensures forall k :: 0 <= k < |cs| ==>
      var t := Scrambled(cs, turns)[k];
      t.position == cs[k].position && t.shape == cs[k].shape && t.component == cs[k].component
        && multiset(t.border) == multiset(cs[k].border)
    ensures forall k :: 0 <= k < |cs| && cs[k].component == Source ==> Scrambled(cs, turns)[k] == cs[k]
  {
    forall k | 0 <= k < |cs|
      ensures multiset(Scrambled(cs, turns)[k].border) == multiset(cs[k].border)
    {
      RotatedTimesPermutes(cs[k].border, turns[k]);
    }
  }

  /**
   * A scramble always moves a wire that ends a lone cable: a turnable tile
   * with exactly one connected side no longer has that side connected.
   */
  lemma ScrambleMovesLoneCable(cs: seq<TileState>, turns: seq<nat>, k: nat, i: nat)
    requires Valid(cs) && ValidTurns(cs, turns) && k < |cs| && CanRotate(cs[k].component)
    requires i < |cs[k].border| && cs[k].border[i]
    requires forall l :: 0 <= l < |cs[k].border| && l != i ==> !cs[k].border[l]
    ensures !Scrambled(cs, turns)[k].border[i]
  {
    var b, m := cs[k].border, turns[k];
    var n := |b|;
    RotatedTimesShift(b, m);
    var r := RotatedTimes(b, m);
    if i < m {
      assert r[i] == b[n - m + i];
    } else {
      assert r[i] == b[i - m];
    }
  }

  /**
   * A scramble does not promise a new look: a turnable tile with no
   * connected side is the same after any number of turns.
   */
  lemma ScrambleKeepsBareTile(cs: seq<TileState>, turns: seq<nat>, k: nat)
    requires Valid(cs) && ValidTurns(cs, turns) && k < |cs| && IsDisconnected(cs[k].border)
    ensures Scrambled(cs, turns)[k] == cs[k]
  {
    var b, m := cs[k].border, turns[k];
    if CanRotate(cs[k].component) {
      RotatedTimesShift(b, m);
      assert RotatedTimes(b, m) == b;
    }
  }

  /**
   * So a circuit whose tiles carry no cable is left exactly as it was by a
   * scramble, whatever the turns drawn.
   */
  lemma ScrambleKeepsBareCircuit(cs: seq<TileState>, turns: seq<nat>)
    requires Valid(cs) && ValidTurns(cs, turns)
    requires forall k :: 0 <= k < |cs| ==> IsDisconnected(cs[k].border)
    ensures Scrambled(cs, turns) == cs
  {
    forall k | 0 <= k < |cs|
      ensures Scrambled(cs, turns)[k] == cs[k]
    {
      ScrambleKeepsBareTile(cs, turns, k);
    }
  }
}
