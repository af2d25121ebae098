/**
 * A circuit seen as the sequence of the values of its tiles, in the order in
 * which they were added. The methods of the `Circuit` class are specified by
 * the functions of this module, and the properties of the game (which tiles
 * a source powers, when a level is solved) are proved here.
 */
module CircuitModel {
  import opened Wrappers
  import opened TileShapes
  import opened Components
  import opened Positions
  import opened TileStates

  datatype CircuitError = MixedShapes

  /** What every circuit keeps true: each tile is well formed and no two tiles share a position. */
  predicate Valid(cs: seq<TileState>) {
    && (forall k :: 0 <= k < |cs| ==> WellFormed(cs[k]))
    && (forall a, b :: 0 <= a < b < |cs| ==> cs[a].position != cs[b].position)
  }

  /** The index of the first tile at `p`, or `None` when no tile is there. */
  function IndexAt(cs: seq<TileState>, p: Position): (r: Option<nat>)
    ensures r.Some? ==> r.value < |cs| && cs[r.value].position == p
    ensures r.Some? ==> forall k :: 0 <= k < r.value ==> cs[k].position != p
    ensures r.None? ==> forall k :: 0 <= k < |cs| ==> cs[k].position != p
    decreases |cs|
  {
    if cs == [] then None
    else if cs[0].position == p then Some(0)
    else
      match IndexAt(cs[1..], p)
      case None => None
      case Some(k) => Some(k + 1)
  }

  /** Whether some tile of the circuit is at `p`. */
  predicate Occupied(cs: seq<TileState>, p: Position) {
    IndexAt(cs, p).Some?
  }

  /** In a valid circuit the tile at a position is the only one there. */
  lemma IndexAtUnique(cs: seq<TileState>, k: nat)
    requires Valid(cs) && k < |cs|
    ensures IndexAt(cs, cs[k].position) == Some(k)
  {
  }

  /**
   * In a valid circuit a tile is equal only to itself, so a list operation
   * that looks a tile up by equality (`contains`, `remove`) finds that very tile.
   */
  lemma SameTileIsSameIndex(cs: seq<TileState>, a: nat, b: nat)
    requires Valid(cs) && a < |cs| && b < |cs|
    ensures SameTile(cs[a], cs[b]) <==> a == b
  {
    if a < b || b < a {
      assert cs[a].position != cs[b].position;
    }
  }

  /** A scan that passes `i` tiles not at `p` and stops at `i` finds the first tile at `p`. */
  lemma IndexAtFirst(cs: seq<TileState>, p: Position, i: nat)
    requires i <= |cs| && forall k :: 0 <= k < i ==> cs[k].position != p
    requires i < |cs| ==> cs[i].position == p
    ensures IndexAt(cs, p) == if i < |cs| then Some(i) else None
  {
  }

  /** The circuit without the tile at `p`; nothing changes when no tile is there or `p` is the origin. */
  function WithoutTileAt(cs: seq<TileState>, p: Position): (r: seq<TileState>)
  {
    if p == Origin then cs
    else
      match IndexAt(cs, p)
      case None => cs
      case Some(i) => cs[..i] + cs[i + 1..]
  }

  /**
   * Removing a tile keeps the circuit valid, leaves no tile at `p` unless `p`
   * is the origin, and keeps every other tile.
   */
  lemma WithoutTileAtKeepsOthers(cs: seq<TileState>, p: Position)
    requires Valid(cs)
    ensures Valid(WithoutTileAt(cs, p))
    ensures p != Origin ==> !Occupied(WithoutTileAt(cs, p), p)
    ensures forall t :: t in WithoutTileAt(cs, p) <==> t in cs && (t.position != p || p == Origin)
  {
    if p != Origin && IndexAt(cs, p).Some? {
      var i := IndexAt(cs, p).value;
      DropTile(cs, i);
    }
  }

  /** Dropping the `i`-th tile of a valid circuit keeps it valid and keeps exactly the tiles elsewhere. */
  lemma DropTile(cs: seq<TileState>, i: nat)
    requires Valid(cs) && i < |cs|
    ensures Valid(cs[..i] + cs[i + 1..])
    ensures forall t :: t in cs[..i] + cs[i + 1..] <==> t in cs && t.position != cs[i].position
  {
    var r := cs[..i] + cs[i + 1..];
    assert forall k :: 0 <= k < |r| ==> r[k] == if k < i then cs[k] else cs[k + 1];
    forall t | t in cs && t.position != cs[i].position
      ensures t in r
    {
      var k :| 0 <= k < |cs| && cs[k] == t;
      if k < i {
        assert r[k] == t;
      } else {
        assert r[k - 1] == t;
      }
    }
  }

  /**
   * The circuit that `addTile` builds from `ts`, one tile after the other: a
   * tile whose position is already taken is left out.
   */
  function Collected(ts: seq<TileState>): (r: seq<TileState>)
    decreases |ts|
  {
    if ts == [] then []
    else
      var front := Collected(ts[..|ts| - 1]);
      if Occupied(front, ts[|ts| - 1].position) then front else front + [ts[|ts| - 1]]
  }

  /**
   * Collecting keeps, at each position used by `ts`, the first tile of `ts`
   * there and nothing else, so the result is a valid circuit with the same
   * positions.
   */
  lemma {:induction false} CollectedKeepsFirst(ts: seq<TileState>)
    requires forall k :: 0 <= k < |ts| ==> WellFormed(ts[k])
    ensures Valid(Collected(ts))
    ensures forall t :: t in Collected(ts) ==> t in ts
    ensures forall p :: Occupied(Collected(ts), p) <==> Occupied(ts, p)
    ensures forall p :: Occupied(ts, p) ==>
      Occupied(Collected(ts), p) && Collected(ts)[IndexAt(Collected(ts), p).value] == ts[IndexAt(ts, p).value]
    decreases |ts|
  {
    if ts != [] {
      var front := ts[..|ts| - 1];
      var last := ts[|ts| - 1];
      CollectedKeepsFirst(front);
      var c := Collected(front);
      if !Occupied(c, last.position) {
        assert WellFormed(last);
        assert forall a, b :: 0 <= a < b < |c| + 1 ==> (c + [last])[a].position != (c + [last])[b].position;
      }
      assert forall t :: t in front ==> t in ts;
      forall p
        ensures Occupied(Collected(ts), p) <==> Occupied(ts, p)
        ensures Occupied(ts, p) ==>
          Occupied(Collected(ts), p) && Collected(ts)[IndexAt(Collected(ts), p).value] == ts[IndexAt(ts, p).value]
      {
        CollectedKeepsFirstAt(ts, p);
      }
    }
  }

  /** At `p`, collecting `ts` keeps a tile exactly when `ts` has one, and then the first of `ts` there. */
  ghost predicate KeepsFirstAt(ts: seq<TileState>, p: Position) {
    && (Occupied(Collected(ts), p) <==> Occupied(ts, p))
    && (Occupied(ts, p) ==>
          Occupied(Collected(ts), p) && Collected(ts)[IndexAt(Collected(ts), p).value] == ts[IndexAt(ts, p).value])
  }

  /** `CollectedKeepsFirst` at the one position `p`. */
  lemma {:induction false} CollectedKeepsFirstAt(ts: seq<TileState>, p: Position)
    ensures KeepsFirstAt(ts, p)
    decreases |ts|, 1
  {
    if ts != [] {
      var front := ts[..|ts| - 1];
      if Occupied(front, p) {
        KeepsFirstInFront(ts, p);
      } else {
        KeepsFirstPastFront(ts, p);
      }
    }
  }

  /** The step of `CollectedKeepsFirstAt` when the tiles before the last one already cover `p`. */
  lemma {:induction false} KeepsFirstInFront(ts: seq<TileState>, p: Position)
    requires ts != [] && Occupied(ts[..|ts| - 1], p)
    ensures KeepsFirstAt(ts, p)
    decreases |ts|, 0
  {
    var front := ts[..|ts| - 1];
    var last := ts[|ts| - 1];
    CollectedKeepsFirstAt(front, p);
    var c := Collected(front);
    var k := IndexAt(front, p).value;
    IndexAtFirst(ts, p, k);
    if !Occupied(c, last.position) {
      IndexAtFirst(c + [last], p, IndexAt(c, p).value);
    }
  }

  /** The step of `CollectedKeepsFirstAt` when the tiles before the last one do not cover `p`. */
  lemma {:induction false} KeepsFirstPastFront(ts: seq<TileState>, p: Position)
    requires ts != [] && !Occupied(ts[..|ts| - 1], p)
    ensures KeepsFirstAt(ts, p)
    decreases |ts|, 0
  {
    var front := ts[..|ts| - 1];
    var last := ts[|ts| - 1];
    CollectedKeepsFirstAt(front, p);
    CollectedKeepsFirstAt(front, last.position);
    var c := Collected(front);
    if p == last.position {
      IndexAtFirst(ts, p, |ts| - 1);
      IndexAtFirst(c + [last], p, |c|);
    } else {
      IndexAtFirst(ts, p, |ts|);
      if !Occupied(c, last.position) {
        IndexAtFirst(c + [last], p, |c| + 1);
      }
    }
  }

  /** A valid circuit collects to itself: `addTile` drops nothing from it. */
  lemma {:induction false} CollectedOfValid(ts: seq<TileState>)
    requires Valid(ts)
    ensures Collected(ts) == ts
    decreases |ts|
  {
    if ts != [] {
      var front, last := ts[..|ts| - 1], ts[|ts| - 1];
      ValidFront(ts);
      CollectedOfValid(front);
      assert ts == front + [last];
    }
  }

  /** All but the last tile of a valid circuit form a valid circuit that leaves the last tile's position free. */
  lemma ValidFront(ts: seq<TileState>)
    requires Valid(ts) && ts != []
    ensures Valid(ts[..|ts| - 1])
    ensures IndexAt(ts[..|ts| - 1], ts[|ts| - 1].position) == None
  {
    IndexAtFirst(ts[..|ts| - 1], ts[|ts| - 1].position, |ts| - 1);
  }

  /** The size of the grid (`java.awt.Dimension`): one more than the largest column and line in use; zero by zero when empty. */
  datatype Size = Size(width: nat, height: nat)

  /** The largest line of a tile, 0 when there is none. */
  function MaxLine(cs: seq<TileState>): (r: nat)
    ensures forall k :: 0 <= k < |cs| ==> cs[k].position.line <= r
    ensures cs != [] ==> exists k :: 0 <= k < |cs| && cs[k].position.line == r
    decreases |cs|
  {
    if cs == [] then 0
    else
      var front := MaxLine(cs[..|cs| - 1]);
      var last := cs[|cs| - 1].position.line;
      if last > front then last
      else
        assert |cs| > 1 ==> cs[..|cs| - 1] != [];
        front
  }

  /** The largest column of a tile, 0 when there is none. */
  function MaxColumn(cs: seq<TileState>): (r: nat)
    ensures forall k :: 0 <= k < |cs| ==> cs[k].position.column <= r
    ensures cs != [] ==> exists k :: 0 <= k < |cs| && cs[k].position.column == r
    decreases |cs|
  {
    if cs == [] then 0
    else
      var front := MaxColumn(cs[..|cs| - 1]);
      var last := cs[|cs| - 1].position.column;
      if last > front then last
      else
        assert |cs| > 1 ==> cs[..|cs| - 1] != [];
        front
  }

  /**
   * The dimension of the circuit: every tile lies inside it, its last line and
   * its last column each hold a tile, and it is zero by zero exactly when the
   * circuit is empty.
   */
  function Extent(cs: seq<TileState>): (d: Size)
    ensures forall k :: 0 <= k < |cs| ==> cs[k].position.line < d.height && cs[k].position.column < d.width
    ensures cs != [] ==> exists k :: 0 <= k < |cs| && cs[k].position.line == d.height - 1
    ensures cs != [] ==> exists k :: 0 <= k < |cs| && cs[k].position.column == d.width - 1
    ensures cs == [] <==> d.width == 0
    ensures cs == [] <==> d.height == 0
  {
    if cs == [] then Size(0, 0) else Size(MaxColumn(cs) + 1, MaxLine(cs) + 1)
  }

  /** The number of tiles of shape `s`. */
  function CountShape(cs: seq<TileState>, s: Shape): (r: nat)
    ensures r <= |cs|
    ensures r == 0 <==> forall k :: 0 <= k < |cs| ==> cs[k].shape != s
    decreases |cs|
  {
    if cs == [] then 0
    else CountShape(cs[..|cs| - 1], s) + (if cs[|cs| - 1].shape == s then 1 else 0)
  }

  /** Counting over one more tile. */
  lemma CountShapeStep(cs: seq<TileState>, i: nat, s: Shape)
    requires i < |cs|
    ensures CountShape(cs[..i + 1], s) == CountShape(cs[..i], s) + (if cs[i].shape == s then 1 else 0)
  {
    assert cs[..i + 1][..i] == cs[..i];
  }

  /**
   * Whether every tile has shape `s`: false for an empty circuit, and an
   * error when square and hexagonal tiles are mixed.
   */
  function AllOfShape(cs: seq<TileState>, s: Shape): (r: Result<bool, CircuitError>)
    ensures r.Failure? <==> exists a, b :: 0 <= a < |cs| && 0 <= b < |cs| && cs[a].shape != cs[b].shape
    ensures r == Success(true) <==> cs != [] && forall k :: 0 <= k < |cs| ==> cs[k].shape == s
  {
    if cs == [] then Success(false)
    else if CountShape(cs, Square) != 0 && CountShape(cs, Hexagon) != 0 then Failure(MixedShapes)
    else
      assert cs[0].shape in {Square, Hexagon};
      Success(CountShape(cs, s) != 0)
  }

  /** The indices below `n` of the tiles carrying `c`, in list order. */
  function IndicesOf(cs: seq<TileState>, c: Component, n: nat): (r: seq<nat>)
    requires n <= |cs|
    ensures forall k :: k in r <==> 0 <= k < n && cs[k].component == c
    ensures forall m :: 0 <= m < |r| ==> r[m] < n
    decreases n
  {
    if n == 0 then [] else IndicesOf(cs, c, n - 1) + (if cs[n - 1].component == c then [n - 1] else [])
  }

  /** No index is listed twice. */
  lemma {:induction false} IndicesOfDistinct(cs: seq<TileState>, c: Component, n: nat)
    requires n <= |cs|
    ensures forall m, l :: 0 <= m < l < |IndicesOf(cs, c, n)| ==> IndicesOf(cs, c, n)[m] != IndicesOf(cs, c, n)[l]
    decreases n
  {
    if n > 0 {
      IndicesOfDistinct(cs, c, n - 1);
    }
  }

  /** No index occurs twice. */
  predicate Distinct(s: seq<nat>) {
    forall a, b :: 0 <= a < b < |s| ==> s[a] != s[b]
  }

  /** The indices below `n`. */
  function Below(n: nat): (r: set<nat>)
    ensures forall k: nat :: k in r <==> k < n
    decreases n
  {
    if n == 0 then {} else Below(n - 1) + {n - 1}
  }

  /** The sources, in list order. */
  function Sources(cs: seq<TileState>): seq<nat> {
    IndicesOf(cs, Source, |cs|)
  }

  /** The hotspots, in list order. */
  function Hotspots(cs: seq<TileState>): seq<nat> {
    IndicesOf(cs, Hotspot, |cs|)
  }

  /** The circuit has tiles and every lamp in it is lit: the level is solved. */
  predicate AllLampsPoweredOn(cs: seq<TileState>) {
    cs != [] && forall k :: 0 <= k < |cs| && cs[k].component == Lamp ==> cs[k].powered
  }

  predicate ContainsLamp(cs: seq<TileState>) {
    exists k :: 0 <= k < |cs| && cs[k].component == Lamp
  }

  /**
   * The tiles that power flows to from tile `k`: those linked to it by a
   * cable and, when `k` is a hotspot, every other hotspot (hotspots relay
   * power to each other without cables).
   */
  function Neighbors(cs: seq<TileState>, k: nat): set<nat>
    requires Valid(cs) && k < |cs|
  {
    set j: nat | j < |cs| && j != k
      && (IsLinkedTo(cs[k], cs[j]) || (cs[k].component == Hotspot && cs[j].component == Hotspot))
  }

  /** Power flows both ways: the neighbour relation is symmetric. */
  lemma NeighborsSymmetric(cs: seq<TileState>, k: nat, j: nat)
    requires Valid(cs) && k < |cs| && j < |cs|
    ensures j in Neighbors(cs, k) <==> k in Neighbors(cs, j)
  {
    LinkIsSymmetric(cs[k], cs[j]);
  }

  /** Two circuits whose tiles agree in everything but their power flags. */
  predicate SameExceptPower(a: seq<TileState>, b: seq<TileState>) {
    |a| == |b| && forall k :: 0 <= k < |a| ==> a[k].(powered := b[k].powered) == b[k]
  }

  /** Which tiles are neighbours does not depend on which tiles are powered. */
  lemma NeighborsIgnorePower(a: seq<TileState>, b: seq<TileState>, k: nat)
    requires Valid(a) && SameExceptPower(a, b) && k < |a|
    ensures Valid(b)
    ensures Neighbors(a, k) == Neighbors(b, k)
  {
    assert forall j :: 0 <= j < |a| ==> a[j].position == b[j].position;
  }

  /** All tiles but the sources switched off. */
  function BlackedOut(cs: seq<TileState>): (r: seq<TileState>)
    ensures SameExceptPower(cs, r)
    ensures forall k :: 0 <= k < |r| ==> (r[k].powered <==> cs[k].powered && cs[k].component == Source)
  {
    seq(|cs|, k requires 0 <= k < |cs| => WithPower(cs[k], false))
  }

  /**
   * A chain of tiles along which power spreads from a source: it starts at a
   * source, and every later tile is a neighbour of the one before it and is
   * neither a source nor powered yet.
   */
  ghost predicate IsPowerPath(cs: seq<TileState>, path: seq<nat>)
    requires Valid(cs)
  {
    && |path| >= 1
    && (forall m :: 0 <= m < |path| ==> path[m] < |cs|)
    && cs[path[0]].component == Source
    && (forall m :: 1 <= m < |path| ==>
          cs[path[m]].component != Source && !cs[path[m]].powered && path[m] in Neighbors(cs, path[m - 1]))
  }

  /** Tile `j` is at the end of some power path. */
  ghost predicate Reachable(cs: seq<TileState>, j: nat)
    requires Valid(cs)
  {
    exists path :: IsPowerPath(cs, path) && path[|path| - 1] == j
  }

  /**
   * The circuit after power has spread from every source: a tile that is not
   * a source is powered afterwards when it was powered before or power reaches
   * it; a source keeps its flag.
   */
  ghost function Propagated(cs: seq<TileState>): (r: seq<TileState>)
    requires Valid(cs)
    ensures SameExceptPower(cs, r)
    ensures forall k :: 0 <= k < |cs| ==>
      (r[k].powered <==> cs[k].powered || (cs[k].component != Source && Reachable(cs, k)))
  {
    seq(|cs|, k requires 0 <= k < |cs| =>
      if cs[k].component != Source && Reachable(cs, k) then cs[k].(powered := true) else cs[k])
  }

  /** The circuit once the tiles in `done` have been told to switch on (sources ignore it). */
  function PoweredIn(cs: seq<TileState>, done: set<nat>): (r: seq<TileState>)
    ensures SameExceptPower(cs, r)
    ensures forall k :: 0 <= k < |cs| ==> r[k] == if k in done then WithPower(cs[k], true) else cs[k]
  {
    seq(|cs|, k requires 0 <= k < |cs| => if k in done then WithPower(cs[k], true) else cs[k])
  }

  /** Switching on one more tile. */
  lemma PoweredInAddOne(cs: seq<TileState>, done: set<nat>, k: nat)
    requires k < |cs| && k !in done
    ensures PoweredIn(cs, done + {k}) == PoweredIn(cs, done)[k := WithPower(PoweredIn(cs, done)[k], true)]
  {
  }

  /** A power path extended by an unpowered neighbour that is not a source. */
  lemma PowerPathExtends(cs: seq<TileState>, path: seq<nat>, j: nat)
    requires Valid(cs) && IsPowerPath(cs, path)
    requires j < |cs| && cs[j].component != Source && !cs[j].powered
    requires j in Neighbors(cs, path[|path| - 1])
    ensures IsPowerPath(cs, path + [j])
  {
  }

  /** Power reaches every unpowered neighbour, other than a source, of a tile it reaches or of a source. */
  lemma ReachableThrough(cs: seq<TileState>, k: nat, j: nat)
    requires Valid(cs) && k < |cs| && j < |cs|
    requires cs[k].component == Source || Reachable(cs, k)
    requires j in Neighbors(cs, k) && cs[j].component != Source && !cs[j].powered
    ensures Reachable(cs, j)
  {
    var path: seq<nat>;
    if cs[k].component == Source {
      path := [k];
    } else {
      path :| IsPowerPath(cs, path) && path[|path| - 1] == k;
    }
    PowerPathExtends(cs, path, j);
    assert (path + [j])[|path|] == j;
  }

  /**
   * Completeness of spreading: when a set of tiles holds every source and, for
   * each of its tiles, every neighbour that is neither a source nor already
   * powered, then it holds every tile that power can reach.
   */
  lemma {:induction false} ClosedSetHoldsReachable(cs: seq<TileState>, done: set<nat>, path: seq<nat>)
    requires Valid(cs) && IsPowerPath(cs, path)
    requires forall k :: 0 <= k < |cs| && cs[k].component == Source ==> k in done
    requires forall d, j :: d in done && d < |cs| && j in Neighbors(cs, d) ==>
      cs[j].component == Source || cs[j].powered || j in done
    ensures path[|path| - 1] in done
    decreases |path|
  {
    if |path| > 1 {
      var front := path[..|path| - 1];
      assert IsPowerPath(cs, front);
      ClosedSetHoldsReachable(cs, done, front);
    }
  }

  /**
   * What holds at each round of the spreading loop, given the tiles `done`
   * already taken from the stack and the tiles `queue` waiting on it: every
   * tile taken or waiting that is not a source is reached by power; the
   * waiting tiles are distinct, not yet taken, and were off; every source is
   * taken or waiting; and every neighbour of a taken tile is a source, was
   * on, or is taken or waiting.
   */
  ghost predicate SpreadInvariant(cs: seq<TileState>, done: set<nat>, queue: seq<nat>)
    requires Valid(cs)
  {
    && (forall j: nat :: j in done && j < |cs| && cs[j].component != Source ==> Reachable(cs, j))
    && (forall j: nat :: j in queue ==> j < |cs| && j !in done)
    && Distinct(queue)
    && (forall j: nat :: j in queue ==> cs[j].component == Source || (!cs[j].powered && Reachable(cs, j)))
    && (forall j: nat :: j < |cs| && cs[j].component == Source ==> j in done || j in queue)
    && (forall d: nat, j: nat :: d in done && d < |cs| && j in Neighbors(cs, d) ==>
          cs[j].component == Source || cs[j].powered || j in done || j in queue)
  }

  /** The loop starts with nothing taken and every source waiting. */
  lemma SpreadStart(cs: seq<TileState>)
    requires Valid(cs)
    ensures SpreadInvariant(cs, {}, Sources(cs))
  {
    IndicesOfDistinct(cs, Source, |cs|);
  }

  /**
   * One round keeps the invariant: the top tile `cur` is taken, and each of its
   * neighbours that is off (with `cur` now on), not a source and not waiting
   * is pushed.
   */
  lemma SpreadStep(cs: seq<TileState>, done: set<nat>, queue: seq<nat>, next: seq<nat>)
    requires Valid(cs) && SpreadInvariant(cs, done, queue) && queue != [] && queue[0] < |cs|
    requires Distinct(next)
    requires forall j: nat :: j in next <==>
      (j in queue[1..] || (j < |cs| && j in Neighbors(cs, queue[0]) && !PoweredIn(cs, done + {queue[0]})[j].powered && cs[j].component != Source))
    ensures SpreadInvariant(cs, done + {queue[0]}, next)
  {
    var cur := queue[0];
    var done' := done + {cur};
    assert cur in queue;
    assert forall j: nat :: j in queue[1..] ==> j in queue && j != cur;
    forall j: nat | j in next && j !in queue[1..]
      ensures j < |cs| && cs[j].component != Source && !cs[j].powered && j !in done' && Reachable(cs, j)
    {
      ReachableThrough(cs, cur, j);
    }
    forall d: nat, j: nat | d in done' && d < |cs| && j in Neighbors(cs, d)
      ensures cs[j].component == Source || cs[j].powered || j in done' || j in next
    {
    }
  }

  /**
   * The pushes of one round: each tile of `neighs` in turn goes on top of the
   * stack when it is off, is not a source and is not waiting already.
   */
  function Pushed(cs: seq<TileState>, neighs: seq<nat>, queue: seq<nat>): (r: seq<nat>)
    decreases |neighs|
  {
    if neighs == [] then queue
    else
      var j := neighs[0];
      Pushed(cs, neighs[1..],
        if j < |cs| && !cs[j].powered && cs[j].component != Source && j !in queue then [j] + queue else queue)
  }

  /**
   * The stack after a round holds what it held and every tile of `neighs`
   * that is off and not a source, each once when the stack held no tile twice.
   */
  lemma {:induction false} PushedSpec(cs: seq<TileState>, neighs: seq<nat>, queue: seq<nat>)
    ensures forall j: nat :: j in Pushed(cs, neighs, queue) <==>
      j in queue || (j in neighs && j < |cs| && !cs[j].powered && cs[j].component != Source)
    ensures Distinct(queue) ==> Distinct(Pushed(cs, neighs, queue))
    decreases |neighs|
  {
    if neighs != [] {
      var j := neighs[0];
      var q1 := if j < |cs| && !cs[j].powered && cs[j].component != Source && j !in queue then [j] + queue else queue;
      PushedSpec(cs, neighs[1..], q1);
      assert forall x :: x in neighs <==> x == j || x in neighs[1..];
      if q1 != queue && Distinct(queue) {
        assert forall b :: 1 <= b < |q1| ==> q1[b] == queue[b - 1];
      }
    }
  }

  /** When nothing is left waiting, the tiles switched on are exactly those power reaches. */
  lemma SpreadEnd(cs: seq<TileState>, done: set<nat>)
    requires Valid(cs) && SpreadInvariant(cs, done, [])
    ensures PoweredIn(cs, done) == Propagated(cs)
  {
    forall j | 0 <= j < |cs|
      ensures PoweredIn(cs, done)[j] == Propagated(cs)[j]
    {
      if cs[j].component != Source && Reachable(cs, j) {
        var path :| IsPowerPath(cs, path) && path[|path| - 1] == j;
        ClosedSetHoldsReachable(cs, done, path);
      }
    }
  }

  /** A chain of neighbours that starts at a source, whatever the power flags. */
  ghost predicate IsWirePath(cs: seq<TileState>, path: seq<nat>)
    requires Valid(cs)
  {
    && |path| >= 1
    && (forall m :: 0 <= m < |path| ==> path[m] < |cs|)
    && cs[path[0]].component == Source
    && (forall m :: 1 <= m < |path| ==> path[m] in Neighbors(cs, path[m - 1]))
  }

  /** Some chain of cables and hotspot relays joins a source to tile `j`. */
  ghost predicate ConnectedToSource(cs: seq<TileState>, j: nat)
    requires Valid(cs)
  {
    exists path :: IsWirePath(cs, path) && path[|path| - 1] == j
  }

  /** The position in a chain after which no tile is a source. */
  lemma {:induction false} LastSource(cs: seq<TileState>, path: seq<nat>) returns (s: nat)
    requires Valid(cs) && IsWirePath(cs, path)
    ensures s < |path| && cs[path[s]].component == Source
    ensures forall m :: s < m < |path| ==> cs[path[m]].component != Source
    decreases |path|
  {
    if |path| == 1 || cs[path[|path| - 1]].component == Source {
      s := |path| - 1;
    } else {
      var front := path[..|path| - 1];
      assert IsWirePath(cs, front);
      s := LastSource(cs, front);
    }
  }

  /** A power path is a chain of neighbours from a source. */
  lemma PowerPathIsWirePath(cs: seq<TileState>, b: seq<TileState>, path: seq<nat>)
    requires Valid(cs) && SameExceptPower(cs, b) && Valid(b) && IsPowerPath(b, path)
    ensures IsWirePath(cs, path)
  {
    forall m | 1 <= m < |path|
      ensures path[m] in Neighbors(cs, path[m - 1])
    {
      NeighborsIgnorePower(cs, b, path[m - 1]);
    }
  }

  /** After a blackout, the part of a chain after its last source is a power path. */
  lemma WirePathTailIsPowerPath(cs: seq<TileState>, path: seq<nat>) returns (tail: seq<nat>)
    requires Valid(cs) && IsWirePath(cs, path)
    ensures Valid(BlackedOut(cs))
    ensures IsPowerPath(BlackedOut(cs), tail) && tail[|tail| - 1] == path[|path| - 1]
  {
    var b := BlackedOut(cs);
    NeighborsIgnorePower(cs, b, 0);
    var s := LastSource(cs, path);
    tail := path[s..];
    forall m | 1 <= m < |tail|
      ensures tail[m] in Neighbors(b, tail[m - 1])
      ensures b[tail[m]].component != Source && !b[tail[m]].powered
    {
      assert tail[m] == path[s + m] && tail[m - 1] == path[s + m - 1];
      NeighborsIgnorePower(cs, b, tail[m - 1]);
    }
  }

  /**
   * After a blackout, spreading power lights exactly the tiles that a chain of
   * cables and hotspot relays joins to a source.
   */
  lemma PropagatedAfterBlackout(cs: seq<TileState>, j: nat)
    requires Valid(cs) && j < |cs| && cs[j].component != Source
    ensures Valid(BlackedOut(cs))
    ensures Propagated(BlackedOut(cs))[j].powered <==> ConnectedToSource(cs, j)
  {
    var b := BlackedOut(cs);
    NeighborsIgnorePower(cs, b, j);
    if Propagated(b)[j].powered {
      var path :| IsPowerPath(b, path) && path[|path| - 1] == j;
      PowerPathIsWirePath(cs, b, path);
    }
    if ConnectedToSource(cs, j) {
      var path :| IsWirePath(cs, path) && path[|path| - 1] == j;
      var tail := WirePathTailIsPowerPath(cs, path);
    }
  }

  /** Spreading power a second time changes nothing. */
  lemma PropagationIdempotent(cs: seq<TileState>)
    requires Valid(cs)
    ensures Valid(Propagated(cs))
    ensures Propagated(Propagated(cs)) == Propagated(cs)
  {
    var p := Propagated(cs);
    forall k | 0 <= k < |cs|
      ensures Neighbors(p, k) == Neighbors(cs, k)
    {
      NeighborsIgnorePower(cs, p, k);
    }
    forall path | IsPowerPath(p, path)
      ensures |path| == 1
    {
      FirstStepBefore(cs, p, path);
    }
    assert Propagated(p) == p;
  }

  /** A power path in a circuit that differs only in power starts with a step that is a power path before. */
  lemma FirstStepBefore(cs: seq<TileState>, p: seq<TileState>, path: seq<nat>)
    requires Valid(cs) && SameExceptPower(cs, p) && Valid(p) && IsPowerPath(p, path)
    requires forall k :: 0 <= k < |cs| && cs[k].powered ==> p[k].powered
    ensures |path| >= 2 ==> Reachable(cs, path[1])
  {
    if |path| >= 2 {
      NeighborsIgnorePower(cs, p, path[0]);
      var step := path[..2];
      assert step[|step| - 1] == path[1];
      assert IsPowerPath(cs, step);
    }
  }

  /**
   * A level is solved after its tiles are switched off and power spreads
   * again exactly when it has tiles and every lamp is joined to a source.
   */
  lemma SolvedIffLampsConnected(cs: seq<TileState>)
    requires Valid(cs)
    ensures Valid(BlackedOut(cs))
    ensures AllLampsPoweredOn(Propagated(BlackedOut(cs))) <==>
      cs != [] && forall k :: 0 <= k < |cs| && cs[k].component == Lamp ==> ConnectedToSource(cs, k)
  {
    forall k | 0 <= k < |cs| && cs[k].component == Lamp
      ensures Propagated(BlackedOut(cs))[k].powered <==> ConnectedToSource(cs, k)
    {
      PropagatedAfterBlackout(cs, k);
    }
  }
}
