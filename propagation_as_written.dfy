/**
 * `propagateElectricity` as it is written. A tile is pushed on the stack
 * when it is off and not waiting already; sources are not excluded. A
 * source never changes its power flag, and a tile made a source in the
 * editor keeps the flag it had, which may be off. So two such sources that
 * are linked push each other back for ever and the loop never ends. The
 * model's `Circuit.PropagateElectricity` uses `Pushed`, which also skips
 * sources (they are all on the stack from the start anyway). Both guards
 * push the same tiles whenever every source is on.
 */
module PropagationAsWritten {
  import opened TileShapes
  import opened Components
  import opened Positions
  import opened TileStates
  import opened CircuitModel

  /** The pushes of one round as written: each tile of `neighs` that is off and not waiting goes on top. */
  function PushedAsWritten(cs: seq<TileState>, neighs: seq<nat>, queue: seq<nat>): (r: seq<nat>)
    decreases |neighs|
  {
    if neighs == [] then queue
    else
      var j := neighs[0];
      PushedAsWritten(cs, neighs[1..],
        if j < |cs| && !cs[j].powered && j !in queue then [j] + queue else queue)
  }

  /** Every source is on: always so for a circuit read from a file, where sources start powered. */
  predicate SourcesOn(cs: seq<TileState>) {
    forall k :: 0 <= k < |cs| && cs[k].component == Source ==> cs[k].powered
  }

  /** When every source is on, the guard as written and the corrected one push the same tiles in the same order. */
  lemma {:induction false} GuardsAgree(cs: seq<TileState>, neighs: seq<nat>, queue: seq<nat>)
    requires SourcesOn(cs)
    ensures PushedAsWritten(cs, neighs, queue) == Pushed(cs, neighs, queue)
    decreases |neighs|
  {
    if neighs != [] {
      var j := neighs[0];
      var q1 := if j < |cs| && !cs[j].powered && j !in queue then [j] + queue else queue;
      assert q1 == if j < |cs| && !cs[j].powered && cs[j].component != Source && j !in queue then [j] + queue else queue;
      GuardsAgree(cs, neighs[1..], q1);
    }
  }

  /** The state of the spreading loop: the tiles and the stack of tiles to explore, top first. */
  datatype Round = Round(cells: seq<TileState>, queue: seq<nat>)

  /**
   * One turn of the loop as written: the top tile is popped and told to
   * switch on, then the tiles `neighs` that `getNeighbors` lists for it are
   * pushed by the guard as written.
   */
  function StepAsWritten(r: Round, neighs: seq<nat>): (next: Round)
    requires r.queue != [] && r.queue[0] < |r.cells|
    ensures |next.cells| == |r.cells|
  {
    var cur := r.queue[0];
    var cs := r.cells[cur := WithPower(r.cells[cur], true)];
    Round(cs, PushedAsWritten(cs, neighs, r.queue[1..]))
  }

  /** The same turn with the corrected guard, as `Circuit.ExploreNext` takes it. */
  function StepCorrected(r: Round, neighs: seq<nat>): (next: Round)
    requires r.queue != [] && r.queue[0] < |r.cells|
    ensures |next.cells| == |r.cells|
  {
    var cur := r.queue[0];
    var cs := r.cells[cur := WithPower(r.cells[cur], true)];
    Round(cs, Pushed(cs, neighs, r.queue[1..]))
  }

  /** When every source is on, a turn as written is the corrected turn. */
  lemma StepsAgree(r: Round, neighs: seq<nat>)
    requires r.queue != [] && r.queue[0] < |r.cells| && SourcesOn(r.cells)
    ensures StepAsWritten(r, neighs) == StepCorrected(r, neighs)
    ensures SourcesOn(StepAsWritten(r, neighs).cells)
  {
    var cur := r.queue[0];
    var cs := r.cells[cur := WithPower(r.cells[cur], true)];
    assert forall k :: 0 <= k < |cs| && k != cur ==> cs[k] == r.cells[k];
    GuardsAgree(cs, neighs, r.queue[1..]);
  }

  /**
   * Two square sources side by side, joined by a cable (side 1 of the left
   * one, side 3 of the right one), both with their power flag off, as after
   * two empty tiles were made sources in the editor.
   */
  function TwoDarkSources(): seq<TileState> {
    [TileState(Square, Position(0, 0), Source, [false, true, false, false], false),
     TileState(Square, Position(0, 1), Source, [false, false, false, true], false)]
  }

  /** The two dark sources form a valid circuit in which each is the other's only neighbour. */
  lemma TwoDarkSourcesLinked()
    ensures Valid(TwoDarkSources()) && Sources(TwoDarkSources()) == [0, 1]
    ensures Neighbors(TwoDarkSources(), 0) == {1} && Neighbors(TwoDarkSources(), 1) == {0}
  {
    var cs := TwoDarkSources();
    assert IsLinkedTo(cs[0], cs[1]);
    assert IsLinkedTo(cs[1], cs[0]);
    assert Sources(cs) == IndicesOf(cs, Source, 1) + [1];
  }

  /**
   * The loop as written on the two dark sources: after the first turn the
   * stack holds the right source; from then on each turn pops one source and
   * pushes the other, so the stack is never empty and the loop never ends.
   */
  lemma TwoDarkSourcesLoopForever()
    ensures var cs := TwoDarkSources();
      && StepAsWritten(Round(cs, Sources(cs)), [1]) == Round(cs, [1])
      && StepAsWritten(Round(cs, [1]), [0]) == Round(cs, [0])
      && StepAsWritten(Round(cs, [0]), [1]) == Round(cs, [1])
  {
    var cs := TwoDarkSources();
    TwoDarkSourcesLinked();
    assert cs[0 := WithPower(cs[0], true)] == cs;
    assert cs[1 := WithPower(cs[1], true)] == cs;
  }

  /** With the corrected guard the same circuit empties its stack in two turns. */
  lemma TwoDarkSourcesCorrected()
    ensures var cs := TwoDarkSources();
      && StepCorrected(Round(cs, Sources(cs)), [1]) == Round(cs, [1])
      && StepCorrected(Round(cs, [1]), [0]) == Round(cs, [])
  {
    var cs := TwoDarkSources();
    TwoDarkSourcesLinked();
    assert cs[0 := WithPower(cs[0], true)] == cs;
    assert cs[1 := WithPower(cs[1], true)] == cs;
  }
}
