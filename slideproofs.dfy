/**
  What moveCell (2048/Board.c:93-132) guarantees, proved about the
  functional model: the cell values keep their sum, a merge happens at most
  once and removes exactly one value, the score grows by exactly the merged
  value, the slide never leaves its line even though cellIndex does not
  check for row wrap, it stops only at the edge or at a cell it may not
  enter, a cell flagged isMerged is never merged into again, and the cached
  largestCell, digits and goal only grow and keep the board consistent.
 */
module SlideProofs {
  import opened Grid
  import opened Tally
  import opened Engine

  /** The slot where the value moved by moveCell comes to rest. */
  function Landing(b: BoardState, index: int, c: char): int
    requires WellFormed(b)
  {
    SlideFrom(b, index, EdgeIndex(index, c), c, false).at
  }

  /** One pass of moveCell's loop touches only the slot it leaves and the slot it enters. */
  lemma AdvanceLocal(b: BoardState, index: int, t: int, merged: bool)
    requires WellFormed(b) && IsIndex(index) && IsIndex(t) && index != t
    ensures var s := Advance(b, index, t, merged).board;
      forall j :: IsIndex(j) && j != index && j != t ==>
        s.cell[j] == b.cell[j] && s.isNew[j] == b.isNew[j] && s.isMerged[j] == b.isMerged[j]
    ensures forall j :: IsIndex(j) && b.isMerged[j] ==> Advance(b, index, t, merged).board.isMerged[j]
  {
  }

  /**
    One pass of moveCell's loop keeps the sum of the values; a merge turns
    two values into one and sets one more isMerged flag.
   */
  lemma AdvanceCounts(b: BoardState, index: int, t: int, merged: bool)
    requires WellFormed(b) && IsIndex(index) && IsIndex(t) && index != t && Enters(b, index, t, merged)
    ensures var s := Advance(b, index, t, merged);
      var m := s.merged && !merged;
      && (merged ==> s.merged)
      && Sum(s.board.cell) == Sum(b.cell)
      && Occupied(s.board.cell) + CountTrue(s.board.isMerged) == Occupied(b.cell) + CountTrue(b.isMerged)
      && CountTrue(s.board.isMerged) == CountTrue(b.isMerged) + (if m then 1 else 0)
  {
    var v := b.cell[index];
    if b.cell[t] == 0 {
      SumUpdate(b.cell, t, v);
      SumUpdate(b.cell[t := v], index, 0);
      OccupiedUpdate(b.cell, t, v);
      OccupiedUpdate(b.cell[t := v], index, 0);
    } else {
      var doubled := b.cell[t] * 2;
      SumUpdate(b.cell, t, doubled);
      SumUpdate(b.cell[t := doubled], index, 0);
      OccupiedUpdate(b.cell, t, doubled);
      OccupiedUpdate(b.cell[t := doubled], index, 0);
      CountTrueUpdate(b.isMerged, t, true);
    }
  }

  /**
    One pass of moveCell's loop puts the moving value on `t`, doubled and
    scored when it merges; a shift carries the isNew flag along.
   */
  lemma AdvanceLanding(b: BoardState, index: int, t: int, merged: bool)
    requires WellFormed(b) && IsIndex(index) && IsIndex(t) && index != t && Enters(b, index, t, merged)
    ensures var s := Advance(b, index, t, merged);
      var m := s.merged && !merged;
      && (merged ==> s.merged)
      && s.board.cell[t] == (if m then 2 * b.cell[index] else b.cell[index])
      && s.board.score == b.score + (if m then 2 * b.cell[index] else 0)
      && (!m ==> s.board.isNew[t] == b.isNew[index])
  {
  }

  /**
    The loop of moveCell, from any slot and with any bound: the counts of
    AdvanceCounts summed over its passes. From a slot outside 0..15 nothing
    happens.
   */
  lemma {:induction false} SlideCounts(b: BoardState, index: int, edge: int, dir: char, merged: bool)
    requires WellFormed(b)
    ensures var r := SlideFrom(b, index, edge, dir, merged);
      var m := r.merged && !merged;
      && (merged ==> r.merged)
      && (!IsIndex(index) ==> r == Slide(b, index, merged))
      && r.board.moveCount == b.moveCount
      && Sum(r.board.cell) == Sum(b.cell)
      && Occupied(r.board.cell) + CountTrue(r.board.isMerged) == Occupied(b.cell) + CountTrue(b.isMerged)
      && CountTrue(r.board.isMerged) == CountTrue(b.isMerged) + (if m then 1 else 0)
    decreases Progress(index, dir)
  {
    if index != edge {
      var t := CellIndex(index, dir);
      if t != -1 && Enters(b, index, t, merged) {
        AdvanceCounts(b, index, t, merged);
        var s := Advance(b, index, t, merged);
        SlideCounts(s.board, s.at, edge, dir, s.merged);
      }
    }
  }

  /**
    The loop of moveCell from a slot of the board: the value ends on a slot
    holding it, or twice it after the one merge, which is what the score
    gains; set isMerged flags stay set.
   */
  lemma {:induction false} SlideLanding(b: BoardState, index: int, edge: int, dir: char, merged: bool)
    requires WellFormed(b) && IsIndex(index)
    ensures var r := SlideFrom(b, index, edge, dir, merged);
      var m := r.merged && !merged;
      && (merged ==> r.merged)
      && IsIndex(r.at)
      && r.board.cell[r.at] == (if m then 2 * b.cell[index] else b.cell[index])
      && r.board.score == b.score + (if m then 2 * b.cell[index] else 0)
      && (!m ==> r.board.isNew[r.at] == b.isNew[index])
      && (forall j :: IsIndex(j) && b.isMerged[j] ==> r.board.isMerged[j])
    decreases Progress(index, dir)
  {
    if index != edge {
      var t := CellIndex(index, dir);
      if t != -1 && Enters(b, index, t, merged) {
        AdvanceLanding(b, index, t, merged);
        AdvanceLocal(b, index, t, merged);
        var s := Advance(b, index, t, merged);
        SlideLanding(s.board, s.at, edge, dir, s.merged);
      }
    }
  }

  /**
    moveCell keeps the sum of the values, merges at most once, and every
    merge both removes one value and flags one more slot; the score grows
    by exactly the value on the landing slot when it merged, and not at
    all otherwise. On an index outside 0..15 the board is unchanged.
   */
  lemma MoveCellBookkeeping(b: BoardState, index: int, c: char)
    requires WellFormed(b)
    ensures var r := AfterMoveCell(b, index, c);
      var merges := CountTrue(r.isMerged) - CountTrue(b.isMerged);
      && Sum(r.cell) == Sum(b.cell)
      && (merges == 0 || merges == 1)
      && Occupied(r.cell) + merges == Occupied(b.cell)
      && r.moveCount == b.moveCount
      && (!IsIndex(index) ==> r == b)
      && (IsIndex(index) ==>
            && IsIndex(Landing(b, index, c))
            && r.cell[Landing(b, index, c)] == (if merges == 1 then 2 * b.cell[index] else b.cell[index])
            && r.score == b.score + (if merges == 1 then r.cell[Landing(b, index, c)] else 0))
      && (forall j :: IsIndex(j) && b.isMerged[j] ==> r.isMerged[j])
  {
    SlideCounts(b, index, EdgeIndex(index, c), c, false);
    if IsIndex(index) {
      SlideLanding(b, index, EdgeIndex(index, c), c, false);
    }
  }

  /** moveCell never lowers the score, and changes it only by merging, which flags one more slot. */
  lemma MoveCellScore(b: BoardState, index: int, c: char)
    requires WellFormed(b)
    ensures var r := AfterMoveCell(b, index, c);
      && r.score >= b.score
      && CountTrue(r.isMerged) >= CountTrue(b.isMerged)
      && (CountTrue(r.isMerged) == CountTrue(b.isMerged) ==> r.score == b.score)
  {
    MoveCellBookkeeping(b, index, c);
  }

  /** A grid neighbour lies on the same line of the move. */
  lemma AdjacentSameLine(i: int, j: int, c: char)
    requires Adjacent(i, j, c)
    ensures Across(j, c) == Across(i, c)
  {
  }

  /**
    The loop of moveCell bounded by the edge of its line only ever touches
    that line, between the start and the edge: slots of the other lines, and
    slots of the line farther from the edge than the start, keep their
    value and flags. It ends on the line, no farther from the edge, either
    on the edge or before a slot it may not enter.
   */
  lemma {:induction false} SlideInLine(b: BoardState, index: int, edge: int, dir: char, merged: bool)
    requires WellFormed(b) && IsIndex(index) && IsDirection(dir) && edge == EdgeIndex(index, dir)
    ensures var r := SlideFrom(b, index, edge, dir, merged);
      && IsIndex(r.at) && Across(r.at, dir) == Across(index, dir) && Dist(r.at, dir) <= Dist(index, dir)
      && (r.at == edge || (IsIndex(CellIndex(r.at, dir)) && !Enters(r.board, r.at, CellIndex(r.at, dir), r.merged)))
      && (forall j :: IsIndex(j) && (Across(j, dir) != Across(index, dir) || Dist(j, dir) > Dist(index, dir)) ==>
            r.board.cell[j] == b.cell[j] && r.board.isNew[j] == b.isNew[j] && r.board.isMerged[j] == b.isMerged[j])
    decreases Progress(index, dir)
  {
    if index != edge {
      StepTowardEdge(index, dir);
      var t := CellIndex(index, dir);
      AdjacentSameLine(index, t, dir);
      if Enters(b, index, t, merged) {
        AdvanceLocal(b, index, t, merged);
        var s := Advance(b, index, t, merged);
        SlideInLine(s.board, t, edge, dir, s.merged);
      }
    } else {
      AtEdgeIffNoDistance(index, dir);
    }
  }

  /**
    The guards of moveCell suffice against the row wrap of cellIndex: with
    its own bound, moveCell changes no slot outside the line of `index` in
    the move's direction, and stops on the edge or before a slot it may not
    enter.
   */
  lemma MoveCellStaysInLine(b: BoardState, index: int, c: char)
    requires WellFormed(b) && IsIndex(index) && IsDirection(c)
    ensures var r := AfterMoveCell(b, index, c);
      var at := Landing(b, index, c);
      && IsIndex(at) && Across(at, c) == Across(index, c) && Dist(at, c) <= Dist(index, c)
      && (at == EdgeIndex(index, c) || Adjacent(at, CellIndex(at, c), c))
      && (forall j :: IsIndex(j) && Across(j, c) != Across(index, c) ==>
            r.cell[j] == b.cell[j] && r.isNew[j] == b.isNew[j] && r.isMerged[j] == b.isMerged[j])
  {
    SlideInLine(b, index, EdgeIndex(index, c), c, false);
    var at := Landing(b, index, c);
    if at != EdgeIndex(index, c) {
      StepTowardEdge(at, c);
    }
  }

  /** A slot other than the start, flagged isMerged and holding a value, is never entered: its value and flag stay. */
  lemma {:induction false} SlideKeepsMerged(b: BoardState, index: int, edge: int, dir: char, merged: bool, j: int)
    requires WellFormed(b) && IsIndex(j) && j != index && b.cell[j] != 0 && b.isMerged[j]
    ensures var r := SlideFrom(b, index, edge, dir, merged);
      r.board.cell[j] == b.cell[j] && r.board.isMerged[j] && r.at != j
    decreases Progress(index, dir)
  {
    if index != edge {
      var t := CellIndex(index, dir);
      if t != -1 && Enters(b, index, t, merged) {
        AdvanceLocal(b, index, t, merged);
        var s := Advance(b, index, t, merged);
        SlideKeepsMerged(s.board, t, edge, dir, s.merged, j);
      }
    }
  }

  /**
    moveCell never merges into a slot already flagged isMerged in this move
    (2048/Board.c:108-109): such a slot keeps its value.
   */
  lemma MoveCellRespectsMerged(b: BoardState, index: int, c: char, j: int)
    requires WellFormed(b) && IsIndex(j) && j != index && b.cell[j] != 0 && b.isMerged[j]
    ensures AfterMoveCell(b, index, c).cell[j] == b.cell[j]
  {
    SlideKeepsMerged(b, index, EdgeIndex(index, c), c, false, j);
  }

  /** The cache refresh keeps the board consistent: a landed value below the old goal stays below the new one. */
  lemma TrackConsistent(b: BoardState, t: int)
    requires WellFormed(b) && IsIndex(t) && b.largestCell < b.goal && b.goal >= 2048
    requires b.digits >= DecimalWidth(b.largestCell)
    requires b.cell[t] < 2 * b.goal
    ensures var r := Track(b, t);
      && r.largestCell < r.goal && r.goal >= 2048 && r.digits >= DecimalWidth(r.largestCell)
      && r.cell[t] < r.goal
      && r.goal >= b.goal
  {
  }

  /**
    One pass of moveCell's loop keeps largestCell in step with the board
    (2048/Board.c:123-130): at or below the largest value if it was, and at
    or above every value if it was.
   */
  lemma AdvanceTracksMax(b: BoardState, index: int, t: int, merged: bool)
    requires WellFormed(b) && IsIndex(index) && IsIndex(t) && index != t && Enters(b, index, t, merged)
    ensures var r := Advance(b, index, t, merged).board;
      && (b.largestCell <= MaxOf(b.cell) ==> r.largestCell <= MaxOf(r.cell))
      && (Covers(b) ==> Covers(r))
  {
    var landed := if b.cell[t] == 0 then Shift(b, index, t) else Merge(b, index, t);
    var r := Track(landed, t);
    assert r == Advance(b, index, t, merged).board;
    assert r.cell == landed.cell && landed.largestCell == b.largestCell;
    assert r.cell[t] >= b.cell[index] && r.cell[t] >= b.cell[t] && r.cell[index] == 0;
    assert forall k :: 0 <= k < 16 && k != index && k != t ==> r.cell[k] == b.cell[k];
    if b.largestCell <= MaxOf(b.cell) {
      var j :| 0 <= j < 16 && b.cell[j] == MaxOf(b.cell);
      var w := if j == index || j == t then t else j;
      assert b.cell[j] <= r.cell[w] <= MaxOf(r.cell);
      assert r.cell[t] <= MaxOf(r.cell);
    }
  }

  /** The loop of moveCell keeps largestCell at or below the largest value, and at or above every value. */
  lemma {:induction false} SlideTracksMax(b: BoardState, index: int, edge: int, dir: char, merged: bool)
    requires WellFormed(b)
    ensures var r := SlideFrom(b, index, edge, dir, merged).board;
      && (b.largestCell <= MaxOf(b.cell) ==> r.largestCell <= MaxOf(r.cell))
      && (Covers(b) ==> Covers(r))
    decreases Progress(index, dir)
  {
    if index != edge {
      var t := CellIndex(index, dir);
      if t != -1 && Enters(b, index, t, merged) {
        AdvanceTracksMax(b, index, t, merged);
        var s := Advance(b, index, t, merged);
        SlideTracksMax(s.board, s.at, edge, dir, s.merged);
      }
    }
  }

  /** One pass of moveCell's loop keeps every value a tile below the goal, and the caches growing. */
  lemma AdvanceKeepsTiles(b: BoardState, index: int, t: int, merged: bool)
    requires Consistent(b) && IsIndex(index) && IsIndex(t) && index != t && Enters(b, index, t, merged)
    ensures var r := Advance(b, index, t, merged).board;
      && (forall i :: 0 <= i < 16 ==> IsTile(r.cell[i]) && r.cell[i] < r.goal)
      && r.largestCell < r.goal && r.goal >= 2048 && r.digits >= DecimalWidth(r.largestCell)
      && r.largestCell >= b.largestCell && r.digits >= b.digits && r.goal >= b.goal
  {
    var v := b.cell[index];
    if b.cell[t] == 0 {
      var sh := Shift(b, index, t);
      assert sh.cell[t] == v;
      TrackConsistent(sh, t);
      var r := Track(sh, t);
      forall i | 0 <= i < 16
        ensures IsTile(r.cell[i]) && r.cell[i] < r.goal
      {
        if i != t && i != index {
          assert r.cell[i] == b.cell[i];
        }
      }
    } else {
      var mg := Merge(b, index, t);
      DoubleTile(b.cell[t]);
      assert mg.cell[t] == 2 * b.cell[t];
      TrackConsistent(mg, t);
      var r := Track(mg, t);
      forall i | 0 <= i < 16
        ensures IsTile(r.cell[i]) && r.cell[i] < r.goal
      {
        if i != t && i != index {
          assert r.cell[i] == b.cell[i];
        }
      }
    }
  }

  /** One pass of moveCell's loop keeps the board consistent and the caches growing. */
  lemma AdvanceConsistent(b: BoardState, index: int, t: int, merged: bool)
    requires Consistent(b) && IsIndex(index) && IsIndex(t) && index != t && Enters(b, index, t, merged)
    ensures var r := Advance(b, index, t, merged).board;
      && Consistent(r)
      && r.largestCell >= b.largestCell && r.digits >= b.digits && r.goal >= b.goal
  {
    AdvanceKeepsTiles(b, index, t, merged);
    AdvanceTracksMax(b, index, t, merged);
  }

  /** The loop of moveCell keeps the board consistent; largestCell, digits and goal never decrease. */
  lemma {:induction false} SlideConsistent(b: BoardState, index: int, edge: int, dir: char, merged: bool)
    requires Consistent(b)
    ensures var r := SlideFrom(b, index, edge, dir, merged).board;
      && Consistent(r)
      && r.largestCell >= b.largestCell && r.digits >= b.digits && r.goal >= b.goal
    decreases Progress(index, dir)
  {
    if index != edge {
      var t := CellIndex(index, dir);
      if t != -1 && Enters(b, index, t, merged) {
        AdvanceConsistent(b, index, t, merged);
        var s := Advance(b, index, t, merged);
        SlideConsistent(s.board, s.at, edge, dir, s.merged);
      }
    }
  }

  /**
    moveCell keeps every slot a tile below the goal and the caches
    consistent (2048/Board.c:123-130); largestCell, digits and goal never
    decrease.
   */
  lemma MoveCellConsistent(b: BoardState, index: int, c: char)
    requires Consistent(b)
    ensures var r := AfterMoveCell(b, index, c);
      && Consistent(r)
      && r.largestCell >= b.largestCell && r.digits >= b.digits && r.goal >= b.goal
  {
    SlideConsistent(b, index, EdgeIndex(index, c), c, false);
  }

  /** The loop of moveCell never sets an isNew flag: once they are all clear they stay so. */
  lemma {:induction false} SlideKeepsNewClear(b: BoardState, index: int, edge: int, dir: char, merged: bool)
    requires WellFormed(b) && forall i :: 0 <= i < 16 ==> !b.isNew[i]
    ensures forall i :: 0 <= i < 16 ==> !SlideFrom(b, index, edge, dir, merged).board.isNew[i]
    decreases Progress(index, dir)
  {
    if index != edge {
      var t := CellIndex(index, dir);
      if t != -1 && Enters(b, index, t, merged) {
        var s := Advance(b, index, t, merged);
        if b.cell[t] == 0 {
          assert s.board.isNew == b.isNew[t := b.isNew[index]][index := false];
        } else {
          assert s.board.isNew == b.isNew;
        }
        SlideKeepsNewClear(s.board, s.at, edge, dir, s.merged);
        assert SlideFrom(b, index, edge, dir, merged) == SlideFrom(s.board, s.at, edge, dir, s.merged);
        assert forall i :: 0 <= i < 16 ==> !SlideFrom(s.board, s.at, edge, dir, s.merged).board.isNew[i];
      }
    }
  }
}
