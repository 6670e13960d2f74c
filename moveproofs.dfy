/**
  What moveBoard (2048/Board.c:135-184) guarantees, proved about the
  functional model: an unknown command changes nothing; otherwise the move
  counter grows by one, every isNew flag ends clear, the sum of the values
  is kept, the number of occupied slots drops by exactly the number of
  merges, the score grows by at least 4 per merge and only through merges,
  the board stays consistent, and a direction in which dirPossible finds
  nothing to do leaves every value where it was.
 */
module MoveProofs {
  import opened Grid
  import opened Tally
  import opened Engine
  import opened SlideProofs

  /** The bookkeeping of MoveCellBookkeeping summed over the first `n` visits of the double loop. */
  lemma {:induction false} MoveAllBookkeeping(b: BoardState, order: seq<int>, n: nat, c: char)
    requires WellFormed(b) && n <= |order|
    ensures var r := MoveAll(b, order, n, c);
      && Sum(r.cell) == Sum(b.cell)
      && Occupied(r.cell) + CountTrue(r.isMerged) == Occupied(b.cell) + CountTrue(b.isMerged)
      && CountTrue(r.isMerged) >= CountTrue(b.isMerged)
      && r.moveCount == b.moveCount
  {
    if n > 0 {
      MoveAllBookkeeping(b, order, n - 1, c);
      var p := MoveAll(b, order, n - 1, c);
      var j := order[n - 1];
      assert MoveAll(b, order, n, c) == Visit(p, j, c);
      if IsIndex(j) && p.cell[j] != 0 {
        MoveCellBookkeeping(p, j, c);
      }
    }
  }

  /** Over the first `n` visits the score never decreases, and it only grows when some visit merged. */
  lemma {:induction false} MoveAllScore(b: BoardState, order: seq<int>, n: nat, c: char)
    requires WellFormed(b) && n <= |order|
    ensures var r := MoveAll(b, order, n, c);
      && r.score >= b.score
      && CountTrue(r.isMerged) >= CountTrue(b.isMerged)
      && (CountTrue(r.isMerged) == CountTrue(b.isMerged) ==> r.score == b.score)
  {
    if n > 0 {
      MoveAllScore(b, order, n - 1, c);
      var p := MoveAll(b, order, n - 1, c);
      var j := order[n - 1];
      assert MoveAll(b, order, n, c) == Visit(p, j, c);
      if IsIndex(j) && p.cell[j] != 0 {
        MoveCellScore(p, j, c);
      }
    }
  }

  /** No visit sets an isNew flag: once they are all clear they stay so. */
  lemma {:induction false} MoveAllNewClear(b: BoardState, order: seq<int>, n: nat, c: char)
    requires WellFormed(b) && n <= |order| && forall i :: 0 <= i < 16 ==> !b.isNew[i]
    ensures forall i :: 0 <= i < 16 ==> !MoveAll(b, order, n, c).isNew[i]
  {
    if n > 0 {
      MoveAllNewClear(b, order, n - 1, c);
      var p := MoveAll(b, order, n - 1, c);
      var j := order[n - 1];
      assert MoveAll(b, order, n, c) == Visit(p, j, c);
      if IsIndex(j) && p.cell[j] != 0 {
        SlideKeepsNewClear(p, j, EdgeIndex(j, c), c, false);
        assert AfterMoveCell(p, j, c) == SlideFrom(p, j, EdgeIndex(j, c), c, false).board;
      }
    }
  }

  /**
    Over the first `n` visits the board stays consistent, the caches never
    decrease, and each merge scores at least 4: the merged value is twice
    a tile, and a tile that is not empty is at least 2.
   */
  lemma {:induction false} MoveAllConsistent(b: BoardState, order: seq<int>, n: nat, c: char)
    requires Consistent(b) && n <= |order|
    ensures var r := MoveAll(b, order, n, c);
      && Consistent(r)
      && r.largestCell >= b.largestCell && r.digits >= b.digits && r.goal >= b.goal
      && r.score >= b.score + 4 * (CountTrue(r.isMerged) - CountTrue(b.isMerged))
  {
    if n > 0 {
      MoveAllConsistent(b, order, n - 1, c);
      var p := MoveAll(b, order, n - 1, c);
      var j := order[n - 1];
      assert MoveAll(b, order, n, c) == Visit(p, j, c);
      if IsIndex(j) && p.cell[j] != 0 {
        MoveCellBookkeeping(p, j, c);
        MoveCellConsistent(p, j, c);
        assert IsTile(p.cell[j]);
      }
    }
  }

  /** Over the first `n` visits largestCell stays at or below the largest value, and at or above every value. */
  lemma {:induction false} MoveAllTracksMax(b: BoardState, order: seq<int>, n: nat, c: char)
    requires WellFormed(b) && n <= |order|
    ensures var r := MoveAll(b, order, n, c);
      && (b.largestCell <= MaxOf(b.cell) ==> r.largestCell <= MaxOf(r.cell))
      && (Covers(b) ==> Covers(r))
  {
    if n > 0 {
      MoveAllTracksMax(b, order, n - 1, c);
      var p := MoveAll(b, order, n - 1, c);
      var j := order[n - 1];
      assert MoveAll(b, order, n, c) == Visit(p, j, c);
      VisitTracksMax(p, j, c);
    }
  }

  /** One visit of moveBoard's inner loop keeps largestCell at or below the largest value, and at or above every value. */
  lemma VisitTracksMax(b: BoardState, j: int, c: char)
    requires WellFormed(b)
    ensures var r := Visit(b, j, c);
      && (b.largestCell <= MaxOf(b.cell) ==> r.largestCell <= MaxOf(r.cell))
      && (Covers(b) ==> Covers(r))
  {
    if IsIndex(j) && b.cell[j] != 0 {
      SlideTracksMax(b, j, EdgeIndex(j, c), c, false);
    }
  }

  /**
    moveBoard keeps largestCell exact: when it equals the largest value on
    the board before the move, it equals the largest value after it, since
    every landed value is tracked (2048/Board.c:123-130).
   */
  lemma MoveBoardKeepsMax(b: BoardState, c: char)
    requires WellFormed(b) && b.largestCell == MaxOf(b.cell)
    ensures AfterMoveBoard(b, c).largestCell == MaxOf(AfterMoveBoard(b, c).cell)
  {
    if IsDirection(c) {
      var m := MoveAll(Reset(b), VisitOrder(c), 12, c);
      MoveAllTracksMax(Reset(b), VisitOrder(c), 12, c);
      var j :| 0 <= j < 16 && m.cell[j] == MaxOf(m.cell);
      assert MaxOf(m.cell) <= m.largestCell by { assert Covers(m); }
    }
  }

  /** Clearing the flags sets none, and keeps a consistent board consistent. */
  lemma ResetFacts(b: BoardState)
    requires WellFormed(b)
    ensures CountTrue(Reset(b).isMerged) == 0
    ensures forall i :: 0 <= i < 16 ==> !Reset(b).isNew[i]
    ensures Consistent(b) ==> Consistent(Reset(b))
  {
    CountTrueNone(NoFlags());
  }

  /**
    moveBoard: an unknown command returns the board unchanged; a move
    counts one step, clears every isNew flag, keeps the sum of the values,
    and loses exactly one occupied slot per slot flagged isMerged, so it
    never increases the occupancy. The score never decreases, and it is
    unchanged when nothing merged.
   */
  lemma MoveBoardBookkeeping(b: BoardState, c: char)
    requires WellFormed(b)
    ensures var r := AfterMoveBoard(b, c);
      && (!IsDirection(c) ==> r == b)
      && (IsDirection(c) ==> r.moveCount == b.moveCount + 1)
      && (IsDirection(c) ==> forall i :: 0 <= i < 16 ==> !r.isNew[i])
      && (IsDirection(c) ==> Occupied(r.cell) + CountTrue(r.isMerged) == Occupied(b.cell))
      && Sum(r.cell) == Sum(b.cell)
      && Occupied(r.cell) <= Occupied(b.cell)
      && r.score >= b.score
      && (CountTrue(r.isMerged) == 0 ==> r.score == b.score)
  {
    if IsDirection(c) {
      ResetFacts(b);
      MoveAllBookkeeping(Reset(b), VisitOrder(c), 12, c);
      MoveAllScore(Reset(b), VisitOrder(c), 12, c);
      MoveAllNewClear(Reset(b), VisitOrder(c), 12, c);
    }
  }

  /**
    moveBoard keeps a consistent board consistent, never decreases
    largestCell, digits or goal, and scores at least 4 for every slot it
    flags isMerged.
   */
  lemma MoveBoardConsistent(b: BoardState, c: char)
    requires Consistent(b)
    ensures var r := AfterMoveBoard(b, c);
      && Consistent(r)
      && r.largestCell >= b.largestCell && r.digits >= b.digits && r.goal >= b.goal
      && (IsDirection(c) ==> r.score >= b.score + 4 * CountTrue(r.isMerged))
  {
    if IsDirection(c) {
      ResetFacts(b);
      MoveAllConsistent(Reset(b), VisitOrder(c), 12, c);
    }
  }

  /**
    When dirPossible finds no slot that may move in direction `c`, moveCell
    on a slot holding a value changes nothing: the slot is on its edge or
    its neighbour is neither empty nor equal.
   */
  lemma ImpossibleCellStays(b: BoardState, j: int, c: char)
    requires WellFormed(b) && IsIndex(j) && IsDirection(c) && b.cell[j] != 0 && !DirPossible(b.cell, c)
    ensures AfterMoveCell(b, j, c) == b
  {
    if j != EdgeIndex(j, c) {
      StepTowardEdge(j, c);
      var t := CellIndex(j, c);
      assert Adjacent(j, t, c);
      assert !Enters(b, j, t, false);
    }
  }

  /** No visit of the double loop changes a board on which direction `c` is impossible. */
  lemma {:induction false} MoveAllStill(b: BoardState, order: seq<int>, n: nat, c: char)
    requires WellFormed(b) && n <= |order| && IsDirection(c) && !DirPossible(b.cell, c)
    ensures MoveAll(b, order, n, c) == b
  {
    if n > 0 {
      MoveAllStill(b, order, n - 1, c);
      var j := order[n - 1];
      assert MoveAll(b, order, n, c) == Visit(b, j, c);
      if IsIndex(j) && b.cell[j] != 0 {
        ImpossibleCellStays(b, j, c);
      }
    }
  }

  /**
    A move in a direction that dirPossible rejects leaves every value, the
    score and the caches as they were: only the flags are cleared and the
    move is counted.
   */
  lemma MoveBoardImpossible(b: BoardState, c: char)
    requires WellFormed(b) && IsDirection(c) && !DirPossible(b.cell, c)
    ensures AfterMoveBoard(b, c) == Reset(b).(moveCount := b.moveCount + 1)
    ensures AfterMoveBoard(b, c).cell == b.cell
  {
    MoveAllStill(Reset(b), VisitOrder(c), 12, c);
  }
}
