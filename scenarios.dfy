/**
  Two left moves worked through slot by slot, for a top row of equal values
  `x` and an otherwise empty board (x = 2 gives the rows [2, 2, 2, 0] and
  [2, 0, 0, 2]): the front pair merges and the third value closes up behind
  it, and a value crosses empty slots before merging.
 */
module Scenarios {
  import opened Grid
  import opened Engine

  /** Visiting slots that are empty changes nothing. */
  lemma {:induction false} SkipEmpty(b: BoardState, order: seq<int>, lo: nat, hi: nat, c: char, m: BoardState)
    requires WellFormed(b) && lo <= hi <= |order| && MoveAll(b, order, lo, c) == m
    requires forall n :: lo <= n < hi ==> IsIndex(order[n]) && m.cell[order[n]] == 0
    ensures MoveAll(b, order, hi, c) == m
    decreases hi - lo
  {
    if lo < hi {
      SkipEmpty(b, order, lo, hi - 1, c, m);
    }
  }

  /** The left move visits columns 1, 2 and 3, top to bottom. */
  lemma LeftOrder()
    ensures VisitOrder('l') == [1, 5, 9, 13, 2, 6, 10, 14, 3, 7, 11, 15]
  {
  }

  /** Only the top row holds values: slots 4..15 are empty. */
  predicate LowerRowsEmpty(cells: seq<nat>)
    requires |cells| == 16
  {
    forall i :: 4 <= i < 16 ==> cells[i] == 0
  }

  /** A value sliding left from slot 1 into the equal value at slot 0 merges there. */
  lemma MergeIntoCorner(b: BoardState)
    requires WellFormed(b) && b.cell[1] != 0 && b.cell[0] == b.cell[1] && !b.isMerged[0]
    ensures Visit(b, 1, 'l').cell == b.cell[0 := 2 * b.cell[1]][1 := 0]
    ensures Visit(b, 1, 'l').isMerged == b.isMerged[0 := true]
    ensures Visit(b, 1, 'l').score == b.score + 2 * b.cell[1] && Visit(b, 1, 'l').moveCount == b.moveCount
  {
    SlideFromMerge(b, 1, 0, 'l', false, 0);
  }

  /** A value sliding left from slot 2 into an empty slot 1 stops against a different value at slot 0. */
  lemma ShiftUpToCorner(b: BoardState)
    requires WellFormed(b) && b.cell[2] != 0 && b.cell[1] == 0 && b.cell[0] != b.cell[2] && b.cell[0] != 0
    ensures Visit(b, 2, 'l').cell == b.cell[1 := b.cell[2]][2 := 0]
    ensures Visit(b, 2, 'l').isMerged == b.isMerged
    ensures Visit(b, 2, 'l').score == b.score && Visit(b, 2, 'l').moveCount == b.moveCount
  {
    SlideFromShift(b, 2, 0, 'l', false, 1);
  }

  /** Once only slot 3 and the lower rows are left to visit, and they are empty, the left move is done. */
  lemma LeftTail(b: BoardState, m: BoardState, lo: nat)
    requires WellFormed(b) && (lo == 5 || lo == 9)
    requires MoveAll(Reset(b), VisitOrder('l'), lo, 'l') == m && LowerRowsEmpty(m.cell) && m.cell[3] == 0
    ensures AfterMoveBoard(b, 'l') == m.(moveCount := m.moveCount + 1)
  {
    LeftOrder();
    SkipEmpty(Reset(b), VisitOrder('l'), lo, 12, 'l', m);
  }

  /** The first column of the left move on [x, x, x, 0]: slot 1 merges into slot 0. */
  lemma ThreeEqualFirst(b: BoardState, x: nat)
    requires WellFormed(b) && x != 0 && LowerRowsEmpty(b.cell)
    requires b.cell[0] == x && b.cell[1] == x && b.cell[2] == x && b.cell[3] == 0
    ensures var m := MoveAll(Reset(b), VisitOrder('l'), 4, 'l');
      && m.cell == b.cell[0 := 2 * x][1 := 0]
      && m.isMerged == NoFlags()[0 := true]
      && m.score == b.score + 2 * x && m.moveCount == b.moveCount
  {
    var order := VisitOrder('l');
    LeftOrder();
    var s0 := Reset(b);
    MergeIntoCorner(s0);
    var s1 := Visit(s0, 1, 'l');
    assert MoveAll(s0, order, 1, 'l') == s1;
    SkipEmpty(s0, order, 1, 4, 'l', s1);
  }

  /** moveBoard 'l' on the top row [x, x, x, 0] leaves [2x, x, 0, 0]: one merge, at slot 0, scoring 2x. */
  lemma LeftThreeEqual(b: BoardState, x: nat)
    requires WellFormed(b) && x != 0 && LowerRowsEmpty(b.cell)
    requires b.cell[0] == x && b.cell[1] == x && b.cell[2] == x && b.cell[3] == 0
    ensures var r := AfterMoveBoard(b, 'l');
      && r.cell == b.cell[0 := 2 * x][2 := 0]
      && r.score == b.score + 2 * x
      && r.moveCount == b.moveCount + 1
      && (forall i :: 0 <= i < 16 ==> r.isMerged[i] == (i == 0))
  {
    ThreeEqualFirst(b, x);
    var s1 := MoveAll(Reset(b), VisitOrder('l'), 4, 'l');
    ShiftUpToCorner(s1);
    LeftOrder();
    var s2 := MoveAll(Reset(b), VisitOrder('l'), 5, 'l');
    assert s2 == Visit(s1, 2, 'l');
    LeftTail(b, s2, 5);
  }

  /** The value at slot 3 crosses the empty slots 2 and 1 and merges into the equal value at slot 0. */
  lemma CrossGap(b: BoardState, x: nat)
    requires WellFormed(b) && x != 0 && b.cell[0] == x && b.cell[1] == 0 && b.cell[2] == 0 && b.cell[3] == x
    requires !b.isMerged[0]
    ensures Visit(b, 3, 'l').cell == b.cell[0 := 2 * x][3 := 0]
    ensures Visit(b, 3, 'l').isMerged == b.isMerged[0 := true]
    ensures Visit(b, 3, 'l').score == b.score + 2 * x && Visit(b, 3, 'l').moveCount == b.moveCount
  {
    var a := Track(Shift(b, 3, 2), 2);
    assert a.cell == b.cell[2 := x][3 := 0];
    var z := Track(Shift(a, 2, 1), 1);
    assert z.cell == b.cell[1 := x][3 := 0];
    var s := Track(Merge(z, 1, 0), 0);
    assert s.cell == b.cell[0 := 2 * x][3 := 0];
    SlideFromShift(b, 3, 0, 'l', false, 2);
    SlideFromShift(a, 2, 0, 'l', false, 1);
    SlideFromMerge(z, 1, 0, 'l', false, 0);
  }

  /** moveBoard 'l' on the top row [x, 0, 0, x] leaves [2x, 0, 0, 0]: the right value crosses two empty slots and merges. */
  lemma LeftAcrossGap(b: BoardState, x: nat)
    requires WellFormed(b) && x != 0 && LowerRowsEmpty(b.cell)
    requires b.cell[0] == x && b.cell[1] == 0 && b.cell[2] == 0 && b.cell[3] == x
    ensures var r := AfterMoveBoard(b, 'l');
      && r.cell == b.cell[0 := 2 * x][3 := 0]
      && r.score == b.score + 2 * x
      && r.moveCount == b.moveCount + 1
      && (forall i :: 0 <= i < 16 ==> r.isMerged[i] == (i == 0))
  {
    var order := VisitOrder('l');
    LeftOrder();
    var s0 := Reset(b);
    SkipEmpty(s0, order, 0, 8, 'l', s0);
    CrossGap(s0, x);
    var s1 := Visit(s0, 3, 'l');
    assert MoveAll(s0, order, 9, 'l') == s1;
    LeftTail(b, s1, 9);
  }
}
