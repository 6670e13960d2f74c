/**
  The `GameBoard` record of terminal-2048/Board.h:25-34 and the routines of
  2048/Board.c that update it in place, as a class over three arrays of 16
  entries. Each method runs the loops of its C routine and promises that the
  board it leaves is the one the matching function of module Engine computes
  from the board it found; what those functions guarantee is proved in
  SlideProofs, MoveProofs and TerminalProofs.

  The random draws that newGameBoard and initCell take from rand() are
  parameters.
 */
module Board {
  import opened Grid
  import opened Tally
  import opened Engine

  class GameBoard {
    const cell: array<nat>
    const isNew: array<bool>
    const isMerged: array<bool>
    var digits: nat
    var largestCell: nat
    var goal: nat
    var moveCount: nat
    var score: nat

    /** The three per-slot arrays have CELL_NUM (16) entries and the two flag arrays are distinct. */
    ghost predicate Valid()
      reads this
    {
      cell.Length == 16 && isNew.Length == 16 && isMerged.Length == 16 && isNew != isMerged
    }

    /** The fields as one value of the functional model. */
    ghost function State(): (s: BoardState)
      reads this, cell, isNew, isMerged
      requires Valid()
      ensures WellFormed(s)
    {
      BoardState(cell[..], isNew[..], isMerged[..], digits, largestCell, goal, moveCount, score)
    }

    /**
      newGameBoard (2048/Board.c:11-33): a zeroed board with digits 3 and
      goal 2048, two seeded slots, and largestCell computed from them.
     */
    constructor (valueDraw1: nat, indexDraws1: seq<nat>, valueDraw2: nat, indexDraws2: seq<nat>)
      requires |indexDraws1| > 0
      requires exists k :: 0 <= k < |indexDraws2| && indexDraws2[k] % 16 != indexDraws1[0] % 16
      ensures Valid() && fresh(cell) && fresh(isNew) && fresh(isMerged)
      ensures State() == NewGame(valueDraw1, indexDraws1, valueDraw2, indexDraws2)
    {
      var cells := new nat[16];
      var newFlags := new bool[16];
      var mergedFlags := new bool[16];
      // every slot starts empty and unflagged
      for i := 0 to 16
        invariant forall k :: 0 <= k < i ==> cells[k] == 0 && !newFlags[k] && !mergedFlags[k]
      {
        cells[i] := 0;
        newFlags[i] := false;
        mergedFlags[i] := false;
      }
      cell, isNew, isMerged := cells, newFlags, mergedFlags;
      new;
      assert cell[..] == Blank().cell && isNew[..] == NoFlags() && isMerged[..] == NoFlags();
      digits := 3;
      score, moveCount := 0, 0;
      goal := 2048;
      largestCell := 0;
      assert State() == Blank();
      var first := InitCell(valueDraw1, indexDraws1);
      assert State() == AfterInitCell(Blank(), valueDraw1, indexDraws1);
      assert first == indexDraws1[0] % 16;
      var k :| 0 <= k < |indexDraws2| && indexDraws2[k] % 16 != indexDraws1[0] % 16;
      assert cell[indexDraws2[k] % 16] == 0;
      var second := InitCell(valueDraw2, indexDraws2);
      UpdateLargestCell();
    }

    /**
      moveCell (2048/Board.c:93-132): slide the value at `index` toward the
      edge in `direction`, merging at most once.
     */
    method MoveCell(index: int, direction: char)
      requires Valid()
      modifies this, cell, isNew, isMerged
      ensures Valid()
      ensures State() == AfterMoveCell(old(State()), index, direction)
    {
      var at := index;
      var edge := EdgeIndex(at, direction);
      var merged := false;
      ghost var b := State();
      ghost var moved := AfterMoveCell(b, index, direction);
      while at != edge
        invariant Valid() && State() == b
        invariant SlideFrom(b, at, edge, direction, merged).board == moved
        decreases Progress(at, direction)
      {
        var targetIndex := CellIndex(at, direction);
        // no neighbour in this direction: the slot cannot move
        if targetIndex == -1 {
          break;
        }
        assert IsIndex(targetIndex) && IsIndex(at) && targetIndex != at;
        assert Progress(targetIndex, direction) < Progress(at, direction);
        if cell[targetIndex] == 0 {
          SlideFromShift(b, at, edge, direction, merged, targetIndex);
          ShiftInto(at, targetIndex);
          b := Shift(b, at, targetIndex);
        } else if cell[targetIndex] == cell[at] && !merged && !isMerged[targetIndex] {
          SlideFromMerge(b, at, edge, direction, merged, targetIndex);
          MergeInto(at, targetIndex);
          merged := true;
          b := Merge(b, at, targetIndex);
        } else {
          // an occupied neighbour that may not be entered ends the slide
          break;
        }
        at := targetIndex;
        RefreshCaches(at);
        b := Track(b, at);
      }
    }

    /** The value at `from` moves into the empty slot `to`, with its isNew flag (2048/Board.c:100-106). */
    method ShiftInto(from: int, to: int)
      requires Valid() && IsIndex(from) && IsIndex(to) && from != to
      modifies cell, isNew
      ensures Valid() && State() == Shift(old(State()), from, to)
    {
      ghost var b := State();
      cell[to] := cell[from];
      assert cell[..] == b.cell[to := b.cell[from]];
      cell[from] := 0;
      assert cell[..] == b.cell[to := b.cell[from]][from := 0];
      isNew[to] := isNew[from];
      assert isNew[..] == b.isNew[to := b.isNew[from]];
      isNew[from] := false;
      assert isNew[..] == b.isNew[to := b.isNew[from]][from := false];
    }

    /** The value at `from` merges into `to`, which doubles and scores (2048/Board.c:107-116). */
    method MergeInto(from: int, to: int)
      requires Valid() && IsIndex(from) && IsIndex(to) && from != to
      modifies this, cell, isMerged
      ensures Valid() && State() == Merge(old(State()), from, to)
    {
      ghost var b := State();
      cell[to] := cell[to] * 2;
      assert cell[..] == b.cell[to := b.cell[to] * 2];
      cell[from] := 0;
      assert cell[..] == b.cell[to := b.cell[to] * 2][from := 0];
      isMerged[to] := true;
      assert isMerged[..] == b.isMerged[to := true];
      score := score + cell[to];
    }

    /**
      The cache refresh of moveCell (2048/Board.c:123-130) after a value
      lands on slot `at`.
     */
    method RefreshCaches(at: int)
      requires Valid() && IsIndex(at)
      modifies this
      ensures Valid()
      ensures State() == Track(old(State()), at)
    {
      if cell[at] > largestCell {
        largestCell := cell[at];
        UpdateDigits();
        if cell[at] >= goal {
          goal := goal * 2;
        }
      }
    }

    /**
      moveBoard (2048/Board.c:135-184): clear the flags, slide every
      non-empty slot of the three movable lines, nearest the edge first, and
      count the move. An unknown command leaves the board as it is.
     */
    method MoveBoard(c: char)
      requires Valid()
      modifies this, cell, isNew, isMerged
      ensures Valid()
      ensures State() == AfterMoveBoard(old(State()), c)
    {
      if c != 'u' && c != 'd' && c != 'l' && c != 'r' {
        return;
      }

      // every slot starts the move unflagged
      ClearFlags();
      assert State() == Reset(old(State()));

      var init, outIncre, inIncre;
      match c {
        case 'u' => init, outIncre, inIncre := 4, 4, 1;
        case 'd' => init, outIncre, inIncre := 8, -4, 1;
        case 'l' => init, outIncre, inIncre := 1, 1, 4;
        case _ => init, outIncre, inIncre := 2, -1, 4;
      }
      assert init == LineStart(c) && outIncre == OuterStep(c) && inIncre == InnerStep(c);

      ghost var order := VisitOrder(c);
      ghost var start := State();

      VisitOrderAt(c, 0, 0);
      ghost var k := 0;
      var i, count := init, 0;
      while count < 3
        invariant 0 <= count <= 3 && k == 4 * count && (count < 3 ==> i == order[k])
        invariant Valid() && State() == MoveAll(start, order, k, c)
      {
        MoveLine(i, inIncre, c, start, count, k);
        if count < 2 {
          VisitOuterNext(c, count, k);
        }
        i, count, k := i + outIncre, count + 1, k + 4;
      }
      // one more move is counted
      moveCount := moveCount + 1;
    }

    /**
      The inner loop of moveBoard (2048/Board.c:176-180): visit the four
      slots of the line that starts at `j0`, `inIncre` apart, moving each
      non-empty one. Line `count` of the visit order is then done.
     */
    method MoveLine(j0: int, inIncre: int, c: char, ghost start: BoardState, ghost count: int, ghost k0: int)
      requires Valid() && WellFormed(start) && IsDirection(c) && 0 <= count < 3 && k0 == 4 * count
      requires inIncre == InnerStep(c) && j0 == VisitOrder(c)[k0]
      requires State() == MoveAll(start, VisitOrder(c), k0, c)
      modifies this, cell, isNew, isMerged
      ensures Valid() && State() == MoveAll(start, VisitOrder(c), k0 + 4, c)
    {
      ghost var order := VisitOrder(c);
      ghost var k := k0;
      var j, countIn := j0, 0;
      while countIn < 4
        invariant 0 <= countIn <= 4 && k == 4 * count + countIn && (countIn < 4 ==> j == order[k])
        invariant Valid() && State() == MoveAll(start, order, k, c)
      {
        VisitSlotAt(c, count, countIn, k);
        VisitCell(j, c, start, order, k);
        if countIn < 3 {
          VisitInnerNext(c, count, countIn, k);
        }
        countIn, j, k := countIn + 1, j + inIncre, k + 1;
      }
    }

    /**
      One pass of moveBoard's inner loop (2048/Board.c:177-179): a slot
      holding a value moves. Slot `k` of `order` is then visited.
     */
    method VisitCell(j: int, c: char, ghost start: BoardState, ghost order: seq<int>, ghost k: nat)
      requires Valid() && WellFormed(start) && IsIndex(j) && k < |order| && j == order[k]
      requires State() == MoveAll(start, order, k, c)
      modifies this, cell, isNew, isMerged
      ensures Valid() && State() == MoveAll(start, order, k + 1, c)
    {
      if cell[j] != 0 {
        MoveCell(j, c);
      }
    }

    /** The first loop of moveBoard (2048/Board.c:142-145): clear every isNew and isMerged flag. */
    method ClearFlags()
      requires Valid()
      modifies isNew, isMerged
      ensures Valid()
      ensures State() == Reset(old(State()))
    {
      for i := 0 to 16
        invariant forall k :: 0 <= k < i ==> !isNew[k] && !isMerged[k]
      {
        isNew[i] := false;
        isMerged[i] := false;
      }
      assert isNew[..] == NoFlags() && isMerged[..] == NoFlags();
    }

    /** updateDigits (2048/Board.c:276-285): widen `digits` to the width of largestCell. */
    method UpdateDigits()
      requires Valid()
      modifies this
      ensures Valid()
      ensures State() == AfterUpdateDigits(old(State()))
      ensures digits == UpdatedDigits(old(digits), largestCell)
    {
      var n := largestCell;
      var newDigits := 0;
      // the first pass of the do-while loop
      newDigits := newDigits + 1;
      n := n / 10;
      while n > 0
        invariant newDigits + (if n > 0 then DecimalWidth(n) else 0) == DecimalWidth(largestCell)
        decreases n
      {
        newDigits := newDigits + 1;
        n := n / 10;
      }
      if newDigits > digits {
        digits := newDigits;
      }
    }

    /** updateLargestCell (2048/Board.c:288-296): largestCell becomes the true maximum of the cells. */
    method UpdateLargestCell()
      requires Valid()
      modifies this
      ensures Valid()
      ensures State() == AfterUpdateLargestCell(old(State()))
      ensures forall i :: 0 <= i < 16 ==> cell[i] <= largestCell
      ensures exists i :: 0 <= i < 16 && cell[i] == largestCell
    {
      var max := 0;
      for i := 0 to 16
        invariant max == MaxOf(cell[..i])
      {
        assert cell[..i + 1][..i] == cell[..i];
        if cell[i] > max {
          max := cell[i];
        }
      }
      assert cell[..16] == cell[..];
      largestCell := max;
    }

    /**
      initCell (2048/Board.c:328-337): place 4 when the value draw is 3
      modulo 4 and 2 otherwise, into the first drawn slot (draw modulo 16)
      that is empty. Returns that slot. The source loops for ever unless some
      draw names an empty slot, hence the precondition.
     */
    method InitCell(valueDraw: nat, indexDraws: seq<nat>) returns (index: int)
      requires Valid() && HitsEmpty(cell[..], indexDraws, 0)
      modifies cell, isNew
      ensures Valid()
      ensures index == FirstEmptyFrom(old(cell[..]), indexDraws, 0)
      ensures State() == AfterInitCell(old(State()), valueDraw, indexDraws)
    {
      // a value draw of 3 mod 4 gives 4, any other gives 2
      var n := if valueDraw % 4 == 3 then 4 else 2;
      var k := 0;
      index := indexDraws[k] % 16;
      while cell[index] != 0
        invariant 0 <= k < |indexDraws| && index == indexDraws[k] % 16
        invariant HitsEmpty(cell[..], indexDraws, k)
        invariant FirstEmptyFrom(cell[..], indexDraws, k) == FirstEmptyFrom(cell[..], indexDraws, 0)
        decreases |indexDraws| - k
      {
        k := k + 1;
        index := indexDraws[k] % 16;
      }
      cell[index] := n;
      isNew[index] := true;
    }
  }
}
