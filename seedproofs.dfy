/**
  What initCell (2048/Board.c:328-337) and newGameBoard (2048/Board.c:11-33)
  guarantee, with rand() read as a free choice: initCell fills exactly one
  empty slot with 2 or 4, every empty slot and both values can be chosen,
  and no choice ends the loop on a full board.
 */
module SeedProofs {
  import opened Grid
  import opened Tally
  import opened Engine

  /**
    initCell writes `SeedValue(valueDraw)` into one slot that was empty and
    flags it new; every other slot, every merge flag and every counter stay
    as they were, so one more slot is occupied and the sum grows by the value.
    largestCell is not refreshed.
   */
  lemma InitCellPlaces(b: BoardState, valueDraw: nat, indexDraws: seq<nat>) returns (i: int)
    requires WellFormed(b) && HitsEmpty(b.cell, indexDraws, 0)
    ensures IsIndex(i) && b.cell[i] == 0
    ensures var r := AfterInitCell(b, valueDraw, indexDraws);
      && r.cell[i] == SeedValue(valueDraw) && r.isNew[i]
      && (forall j :: 0 <= j < 16 && j != i ==> r.cell[j] == b.cell[j] && r.isNew[j] == b.isNew[j])
      && r.isMerged == b.isMerged
      && r.(cell := b.cell, isNew := b.isNew) == b
      && Occupied(r.cell) == Occupied(b.cell) + 1
      && Sum(r.cell) == Sum(b.cell) + SeedValue(valueDraw)
  {
    i := FirstEmptyFrom(b.cell, indexDraws, 0);
    OccupiedUpdate(b.cell, i, SeedValue(valueDraw));
    SumUpdate(b.cell, i, SeedValue(valueDraw));
  }

  /** The value draw that yields `n` (2 or 4). */
  function DrawFor(n: nat): (v: nat)
    requires n == 2 || n == 4
    ensures SeedValue(v) == n
  {
    if n == 4 then 3 else 0
  }

  /** Any empty slot and either value can be the outcome of initCell. */
  lemma InitCellReaches(b: BoardState, i: int, n: nat)
    requires WellFormed(b) && IsIndex(i) && b.cell[i] == 0 && (n == 2 || n == 4)
    ensures HitsEmpty(b.cell, [i], 0)
    ensures AfterInitCell(b, DrawFor(n), [i]) == Seed(b, i, n)
  {
    assert [i][0] % 16 == i;
  }

  /** On a full board no sequence of draws ends the rejection loop of initCell. */
  lemma FullNeverSeeds(cells: seq<nat>, indexDraws: seq<nat>, k: nat)
    requires |cells| == 16 && forall i :: 0 <= i < 16 ==> cells[i] != 0
    ensures !HitsEmpty(cells, indexDraws, k)
  {
  }

  /** The values initCell places are tiles. */
  lemma SeedValueTile(valueDraw: nat)
    ensures IsTile(SeedValue(valueDraw))
  {
    assert IsPowerOfTwo(2);
    assert IsPowerOfTwo(4) by { assert 4 / 2 == 2; }
  }

  /** initCell keeps a consistent board consistent, leaving largestCell alone. */
  lemma InitCellConsistent(b: BoardState, valueDraw: nat, indexDraws: seq<nat>)
    requires Consistent(b) && HitsEmpty(b.cell, indexDraws, 0)
    ensures Consistent(AfterInitCell(b, valueDraw, indexDraws))
    ensures AfterInitCell(b, valueDraw, indexDraws).largestCell == b.largestCell
  {
    var i := InitCellPlaces(b, valueDraw, indexDraws);
    SeedValueTile(valueDraw);
    var r := AfterInitCell(b, valueDraw, indexDraws);
    var j :| 0 <= j < 16 && b.cell[j] == MaxOf(b.cell);
    assert b.cell[j] <= r.cell[j] <= MaxOf(r.cell);
  }

  /**
    initCell does not refresh largestCell, so the cache can fall behind the
    board: a 4 seeded where every value is below 4 leaves largestCell short
    of the true maximum until some later move lands a value.
   */
  lemma InitCellLeavesLargestStale(b: BoardState, i: int)
    requires WellFormed(b) && IsIndex(i) && b.cell[i] == 0 && b.largestCell == MaxOf(b.cell) && MaxOf(b.cell) < 4
    ensures HitsEmpty(b.cell, [i], 0)
    ensures var r := AfterInitCell(b, 3, [i]);
      r.largestCell == b.largestCell < 4 == r.cell[i] <= MaxOf(r.cell)
  {
    assert [i][0] % 16 == i;
  }

  /** The zeroed board of newGameBoard is consistent and has no occupied slot. */
  lemma BlankFacts()
    ensures Consistent(Blank()) && Occupied(Blank().cell) == 0
  {
    ZeroUnoccupied(Blank().cell);
    assert IsTile(0);
  }

  /** The first seed of newGameBoard lands on the first slot drawn, leaving room for the second. */
  lemma FirstSeed(valueDraw1: nat, indexDraws1: seq<nat>, indexDraws2: seq<nat>)
    requires |indexDraws1| > 0
    requires exists k :: 0 <= k < |indexDraws2| && indexDraws2[k] % 16 != indexDraws1[0] % 16
    ensures HitsEmpty(Blank().cell, indexDraws1, 0)
    ensures var first := AfterInitCell(Blank(), valueDraw1, indexDraws1);
      && first == Seed(Blank(), indexDraws1[0] % 16, SeedValue(valueDraw1))
      && HitsEmpty(first.cell, indexDraws2, 0)
  {
    assert Blank().cell[indexDraws1[0] % 16] == 0;
    var first := AfterInitCell(Blank(), valueDraw1, indexDraws1);
    var k :| 0 <= k < |indexDraws2| && indexDraws2[k] % 16 != indexDraws1[0] % 16;
    assert first.cell[indexDraws2[k] % 16] == 0;
  }

  /** The slots, flags and values a new game starts from, in closed form. */
  lemma NewGameCells(valueDraw1: nat, indexDraws1: seq<nat>, valueDraw2: nat, indexDraws2: seq<nat>) returns (i1: int, i2: int)
    requires |indexDraws1| > 0
    requires exists k :: 0 <= k < |indexDraws2| && indexDraws2[k] % 16 != indexDraws1[0] % 16
    ensures IsIndex(i1) && IsIndex(i2) && i1 != i2 && i1 == indexDraws1[0] % 16
    ensures var r := NewGame(valueDraw1, indexDraws1, valueDraw2, indexDraws2);
      && r.cell == Blank().cell[i1 := SeedValue(valueDraw1)][i2 := SeedValue(valueDraw2)]
      && r.isNew == NoFlags()[i1 := true][i2 := true]
      && r.isMerged == NoFlags()
  {
    FirstSeed(valueDraw1, indexDraws1, indexDraws2);
    i1 := indexDraws1[0] % 16;
    var first := AfterInitCell(Blank(), valueDraw1, indexDraws1);
    i2 := FirstEmptyFrom(first.cell, indexDraws2, 0);
  }

  /**
    A new game: two different slots hold 2 or 4 and are flagged new, the
    first one being the first slot drawn; every other slot is empty and no
    merge flag is set.
   */
  lemma NewGameSeeds(valueDraw1: nat, indexDraws1: seq<nat>, valueDraw2: nat, indexDraws2: seq<nat>) returns (i1: int, i2: int)
    requires |indexDraws1| > 0
    requires exists k :: 0 <= k < |indexDraws2| && indexDraws2[k] % 16 != indexDraws1[0] % 16
    ensures var r := NewGame(valueDraw1, indexDraws1, valueDraw2, indexDraws2);
      && IsIndex(i1) && IsIndex(i2) && i1 != i2 && i1 == indexDraws1[0] % 16
      && r.cell[i1] == SeedValue(valueDraw1) && r.cell[i2] == SeedValue(valueDraw2)
      && r.isNew[i1] && r.isNew[i2]
      && (forall j :: 0 <= j < 16 && j != i1 && j != i2 ==> r.cell[j] == 0 && !r.isNew[j])
      && (forall j :: 0 <= j < 16 ==> !r.isMerged[j])
  {
    i1, i2 := NewGameCells(valueDraw1, indexDraws1, valueDraw2, indexDraws2);
  }

  /** A new game starts with exactly two occupied slots. */
  lemma NewGameOccupied(valueDraw1: nat, indexDraws1: seq<nat>, valueDraw2: nat, indexDraws2: seq<nat>)
    requires |indexDraws1| > 0
    requires exists k :: 0 <= k < |indexDraws2| && indexDraws2[k] % 16 != indexDraws1[0] % 16
    ensures Occupied(NewGame(valueDraw1, indexDraws1, valueDraw2, indexDraws2).cell) == 2
  {
    var i1, i2 := NewGameCells(valueDraw1, indexDraws1, valueDraw2, indexDraws2);
    var blank := Blank().cell;
    BlankFacts();
    OccupiedUpdate(blank, i1, SeedValue(valueDraw1));
    OccupiedUpdate(blank[i1 := SeedValue(valueDraw1)], i2, SeedValue(valueDraw2));
  }

  /** The board newGameBoard has seeded twice, before updateLargestCell, is consistent and unscored. */
  lemma SeededConsistent(valueDraw1: nat, indexDraws1: seq<nat>, valueDraw2: nat, indexDraws2: seq<nat>)
    requires |indexDraws1| > 0
    requires exists k :: 0 <= k < |indexDraws2| && indexDraws2[k] % 16 != indexDraws1[0] % 16
    ensures HitsEmpty(Blank().cell, indexDraws1, 0)
    ensures var first := AfterInitCell(Blank(), valueDraw1, indexDraws1);
      && HitsEmpty(first.cell, indexDraws2, 0)
      && var second := AfterInitCell(first, valueDraw2, indexDraws2);
      && Consistent(second)
      && NewGame(valueDraw1, indexDraws1, valueDraw2, indexDraws2) == AfterUpdateLargestCell(second)
      && second.score == 0 && second.moveCount == 0 && second.digits == 3 && second.goal == 2048
  {
    BlankFacts();
    FirstSeed(valueDraw1, indexDraws1, indexDraws2);
    var first := AfterInitCell(Blank(), valueDraw1, indexDraws1);
    InitCellConsistent(Blank(), valueDraw1, indexDraws1);
    InitCellConsistent(first, valueDraw2, indexDraws2);
  }

  /** A new game is consistent, with score and moveCount 0, digits 3, goal 2048 and largestCell the larger seed. */
  lemma NewGameConsistent(valueDraw1: nat, indexDraws1: seq<nat>, valueDraw2: nat, indexDraws2: seq<nat>)
    requires |indexDraws1| > 0
    requires exists k :: 0 <= k < |indexDraws2| && indexDraws2[k] % 16 != indexDraws1[0] % 16
    ensures var r := NewGame(valueDraw1, indexDraws1, valueDraw2, indexDraws2);
      && Consistent(r)
      && r.largestCell == MaxOf(r.cell)
      && (r.largestCell == SeedValue(valueDraw1) || r.largestCell == SeedValue(valueDraw2))
      && r.score == 0 && r.moveCount == 0 && r.digits == 3 && r.goal == 2048
  {
    SeededConsistent(valueDraw1, indexDraws1, valueDraw2, indexDraws2);
    var i1, i2 := NewGameCells(valueDraw1, indexDraws1, valueDraw2, indexDraws2);
    var r := NewGame(valueDraw1, indexDraws1, valueDraw2, indexDraws2);
    var m := MaxOf(r.cell);
    var w :| 0 <= w < 16 && r.cell[w] == m;
    assert m == SeedValue(valueDraw1) || m == SeedValue(valueDraw2) by {
      assert r.cell[i1] <= m && r.cell[i2] <= m;
    }
    assert DecimalWidth(m) == 1;
  }

  /** Empty slots count nothing. */
  lemma {:induction false} ZeroUnoccupied(s: seq<nat>)
    requires forall i :: 0 <= i < |s| ==> s[i] == 0
    ensures Occupied(s) == 0
  {
    if s != [] {
      ZeroUnoccupied(s[1..]);
    }
  }

  /** Any two different slots and any values 2 or 4 can be the seeds of a new game. */
  lemma NewGameReaches(i1: int, n1: nat, i2: int, n2: nat)
    requires IsIndex(i1) && IsIndex(i2) && i1 != i2 && (n1 == 2 || n1 == 4) && (n2 == 2 || n2 == 4)
    ensures exists k :: 0 <= k < |[i2]| && [i2][k] % 16 != [i1][0] % 16
    ensures NewGame(DrawFor(n1), [i1], DrawFor(n2), [i2]).cell == Blank().cell[i1 := n1][i2 := n2]
  {
    assert [i2][0] % 16 != [i1][0] % 16;
    var first := AfterInitCell(Blank(), DrawFor(n1), [i1]);
    assert first == Seed(Blank(), i1, n1) by {
      InitCellReaches(Blank(), i1, n1);
    }
    InitCellReaches(first, i2, n2);
  }
}
