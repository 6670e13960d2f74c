/**
  The board engine of 2048/Board.c as functions on one value, `BoardState`,
  holding the fields of `GameBoard` (terminal-2048/Board.h:25-34). Each
  routine of the source has a function here, named after it (`AfterMoveCell`
  for `moveCell`, ...), giving the board it leaves behind; the class in
  module Board runs the source's loops and is proved to produce exactly these
  values. The properties of the functions are proved in SlideProofs,
  MoveProofs, TerminalProofs and Scenarios.
 */
module Engine {
  import opened Grid
  import opened Tally

  /** The fields of `GameBoard` (terminal-2048/Board.h:25-34). */
  datatype BoardState = BoardState(
    cell: seq<nat>,
    isNew: seq<bool>,
    isMerged: seq<bool>,
    digits: nat,
    largestCell: nat,
    goal: nat,
    moveCount: nat,
    score: nat)

  /** The three per-slot arrays have 16 entries. */
  predicate WellFormed(b: BoardState)
  {
    |b.cell| == 16 && |b.isNew| == 16 && |b.isMerged| == 16
  }

  /**
    What the engine keeps true while a game is played: every slot holds 0 or
    a power of two of at least 2, every value and the cached largest value
    are below the goal, the goal is at least 2048, the display width
    covers the cached largest value, and the cached largest value is never
    above the largest value on the board.
   */
  ghost predicate Consistent(b: BoardState)
  {
    && WellFormed(b)
    && (forall i :: 0 <= i < 16 ==> IsTile(b.cell[i]) && b.cell[i] < b.goal)
    && b.largestCell < b.goal
    && b.goal >= 2048
    && b.digits >= DecimalWidth(b.largestCell)
    && b.largestCell <= MaxOf(b.cell)
  }

  /** The cached largest value is at least every value on the board. */
  predicate Covers(b: BoardState)
    requires WellFormed(b)
  {
    forall i :: 0 <= i < 16 ==> b.cell[i] <= b.largestCell
  }

  /** The locals of moveCell's loop when it ends: the board, where the moving value stopped, whether it merged. */
  datatype Slide = Slide(board: BoardState, at: int, merged: bool)

  /** updateDigits (2048/Board.c:276-285): the width of the largest value, never shrinking. */
  function UpdatedDigits(digits: nat, largestCell: nat): (d: nat)
    ensures d >= digits && d >= DecimalWidth(largestCell)
    ensures d == digits || d == DecimalWidth(largestCell)
  {
    var newDigits := DecimalWidth(largestCell);
    if newDigits > digits then newDigits else digits
  }

  /**
    The cache refresh after a value lands on slot `t` (2048/Board.c:123-130):
    only largestCell, digits and goal change; largestCell grows to cover the
    landed value; the goal doubles only when a new largest value reaches it.
   */
  function Track(b: BoardState, t: int): (r: BoardState)
    requires WellFormed(b) && IsIndex(t)
    ensures r.(largestCell := b.largestCell, digits := b.digits, goal := b.goal) == b
    ensures r.largestCell >= b.largestCell && r.largestCell >= b.cell[t]
    ensures r.largestCell == b.largestCell || r.largestCell == b.cell[t]
    ensures r.digits >= b.digits
    ensures b.digits >= DecimalWidth(b.largestCell) ==> r.digits >= DecimalWidth(r.largestCell)
    ensures r.goal == b.goal || (r.goal == 2 * b.goal && r.largestCell > b.largestCell && r.largestCell >= b.goal)
  {
    if b.cell[t] > b.largestCell then
      var grown := b.(largestCell := b.cell[t]);
      var widened := grown.(digits := UpdatedDigits(grown.digits, grown.largestCell));
      if widened.cell[t] >= widened.goal then widened.(goal := widened.goal * 2) else widened
    else
      b
  }

  /** A value moves into the empty slot `to`, taking its isNew flag along (2048/Board.c:101-105). */
  function Shift(b: BoardState, from: int, to: int): (r: BoardState)
    requires WellFormed(b) && IsIndex(from) && IsIndex(to) && from != to
    ensures WellFormed(r)
  {
    b.(cell := b.cell[to := b.cell[from]][from := 0],
       isNew := b.isNew[to := b.isNew[from]][from := false])
  }

  /** The value at `from` merges into `to` (2048/Board.c:110-115). */
  function Merge(b: BoardState, from: int, to: int): (r: BoardState)
    requires WellFormed(b) && IsIndex(from) && IsIndex(to) && from != to
    ensures WellFormed(r)
  {
    var doubled := b.cell[to] * 2;
    b.(cell := b.cell[to := doubled][from := 0],
       isMerged := b.isMerged[to := true],
       score := b.score + doubled)
  }

  /** What bounds the number of iterations of moveCell's loop: CellIndex moves `index` one way only. */
  function Progress(index: int, dir: char): nat
  {
    if !IsIndex(index) then 0
    else if dir == 'u' || dir == 'l' then index + 1
    else 16 - index
  }

  /**
    Whether the value at `index` enters the neighbouring slot `t`
    (2048/Board.c:100, 108-109): `t` is empty, or it holds the same value,
    has not merged in this move, and the moving value has not merged yet.
   */
  predicate Enters(b: BoardState, index: int, t: int, merged: bool)
    requires WellFormed(b) && IsIndex(index) && IsIndex(t)
  {
    b.cell[t] == 0 || (b.cell[t] == b.cell[index] && !merged && !b.isMerged[t])
  }

  /** One pass of moveCell's loop that enters `t`: a shift or a merge, then the cache refresh. */
  function Advance(b: BoardState, index: int, t: int, merged: bool): (r: Slide)
    requires WellFormed(b) && IsIndex(index) && IsIndex(t) && index != t
    ensures WellFormed(r.board) && r.at == t
  {
    if b.cell[t] == 0 then Slide(Track(Shift(b, index, t), t), t, merged)
    else Slide(Track(Merge(b, index, t), t), t, true)
  }

  /**
    The loop of moveCell (2048/Board.c:96-131) from slot `index`, with the
    loop bound `edge` and the flag `merged`. It is defined for every index
    and bound: CellIndex answers -1 for a slot outside 0..15, which stops it.
   */
  function SlideFrom(b: BoardState, index: int, edge: int, dir: char, merged: bool): (r: Slide)
    requires WellFormed(b)
    ensures WellFormed(r.board)
    decreases Progress(index, dir)
  {
    if index == edge then Slide(b, index, merged)
    else
      var t := CellIndex(index, dir);
      if t == -1 || !Enters(b, index, t, merged) then Slide(b, index, merged)
      else
        var s := Advance(b, index, t, merged);
        SlideFrom(s.board, s.at, edge, dir, s.merged)
  }

  /** A pass of moveCell's loop that moves the value at `index` into the empty slot `t` (2048/Board.c:100-106). */
  lemma SlideFromShift(b: BoardState, index: int, edge: int, dir: char, merged: bool, t: int)
    requires WellFormed(b) && index != edge && t == CellIndex(index, dir) && t != -1 && b.cell[t] == 0
    ensures SlideFrom(b, index, edge, dir, merged) == SlideFrom(Track(Shift(b, index, t), t), t, edge, dir, merged)
  {
  }

  /** A pass of moveCell's loop that merges the value at `index` into `t` (2048/Board.c:107-116). */
  lemma SlideFromMerge(b: BoardState, index: int, edge: int, dir: char, merged: bool, t: int)
    requires WellFormed(b) && index != edge && t == CellIndex(index, dir) && t != -1
    requires b.cell[t] != 0 && b.cell[t] == b.cell[index] && !merged && !b.isMerged[t]
    ensures SlideFrom(b, index, edge, dir, merged) == SlideFrom(Track(Merge(b, index, t), t), t, edge, dir, true)
  {
  }


  /** moveCell (2048/Board.c:93-132): the slide bounded by the edge of the line. */
  function AfterMoveCell(b: BoardState, index: int, direction: char): (r: BoardState)
    requires WellFormed(b)
    ensures WellFormed(r)
  {
    SlideFrom(b, index, EdgeIndex(index, direction), direction, false).board
  }

  /** Sixteen clear flags. */
  function NoFlags(): (s: seq<bool>)
    ensures |s| == 16 && forall i :: 0 <= i < 16 ==> !s[i]
  {
    seq(16, _ => false)
  }

  /** The first loop of moveBoard (2048/Board.c:142-145). */
  function Reset(b: BoardState): (r: BoardState)
    requires WellFormed(b)
    ensures WellFormed(r)
  {
    b.(isNew := NoFlags(), isMerged := NoFlags())
  }

  /**
    One pass of moveBoard's inner loop (2048/Board.c:177-179): slot `j`
    moves when it holds a value. A slot off the board is skipped; the
    visit order never names one (VisitOrderIndices).
   */
  function Visit(b: BoardState, j: int, c: char): (r: BoardState)
    requires WellFormed(b)
    ensures WellFormed(r)
  {
    if IsIndex(j) && b.cell[j] != 0 then AfterMoveCell(b, j, c) else b
  }

  /** The double loop of moveBoard (2048/Board.c:175-181) after visiting the first `n` slots of `order`, in order. */
  function MoveAll(b: BoardState, order: seq<int>, n: nat, c: char): (r: BoardState)
    requires WellFormed(b) && n <= |order|
    ensures WellFormed(r)
  {
    if n == 0 then b
    else Visit(MoveAll(b, order, n - 1, c), order[n - 1], c)
  }

  /** moveBoard (2048/Board.c:135-184). */
  function AfterMoveBoard(b: BoardState, c: char): (r: BoardState)
    requires WellFormed(b)
    ensures WellFormed(r)
  {
    if !IsDirection(c) then b
    else
      var moved := MoveAll(Reset(b), VisitOrder(c), 12, c);
      moved.(moveCount := moved.moveCount + 1)
  }

  /** updateLargestCell (2048/Board.c:288-296). */
  function AfterUpdateLargestCell(b: BoardState): (r: BoardState)
    requires WellFormed(b)
    ensures WellFormed(r)
  {
    b.(largestCell := MaxOf(b.cell))
  }

  /** updateDigits (2048/Board.c:276-285). */
  function AfterUpdateDigits(b: BoardState): (r: BoardState)
  {
    b.(digits := UpdatedDigits(b.digits, b.largestCell))
  }

  /** The value initCell places for a draw of rand() (2048/Board.c:330). */
  function SeedValue(valueDraw: nat): (n: nat)
    ensures n == 2 || n == 4
  {
    if valueDraw % 4 == 3 then 4 else 2
  }

  /** Some slot drawn from the `k`-th draw on is empty: the rejection loop of initCell ends. */
  ghost predicate HitsEmpty(cells: seq<nat>, draws: seq<nat>, k: nat)
    requires |cells| == 16
  {
    exists m :: k <= m < |draws| && cells[draws[m] % 16] == 0
  }

  /**
    The slot that initCell's rejection loop (2048/Board.c:332-334) settles
    on, given the draws of rand() from the `k`-th on: the first draw, taken
    modulo 16, that names an empty slot.
   */
  function FirstEmptyFrom(cells: seq<nat>, draws: seq<nat>, k: nat): (r: nat)
    requires |cells| == 16 && HitsEmpty(cells, draws, k)
    ensures r < 16 && cells[r] == 0
    ensures exists m :: k <= m < |draws| && draws[m] % 16 == r && forall p :: k <= p < m ==> cells[draws[p] % 16] != 0
    decreases |draws| - k
  {
    if cells[draws[k] % 16] == 0 then draws[k] % 16
    else FirstEmptyFrom(cells, draws, k + 1)
  }

  /** Slot `i` receives value `n`, flagged new (2048/Board.c:335-336). */
  function Seed(b: BoardState, i: int, n: nat): (r: BoardState)
    requires WellFormed(b) && IsIndex(i)
    ensures WellFormed(r)
  {
    b.(cell := b.cell[i := n], isNew := b.isNew[i := true])
  }

  /** initCell (2048/Board.c:328-337), with the draws of rand() as parameters. */
  function AfterInitCell(b: BoardState, valueDraw: nat, indexDraws: seq<nat>): (r: BoardState)
    requires WellFormed(b) && HitsEmpty(b.cell, indexDraws, 0)
    ensures WellFormed(r)
  {
    Seed(b, FirstEmptyFrom(b.cell, indexDraws, 0), SeedValue(valueDraw))
  }

  /** The board of newGameBoard before seeding (2048/Board.c:15-22); largestCell is set later. */
  function Blank(): (b: BoardState)
    ensures WellFormed(b)
  {
    BoardState(seq(16, _ => 0), NoFlags(), NoFlags(), 3, 0, 2048, 0, 0)
  }

  /**
    newGameBoard (2048/Board.c:11-33) given the draws of rand() for its two
    initCell calls. The first call lands on the first slot drawn, since the
    board is empty; the second needs some draw naming another slot.
   */
  function NewGame(valueDraw1: nat, indexDraws1: seq<nat>, valueDraw2: nat, indexDraws2: seq<nat>): (r: BoardState)
    requires |indexDraws1| > 0
    requires exists k :: 0 <= k < |indexDraws2| && indexDraws2[k] % 16 != indexDraws1[0] % 16
    ensures WellFormed(r)
  {
    assert Blank().cell[indexDraws1[0] % 16] == 0;
    var first := AfterInitCell(Blank(), valueDraw1, indexDraws1);
    assert first.cell == Blank().cell[indexDraws1[0] % 16 := SeedValue(valueDraw1)];
    var k :| 0 <= k < |indexDraws2| && indexDraws2[k] % 16 != indexDraws1[0] % 16;
    assert first.cell[indexDraws2[k] % 16] == 0;
    var second := AfterInitCell(first, valueDraw2, indexDraws2);
    AfterUpdateLargestCell(second)
  }

  /** The scan of dirPossible (2048/Board.c:314-321) from slot `i` on. */
  function PossibleFrom(cells: seq<nat>, c: char, i: int): (r: bool)
    requires |cells| == 16 && 0 <= i <= 16
    ensures r <==> exists k, j :: i <= k < 16 && 0 <= j < 16 && Adjacent(k, j, c) && cells[k] != 0 && (cells[j] == 0 || cells[j] == cells[k])
    decreases 16 - i
  {
    if i == 16 then false
    else
      NeighbourOf(i, c);
      var testIndex := CellIndex(i, c);
      if cells[i] != 0 && testIndex != -1 && i != EdgeIndex(i, c)
         && (cells[testIndex] == 0 || cells[testIndex] == cells[i])
      then true
      else PossibleFrom(cells, c, i + 1)
  }

  /**
    dirPossible (2048/Board.c:311-325): some non-empty slot has a grid
    neighbour in direction `c` that is empty or holds the same value.
   */
  function DirPossible(cells: seq<nat>, c: char): (r: bool)
    requires |cells| == 16
    ensures r <==> exists k, j :: 0 <= k < 16 && 0 <= j < 16 && Adjacent(k, j, c) && cells[k] != 0 && (cells[j] == 0 || cells[j] == cells[k])
  {
    PossibleFrom(cells, c, 0)
  }

  /** The empty-slot scan of noPossibleMove (2048/Board.c:301-305) from slot `i` on. */
  function EmptyFrom(cells: seq<nat>, i: int): (r: bool)
    requires |cells| == 16 && 0 <= i <= 16
    ensures r <==> exists k :: i <= k < 16 && cells[k] == 0
    decreases 16 - i
  {
    if i == 16 then false
    else if cells[i] == 0 then true
    else EmptyFrom(cells, i + 1)
  }

  /**
    noPossibleMove (2048/Board.c:299-309): false as soon as a slot is empty;
    on a full board, neither 'u' nor 'l' is possible.
   */
  function NoPossibleMove(cells: seq<nat>): (r: bool)
    requires |cells| == 16
    ensures (exists i :: 0 <= i < 16 && cells[i] == 0) ==> !r
    ensures (forall i :: 0 <= i < 16 ==> cells[i] != 0) ==> (r <==> !DirPossible(cells, 'u') && !DirPossible(cells, 'l'))
  {
    if EmptyFrom(cells, 0) then false
    else !DirPossible(cells, 'u') && !DirPossible(cells, 'l')
  }
}
