/**
  Why noPossibleMove (2048/Board.c:299-309) may look at two directions only:
  on a full board a direction is possible exactly when its opposite is, and
  a board with both an empty and a non-empty slot always has a possible
  direction. So the game ends exactly when no move of the four can change
  anything.
 */
module TerminalProofs {
  import opened Grid
  import opened Engine

  /** The value at `k` can move into its neighbour `j` in direction `c`: `j` is empty or holds the same value. */
  predicate Movable(cells: seq<nat>, k: int, j: int, c: char)
    requires |cells| == 16
  {
    IsIndex(k) && IsIndex(j) && Adjacent(k, j, c) && cells[k] != 0 && (cells[j] == 0 || cells[j] == cells[k])
  }

  predicate Full(cells: seq<nat>)
    requires |cells| == 16
  {
    forall i :: 0 <= i < 16 ==> cells[i] != 0
  }

  /** On a full board a pair of equal neighbours can merge either way: 'u' and 'd' agree, 'l' and 'r' agree. */
  lemma FullOpposite(cells: seq<nat>, c: char)
    requires |cells| == 16 && Full(cells) && IsDirection(c)
    ensures DirPossible(cells, c) <==> DirPossible(cells, Opposite(c))
  {
    if DirPossible(cells, c) {
      var k, j :| 0 <= k < 16 && 0 <= j < 16 && Adjacent(k, j, c) && cells[k] != 0 && (cells[j] == 0 || cells[j] == cells[k]);
      AdjacentOpposite(k, j, c);
      assert Movable(cells, j, k, Opposite(c));
    }
    if DirPossible(cells, Opposite(c)) {
      var k, j :| 0 <= k < 16 && 0 <= j < 16 && Adjacent(k, j, Opposite(c)) && cells[k] != 0 && (cells[j] == 0 || cells[j] == cells[k]);
      AdjacentOpposite(j, k, c);
      assert Movable(cells, j, k, c);
    }
  }

  /** A path through all 16 slots, row by row, turning at the end of each row. */
  function Snake(t: int): int
  {
    match t
    case 4 => 7 case 5 => 6 case 6 => 5 case 7 => 4
    case 12 => 15 case 13 => 14 case 14 => 13 case 15 => 12
    case _ => t
  }

  /** The direction from step `t` of the snake to the next. */
  function SnakeTurn(t: int): char
  {
    match t
    case 3 => 'd' case 7 => 'd' case 11 => 'd'
    case 4 => 'l' case 5 => 'l' case 6 => 'l' case 12 => 'l' case 13 => 'l' case 14 => 'l'
    case _ => 'r'
  }

  /** Consecutive slots of the snake are grid neighbours, and the snake visits every slot. */
  lemma SnakeFacts(t: int)
    requires 0 <= t < 16
    ensures IsIndex(Snake(t)) && Snake(Snake(t)) == t
    ensures t < 15 ==> Adjacent(Snake(t), Snake(t + 1), SnakeTurn(t))
  {
  }

  /** Along the snake, a change between empty and non-empty happens at some step. */
  lemma {:induction false} SnakeBoundary(cells: seq<nat>, lo: int, hi: int) returns (t: int)
    requires |cells| == 16 && 0 <= lo < hi < 16
    requires (cells[Snake(lo)] == 0) != (cells[Snake(hi)] == 0)
    ensures lo <= t < hi && (cells[Snake(t)] == 0) != (cells[Snake(t + 1)] == 0)
    decreases hi - lo
  {
    SnakeFacts(lo);
    SnakeFacts(lo + 1);
    if (cells[Snake(lo)] == 0) != (cells[Snake(lo + 1)] == 0) {
      t := lo;
    } else {
      t := SnakeBoundary(cells, lo + 1, hi);
    }
  }

  /** A board with an empty slot and a non-empty slot has a possible direction. */
  lemma RoomToMove(cells: seq<nat>, e: int, n: int) returns (c: char)
    requires |cells| == 16 && IsIndex(e) && IsIndex(n) && cells[e] == 0 && cells[n] != 0
    ensures IsDirection(c) && DirPossible(cells, c)
  {
    SnakeFacts(e);
    SnakeFacts(n);
    var lo, hi := if Snake(e) < Snake(n) then Snake(e) else Snake(n), if Snake(e) < Snake(n) then Snake(n) else Snake(e);
    var t := SnakeBoundary(cells, lo, hi);
    SnakeFacts(t);
    SnakeFacts(t + 1);
    var a, z, d := Snake(t), Snake(t + 1), SnakeTurn(t);
    if cells[a] != 0 {
      c := d;
      assert Movable(cells, a, z, c);
    } else {
      c := Opposite(d);
      AdjacentOpposite(a, z, d);
      assert Movable(cells, z, a, c);
    }
  }

  /**
    noPossibleMove answers true exactly when the board is full and none of
    the four directions is possible, although it looks at 'u' and 'l' only.
   */
  lemma NoPossibleMoveExact(cells: seq<nat>)
    requires |cells| == 16
    ensures NoPossibleMove(cells) <==> Full(cells) && forall c :: IsDirection(c) ==> !DirPossible(cells, c)
  {
    if Full(cells) {
      FullOpposite(cells, 'u');
      FullOpposite(cells, 'l');
    }
  }

  /** On a board holding some value, noPossibleMove answers false exactly when some direction is possible. */
  lemma NoPossibleMoveDecides(cells: seq<nat>)
    requires |cells| == 16 && exists i :: 0 <= i < 16 && cells[i] != 0
    ensures !NoPossibleMove(cells) <==> exists c :: IsDirection(c) && DirPossible(cells, c)
  {
    NoPossibleMoveExact(cells);
    if !Full(cells) {
      var e :| 0 <= e < 16 && cells[e] == 0;
      var n :| 0 <= n < 16 && cells[n] != 0;
      var c := RoomToMove(cells, e, n);
    }
  }
}
