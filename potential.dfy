/**
  A move changes the values on the board exactly when dirPossible
  (2048/Board.c:311-325) says it can. One direction is MoveBoardImpossible;
  the other rests on a potential, the sum over the slots of value times
  distance to the edge the move heads for: every pass of moveCell's loop
  lowers it by the moving value, and nothing raises it, so once one value
  has moved the board cannot come back to where it started.
 */
module Potential {
  import opened Grid
  import opened Engine
  import opened MoveProofs

  /** `v` added up `d` times: the contribution of value `v` at distance `d`, kept free of multiplication. */
  function Scaled(v: int, d: int): int
    decreases d
  {
    if d <= 0 then 0 else v + Scaled(v, d - 1)
  }

  /** Scaling distributes over a sum. */
  lemma {:induction false} ScaledSum(z: int, x: int, y: int, d: int)
    requires z == x + y
    ensures Scaled(z, d) == Scaled(x, d) + Scaled(y, d)
    decreases d
  {
    if d > 0 {
      ScaledSum(z, x, y, d - 1);
    }
  }

  /** The sum over slots `from`..15 of the value times its distance to the edge in direction `c`. */
  function WeightFrom(cells: seq<nat>, c: char, from: nat): int
    requires |cells| == 16 && from <= 16
    decreases 16 - from
  {
    if from == 16 then 0 else Scaled(cells[from], Dist(from, c)) + WeightFrom(cells, c, from + 1)
  }

  function Weight(cells: seq<nat>, c: char): int
    requires |cells| == 16
  {
    WeightFrom(cells, c, 0)
  }

  /** Writing `x` into slot `k` trades the contribution of cells[k] at the distance of `k` for that of `x`. */
  lemma {:induction false} WeightUpdate(cells: seq<nat>, c: char, from: nat, k: int, x: nat)
    requires |cells| == 16 && from <= 16 && IsIndex(k)
    ensures WeightFrom(cells[k := x], c, from) + (if from <= k then Scaled(cells[k], Dist(k, c)) else 0)
         == WeightFrom(cells, c, from) + (if from <= k then Scaled(x, Dist(k, c)) else 0)
    decreases 16 - from
  {
    if from < 16 {
      WeightUpdate(cells, c, from + 1, k, x);
    }
  }

  /** Adding `v` to the value at slot `t` raises the weight by `v` scaled by the distance of `t`. */
  lemma GrowWeight(cells: seq<nat>, c: char, t: int, v: nat, grown: seq<nat>)
    requires |cells| == 16 && IsIndex(t) && grown == cells[t := cells[t] + v]
    ensures Weight(grown, c) == Weight(cells, c) + Scaled(v, Dist(t, c))
  {
    WeightUpdate(cells, c, 0, t, cells[t] + v);
    ScaledSum(cells[t] + v, cells[t], v, Dist(t, c));
  }

  /** Emptying slot `k` lowers the weight by its value scaled by the distance of `k`. */
  lemma ClearWeight(cells: seq<nat>, c: char, k: int, cleared: seq<nat>)
    requires |cells| == 16 && IsIndex(k) && cleared == cells[k := 0]
    ensures Weight(cleared, c) == Weight(cells, c) - Scaled(cells[k], Dist(k, c))
  {
    WeightUpdate(cells, c, 0, k, 0);
    ScaledSum(0, 0, 0, Dist(k, c));
  }

  /** Emptying `index` and adding its value to the slot one step closer to the edge lowers the weight by that value. */
  lemma StepWeight(cells: seq<nat>, c: char, index: int, t: int, grown: seq<nat>, moved: seq<nat>)
    requires |cells| == 16 && IsIndex(index) && IsIndex(t) && index != t
    requires grown == cells[t := cells[t] + cells[index]] && moved == grown[index := 0]
    requires Dist(t, c) >= 0 && Dist(index, c) == Dist(t, c) + 1
    ensures Weight(moved, c) == Weight(cells, c) - cells[index]
  {
    var v, e := cells[index], Dist(t, c);
    assert Scaled(v, e + 1) == v + Scaled(v, e);
    assert grown[index] == v;
    GrowWeight(cells, c, t, v, grown);
    ClearWeight(grown, c, index, moved);
  }

  /** A pass of moveCell's loop one step toward the edge lowers the weight by the moving value. */
  lemma AdvanceWeight(b: BoardState, index: int, t: int, merged: bool, c: char)
    requires WellFormed(b) && IsIndex(index) && IsIndex(t) && index != t && Enters(b, index, t, merged)
    requires Dist(t, c) >= 0 && Dist(index, c) == Dist(t, c) + 1
    ensures Weight(Advance(b, index, t, merged).board.cell, c) == Weight(b.cell, c) - b.cell[index]
    ensures Advance(b, index, t, merged).board.cell[t] == b.cell[t] + b.cell[index]
  {
    var into := b.cell[t] + b.cell[index];
    var grown := b.cell[t := into];
    var s := Advance(b, index, t, merged).board;
    if b.cell[t] == 0 {
      assert s.cell == Shift(b, index, t).cell;
    } else {
      assert s.cell == Merge(b, index, t).cell;
    }
    assert s.cell == grown[index := 0];
    StepWeight(b.cell, c, index, t, grown, s.cell);
  }

  /**
    moveCell's loop, bounded by the edge of its line and started on a value,
    never raises the weight; it is unchanged only when nothing moved, and it
    drops when the first step enters its neighbour.
   */
  lemma {:induction false} SlideWeight(b: BoardState, index: int, edge: int, dir: char, merged: bool)
    requires WellFormed(b) && IsIndex(index) && IsDirection(dir) && edge == EdgeIndex(index, dir) && b.cell[index] != 0
    ensures var r := SlideFrom(b, index, edge, dir, merged).board;
      && Weight(r.cell, dir) <= Weight(b.cell, dir)
      && (Weight(r.cell, dir) == Weight(b.cell, dir) ==> r == b)
      && (index != edge && IsIndex(CellIndex(index, dir)) && Enters(b, index, CellIndex(index, dir), merged) ==>
            Weight(r.cell, dir) < Weight(b.cell, dir))
    decreases Progress(index, dir)
  {
    if index != edge {
      StepTowardEdge(index, dir);
      var t := CellIndex(index, dir);
      if Enters(b, index, t, merged) {
        AdvanceWeight(b, index, t, merged, dir);
        var s := Advance(b, index, t, merged);
        SlideWeight(s.board, t, edge, dir, s.merged);
        assert SlideFrom(b, index, edge, dir, merged) == SlideFrom(s.board, t, edge, dir, s.merged);
      }
    }
  }

  /** One visit of moveBoard's double loop never raises the weight, and leaves the board alone when it keeps it. */
  lemma VisitWeight(p: BoardState, j: int, c: char)
    requires WellFormed(p) && IsDirection(c)
    ensures Weight(Visit(p, j, c).cell, c) <= Weight(p.cell, c)
    ensures Weight(Visit(p, j, c).cell, c) == Weight(p.cell, c) ==> Visit(p, j, c) == p
    ensures (IsIndex(j) && p.cell[j] != 0 && j != EdgeIndex(j, c) && IsIndex(CellIndex(j, c))
             && Enters(p, j, CellIndex(j, c), false)) ==> Weight(Visit(p, j, c).cell, c) < Weight(p.cell, c)
  {
    if IsIndex(j) && p.cell[j] != 0 {
      SlideWeight(p, j, EdgeIndex(j, c), c, false);
    }
  }

  /** Along the double loop the board either stays as it was or its weight has fallen. */
  lemma {:induction false} MoveAllMonotone(b: BoardState, order: seq<int>, m: nat, n: nat, c: char)
    requires WellFormed(b) && IsDirection(c) && m <= n <= |order|
    ensures MoveAll(b, order, n, c) == MoveAll(b, order, m, c)
         || Weight(MoveAll(b, order, n, c).cell, c) < Weight(MoveAll(b, order, m, c).cell, c)
    decreases n - m
  {
    if m < n {
      MoveAllMonotone(b, order, m, n - 1, c);
      var p := MoveAll(b, order, n - 1, c);
      assert MoveAll(b, order, n, c) == Visit(p, order[n - 1], c);
      VisitWeight(p, order[n - 1], c);
    }
  }

  /** A move in a direction that dirPossible accepts changes some value on the board. */
  lemma MoveBoardPossible(b: BoardState, c: char)
    requires WellFormed(b) && IsDirection(c) && DirPossible(b.cell, c)
    ensures AfterMoveBoard(b, c).cell != b.cell
  {
    var k, j :| 0 <= k < 16 && 0 <= j < 16 && Adjacent(k, j, c) && b.cell[k] != 0 && (b.cell[j] == 0 || b.cell[j] == b.cell[k]);
    AdjacentIsCellIndex(k, j, c);
    var n := VisitedAt(c, k);
    var s0, order := Reset(b), VisitOrder(c);
    var p := MoveAll(s0, order, n, c);
    var q := MoveAll(s0, order, n + 1, c);
    var last := MoveAll(s0, order, 12, c);
    MoveAllMonotone(s0, order, 0, n, c);
    MoveAllMonotone(s0, order, n + 1, 12, c);
    assert q == Visit(p, k, c);
    VisitWeight(p, k, c);
    assert Weight(q.cell, c) < Weight(s0.cell, c) by {
      if p == s0 {
        assert Enters(s0, k, j, false);
      }
    }
    assert AfterMoveBoard(b, c).cell == last.cell;
  }

  /** For each of the four directions, moveBoard changes the values on the board exactly when dirPossible answers true. */
  lemma MoveBoardChangesIffPossible(b: BoardState, c: char)
    requires WellFormed(b) && IsDirection(c)
    ensures AfterMoveBoard(b, c).cell != b.cell <==> DirPossible(b.cell, c)
  {
    if DirPossible(b.cell, c) {
      MoveBoardPossible(b, c);
    } else {
      MoveBoardImpossible(b, c);
    }
  }
}
