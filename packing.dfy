/**
  What the edge-inward visit order of moveBoard (2048/Board.c:147-181)
  achieves, proved about the functional model: after a move every line is
  packed against its edge, so no value has an empty slot in front of it;
  every slot flagged isMerged holds a value; and the score has grown by
  exactly the sum of the merged values.

  The proof follows the double loop. After `n` visits the visited part of
  every line is packed, and every flagged slot holds a value and lies in
  front of every slot still to visit, so no later visit moves it.
 */
module Packing {
  import opened Grid
  import opened Tally
  import opened Engine
  import opened SlideProofs

  /** Along line `a`, up to `depth` steps from the edge, every value has a value in front of it. */
  ghost predicate PackedTo(cells: seq<nat>, a: int, c: char, depth: int)
    requires |cells| == 16
  {
    forall k :: IsIndex(k) && Across(k, c) == a && 0 < Dist(k, c) <= depth && cells[k] != 0 ==>
      IsIndex(CellIndex(k, c)) && cells[CellIndex(k, c)] != 0
  }

  /** Packing up to `depth` depends only on the slots of the line at most `depth` steps from the edge. */
  lemma PackedFrame(cells: seq<nat>, moved: seq<nat>, a: int, c: char, depth: int)
    requires |cells| == 16 && |moved| == 16 && IsDirection(c) && PackedTo(cells, a, c, depth)
    requires forall i :: IsIndex(i) && Across(i, c) == a && Dist(i, c) <= depth ==> moved[i] == cells[i]
    ensures PackedTo(moved, a, c, depth)
  {
    forall k | IsIndex(k) && Across(k, c) == a && 0 < Dist(k, c) <= depth && moved[k] != 0
      ensures IsIndex(CellIndex(k, c)) && moved[CellIndex(k, c)] != 0
    {
      AtEdgeIffNoDistance(k, c);
      StepTowardEdge(k, c);
      AdjacentSameLine(k, CellIndex(k, c), c);
    }
  }

  /** Packing reaches slot `i` once the slots in front of it are packed and `i` is empty or has a value in front. */
  lemma PackedExtend(cells: seq<nat>, i: int, c: char)
    requires |cells| == 16 && IsIndex(i) && IsDirection(c)
    requires PackedTo(cells, Across(i, c), c, Dist(i, c) - 1)
    requires cells[i] != 0 && 0 < Dist(i, c) ==> IsIndex(CellIndex(i, c)) && cells[CellIndex(i, c)] != 0
    ensures PackedTo(cells, Across(i, c), c, Dist(i, c))
  {
    forall k | IsIndex(k) && Across(k, c) == Across(i, c) && 0 < Dist(k, c) <= Dist(i, c) && cells[k] != 0
      ensures IsIndex(CellIndex(k, c)) && cells[CellIndex(k, c)] != 0
    {
      if Dist(k, c) == Dist(i, c) {
        SameSpot(i, k, c);
      }
    }
  }

  /** One pass of moveCell's loop from `index` empties `index` and leaves the slots in front of its target as they were. */
  lemma AdvanceKeepsAhead(b: BoardState, index: int, merged: bool, dir: char)
    requires WellFormed(b) && IsIndex(index) && IsDirection(dir) && index != EdgeIndex(index, dir)
    requires PackedTo(b.cell, Across(index, dir), dir, Dist(index, dir) - 1)
    ensures var s := Advance(b, index, CellIndex(index, dir), merged).board;
      s.cell[index] == 0 && PackedTo(s.cell, Across(index, dir), dir, Dist(index, dir) - 2)
  {
    StepTowardEdge(index, dir);
    var t := CellIndex(index, dir);
    AdvanceLocal(b, index, t, merged);
    PackedFrame(b.cell, Advance(b, index, t, merged).board.cell, Across(index, dir), dir, Dist(index, dir) - 2);
  }

  /** The loop of moveCell from `t` leaves a slot of its line farther from the edge as it was. */
  lemma SlideLeavesSlot(b: BoardState, t: int, edge: int, dir: char, merged: bool, i: int)
    requires WellFormed(b) && IsIndex(t) && IsDirection(dir) && edge == EdgeIndex(t, dir)
    requires IsIndex(i) && Across(i, dir) == Across(t, dir) && Dist(i, dir) > Dist(t, dir)
    ensures SlideFrom(b, t, edge, dir, merged).board.cell[i] == b.cell[i]
  {
    SlideInLine(b, t, edge, dir, merged);
  }

  /** The loop of moveCell from slot `index`, when the slots in front of it are packed, leaves its line packed up to `index`. */
  lemma {:induction false} SlidePacks(b: BoardState, index: int, edge: int, dir: char, merged: bool)
    requires WellFormed(b) && IsIndex(index) && IsDirection(dir) && edge == EdgeIndex(index, dir)
    requires PackedTo(b.cell, Across(index, dir), dir, Dist(index, dir) - 1)
    ensures PackedTo(SlideFrom(b, index, edge, dir, merged).board.cell, Across(index, dir), dir, Dist(index, dir))
    decreases Progress(index, dir)
  {
    AtEdgeIffNoDistance(index, dir);
    if index != edge {
      StepTowardEdge(index, dir);
      var t := CellIndex(index, dir);
      AdjacentSameLine(index, t, dir);
      if !Enters(b, index, t, merged) {
        PackedExtend(b.cell, index, dir);
      } else {
        var s := Advance(b, index, t, merged);
        AdvanceKeepsAhead(b, index, merged, dir);
        SlidePacks(s.board, t, edge, dir, s.merged);
        SlideLeavesSlot(s.board, t, edge, dir, s.merged, index);
        var r := SlideFrom(s.board, t, edge, dir, s.merged);
        assert SlideFrom(b, index, edge, dir, merged) == r;
        PackedExtend(r.board.cell, index, dir);
      }
    }
  }

  /**
    The loop of moveCell from slot `index`, when the slots in front of it
    are packed: the only flag it sets is the one on the landing slot, which
    was clear before, is nearer the edge than `index`, and is set exactly
    when the value merged.
   */
  lemma {:induction false} SlideFlagsLanding(b: BoardState, index: int, edge: int, dir: char, merged: bool)
    requires WellFormed(b) && IsIndex(index) && IsDirection(dir) && edge == EdgeIndex(index, dir)
    requires PackedTo(b.cell, Across(index, dir), dir, Dist(index, dir) - 1)
    ensures var r := SlideFrom(b, index, edge, dir, merged);
      var m := r.merged && !merged;
      && IsIndex(r.at)
      && r.board.isMerged == (if m then b.isMerged[r.at := true] else b.isMerged)
      && (m ==> !b.isMerged[r.at] && Dist(r.at, dir) < Dist(index, dir))
    decreases Progress(index, dir)
  {
    if index != edge {
      StepTowardEdge(index, dir);
      var t := CellIndex(index, dir);
      AdjacentSameLine(index, t, dir);
      if Enters(b, index, t, merged) {
        var s := Advance(b, index, t, merged);
        assert SlideFrom(b, index, edge, dir, merged) == SlideFrom(s.board, t, edge, dir, s.merged);
        if b.cell[t] == 0 {
          AdvanceKeepsAhead(b, index, merged, dir);
          SlideFlagsLanding(s.board, t, edge, dir, merged);
        } else {
          // the merged value has a value in front of it, so the slide stops on t
          AtEdgeIffNoDistance(t, dir);
          if t != edge {
            StepTowardEdge(t, dir);
            var front := CellIndex(t, dir);
            assert b.cell[front] != 0;
            AdvanceLocal(b, index, t, merged);
            assert !Enters(s.board, t, front, true);
          }
          assert SlideFrom(s.board, t, edge, dir, true) == Slide(s.board, t, true);
        }
      }
    }
  }

  /** Where slot `k` comes in moveBoard's visit order (VisitSlot): line Dist - 1, position Across along it. */
  function VisitPos(k: int, c: char): int
  {
    4 * (Dist(k, c) - 1) + Across(k, c)
  }

  /** A place in the visit order names one line and one position along it. */
  lemma PlaceUnique(d1: int, a1: int, d2: int, a2: int)
    requires 0 <= a1 < 4 && 0 <= a2 < 4
    ensures 4 * d1 + a1 == 4 * d2 + a2 <==> d1 == d2 && a1 == a2
  {
  }

  /** Two slots of the board never share a place in the visit order. */
  lemma VisitPosUnique(i: int, k: int, c: char)
    requires IsIndex(i) && IsIndex(k) && IsDirection(c) && VisitPos(i, c) == VisitPos(k, c)
    ensures i == k
  {
    PlaceUnique(Dist(i, c) - 1, Across(i, c), Dist(k, c) - 1, Across(k, c));
    SameSpot(i, k, c);
  }

  /** After the first `n` visits of the double loop, every visited slot holding a value has a value in front of it. */
  ghost predicate PackedUpTo(cells: seq<nat>, c: char, n: int)
    requires |cells| == 16
  {
    forall k :: IsIndex(k) && 0 < Dist(k, c) && VisitPos(k, c) < n && cells[k] != 0 ==>
      IsIndex(CellIndex(k, c)) && cells[CellIndex(k, c)] != 0
  }

  /** After the first `n` visits, every flagged slot holds a value and lies in front of every slot still to visit. */
  ghost predicate FlagsBehind(b: BoardState, c: char, n: int)
    requires WellFormed(b)
  {
    forall j :: IsIndex(j) && b.isMerged[j] ==> b.cell[j] != 0 && VisitPos(j, c) + 4 <= n
  }

  /** When slot `s`, n-th in the order, is visited, the slots in front of it on its line are packed. */
  lemma PackedAhead(cells: seq<nat>, c: char, n: int, s: int)
    requires |cells| == 16 && IsDirection(c) && IsIndex(s) && VisitPos(s, c) == n && PackedUpTo(cells, c, n)
    ensures PackedTo(cells, Across(s, c), c, Dist(s, c) - 1)
  {
  }

  /** Slots on different lines never share a place in the visit order. */
  lemma VisitPosAcross(i: int, k: int, c: char)
    requires IsIndex(i) && IsIndex(k) && IsDirection(c) && Across(i, c) != Across(k, c)
    ensures VisitPos(i, c) != VisitPos(k, c)
  {
    PlaceUnique(Dist(i, c) - 1, Across(i, c), Dist(k, c) - 1, Across(k, c));
  }

  /** Slots off the line of `s` that were packed stay packed when their line is left as it was. */
  lemma PackedOtherLines(before: seq<nat>, after: seq<nat>, c: char, n: int, s: int)
    requires |before| == 16 && |after| == 16 && IsDirection(c) && IsIndex(s) && VisitPos(s, c) == n
    requires PackedUpTo(before, c, n)
    requires forall j :: IsIndex(j) && Across(j, c) != Across(s, c) ==> after[j] == before[j]
    ensures forall k :: IsIndex(k) && Across(k, c) != Across(s, c) && 0 < Dist(k, c) && VisitPos(k, c) <= n && after[k] != 0 ==>
      IsIndex(CellIndex(k, c)) && after[CellIndex(k, c)] != 0
  {
    forall k | IsIndex(k) && Across(k, c) != Across(s, c) && 0 < Dist(k, c) && VisitPos(k, c) <= n && after[k] != 0
      ensures IsIndex(CellIndex(k, c)) && after[CellIndex(k, c)] != 0
    {
      AtEdgeIffNoDistance(k, c);
      StepTowardEdge(k, c);
      AdjacentSameLine(k, CellIndex(k, c), c);
      VisitPosAcross(k, s, c);
    }
  }

  /**
    The packed part of the lines grows by slot `s`, n-th in the order, once
    its line is packed up to `s` and no other line changed.
   */
  lemma PackedStep(before: seq<nat>, after: seq<nat>, c: char, n: int, s: int)
    requires |before| == 16 && |after| == 16 && IsDirection(c) && IsIndex(s) && VisitPos(s, c) == n
    requires PackedUpTo(before, c, n) && PackedTo(after, Across(s, c), c, Dist(s, c))
    requires forall j :: IsIndex(j) && Across(j, c) != Across(s, c) ==> after[j] == before[j]
    ensures PackedUpTo(after, c, n + 1)
  {
    PackedOtherLines(before, after, c, n, s);
  }

  /** One visit of slot `s`, n-th in the order, extends the packed part of the lines by `s`. */
  lemma VisitPacks(p: BoardState, c: char, n: int, s: int)
    requires WellFormed(p) && IsDirection(c) && IsIndex(s) && VisitPos(s, c) == n && 0 < Dist(s, c)
    requires PackedUpTo(p.cell, c, n)
    ensures PackedUpTo(Visit(p, s, c).cell, c, n + 1)
  {
    PackedAhead(p.cell, c, n, s);
    var r := Visit(p, s, c);
    if p.cell[s] == 0 {
      PackedExtend(p.cell, s, c);
    } else {
      var edge := EdgeIndex(s, c);
      SlidePacks(p, s, edge, c, false);
      SlideInLine(p, s, edge, c, false);
      assert r == SlideFrom(p, s, edge, c, false).board;
    }
    PackedStep(p.cell, r.cell, c, n, s);
  }

  /**
    The flags after visiting slot `s`, n-th in the order: if the flags
    before lay in front of `s` and kept their values, and the one new flag
    is on a value in front of `s` on its line, all flags lie in front of
    the slots still to visit.
   */
  lemma FlagsStep(p: BoardState, r: BoardState, c: char, n: int, s: int, at: int, m: bool)
    requires WellFormed(p) && WellFormed(r) && IsDirection(c) && IsIndex(s) && VisitPos(s, c) == n
    requires FlagsBehind(p, c, n) && IsIndex(at)
    requires r.isMerged == (if m then p.isMerged[at := true] else p.isMerged)
    requires forall j :: 0 <= j < 16 && p.isMerged[j] ==> r.cell[j] == p.cell[j]
    requires m ==> r.cell[at] != 0 && Across(at, c) == Across(s, c) && Dist(at, c) < Dist(s, c)
    ensures FlagsBehind(r, c, n + 1)
  {
  }

  /**
    One visit of slot `s`, n-th in the order, keeps every flagged slot's
    value, flags at most its landing slot, which then lies in front of every
    slot still to visit, and raises the score by exactly the value on the
    newly flagged slot.
   */
  lemma VisitFlags(p: BoardState, c: char, n: int, s: int)
    requires WellFormed(p) && IsDirection(c) && IsIndex(s) && VisitPos(s, c) == n && 0 < Dist(s, c)
    requires PackedUpTo(p.cell, c, n) && FlagsBehind(p, c, n)
    ensures var r := Visit(p, s, c);
      && FlagsBehind(r, c, n + 1)
      && r.score + FlaggedSum(p.cell, p.isMerged) == p.score + FlaggedSum(r.cell, r.isMerged)
  {
    if p.cell[s] != 0 {
      var edge := EdgeIndex(s, c);
      PackedAhead(p.cell, c, n, s);
      SlideFlagsLanding(p, s, edge, c, false);
      SlideLanding(p, s, edge, c, false);
      SlideInLine(p, s, edge, c, false);
      var sl := SlideFrom(p, s, edge, c, false);
      var r := sl.board;
      assert r == Visit(p, s, c);
      forall j | 0 <= j < 16 && p.isMerged[j]
        ensures r.cell[j] == p.cell[j]
      {
        SlideKeepsMerged(p, s, edge, c, false, j);
      }
      FlagsStep(p, r, c, n, s, sl.at, sl.merged);
      FlaggedSumFrame(p.cell, r.cell, p.isMerged);
      if sl.merged {
        FlaggedSumFlag(r.cell, p.isMerged, sl.at);
      }
    }
  }

  /** The invariant of the double loop, over the first `n` visits of a move that starts with no flag set. */
  lemma {:induction false} MoveAllPacked(b: BoardState, c: char, n: nat)
    requires WellFormed(b) && IsDirection(c) && n <= 12 && forall i :: 0 <= i < 16 ==> !b.isMerged[i]
    ensures var m := MoveAll(b, VisitOrder(c), n, c);
      && PackedUpTo(m.cell, c, n) && FlagsBehind(m, c, n)
      && m.score == b.score + FlaggedSum(m.cell, m.isMerged)
  {
    if n == 0 {
      FlaggedSumNone(b.cell, b.isMerged);
    } else {
      MoveAllPacked(b, c, n - 1);
      var p := MoveAll(b, VisitOrder(c), n - 1, c);
      var s := VisitOrder(c)[n - 1];
      VisitSlot(c, n - 1);
      assert VisitPos(s, c) == n - 1;
      assert MoveAll(b, VisitOrder(c), n, c) == Visit(p, s, c);
      VisitPacks(p, c, n - 1, s);
      VisitFlags(p, c, n - 1, s);
    }
  }

  /**
    moveBoard in a direction leaves every line packed against its edge: a
    slot holding a value has no empty grid neighbour in that direction.
    Every slot flagged isMerged holds a value, and the score grows by
    exactly the sum of the values on the flagged slots.
   */
  lemma MoveBoardPacked(b: BoardState, c: char)
    requires WellFormed(b) && IsDirection(c)
    ensures var r := AfterMoveBoard(b, c);
      && (forall k, j :: IsIndex(k) && IsIndex(j) && Adjacent(k, j, c) && r.cell[k] != 0 ==> r.cell[j] != 0)
      && (forall i :: IsIndex(i) && r.isMerged[i] ==> r.cell[i] != 0)
      && r.score == b.score + FlaggedSum(r.cell, r.isMerged)
  {
    MoveAllPacked(Reset(b), c, 12);
    var r := AfterMoveBoard(b, c);
    forall k, j | IsIndex(k) && IsIndex(j) && Adjacent(k, j, c) && r.cell[k] != 0
      ensures r.cell[j] != 0
    {
      AdjacentIsCellIndex(k, j, c);
      AtEdgeIffNoDistance(k, c);
    }
  }
}
