/**
  Row-major addressing of the 4x4 board (2048/Board.c:36-90, 2048/Board.c:147-176).

  Slots are numbered 0..15, row by row. Directions are the characters the
  engine receives ('u', 'd', 'l', 'r'), so that every other character can be
  handled the way the source handles it: by answering -1.
 */
module Grid {

  /** One of the four move commands. */
  predicate IsDirection(c: char) {
    c == 'u' || c == 'd' || c == 'l' || c == 'r'
  }

  /** A slot of the board. */
  predicate IsIndex(i: int) {
    0 <= i < 16
  }

  function Row(i: int): int { i / 4 }

  function Col(i: int): int { i % 4 }

  /** How far one step in direction `c` moves a linear index. */
  function Offset(c: char): int
    requires IsDirection(c)
  {
    match c
    case 'u' => -4
    case 'd' => 4
    case 'l' => -1
    case _ => 1
  }

  /**
    The slot one step from `index` in direction `modifier`, or -1
    (2048/Board.c:36-60). Only the range 0..15 is checked: for 'l' and 'r'
    the step may leave the row (CellIndex(4, 'l') == 3), which callers rule
    out with EdgeIndex (see SlideProofs and TerminalProofs).
   */
  function CellIndex(index: int, modifier: char): (r: int)
    ensures !IsIndex(index) || !IsDirection(modifier) ==> r == -1
    ensures r != -1 ==> IsIndex(r) && IsIndex(index) && IsDirection(modifier)
    ensures r != -1 ==> r == index + Offset(modifier)
    ensures IsIndex(index) && IsDirection(modifier) && IsIndex(index + Offset(modifier)) ==> r != -1
  {
    if index < 0 || index > 15 then -1
    else
      var targetIndex :=
        match modifier
        case 'u' => index - 4
        case 'd' => index + 4
        case 'l' => index - 1
        case 'r' => index + 1
        case _ => -1;
      if IsDirection(modifier) && 0 <= targetIndex < 16 then targetIndex else -1
  }

  /** The loop of the 'd' case of edgeIndex (2048/Board.c:75-76). */
  function DownToEdge(e: int): (r: int)
    requires IsIndex(e)
    ensures IsIndex(r) && Row(r) == 3 && Col(r) == Col(e)
    decreases 16 - e
  {
    if e < 12 then DownToEdge(e + 4) else e
  }

  /** The loop of the 'l' case of edgeIndex (2048/Board.c:79-80). */
  function LeftToEdge(e: int): (r: int)
    requires IsIndex(e)
    ensures IsIndex(r) && Col(r) == 0 && Row(r) == Row(e)
    decreases e
  {
    if e % 4 != 0 then LeftToEdge(e - 1) else e
  }

  /** The loop of the 'r' case of edgeIndex (2048/Board.c:83-84). */
  function RightToEdge(e: int): (r: int)
    requires IsIndex(e)
    ensures IsIndex(r) && Col(r) == 3 && Row(r) == Row(e)
    decreases 3 - e % 4
  {
    if e % 4 != 3 then RightToEdge(e + 1) else e
  }

  /**
    The last slot of the line through `index` in `direction`
    (2048/Board.c:63-90): same column and row 0 or 3 for 'u'/'d', same row
    and column 0 or 3 for 'l'/'r'; -1 for a bad index or direction.
   */
  function EdgeIndex(index: int, direction: char): (r: int)
    ensures !IsIndex(index) || !IsDirection(direction) ==> r == -1
    ensures IsIndex(index) && IsDirection(direction) ==> IsIndex(r)
    ensures IsIndex(index) && direction == 'u' ==> Row(r) == 0 && Col(r) == Col(index)
    ensures IsIndex(index) && direction == 'd' ==> Row(r) == 3 && Col(r) == Col(index)
    ensures IsIndex(index) && direction == 'l' ==> Col(r) == 0 && Row(r) == Row(index)
    ensures IsIndex(index) && direction == 'r' ==> Col(r) == 3 && Row(r) == Row(index)
  {
    if index < 0 || index > 15 then -1
    else
      match direction
      case 'u' => index % 4
      case 'd' => DownToEdge(index)
      case 'l' => LeftToEdge(index)
      case 'r' => RightToEdge(index)
      case _ => -1
  }

  /** Number of steps from slot `i` to the edge it moves toward in direction `c`. */
  function Dist(i: int, c: char): int
  {
    match c
    case 'u' => Row(i)
    case 'd' => 3 - Row(i)
    case 'l' => Col(i)
    case 'r' => 3 - Col(i)
    case _ => 0
  }

  /** Position of slot `i` along the lines that move in direction `c`. */
  function Across(i: int, c: char): int
  {
    if c == 'u' || c == 'd' then Col(i) else Row(i)
  }

  /** Slot `j` is the grid neighbour of slot `i` in direction `c` (no wrap between rows). */
  predicate Adjacent(i: int, j: int, c: char)
  {
    match c
    case 'u' => Col(j) == Col(i) && Row(j) + 1 == Row(i)
    case 'd' => Col(j) == Col(i) && Row(j) == Row(i) + 1
    case 'l' => Row(j) == Row(i) && Col(j) + 1 == Col(i)
    case 'r' => Row(j) == Row(i) && Col(j) == Col(i) + 1
    case _ => false
  }

  /** The direction that undoes `c`. */
  function Opposite(c: char): (r: char)
    requires IsDirection(c)
    ensures IsDirection(r)
  {
    match c
    case 'u' => 'd'
    case 'd' => 'u'
    case 'l' => 'r'
    case _ => 'l'
  }

  /** A slot is on its edge exactly when it is zero steps from it. */
  lemma AtEdgeIffNoDistance(i: int, c: char)
    requires IsIndex(i) && IsDirection(c)
    ensures 0 <= Dist(i, c) <= 3
    ensures i == EdgeIndex(i, c) <==> Dist(i, c) == 0
  {
  }

  /**
    The guard of moveCell and dirPossible suffices: from a slot that is not
    on its edge, CellIndex is the grid neighbour, on the same line, with the
    same edge and one step closer to it (2048/Board.c:94-97, 2048/Board.c:316-317).
   */
  lemma StepTowardEdge(i: int, c: char)
    requires IsIndex(i) && IsDirection(c) && i != EdgeIndex(i, c)
    ensures IsIndex(CellIndex(i, c))
    ensures Adjacent(i, CellIndex(i, c), c)
    ensures EdgeIndex(CellIndex(i, c), c) == EdgeIndex(i, c)
    ensures Dist(CellIndex(i, c), c) == Dist(i, c) - 1
  {
  }

  /** A slot is pinned down by its line and its distance to the edge. */
  lemma SameSpot(i: int, k: int, c: char)
    requires IsIndex(i) && IsIndex(k) && IsDirection(c)
    requires Across(i, c) == Across(k, c) && Dist(i, c) == Dist(k, c)
    ensures i == k
  {
    assert i == 4 * Row(i) + Col(i) && k == 4 * Row(k) + Col(k);
  }

  /** Grid adjacency is exactly "not on the edge, and CellIndex answers j". */
  lemma AdjacentIsCellIndex(i: int, j: int, c: char)
    requires IsIndex(i) && IsIndex(j)
    ensures Adjacent(i, j, c) <==> IsDirection(c) && i != EdgeIndex(i, c) && CellIndex(i, c) == j
  {
    if IsDirection(c) && i != EdgeIndex(i, c) {
      StepTowardEdge(i, c);
    }
  }

  /** The only grid neighbour of `i` in direction `c` is the one CellIndex answers, off the edge. */
  lemma NeighbourOf(i: int, c: char)
    requires IsIndex(i)
    ensures forall j :: IsIndex(j) ==> (Adjacent(i, j, c) <==> IsDirection(c) && i != EdgeIndex(i, c) && CellIndex(i, c) == j)
  {
    forall j | IsIndex(j)
      ensures Adjacent(i, j, c) <==> IsDirection(c) && i != EdgeIndex(i, c) && CellIndex(i, c) == j
    {
      AdjacentIsCellIndex(i, j, c);
    }
  }

  /** Stepping back in the opposite direction returns to the start. */
  lemma StepBack(i: int, c: char)
    requires IsIndex(i) && IsDirection(c) && i != EdgeIndex(i, c)
    ensures CellIndex(i, c) != EdgeIndex(CellIndex(i, c), Opposite(c))
    ensures CellIndex(CellIndex(i, c), Opposite(c)) == i
  {
    StepTowardEdge(i, c);
  }

  /** Adjacency in one direction is adjacency in the opposite one, read backwards. */
  lemma AdjacentOpposite(i: int, j: int, c: char)
    requires IsDirection(c)
    ensures Adjacent(i, j, c) <==> Adjacent(j, i, Opposite(c))
  {
  }

  /** The first slot visited by moveBoard's loops (2048/Board.c:149-170). */
  function LineStart(c: char): int
    requires IsDirection(c)
  {
    match c
    case 'u' => 4
    case 'd' => 8
    case 'l' => 1
    case _ => 2
  }

  /** The step from one line to the next (out_incre, 2048/Board.c:149-170). */
  function OuterStep(c: char): int
    requires IsDirection(c)
  {
    match c
    case 'u' => 4
    case 'd' => -4
    case 'l' => 1
    case _ => -1
  }

  /** The step along one line (in_incre, 2048/Board.c:149-170). */
  function InnerStep(c: char): int
    requires IsDirection(c)
  {
    if c == 'u' || c == 'd' then 1 else 4
  }

  /**
    The slots in the order moveBoard's double loop visits them
    (2048/Board.c:175-176): 3 lines of 4 slots, slot k being position
    k % 4 of line k / 4 (VisitOrderAt relates it to the loop counters).
   */
  function VisitOrder(c: char): (order: seq<int>)
    requires IsDirection(c)
    ensures |order| == 12
  {
    match c
    case 'u' => seq(12, k => 4 * (k / 4 + 1) + k % 4)
    case 'd' => seq(12, k => 4 * (2 - k / 4) + k % 4)
    case 'l' => seq(12, k => 4 * (k % 4) + k / 4 + 1)
    case _ => seq(12, k => 4 * (k % 4) + 2 - k / 4)
  }

  /**
    Slot `4 * count + countIn` of the order is the slot the loop counters
    point at: `init + count * out_incre + countIn * in_incre`.
   */
  lemma VisitOrderAt(c: char, count: int, countIn: int)
    requires IsDirection(c) && 0 <= count < 3 && 0 <= countIn < 4
    ensures VisitOrder(c)[4 * count + countIn] == LineStart(c) + count * OuterStep(c) + countIn * InnerStep(c)
  {
    var k := 4 * count + countIn;
    assert k / 4 == count && k % 4 == countIn;
  }

  /** Along a line, the next visited slot is one inner step further. */
  lemma VisitInnerNext(c: char, count: int, countIn: int, k: int)
    requires IsDirection(c) && 0 <= count < 3 && 0 <= countIn < 3 && k == 4 * count + countIn
    ensures VisitOrder(c)[k + 1] == VisitOrder(c)[k] + InnerStep(c)
  {
    assert k / 4 == count && k % 4 == countIn && (k + 1) / 4 == count && (k + 1) % 4 == countIn + 1;
  }

  /** The next line starts one outer step further. */
  lemma VisitOuterNext(c: char, count: int, k: int)
    requires IsDirection(c) && 0 <= count < 2 && k == 4 * count
    ensures VisitOrder(c)[k + 4] == VisitOrder(c)[k] + OuterStep(c)
  {
    assert k / 4 == count && k % 4 == 0 && (k + 4) / 4 == count + 1 && (k + 4) % 4 == 0;
  }

  /** Row and column of the slot at row r, column q. */
  lemma RowCol(r: int, q: int)
    requires 0 <= q < 4
    ensures Row(4 * r + q) == r && Col(4 * r + q) == q
  {
  }

  /** Where the slot the loop counters point at lies: count + 1 steps from its edge, at position countIn along it. */
  lemma VisitSlotAt(c: char, count: int, countIn: int, k: int)
    requires IsDirection(c) && 0 <= count < 3 && 0 <= countIn < 4 && k == 4 * count + countIn
    ensures IsIndex(VisitOrder(c)[k])
    ensures Dist(VisitOrder(c)[k], c) == count + 1
    ensures Across(VisitOrder(c)[k], c) == countIn
  {
    assert k / 4 == count && k % 4 == countIn;
    if c == 'u' {
      RowCol(count + 1, countIn);
    } else if c == 'd' {
      RowCol(2 - count, countIn);
    } else if c == 'l' {
      RowCol(countIn, count + 1);
    } else {
      RowCol(countIn, 2 - count);
    }
  }

  /** Where the k-th visited slot lies: k / 4 + 1 steps from its edge, at position k % 4 along it. */
  lemma VisitSlot(c: char, k: int)
    requires IsDirection(c) && 0 <= k < 12
    ensures IsIndex(VisitOrder(c)[k])
    ensures Dist(VisitOrder(c)[k], c) == k / 4 + 1
    ensures Across(VisitOrder(c)[k], c) == k % 4
    ensures VisitOrder(c)[k] != EdgeIndex(VisitOrder(c)[k], c)
  {
    assert k == 4 * (k / 4) + k % 4;
    VisitSlotAt(c, k / 4, k % 4, k);
    AtEdgeIffNoDistance(VisitOrder(c)[k], c);
  }


  /** The visited slot of a slot off the edge. */
  lemma VisitedAt(c: char, i: int) returns (k: int)
    requires IsDirection(c) && IsIndex(i) && i != EdgeIndex(i, c)
    ensures 0 <= k < 12 && VisitOrder(c)[k] == i
  {
    AtEdgeIffNoDistance(i, c);
    var r, q := Row(i), Col(i);
    assert i == 4 * r + q && 0 <= r < 4 && 0 <= q < 4;
    if c == 'u' {
      k := 4 * (r - 1) + q;
      VisitOrderAt(c, r - 1, q);
    } else if c == 'd' {
      k := 4 * (2 - r) + q;
      VisitOrderAt(c, 2 - r, q);
    } else if c == 'l' {
      k := 4 * (q - 1) + r;
      VisitOrderAt(c, q - 1, r);
    } else {
      k := 4 * (2 - q) + r;
      VisitOrderAt(c, 2 - q, r);
    }
  }

  /** Every visited slot is on the board. */
  lemma VisitOrderIndices(c: char)
    requires IsDirection(c)
    ensures forall k :: 0 <= k < 12 ==> IsIndex(VisitOrder(c)[k])
  {
    forall k | 0 <= k < 12
      ensures IsIndex(VisitOrder(c)[k])
    {
      VisitSlot(c, k);
    }
  }

  /**
    moveBoard visits the lines from the one next to the destination edge
    inward: the k-th slot is k / 4 + 1 steps from its edge, so edge slots are
    skipped; the 12 slots are distinct and are all the slots off the edge.
   */
  lemma VisitOrderInward(c: char)
    requires IsDirection(c)
    ensures forall k :: 0 <= k < 12 ==> IsIndex(VisitOrder(c)[k])
    ensures forall k :: 0 <= k < 12 ==> Dist(VisitOrder(c)[k], c) == k / 4 + 1
    ensures forall k :: 0 <= k < 12 ==> Across(VisitOrder(c)[k], c) == k % 4
    ensures forall k :: 0 <= k < 12 ==> VisitOrder(c)[k] != EdgeIndex(VisitOrder(c)[k], c)
    ensures forall k, m :: 0 <= k < m < 12 ==> VisitOrder(c)[k] != VisitOrder(c)[m]
    ensures forall i :: IsIndex(i) && i != EdgeIndex(i, c) ==> i in VisitOrder(c)
  {
    var o := VisitOrder(c);
    forall k | 0 <= k < 12
      ensures IsIndex(o[k]) && Dist(o[k], c) == k / 4 + 1 && Across(o[k], c) == k % 4
      ensures o[k] != EdgeIndex(o[k], c)
    {
      VisitSlot(c, k);
    }
    forall i | IsIndex(i) && i != EdgeIndex(i, c)
      ensures i in o
    {
      var k := VisitedAt(c, i);
    }
    forall k, m | 0 <= k < m < 12
      ensures o[k] != o[m]
    {
      VisitSlot(c, k);
      VisitSlot(c, m);
    }
  }

  /** The wrap that CellIndex does not check: 'l' from the start of row 1 lands in row 0. */
  lemma CellIndexLeavesRow()
    ensures CellIndex(4, 'l') == 3 && Row(3) != Row(4)
    ensures CellIndex(3, 'r') == 4 && Row(3) != Row(4)
  {
  }
}
