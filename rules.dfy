/**
 The rules of a 3x3 Tic Tac Toe board: the cells, the eight winning
 triples, the winner scan and the draw test. Everything here is a pure
 function of the board; the game state that changes lives in Engine.
 */
module Rules {

  datatype Option<T> = None | Some(value: T)

  /** A player's mark. */
  datatype Mark = X | O

  /** One cell of the board: empty (`null` in the source) or holding a mark. */
  datatype Cell = Empty | Filled(mark: Mark)

  /** The mark of the player to move, read off the `xIsNext` flag. */
  function MarkOf(xIsNext: bool): (m: Mark)
    ensures (m == X) <==> xIsNext
  {
    if xIsNext then X else O
  }

  /** Nine cells in row-major order: row 0 is 0,1,2, row 1 is 3,4,5, row 2 is 6,7,8. */
  type Board = b: seq<Cell> | |b| == 9
    witness [Empty, Empty, Empty, Empty, Empty, Empty, Empty, Empty, Empty]

  const EmptyBoard: Board := [Empty, Empty, Empty, Empty, Empty, Empty, Empty, Empty, Empty]

  /** Three cell indices of the board. */
  type Line = l: seq<int> | |l| == 3 && 0 <= l[0] < 9 && 0 <= l[1] < 9 && 0 <= l[2] < 9
    witness [0, 1, 2]

  /** The fixed triples, in the order they are scanned: rows, columns, diagonals. */
  const Lines: seq<Line> := [
    [0, 1, 2], [3, 4, 5], [6, 7, 8],
    [0, 3, 6], [1, 4, 7], [2, 5, 8],
    [0, 4, 8], [2, 4, 6]
  ]

  /** The k-th triple holds three equal non-empty cells. */
  predicate LineWon(b: Board, k: int)
    requires 0 <= k < |Lines|
  {
    var l := Lines[k];
    b[l[0]] != Empty && b[l[0]] == b[l[1]] && b[l[0]] == b[l[2]]
  }

  /** Triple k is won and no triple scanned before it is. */
  predicate FirstWin(b: Board, k: int)
  {
    0 <= k < |Lines| && LineWon(b, k) && forall j :: 0 <= j < k ==> !LineWon(b, j)
  }

  /** What the winner scan reports: the winning mark and its triple. */
  datatype WinnerInfo = WinnerInfo(winner: Mark, line: Line)

  /** The report for triple k, taking the mark from its first cell. */
  function InfoAt(b: Board, k: int): WinnerInfo
    requires 0 <= k < |Lines| && LineWon(b, k)
  {
    WinnerInfo(b[Lines[k][0]].mark, Lines[k])
  }

  /** The winner scan started at triple i: the first won triple at or after i. */
  function WinnerFrom(b: Board, i: nat): Option<WinnerInfo>
    requires i <= |Lines|
    decreases |Lines| - i
  {
    if i == |Lines| then None
    else if LineWon(b, i) then Some(InfoAt(b, i))
    else WinnerFrom(b, i + 1)
  }

  /** The scan from triple i finds nothing exactly when no triple from i on is won, else the first one. */
  lemma {:induction false} WinnerFromSpec(b: Board, i: nat)
    requires i <= |Lines|
    ensures WinnerFrom(b, i).None? <==> forall k :: i <= k < |Lines| ==> !LineWon(b, k)
    ensures WinnerFrom(b, i).Some? ==>
      exists k :: i <= k < |Lines| && LineWon(b, k) && WinnerFrom(b, i).value == InfoAt(b, k) &&
        forall j :: i <= j < k ==> !LineWon(b, j)
    decreases |Lines| - i
  {
    if i < |Lines| && !LineWon(b, i) {
      WinnerFromSpec(b, i + 1);
    }
  }

  /**
   The result of `calculateWinner`: the first triple, in scan order, whose
   three cells hold the same mark, with that mark; None when there is none.
   */
  function Winner(b: Board): Option<WinnerInfo>
  {
    WinnerFrom(b, 0)
  }

  /**
   Winner reports None exactly when no triple is won; otherwise it reports
   the first won triple, one of the fixed eight, whose cells all hold the
   reported mark.
   */
  lemma WinnerSpec(b: Board)
    ensures Winner(b).None? <==> forall k :: 0 <= k < |Lines| ==> !LineWon(b, k)
    ensures Winner(b).Some? ==> exists k :: FirstWin(b, k) && Winner(b).value == InfoAt(b, k)
    ensures Winner(b).Some? ==>
      Winner(b).value.line in Lines &&
      b[Winner(b).value.line[0]] == b[Winner(b).value.line[1]] == b[Winner(b).value.line[2]]
        == Filled(Winner(b).value.winner)
  {
    WinnerFromSpec(b, 0);
    if Winner(b).Some? {
      var k :| 0 <= k < |Lines| && LineWon(b, k) && Winner(b).value == InfoAt(b, k) &&
        forall j :: 0 <= j < k ==> !LineWon(b, j);
      assert FirstWin(b, k);
    }
  }

  /** `calculateWinner`: a scan over the triples that returns at the first won one. */
  method CalculateWinner(squares: array<Cell>) returns (r: Option<WinnerInfo>)
    requires squares.Length == 9
    ensures r == Winner(squares[..])
  {
    ghost var b: Board := squares[..];
    var i := 0;
    while i < |Lines|
      invariant 0 <= i <= |Lines|
      invariant WinnerFrom(b, i) == Winner(b)
    {
      var a, p, c := Lines[i][0], Lines[i][1], Lines[i][2];
      assert [a, p, c] == Lines[i];
      if squares[a] != Empty && squares[a] == squares[p] && squares[a] == squares[c] {
        assert LineWon(b, i);
        return Some(WinnerInfo(squares[a].mark, [a, p, c]));
      }
      assert !LineWon(b, i);
      i := i + 1;
    }
    return None;
  }

  /** The winning mark alone, the `winner` of the source. */
  function WinnerMark(b: Board): Option<Mark>
  {
    match Winner(b)
    case Some(info) => Some(info.winner)
    case None => None
  }

  /** `isDraw`: every cell is filled (despite its name, it does not look for a winner). */
  predicate IsDraw(b: seq<Cell>)
  {
    forall i :: 0 <= i < |b| ==> b[i] != Empty
  }

  /** `draw`: no winner and the board is full, so never both won and drawn. */
  predicate Drawn(b: Board)
  {
    WinnerMark(b).None? && IsDraw(b)
  }

  /** A drawn board is one with every cell filled and no triple won; it has no winner. */
  lemma DrawnSpec(b: Board)
    ensures Drawn(b) <==>
      (forall k :: 0 <= k < |Lines| ==> !LineWon(b, k)) &&
      (forall i :: 0 <= i < 9 ==> b[i] != Empty)
    ensures Drawn(b) ==> WinnerMark(b).None?
  {
    WinnerSpec(b);
  }

  /** The guard of `handleSquareClick`: the cell is empty and nobody has won. */
  predicate MoveAllowed(b: Board, idx: int)
    requires 0 <= idx < 9
  {
    b[idx] == Empty && WinnerMark(b).None?
  }

  /**
   A move is allowed only while the game is in progress, so on a won or
   drawn board every click is refused; and while it is in progress some
   cell still takes a move.
   */
  lemma TerminalRefusesMoves(b: Board, idx: int)
    requires 0 <= idx < 9
    ensures MoveAllowed(b, idx) ==> WinnerMark(b).None? && !Drawn(b)
    ensures WinnerMark(b).None? && !Drawn(b) ==> exists j :: 0 <= j < 9 && MoveAllowed(b, j)
  {
    if WinnerMark(b).None? && !Drawn(b) {
      var j :| 0 <= j < |b| && b[j] == Empty;
      assert MoveAllowed(b, j);
    }
  }

  /**
   A move played where the guard allows it can complete only triples that
   run through the played cell, so any winner of the new board is the mover.
   */
  lemma {:induction false} NewWinnerOwnsMove(b: Board, idx: int, m: Mark)
    requires 0 <= idx < 9 && MoveAllowed(b, idx)
    ensures var w := Winner(b[idx := Filled(m)]);
      w.Some? ==> idx in w.value.line && w.value.winner == m
  {
    var after: Board := b[idx := Filled(m)];
    var w := Winner(after);
    WinnerSpec(b);
    WinnerSpec(after);
    if w.Some? {
      var k :| FirstWin(after, k) && w.value == InfoAt(after, k);
      assert !LineWon(b, k);
      assert idx in Lines[k];
    }
  }
}
