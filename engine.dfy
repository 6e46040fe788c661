/**
 The game session: a board of nine cells, the turn flag and the running
 score tally, with the transitions a player can trigger: a click on a cell
 (together with the score update it sets off when it finishes the game)
 and a restart. Session and its functions are the abstract view; Game
 keeps the same state in fields and is proved to follow it.
 */
module Engine {
  import opened Rules

  /** The tally of finished games; it outlives every restart. */
  datatype Scores = Scores(x: nat, o: nat, draws: nat) {
    /** The win counter of mark m. */
    function Of(m: Mark): nat
    {
      match m
      case X => x
      case O => o
    }

    /** The number of finished games counted. */
    function Total(): nat
    {
      x + o + draws
    }
  }

  const NoScores := Scores(0, 0, 0)

  /**
   The score update: one more win for the winner, else one more draw when
   the game is drawn, else nothing. Exactly one counter grows, by one, when
   the outcome is decided, and none ever shrinks.
   */
  function ScoreAfter(sc: Scores, winner: Option<Mark>, draw: bool): (r: Scores)
    ensures r.x >= sc.x && r.o >= sc.o && r.draws >= sc.draws
    ensures r.Total() == sc.Total() + (if winner.Some? || draw then 1 else 0)
    ensures winner.Some? ==> r.Of(winner.value) == sc.Of(winner.value) + 1
    ensures winner.None? && draw ==> r.draws == sc.draws + 1
  {
    match winner
    case Some(X) => sc.(x := sc.x + 1)
    case Some(O) => sc.(o := sc.o + 1)
    case None => if draw then sc.(draws := sc.draws + 1) else sc
  }

  /** What the session keeps: the board, whose turn it is, and the tally. */
  datatype Session = Session(board: Board, xIsNext: bool, scores: Scores)

  /** A new session: empty board, X to move, all counters zero. */
  const Initial := Session(EmptyBoard, true, NoScores)

  /**
   A click on cell idx. Refused, with no effect, on a filled cell or once
   somebody has won; otherwise the current mark goes into the cell, the turn
   passes, and the score update runs on the new board.
   */
  function Click(s: Session, idx: int): Session
    requires 0 <= idx < 9
  {
    if !MoveAllowed(s.board, idx) then s
    else
      var b := s.board[idx := Filled(MarkOf(s.xIsNext))];
      Session(b, !s.xIsNext, ScoreAfter(s.scores, WinnerMark(b), Drawn(b)))
  }

  /**
   A restart: an empty board and the tally kept. If somebody has won, X
   starts exactly when O won; otherwise the turn flag is flipped.
   */
  function Restart(s: Session): Session
  {
    var w := WinnerMark(s.board);
    Session(EmptyBoard, if w.Some? then w.value == O else !s.xIsNext, s.scores)
  }

  /** The moves a player can make. */
  datatype Action = ClickAt(idx: int) | RestartGame

  predicate ValidAction(a: Action)
  {
    a.ClickAt? ==> 0 <= a.idx < 9
  }

  /** The session after the actions, in order. */
  function Run(s: Session, acts: seq<Action>): Session
    requires forall i :: 0 <= i < |acts| ==> ValidAction(acts[i])
    decreases |acts|
  {
    if acts == [] then s
    else
      assert ValidAction(acts[0]);
      var next := match acts[0]
        case ClickAt(idx) => Click(s, idx)
        case RestartGame => Restart(s);
      Run(next, acts[1..])
  }

  /** The cleared board has no winner and is not drawn. */
  lemma EmptyBoardUndecided()
    ensures Winner(EmptyBoard).None? && WinnerMark(EmptyBoard).None? && !Drawn(EmptyBoard)
  {
    WinnerSpec(EmptyBoard);
    assert forall k :: 0 <= k < |Lines| ==> !LineWon(EmptyBoard, k);
  }

  /**
   A refused click changes nothing; an accepted one writes the mover's mark
   into cell idx only, keeps the other eight cells, and passes the turn.
   */
  lemma ClickMoves(s: Session, idx: int)
    requires 0 <= idx < 9
    ensures !MoveAllowed(s.board, idx) ==> Click(s, idx) == s
    ensures MoveAllowed(s.board, idx) ==>
      && Click(s, idx).board[idx] == Filled(MarkOf(s.xIsNext))
      && (forall j :: 0 <= j < 9 && j != idx ==> Click(s, idx).board[j] == s.board[j])
      && Click(s, idx).xIsNext == !s.xIsNext
  {
  }

  /**
   The tally after a click: nothing changes unless the click finishes the
   game; a winning click adds one to the mover's counter only, a drawing
   click one to draws only. No counter ever decreases.
   */
  lemma {:induction false} ClickScores(s: Session, idx: int)
    requires 0 <= idx < 9
    ensures var t := Click(s, idx);
      t.scores.x >= s.scores.x && t.scores.o >= s.scores.o && t.scores.draws >= s.scores.draws
    ensures var t := Click(s, idx);
      t.scores != s.scores <==>
        MoveAllowed(s.board, idx) && (WinnerMark(t.board).Some? || Drawn(t.board))
    ensures var t := Click(s, idx);
      MoveAllowed(s.board, idx) && WinnerMark(t.board).Some? ==>
        && WinnerMark(t.board) == Some(MarkOf(s.xIsNext))
        && t.scores == s.scores.(x := t.scores.x, o := t.scores.o)
        && t.scores.Of(MarkOf(s.xIsNext)) == s.scores.Of(MarkOf(s.xIsNext)) + 1
        && t.scores.Of(MarkOf(!s.xIsNext)) == s.scores.Of(MarkOf(!s.xIsNext))
    ensures var t := Click(s, idx);
      MoveAllowed(s.board, idx) && Drawn(t.board) ==>
        t.scores == s.scores.(draws := s.scores.draws + 1)
  {
    if MoveAllowed(s.board, idx) {
      var t := Click(s, idx);
      NewWinnerOwnsMove(s.board, idx, MarkOf(s.xIsNext));
      DrawnSpec(t.board);
    }
  }

  /**
   Once a game is won or drawn every click is refused, so its result is
   counted once and never again.
   */
  lemma FinishedGameIgnoresClicks(s: Session, idx: int)
    requires 0 <= idx < 9
    requires WinnerMark(s.board).Some? || Drawn(s.board)
    ensures Click(s, idx) == s
  {
    TerminalRefusesMoves(s.board, idx);
  }

  /** A restart empties the board and keeps the tally. */
  lemma RestartClears(s: Session)
    ensures Restart(s).board == EmptyBoard && Restart(s).scores == s.scores
    ensures WinnerMark(Restart(s).board).None? && !Drawn(Restart(s).board)
  {
    EmptyBoardUndecided();
  }

  /**
   Restarting right after the click that won: the turn flag already names
   the loser and is left as it is, so the loser starts.
   */
  lemma {:induction false} RestartAfterWin(s: Session, idx: int)
    requires 0 <= idx < 9 && MoveAllowed(s.board, idx)
    requires WinnerMark(Click(s, idx).board).Some?
    ensures Restart(Click(s, idx)).xIsNext == Click(s, idx).xIsNext
    ensures MarkOf(Restart(Click(s, idx)).xIsNext) != MarkOf(s.xIsNext)
  {
    NewWinnerOwnsMove(s.board, idx, MarkOf(s.xIsNext));
  }

  /**
   Restarting right after the click that drew: the flipped flag gives the
   first move to the player who placed the last mark.
   */
  lemma RestartAfterDraw(s: Session, idx: int)
    requires 0 <= idx < 9 && MoveAllowed(s.board, idx)
    requires Drawn(Click(s, idx).board)
    ensures MarkOf(Restart(Click(s, idx)).xIsNext) == MarkOf(s.xIsNext)
    ensures Click(s, idx).board[idx] == Filled(MarkOf(s.xIsNext))
  {
  }

  /** A won board's winner is the player who is not next to move. */
  ghost predicate Consistent(s: Session)
  {
    Winner(s.board).Some? ==> Winner(s.board).value.winner == MarkOf(!s.xIsNext)
  }

  /** A click keeps the winner and the turn flag consistent. */
  lemma {:induction false} ClickKeepsConsistent(s: Session, idx: int)
    requires 0 <= idx < 9 && Consistent(s)
    ensures Consistent(Click(s, idx))
  {
    if MoveAllowed(s.board, idx) {
      NewWinnerOwnsMove(s.board, idx, MarkOf(s.xIsNext));
    }
  }

  /** A restart leaves an undecided board, so it is consistent whatever the flag. */
  lemma RestartKeepsConsistent(s: Session)
    ensures Consistent(Restart(s))
  {
    EmptyBoardUndecided();
  }

  /**
   In every session reached from a new one, a winner is the player who is
   not next; so after a win the restart rule keeps the flag as it is.
   */
  lemma {:induction false} RunKeepsConsistent(s: Session, acts: seq<Action>)
    requires forall i :: 0 <= i < |acts| ==> ValidAction(acts[i])
    requires Consistent(s)
    ensures Consistent(Run(s, acts))
    ensures WinnerMark(Run(s, acts).board).Some? ==>
      Restart(Run(s, acts)).xIsNext == Run(s, acts).xIsNext
    decreases |acts|
  {
    if acts != [] {
      match acts[0]
      case ClickAt(idx) =>
        ClickKeepsConsistent(s, idx);
        RunKeepsConsistent(Click(s, idx), acts[1..]);
      case RestartGame =>
        RestartKeepsConsistent(s);
        RunKeepsConsistent(Restart(s), acts[1..]);
    }
  }

  /** No counter of the tally ever decreases, whatever is played. */
  lemma {:induction false} RunScoresGrow(s: Session, acts: seq<Action>)
    requires forall i :: 0 <= i < |acts| ==> ValidAction(acts[i])
    ensures var t := Run(s, acts);
      t.scores.x >= s.scores.x && t.scores.o >= s.scores.o && t.scores.draws >= s.scores.draws
    decreases |acts|
  {
    if acts != [] {
      match acts[0]
      case ClickAt(idx) =>
        ClickScores(s, idx);
        RunScoresGrow(Click(s, idx), acts[1..]);
      case RestartGame =>
        RunScoresGrow(Restart(s), acts[1..]);
    }
  }

  /** The number of filled cells. */
  function FilledCount(b: seq<Cell>): nat
  {
    if b == [] then 0 else (if b[0] == Empty then 0 else 1) + FilledCount(b[1..])
  }

  /** Filling an empty cell adds one to the count. */
  lemma {:induction false} FillOneMore(b: seq<Cell>, idx: int, m: Mark)
    requires 0 <= idx < |b| && b[idx] == Empty
    ensures FilledCount(b[idx := Filled(m)]) == FilledCount(b) + 1
    decreases |b|
  {
    if idx == 0 {
      assert b[idx := Filled(m)][1..] == b[1..];
    } else {
      assert b[idx := Filled(m)][1..] == b[1..][idx - 1 := Filled(m)];
      FillOneMore(b[1..], idx - 1, m);
    }
  }

  /** A board counts all its cells as filled exactly when none is empty. */
  lemma {:induction false} FullCount(b: seq<Cell>)
    ensures FilledCount(b) == |b| <==> IsDraw(b)
    ensures FilledCount(b) <= |b|
    decreases |b|
  {
    if b != [] {
      FullCount(b[1..]);
      assert forall i :: 1 <= i < |b| ==> b[1..][i - 1] == b[i];
    }
  }

  /**
   The turn flag of a game that began with flag f on an empty board:
   f again exactly when an even number of cells is filled.
   */
  ghost predicate TurnMatchesCount(s: Session, f: bool)
  {
    (s.xIsNext == f) <==> FilledCount(s.board) % 2 == 0
  }

  /** Every action of the run is a click. */
  predicate ClicksOnly(acts: seq<Action>)
  {
    forall i :: 0 <= i < |acts| ==> acts[i].ClickAt? && ValidAction(acts[i])
  }

  /** Filling an empty cell while passing the turn keeps flag and count in step. */
  lemma {:induction false} FillKeepsTurnParity(b: seq<Cell>, idx: int, m: Mark, x: bool, f: bool)
    requires 0 <= idx < |b| && b[idx] == Empty
    requires (x == f) <==> FilledCount(b) % 2 == 0
    ensures (!x == f) <==> FilledCount(b[idx := Filled(m)]) % 2 == 0
  {
    FillOneMore(b, idx, m);
  }

  /** A click fills one cell and passes the turn, or does neither. */
  lemma ClickKeepsTurnParity(s: Session, idx: int, f: bool)
    requires 0 <= idx < 9 && TurnMatchesCount(s, f)
    ensures TurnMatchesCount(Click(s, idx), f)
  {
    if MoveAllowed(s.board, idx) {
      FillKeepsTurnParity(s.board, idx, MarkOf(s.xIsNext), s.xIsNext, f);
    }
  }

  /** A run of clicks keeps the turn flag in step with the number of filled cells. */
  lemma {:induction false} ClicksKeepTurnParity(s: Session, acts: seq<Action>, f: bool)
    requires ClicksOnly(acts) && TurnMatchesCount(s, f)
    ensures TurnMatchesCount(Run(s, acts), f)
    decreases |acts|
  {
    if acts != [] {
      var idx := acts[0].idx;
      assert Run(s, acts) == Run(Click(s, idx), acts[1..]);
      ClickKeepsTurnParity(s, idx, f);
      assert ClicksOnly(acts[1..]) by {
        forall i | 0 <= i < |acts[1..]|
          ensures acts[1..][i].ClickAt? && ValidAction(acts[1..][i])
        {
          assert acts[1..][i] == acts[i + 1];
        }
      }
      ClicksKeepTurnParity(Click(s, idx), acts[1..], f);
    }
  }

  /**
   A game of clicks that starts on an empty board with flag f and ends
   drawn has filled all nine cells, an odd number, so the last mark was the
   starter's; the restart then gives the first move to the same starter.
   */
  lemma {:induction false} DrawRestartKeepsStarter(f: bool, sc: Scores, acts: seq<Action>)
    requires ClicksOnly(acts)
    requires Drawn(Run(Session(EmptyBoard, f, sc), acts).board)
    ensures Restart(Run(Session(EmptyBoard, f, sc), acts)).xIsNext == f
  {
    var s0 := Session(EmptyBoard, f, sc);
    EmptyCount(s0.board);
    ClicksKeepTurnParity(s0, acts, f);
    DrawnTurnRestart(Run(s0, acts), f);
  }

  /** On a drawn board, nine cells are filled, so the restart flips the flag back to f. */
  lemma DrawnTurnRestart(t: Session, f: bool)
    requires Drawn(t.board) && TurnMatchesCount(t, f)
    ensures Restart(t).xIsNext == f
  {
    FullCount(t.board);
    assert FilledCount(t.board) == 9;
  }

  /** A board with no filled cell counts zero. */
  lemma {:induction false} EmptyCount(b: seq<Cell>)
    requires forall i :: 0 <= i < |b| ==> b[i] == Empty
    ensures FilledCount(b) == 0
    decreases |b|
  {
    if b != [] {
      assert forall i :: 0 <= i < |b[1..]| ==> b[1..][i] == b[i + 1];
      EmptyCount(b[1..]);
    }
  }

  /** `squares.slice()`: a fresh array with the same cells. */
  method Slice(a: array<Cell>) returns (c: array<Cell>)
    ensures fresh(c) && c[..] == a[..]
  {
    c := new Cell[a.Length];
    for i := 0 to a.Length
      invariant c[..i] == a[..i]
    {
      c[i] := a[i];
    }
  }

  /** The session of the source's App component, its state held in fields. */
  class Game {
    var squares: array<Cell>
    var xIsNext: bool
    var scores: Scores

    /** Nine cells, and a winner, if any, is the player who is not next. */
    ghost predicate Valid()
      reads this, squares
    {
      squares.Length == 9 && Consistent(Abstract())
    }

    /** The board as a value. */
    function Cells(): Board
      reads this, squares
      requires squares.Length == 9
    {
      squares[..]
    }

    /** The session the fields hold. */
    function Abstract(): Session
      reads this, squares
      requires squares.Length == 9
    {
      Session(squares[..], xIsNext, scores)
    }

    constructor ()
      ensures Valid() && fresh(squares)
      ensures Abstract() == Initial
    {
      squares := new Cell[9](_ => Empty);
      xIsNext := true;
      scores := NoScores;
      new;
      assert squares[..] == EmptyBoard;
      EmptyBoardUndecided();
    }

    /**
     The derived `winnerInfo` and `draw` of the current board; a reported
     winner is the player who is not next.
     */
    method Status() returns (info: Option<WinnerInfo>, draw: bool)
      requires Valid()
      ensures info == Winner(Cells()) && draw == Drawn(Cells())
      ensures info.Some? ==> info.value.winner == MarkOf(!xIsNext) && !draw
    {
      info := CalculateWinner(squares);
      draw := info.None? && IsDraw(squares[..]);
    }

    /** The score effect, run on the board a move has just produced. */
    method UpdateScores()
      requires squares.Length == 9
      modifies this`scores
      ensures scores == ScoreAfter(old(scores), WinnerMark(Cells()), Drawn(Cells()))
    {
      var info := CalculateWinner(squares);
      if info.Some? {
        var w := info.value.winner;
        scores := if w == X then scores.(x := scores.x + 1) else scores.(o := scores.o + 1);
      } else if IsDraw(squares[..]) {
        scores := scores.(draws := scores.draws + 1);
      }
    }

    /**
     `handleSquareClick`, then the score effect it sets off. A refused click
     keeps the very same array; an accepted one installs a written copy.
     */
    method HandleSquareClick(idx: int)
      requires Valid() && 0 <= idx < 9
      modifies this
      ensures Valid()
      ensures Abstract() == Click(old(Abstract()), idx)
      ensures !old(MoveAllowed(Cells(), idx)) ==> squares == old(squares)
      ensures old(MoveAllowed(Cells(), idx)) ==> fresh(squares)
    {
      var info := CalculateWinner(squares);
      if squares[idx] != Empty || info.Some? {
        return;
      }
      ghost var before := Abstract();
      var next := Slice(squares);
      next[idx] := if xIsNext then Filled(X) else Filled(O);
      squares := next;
      xIsNext := !xIsNext;
      UpdateScores();
      ClickKeepsConsistent(before, idx);
    }

    /** `handleRestart`: a fresh empty board, the tally kept, the next starter chosen. */
    method HandleRestart()
      requires Valid()
      modifies this
      ensures Valid() && fresh(squares)
      ensures Abstract() == Restart(old(Abstract()))
    {
      var info := CalculateWinner(squares);
      ghost var before := Abstract();
      squares := new Cell[9](_ => Empty);
      xIsNext := if info.Some? then info.value.winner == O else !xIsNext;
      assert squares[..] == EmptyBoard;
      RestartKeepsConsistent(before);
    }
  }
}
