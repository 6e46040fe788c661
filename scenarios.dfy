/**
 Two concrete games played from a new session: X taking the top row, and a
 game that fills the board with no three in a row. Every position of a
 game is named, one lemma checks each click against the winner scan on
 the position it produces, and the game lemma chains the clicks.
 */
module Scenarios {
  import opened Rules
  import opened Engine

  const E := Empty
  const XX := Filled(X)
  const OO := Filled(O)

  /** An accepted click, with the outcome of the new board named. */
  lemma AcceptedClick(s: Session, idx: int, after: Board, winner: Option<Mark>, draw: bool)
    requires 0 <= idx < 9 && MoveAllowed(s.board, idx)
    requires after == s.board[idx := Filled(MarkOf(s.xIsNext))]
    requires WinnerMark(after) == winner && Drawn(after) == draw
    ensures Click(s, idx) == Session(after, !s.xIsNext, ScoreAfter(s.scores, winner, draw))
  {
  }

  /** An accepted click that wins nothing and leaves the cell `free` empty. */
  lemma QuietClick(s: Session, idx: int, after: Board, free: int)
    requires 0 <= idx < 9 && MoveAllowed(s.board, idx)
    requires after == s.board[idx := Filled(MarkOf(s.xIsNext))]
    requires WinnerMark(after) == None && 0 <= free < 9 && after[free] == Empty
    ensures Click(s, idx) == Session(after, !s.xIsNext, s.scores)
  {
    assert !IsDraw(after);
    AcceptedClick(s, idx, after, None, false);
  }

  // The top-row game: clicks on 0, 3, 1, 4, 2.
  const TopRow1 := Session([XX, E, E, E, E, E, E, E, E], false, NoScores)
  const TopRow2 := Session([XX, E, E, OO, E, E, E, E, E], true, NoScores)
  const TopRow3 := Session([XX, XX, E, OO, E, E, E, E, E], false, NoScores)
  const TopRow4 := Session([XX, XX, E, OO, OO, E, E, E, E], true, NoScores)
  const TopRow5 := Session([XX, XX, XX, OO, OO, E, E, E, E], false, Scores(1, 0, 0))

  lemma TopRowMove1()
    ensures Click(Initial, 0) == TopRow1
  {
    EmptyBoardUndecided();
    assert WinnerMark(TopRow1.board) == None;
    QuietClick(Initial, 0, TopRow1.board, 1);
  }

  lemma TopRowMove2()
    ensures Click(TopRow1, 3) == TopRow2
  {
    assert WinnerMark(TopRow2.board) == None;
    QuietClick(TopRow1, 3, TopRow2.board, 1);
  }

  lemma TopRowMove3()
    ensures Click(TopRow2, 1) == TopRow3
  {
    assert WinnerMark(TopRow3.board) == None;
    QuietClick(TopRow2, 1, TopRow3.board, 2);
  }

  lemma TopRowMove4()
    ensures Click(TopRow3, 4) == TopRow4
  {
    assert WinnerMark(TopRow4.board) == None;
    QuietClick(TopRow3, 4, TopRow4.board, 2);
  }

  lemma TopRowMove5()
    ensures Click(TopRow4, 2) == TopRow5
    ensures Winner(TopRow5.board) == Some(WinnerInfo(X, [0, 1, 2]))
  {
    assert Winner(TopRow5.board) == Some(WinnerInfo(X, [0, 1, 2]));
    assert !Drawn(TopRow5.board);
    AcceptedClick(TopRow4, 2, TopRow5.board, Some(X), false);
  }

  /**
   Clicks on 0, 3, 1, 4, 2 from a new session give X the top row, reported
   as the line 0, 1, 2, and count one win for X.
   */
  lemma TopRowWin()
    ensures Click(Click(Click(Click(Click(Initial, 0), 3), 1), 4), 2) == TopRow5
    ensures Winner(TopRow5.board) == Some(WinnerInfo(X, [0, 1, 2]))
    ensures Click(Click(Click(Click(Click(Initial, 0), 3), 1), 4), 2).scores == Scores(1, 0, 0)
  {
    TopRowMove1();
    TopRowMove2();
    TopRowMove3();
    TopRowMove4();
    TopRowMove5();
  }

  /**
   After that win a click on a free cell is refused, and the restart
   clears the board, keeps the tally and hands the first move to O.
   */
  lemma TopRowAftermath()
    ensures Click(TopRow5, 5) == TopRow5
    ensures Restart(TopRow5) == Session(EmptyBoard, false, Scores(1, 0, 0))
  {
    assert WinnerMark(TopRow5.board) == Some(X);
  }

  // The drawn game: clicks on 0, 1, 2, 4, 3, 5, 7, 6, 8.
  const Draw2 := Session([XX, OO, E, E, E, E, E, E, E], true, NoScores)
  const Draw3 := Session([XX, OO, XX, E, E, E, E, E, E], false, NoScores)
  const Draw4 := Session([XX, OO, XX, E, OO, E, E, E, E], true, NoScores)
  const Draw5 := Session([XX, OO, XX, XX, OO, E, E, E, E], false, NoScores)
  const Draw6 := Session([XX, OO, XX, XX, OO, OO, E, E, E], true, NoScores)
  const Draw7 := Session([XX, OO, XX, XX, OO, OO, E, XX, E], false, NoScores)
  const Draw8 := Session([XX, OO, XX, XX, OO, OO, OO, XX, E], true, NoScores)
  const Draw9 := Session([XX, OO, XX, XX, OO, OO, OO, XX, XX], false, Scores(0, 0, 1))

  lemma DrawMove2()
    ensures Click(TopRow1, 1) == Draw2
  {
    assert WinnerMark(Draw2.board) == None;
    QuietClick(TopRow1, 1, Draw2.board, 2);
  }

  lemma DrawMove3()
    ensures Click(Draw2, 2) == Draw3
  {
    assert WinnerMark(Draw3.board) == None;
    QuietClick(Draw2, 2, Draw3.board, 3);
  }

  lemma DrawMove4()
    ensures Click(Draw3, 4) == Draw4
  {
    assert WinnerMark(Draw4.board) == None;
    QuietClick(Draw3, 4, Draw4.board, 3);
  }

  lemma DrawMove5()
    ensures Click(Draw4, 3) == Draw5
  {
    assert WinnerMark(Draw5.board) == None;
    QuietClick(Draw4, 3, Draw5.board, 5);
  }

  lemma DrawMove6()
    ensures Click(Draw5, 5) == Draw6
  {
    assert WinnerMark(Draw6.board) == None;
    QuietClick(Draw5, 5, Draw6.board, 6);
  }

  lemma DrawMove7()
    ensures Click(Draw6, 7) == Draw7
  {
    assert WinnerMark(Draw7.board) == None;
    QuietClick(Draw6, 7, Draw7.board, 6);
  }

  lemma DrawMove8()
    ensures Click(Draw7, 6) == Draw8
  {
    assert WinnerMark(Draw8.board) == None;
    QuietClick(Draw7, 6, Draw8.board, 8);
  }

  lemma DrawMove9()
    ensures Click(Draw8, 8) == Draw9
    ensures Drawn(Draw9.board)
  {
    assert WinnerMark(Draw9.board) == None;
    assert Drawn(Draw9.board);
    AcceptedClick(Draw8, 8, Draw9.board, None, true);
  }

  /**
   Clicks on 0, 1, 2, 4, 3, 5, 7, 6, 8 fill the board as X O X / X O O /
   O X X with no three in a row: the game is drawn and counted once, as a
   draw, and the restart gives the first move to X, who placed the last mark.
   */
  lemma FullBoardDraw()
    ensures Click(Click(Click(Click(Click(Click(Click(Click(Click(
      Initial, 0), 1), 2), 4), 3), 5), 7), 6), 8) == Draw9
    ensures Drawn(Draw9.board)
    ensures Click(Click(Click(Click(Click(Click(Click(Click(Click(
      Initial, 0), 1), 2), 4), 3), 5), 7), 6), 8).scores == Scores(0, 0, 1)
    ensures Restart(Draw9) == Session(EmptyBoard, true, Scores(0, 0, 1))
  {
    TopRowMove1();
    DrawMove2();
    DrawMove3();
    DrawMove4();
    DrawMove5();
    DrawMove6();
    DrawMove7();
    DrawMove8();
    DrawMove9();
  }

  /** A second click on the cell just played is refused: the board, turn and tally stay as they were. */
  lemma RepeatedClick()
    ensures Click(Click(Initial, 0), 0) == Click(Initial, 0)
    ensures Click(Initial, 0) == TopRow1
  {
    TopRowMove1();
  }
}
