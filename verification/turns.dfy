/**
 * Turn flow: the player's move, the computer's reply, the end-of-game sweep
 * and the use of a held card.
 */
module Turns {
  import opened Wrappers
  import opened Ring
  import opened Board
  import opened Cards
  import opened Rules
  import opened Search

  /**
   * How an action ends: ignored with the state unchanged, play goes on, the
   * game is over and swept, or a move ran out of fuel.
   */
  datatype Outcome = Rejected(game: Game) | Ongoing(game: Game) | Finished(game: Game) | Stalled

  /** Every pit is empty: the state after the final sweep. */
  predicate Cleared(g: Game) {
    WellFormed(g) && forall k :: 0 <= k < Size ==> g.board[k] == 0
  }

  /** No stone is created or lost from `g` to `h`, no pit goes negative and no score goes down. */
  predicate Conserves(g: Game, h: Game) {
    NonNeg(g.board) ==>
      && NonNeg(h.board) && Total(h) == Total(g)
      && h.playerScore >= g.playerScore && h.computerScore >= g.computerScore
  }

  /** The end of the game: both rows are swept into the scores. */
  function Finish(h: Game): (r: Outcome)
    requires WellFormed(h)
    ensures r.Finished? && Cleared(r.game)
    ensures Conserves(h, r.game)
    ensures r.game.isReverseTurn == h.isReverseTurn && r.game.playerCard == h.playerCard
  {
    Finished(Sweep(h))
  }

  /**
   * `r` is where the computer playing pit `best` on `g` leads: the sweep when
   * it has no pit to play (-1); otherwise the move, then the sweep if the
   * board it leaves is over, else one more move for the player.
   */
  predicate Replies(g: Game, best: int, draw: int, fuel: nat, r: Outcome)
    requires WellFormed(g) && (best == -1 || 7 <= best <= 11)
  {
    if best == -1 then r == Finish(g)
    else match Move(g, best, draw, fuel)
      case None => r == Stalled
      case Some(h) =>
        if IsTerminal(h.board) then r == Finish(h)
        else r == Ongoing(h.(playerTurnLeft := h.playerTurnLeft + 1))
  }

  /** The pit the computer picks on `g`: the search's best move from the live board. */
  function Pick(g: Game): (m: int)
    requires WellFormed(g)
    ensures m == -1 || (7 <= m <= 11 && g.board[m] > 0)
  {
    BestMove(g.board, g.isReverseTurn, g.playerScore, g.computerScore, SearchDepth)
  }

  /**
   * `r` is where the computer's turn on `g` leads: it plays the pit the
   * search picks. There is exactly one such `best`, `Pick(g)`; naming it
   * through the quantifier keeps the search out of every caller's proof.
   */
  predicate ComputerReplies(g: Game, draw: int, fuel: nat, r: Outcome)
    requires WellFormed(g)
  {
    forall best :: best == Pick(g) ==> Replies(g, best, draw, fuel, r)
  }

  /**
   * The computer plays pit `best` (-1 when it has none to play), then either
   * the board is swept or the player gets one more move.
   */
  method Reply(g: Game, best: int, draw: int, fuel: nat) returns (r: Outcome)
    requires WellFormed(g)
    requires best == -1 || 7 <= best <= 11
    ensures Replies(g, best, draw, fuel, r)
    ensures !r.Rejected?
    ensures r.Finished? ==> Cleared(r.game)
    ensures r.Ongoing? ==>
      (WellFormed(r.game) && !IsTerminal(r.game.board) && r.game.playerTurnLeft == g.playerTurnLeft + 1)
    ensures r.Ongoing? && g.playerTurnLeft <= 0 ==> r.game.playerScore == g.playerScore
    ensures r != Stalled ==> Conserves(g, r.game) && r.game.isReverseTurn == g.isReverseTurn
    ensures r != Stalled && g.playerTurnLeft <= 0 ==> r.game.playerCard == g.playerCard
  {
    if best == -1 {
      return Finish(g);
    }
    match Move(g, best, draw, fuel)
    case None =>
      r := Stalled;
    case Some(h) =>
      if IsTerminal(h.board) {
        r := Finish(h);
      } else {
        r := Ongoing(h.(playerTurnLeft := h.playerTurnLeft + 1));
      }
  }

  /**
   * ComputerMove: pick a pit by search and play it; with no pit to play the
   * game ends at once.
   */
  method ComputerMove(g: Game, draw: int, fuel: nat) returns (r: Outcome)
    requires WellFormed(g)
    ensures ComputerReplies(g, draw, fuel, r)
    ensures !r.Rejected?
    ensures (forall j :: 7 <= j <= 11 ==> g.board[j] <= 0) ==> r == Finish(g)
    ensures r.Finished? ==> Cleared(r.game)
    ensures r.Ongoing? ==>
      (WellFormed(r.game) && !IsTerminal(r.game.board) && r.game.playerTurnLeft == g.playerTurnLeft + 1)
    ensures r.Ongoing? && g.playerTurnLeft <= 0 ==> r.game.playerScore == g.playerScore
    ensures r != Stalled ==> Conserves(g, r.game) && r.game.isReverseTurn == g.isReverseTurn
    ensures r != Stalled && g.playerTurnLeft <= 0 ==> r.game.playerCard == g.playerCard
  {
    var best := Pick(g);
    r := Reply(g, best, draw, fuel);
  }

  /**
   * `r` is how the player's turn ends once the move has left `h`: the sweep
   * if the game is over, else one move fewer for the player, and the
   * computer's turn once none is left.
   */
  predicate PlayerFollows(h: Game, draw: int, fuel: nat, r: Outcome)
    requires WellFormed(h)
  {
    var h' := h.(playerTurnLeft := h.playerTurnLeft - 1);
    if IsTerminal(h.board) then r == Finish(h)
    else if h'.playerTurnLeft > 0 then r == Ongoing(h')
    else ComputerReplies(h', draw, fuel, r)
  }

  /**
   * `r` is what playing `pit` on `g` leads to: refused, unchanged, exactly
   * when the pit is empty; otherwise the move, stalled when it runs out of
   * fuel, and then the rest of the player's turn.
   */
  predicate PlayerMoves(g: Game, pit: Pit, draw: int, fuel: nat, r: Outcome)
    requires WellFormed(g)
  {
    && (r.Rejected? <==> g.board[pit] == 0)
    && (r.Rejected? ==> r.game == g)
    && (g.board[pit] != 0 && Move(g, pit, draw, fuel) == None ==> r == Stalled)
    && (g.board[pit] != 0 && Move(g, pit, draw, fuel).Some? ==>
          PlayerFollows(Move(g, pit, draw, fuel).value, draw, fuel, r))
  }

  /**
   * PlayerMove: an empty pit is refused; otherwise play it, sweep if the game
   * is over, else use up one of the player's moves and let the computer
   * reply once none is left.
   */
  method PlayerMove(g: Game, pit: Pit, draw: int, fuel: nat) returns (r: Outcome)
    requires WellFormed(g)
    ensures PlayerMoves(g, pit, draw, fuel, r)
    ensures r.Finished? ==> Cleared(r.game)
    ensures r.Ongoing? ==>
      (WellFormed(r.game) && !IsTerminal(r.game.board)
       && r.game.playerTurnLeft == (if g.playerTurnLeft > 1 then g.playerTurnLeft - 1 else g.playerTurnLeft))
    ensures r != Stalled ==> Conserves(g, r.game) && r.game.isReverseTurn == g.isReverseTurn
    ensures r != Stalled ==>
      (r.game.playerCard == g.playerCard
       || (g.playerCard == None && g.playerTurnLeft > 0 && r.game.playerCard == Some(DrawCard(draw))))
  {
    if g.board[pit] == 0 {
      return Rejected(g);
    }
    var m := Move(g, pit, draw, fuel);
    if m == None {
      return Stalled;
    }
    var h := m.value;
    assert MoveEffect(g, h, draw);
    if IsTerminal(h.board) {
      r := Finish(h);
    } else {
      var h' := h.(playerTurnLeft := h.playerTurnLeft - 1);
      if h'.playerTurnLeft > 0 {
        r := Ongoing(h');
      } else {
        r := ComputerMove(h', draw, fuel);
      }
    }
    assert PlayerFollows(h, draw, fuel, r);
    assert PlayerMoves(g, pit, draw, fuel, r);
  }

  /** `r` is what a click on `pit` leads to: the player's move on it, if it is accepted. */
  predicate Selects(g: Game, pit: int, draw: int, fuel: nat, r: Outcome)
    requires WellFormed(g)
  {
    if 1 <= pit <= 5 && g.playerTurnLeft >= 1 then PlayerMoves(g, pit, draw, fuel, r)
    else r == Rejected(g)
  }

  /** OnCellClicked: only a pit of the player's row (1..5), and only while the player has a move left. */
  method SelectPit(g: Game, pit: int, draw: int, fuel: nat) returns (r: Outcome)
    requires WellFormed(g)
    ensures Selects(g, pit, draw, fuel, r)
    ensures r.Rejected? ==> r.game == g
    ensures r.Ongoing? ==> WellFormed(r.game) && r.game.playerTurnLeft >= 1
    ensures r.Finished? ==> Cleared(r.game)
    ensures r != Stalled ==> Conserves(g, r.game)
  {
    if 1 <= pit <= 5 && g.playerTurnLeft >= 1 {
      r := PlayerMove(g, pit, draw, fuel);
    } else {
      r := Rejected(g);
    }
  }

  /** The held card is used up once the action it triggered has ended. */
  function Discard(o: Outcome): (r: Outcome)
    ensures r.Rejected? == o.Rejected? && r.Ongoing? == o.Ongoing? && r.Finished? == o.Finished?
    ensures o == Stalled <==> r == Stalled
    ensures o != Stalled ==> r.game == o.game.(playerCard := None)
  {
    match o
    case Rejected(h) => Rejected(h.(playerCard := None))
    case Ongoing(h) => Ongoing(h.(playerCard := None))
    case Finished(h) => Finished(h.(playerCard := None))
    case Stalled => Stalled
  }

  /**
   * `r` is what using the held card on `g` leads to: refused, unchanged,
   * during the computer's turn or with no card; otherwise the card's effect,
   * the computer's reply for SkipTurn, with the card then discarded.
   */
  ghost predicate UsesCard(g: Game, draw: int, fuel: nat, r: Outcome)
    requires WellFormed(g)
  {
    if g.playerTurnLeft <= 0 || g.playerCard == None then r == Rejected(g)
    else match g.playerCard.value
      case ReverseTurn => r == Ongoing(g.(isReverseTurn := !g.isReverseTurn, playerCard := None))
      case ExtraTurn => r == Ongoing(g.(playerTurnLeft := g.playerTurnLeft + 1, playerCard := None))
      case SkipTurn => exists o :: ComputerReplies(g.(playerTurnLeft := 0), draw, fuel, o) && r == Discard(o)
  }

  /**
   * OnUseCardButtonClicked: refused during the computer's turn or with no
   * card held; ReverseTurn flips the direction of play, ExtraTurn adds a
   * move, SkipTurn gives up the player's moves so the computer moves at
   * once; then the card is gone.
   */
  method UseCard(g: Game, draw: int, fuel: nat) returns (r: Outcome)
    requires WellFormed(g)
    ensures UsesCard(g, draw, fuel, r)
    ensures r.Rejected? ==> r.game == g
    ensures r != Stalled && !r.Rejected? ==> r.game.playerCard == None
    ensures r != Stalled ==> Conserves(g, r.game)
    ensures r.Ongoing? ==> WellFormed(r.game) && r.game.playerTurnLeft >= 1
    ensures r.Finished? ==> Cleared(r.game)
    ensures g.playerTurnLeft > 0 && g.playerCard == Some(SkipTurn) && r != Stalled ==>
      && !r.Rejected? && r.game.isReverseTurn == g.isReverseTurn
      && (r.Ongoing? ==> r.game.playerTurnLeft == 1 && r.game.playerScore == g.playerScore)
  {
    if g.playerTurnLeft <= 0 {
      return Rejected(g);
    }
    match g.playerCard
    case None =>
      r := Rejected(g);
    case Some(ReverseTurn) =>
      r := Ongoing(g.(isReverseTurn := !g.isReverseTurn, playerCard := None));
    case Some(ExtraTurn) =>
      r := Ongoing(g.(playerTurnLeft := g.playerTurnLeft + 1, playerCard := None));
    case Some(SkipTurn) =>
      var o := ComputerMove(g.(playerTurnLeft := 0), draw, fuel);
      r := Discard(o);
      assert ComputerReplies(g.(playerTurnLeft := 0), draw, fuel, o);
  }

  /** What the player can do between moves. */
  datatype Action = Click(pit: int, draw: int) | PlayCard(draw: int)

  /** One action between moves: a click selects a pit, a card use plays the held card. */
  method Act(g: Game, a: Action, fuel: nat) returns (r: Outcome)
    requires WellFormed(g)
    ensures a.Click? ==> Selects(g, a.pit, a.draw, fuel, r)
    ensures a.PlayCard? ==> UsesCard(g, a.draw, fuel, r)
    ensures r.Rejected? ==> r.game == g
    ensures r.Ongoing? ==> WellFormed(r.game) && r.game.playerTurnLeft >= 1
    ensures r.Finished? ==> Cleared(r.game)
    ensures r != Stalled ==> Conserves(g, r.game)
  {
    match a
    case Click(pit, draw) =>
      r := SelectPit(g, pit, draw, fuel);
    case PlayCard(draw) =>
      r := UseCard(g, draw, fuel);
  }

  /**
   * A game played as a sequence of actions, refused ones included, until it
   * ends: stones are conserved, and whenever play goes on it is the player's
   * turn again.
   */
  method Run(g: Game, acts: seq<Action>, fuel: nat) returns (r: Outcome)
    requires WellFormed(g)
    ensures !r.Rejected?
    ensures r != Stalled ==> WellFormed(r.game) && Conserves(g, r.game)
    ensures r.Finished? ==> Cleared(r.game)
    ensures r.Ongoing? && g.playerTurnLeft >= 1 ==> r.game.playerTurnLeft >= 1
  {
    var cur := g;
    var i := 0;
    while i < |acts|
      invariant i <= |acts|
      invariant WellFormed(cur) && Conserves(g, cur)
      invariant g.playerTurnLeft >= 1 ==> cur.playerTurnLeft >= 1
    {
      var o := Act(cur, acts[i], fuel);
      match o {
        case Stalled =>
          return Stalled;
        case Finished(h) =>
          return Finished(h);
        case Rejected(h) =>
          cur := h;
        case Ongoing(h) =>
          cur := h;
      }
      i := i + 1;
    }
    r := Ongoing(cur);
  }
}
