/**
 * The live game and the move engine (moveFromCell): sow, then draw a card,
 * stop, resume from the next pit, or run the capture chain.
 */
module Rules {
  import opened Wrappers
  import opened Ring
  import opened Board
  import opened Cards

  /**
   * The live state: pit counts, both scores, how many moves the player has
   * left before the computer plays, the direction of play and the card held.
   */
  datatype Game = Game(
    board: seq<int>,
    playerScore: int,
    computerScore: int,
    playerTurnLeft: int,
    isReverseTurn: bool,
    playerCard: Option<CardType>)

  predicate WellFormed(g: Game) {
    |g.board| == Size
  }

  /** Stones on the board plus both scores; no move creates or destroys a stone. */
  function Total(g: Game): int {
    Sum(g.board) + g.playerScore + g.computerScore
  }

  /** The state RestartGame and InitializeBoard set up. */
  function Initial(): (g: Game)
    ensures WellFormed(g) && NonNeg(g.board)
    ensures forall i :: 0 <= i < Size ==> g.board[i] == if IsGranary(i) then 10 else 5
    ensures g.playerScore == 0 && g.computerScore == 0
    ensures Sum(g.board) == 70 && Total(g) == 70
    ensures !IsTerminal(g.board)
    ensures g.playerTurnLeft == 1 && !g.isReverseTurn && g.playerCard == None
  {
    var b := seq(Size, i requires 0 <= i < Size => if IsGranary(i) then 10 else 5);
    InitialSum(b);
    assert b[1] > 0 && b[7] > 0 && b[0] != 0;
    Game(b, 0, 0, 1, false, None)
  }

  lemma InitialSum(b: seq<int>)
    requires b == seq(Size, i requires 0 <= i < Size => if IsGranary(i) then 10 else 5)
    ensures Sum(b) == 70
  {
    var k := |b|;
    while k > 0
      invariant 0 <= k <= |b|
      invariant Sum(b[k..]) == 5 * (12 - k) + (if k <= 6 then 5 else 0) + (if k == 0 then 5 else 0)
    {
      k := k - 1;
      assert b[k..][1..] == b[k + 1..];
    }
    assert b[0..] == b;
  }

  /** Captured stones go to the player while it has moves left, otherwise to the computer. */
  function Credit(g: Game, n: int): (r: Game)
    ensures Total(r) == Total(g) + n
    ensures g.playerTurnLeft > 0 ==> r.computerScore == g.computerScore
    ensures g.playerTurnLeft <= 0 ==> r.playerScore == g.playerScore
    ensures r.board == g.board && r.playerTurnLeft == g.playerTurnLeft
    ensures r.isReverseTurn == g.isReverseTurn && r.playerCard == g.playerCard
  {
    if g.playerTurnLeft > 0 then g.(playerScore := g.playerScore + n)
    else g.(computerScore := g.computerScore + n)
  }

  /**
   * What any part of a move may change from `g` to `h`: pits and the
   * mover's score, plus the card slot when an empty one is filled by a draw.
   */
  predicate MoveEffect(g: Game, h: Game, draw: int) {
    && |h.board| == Size
    && h.playerTurnLeft == g.playerTurnLeft
    && h.isReverseTurn == g.isReverseTurn
    && (if g.playerTurnLeft > 0
        then h.computerScore == g.computerScore && h.playerScore >= g.playerScore
        else h.playerScore == g.playerScore && h.computerScore >= g.computerScore)
    && (h.playerCard == g.playerCard
        || (g.playerCard == None && g.playerTurnLeft > 0 && h.playerCard == Some(DrawCard(draw))))
    && (NonNeg(g.board) ==> NonNeg(h.board) && Total(h) == Total(g))
  }

  /** One round of the outer loop: the move stops, or resumes sowing from `from`. */
  datatype Step = Stop(game: Game) | Resume(game: Game, from: Pit)

  /**
   * The capture chain of a move, starting at the empty pit `at`: the stones
   * taken are credited to whoever is moving.
   */
  function Capture(g: Game, at: Pit): (r: Game)
    requires WellFormed(g)
    ensures WellFormed(r)
    ensures forall x :: 0 <= x < Size ==> r.board[x] == g.board[x] || r.board[x] == 0
    ensures Total(r) == Total(g)
    ensures if g.playerTurnLeft > 0
      then r.computerScore == g.computerScore && r.playerScore >= g.playerScore
      else r.playerScore == g.playerScore && r.computerScore >= g.computerScore
    ensures r.playerTurnLeft == g.playerTurnLeft && r.isReverseTurn == g.isReverseTurn
    ensures r.playerCard == g.playerCard
  {
    var c := CaptureChain(g.board, at, g.isReverseTurn);
    Credit(g.(board := c.board), c.taken)
  }

  /**
   * Which pits a capture empties: those of the chain's `Taken` set, every
   * other pit keeps its count, and the chain ends where no further capture
   * is possible.
   */
  lemma CaptureTakes(g: Game, at: Pit)
    requires WellFormed(g)
    ensures var rev := g.isReverseTurn;
      var c := CaptureChain(g.board, at, rev);
      var r := Capture(g, at);
      && (forall x :: 0 <= x < Size ==> r.board[x] == (if x in Taken(at, c.count, rev) then 0 else g.board[x]))
      && !(r.board[c.stop] == 0 && r.board[Next(c.stop, rev)] > 0)
  {
    CaptureChainTakes(g.board, at, g.isReverseTurn);
    CaptureChainStops(g.board, at, g.isReverseTurn);
  }

  /**
   * What happens once the stones are sown, `g` holding the sown board and
   * `last` the pit the last stone fell into; `exhausted` says every stone
   * was sown (moveFromCell's `stones == 0`, false only for a negative count).
   * A draw, a stop before a granary, a resume from a non-empty pit, or the
   * capture chain.
   */
  function Settle(g: Game, last: Pit, exhausted: bool, draw: int): (r: Step)
    requires WellFormed(g)
    ensures MoveEffect(g, r.game, draw)
    ensures r.Resume? ==> !IsGranary(r.from) && r.game.board[r.from] > 0
    ensures var next := Next(last, g.isReverseTurn);
      var draws := g.playerTurnLeft > 0 && exhausted && IsGranary(last) && g.playerCard == None;
      && (draws ==> r == Stop(g.(playerCard := Some(DrawCard(draw)))))
      && (!draws && IsGranary(next) ==> r == Stop(g))
      && (!draws && !IsGranary(next) && g.board[next] > 0 ==> r == Resume(g, next))
      && (!draws && !IsGranary(next) && g.board[next] <= 0 ==> r == Stop(Capture(g, next)))
  {
    var rev := g.isReverseTurn;
    if g.playerTurnLeft > 0 && exhausted && IsGranary(last) && g.playerCard == None then
      Stop(g.(playerCard := Some(DrawCard(draw))))
    else
      var next := Next(last, rev);
      if IsGranary(next) then Stop(g)
      else if g.board[next] > 0 then Resume(g, next)
      else Stop(Capture(g, next))
  }

  /** One round of moveFromCell: sow the start pit, then settle on the pit after the last one sown. */
  function Pass(g: Game, start: Pit, draw: int): (r: Step)
    requires WellFormed(g)
    ensures MoveEffect(g, r.game, draw)
    ensures r.Resume? ==> !IsGranary(r.from) && r.game.board[r.from] > 0
  {
    var s := Sow(g.board, start, g.isReverseTurn);
    Settle(g.(board := s.board), s.last, g.board[start] >= 0, draw)
  }

  /**
   * moveFromCell: repeat rounds until one stops, with no bound on their
   * number; `fuel` caps the number of rounds and None means it ran out.
   */
  function Move(g: Game, start: Pit, draw: int, fuel: nat): (r: Option<Game>)
    requires WellFormed(g)
    ensures r.Some? ==> WellFormed(r.value) && MoveEffect(g, r.value, draw)
    ensures fuel > 0 && Pass(g, start, draw).Stop? ==> r == Some(Pass(g, start, draw).game)
    decreases fuel
  {
    if fuel == 0 then None
    else match Pass(g, start, draw)
      case Stop(h) => Some(h)
      case Resume(h, from) => Move(h, from, draw, fuel - 1)
  }

  /**
   * The end-of-game settlement in closed form: the board is emptied, the
   * player's row 0..5 goes to the player and the computer's row 6..11 to the
   * computer.
   */
  function Sweep(g: Game): (r: Game)
    requires WellFormed(g)
    ensures WellFormed(r) && forall k :: 0 <= k < Size ==> r.board[k] == 0
    ensures Total(r) == Total(g)
    ensures NonNeg(g.board) ==> r.playerScore >= g.playerScore && r.computerScore >= g.computerScore
    ensures r.playerTurnLeft == g.playerTurnLeft && r.isReverseTurn == g.isReverseTurn
    ensures r.playerCard == g.playerCard
  {
    var empty := seq(Size, k => 0);
    SumSplit(g.board, 6);
    HalvesNonNeg(g.board);
    SumZero(empty);
    g.(board := empty,
       playerScore := g.playerScore + Sum(g.board[..6]),
       computerScore := g.computerScore + Sum(g.board[6..]))
  }

  /**
   * CalculateFinalScores: one pass over the twelve pits, each emptied into
   * its owner's score (0..5 the player, 6..11 the computer); the result is
   * the closed-form sweep.
   */
  method FinalScores(g: Game) returns (r: Game)
    requires WellFormed(g)
    ensures r == Sweep(g)
  {
    r := g;
    var i := 0;
    while i < Size
      invariant 0 <= i <= Size && |r.board| == Size
      invariant forall k :: 0 <= k < i ==> r.board[k] == 0
      invariant forall k :: i <= k < Size ==> r.board[k] == g.board[k]
      invariant r.playerScore == g.playerScore + Sum(g.board[..if i < 6 then i else 6])
      invariant r.playerScore + r.computerScore == g.playerScore + g.computerScore + Sum(g.board[..i])
      invariant r.playerTurnLeft == g.playerTurnLeft && r.isReverseTurn == g.isReverseTurn
      invariant r.playerCard == g.playerCard
    {
      SumExtend(g.board, i);
      if i <= 5 {
        r := r.(playerScore := r.playerScore + r.board[i]);
      } else {
        r := r.(computerScore := r.computerScore + r.board[i]);
      }
      r := r.(board := r.board[i := 0]);
      i := i + 1;
    }
    assert g.board[..Size] == g.board;
    SumSplit(g.board, 6);
    assert r.board == Sweep(g).board;
  }

  lemma HalvesNonNeg(b: seq<int>)
    requires |b| == Size
    ensures NonNeg(b) ==> Sum(b[..6]) >= 0 && Sum(b[6..]) >= 0
  {
    if NonNeg(b) {
      SliceAtMostSum(b, 0, 6);
      SliceAtMostSum(b, 6, Size);
      assert b[..6] == b[0..6];
      assert b[6..] == b[6..Size];
    }
  }
}
