/**
 * The computer's move choice: a depth-limited minimax with alpha-beta
 * pruning over snapshots of the board, scored by a heuristic.
 *
 * Two quirks of BoardManager's search are kept. A simulated move always
 * starts from the LIVE board (`live`), not from the snapshot it is given, so
 * the search tree never looks more than one move deep into the board; and a
 * simulated capture always goes to the snapshot's player score, whoever
 * moves.
 */
module Search {
  import opened Ints
  import opened Ring
  import opened Board

  /** The search snapshot: counts, both scores, and a turn flag the search never reads. */
  datatype SimState = SimState(board: seq<int>, playerScore: int, computerScore: int, isPlayerTurn: bool)

  /** The bounds of a 32-bit `int`, used as minus and plus infinity. */
  const MinInt := -2147483648
  const MaxInt := 2147483647

  /**
   * SimulateMove: sow pit `index` of the live board, then run the capture
   * chain from the pit after the last one sown. No granary stop, no resumed
   * sowing, no card.
   */
  function SimulateMove(live: seq<int>, rev: bool, s: SimState, index: Pit): (r: SimState)
    requires |live| == Size
    ensures |r.board| == Size
    ensures r.computerScore == s.computerScore && r.isPlayerTurn == s.isPlayerTurn
    ensures r.playerScore >= s.playerScore
    ensures NonNeg(live) ==> NonNeg(r.board) && Sum(r.board) + r.playerScore == Sum(live) + s.playerScore
  {
    var sown := Sow(live, index, rev);
    var c := CaptureChain(sown.board, Next(sown.last, rev), rev);
    SimState(c.board, s.playerScore + c.taken, s.computerScore, s.isPlayerTurn)
  }

  /**
   * Each pit of a simulated move holds what sowing the live board put there,
   * unless the capture chain from the pit after the last one sown emptied it.
   */
  lemma SimulateMoveSows(live: seq<int>, rev: bool, s: SimState, index: Pit)
    requires |live| == Size
    ensures var r := SimulateMove(live, rev, s, index);
      var at := Next(Walk(index, Stones(live[index]), rev), rev);
      var c := CaptureChain(Sow(live, index, rev).board, at, rev);
      forall x :: 0 <= x < Size ==>
        r.board[x]
        == if x in Taken(at, c.count, rev) then 0
           else (if x == index then 0 else live[x]) + Hits(index, x, Stones(live[index]), rev)
  {
    SowHits(live, index, rev);
    var sown := Sow(live, index, rev);
    CaptureChainTakes(sown.board, Next(sown.last, rev), rev);
  }

  /** Stones capturable from pit `i`: its neighbour is empty and the pit beyond holds stones. */
  function Potential(b: seq<int>, i: Pit, rev: bool): int
    requires |b| == Size
  {
    var next := Next(i, rev);
    var capture := Next(next, rev);
    if b[next] == 0 && b[capture] > 0 then b[capture] else 0
  }

  /** Capture potential summed over pits lo..hi-1: one row's loop of EvaluateBoard. */
  function RowPotential(b: seq<int>, lo: int, hi: int, rev: bool): int
    requires |b| == Size && 0 <= lo <= hi <= Size
    decreases hi - lo
  {
    if lo == hi then 0 else Potential(b, lo, rev) + RowPotential(b, lo + 1, hi, rev)
  }

  /**
   * EvaluateBoard: the computer's score, stones and capture potential
   * minus the player's.
   */
  function Evaluate(s: SimState, rev: bool): int
    requires |s.board| == Size
  {
    var b := s.board;
    (s.computerScore + Sum(b[7..12]) + RowPotential(b, 7, 12, rev))
    - (s.playerScore + Sum(b[1..6]) + RowPotential(b, 1, 6, rev))
  }

  /** The pit facing `k` across the board, six steps away. */
  function Opposite(k: Pit): Pit {
    if k < 6 then k + 6 else k - 6
  }

  lemma OppositeNext(k: Pit, rev: bool)
    ensures Opposite(Next(k, rev)) == Next(Opposite(k), rev)
  {
  }

  /** The snapshot seen from the other side: rows swapped (pit k becomes pit k + 6) and scores swapped. */
  function Mirror(s: SimState): (m: SimState)
    requires |s.board| == Size
  {
    SimState(seq(Size, k requires 0 <= k < Size => s.board[Opposite(k)]),
             s.computerScore, s.playerScore, !s.isPlayerTurn)
  }

  lemma PotentialMirror(s: SimState, i: Pit, rev: bool)
    requires |s.board| == Size
    ensures Potential(Mirror(s).board, i, rev) == Potential(s.board, Opposite(i), rev)
  {
    OppositeNext(i, rev);
    OppositeNext(Next(i, rev), rev);
  }

  /** A run of pits of the player's row on the mirrored board has the potential of the facing run. */
  lemma {:induction false} RowPotentialMirror(s: SimState, lo: int, hi: int, rev: bool)
    requires |s.board| == Size && 0 <= lo <= hi <= 6
    ensures RowPotential(Mirror(s).board, lo, hi, rev) == RowPotential(s.board, lo + 6, hi + 6, rev)
    ensures RowPotential(Mirror(s).board, lo + 6, hi + 6, rev) == RowPotential(s.board, lo, hi, rev)
    decreases hi - lo
  {
    if lo < hi {
      PotentialMirror(s, lo, rev);
      PotentialMirror(s, lo + 6, rev);
      RowPotentialMirror(s, lo + 1, hi, rev);
    }
  }

  /** The heuristic is zero-sum: seen from the other side, it changes sign. */
  lemma EvaluateMirror(s: SimState, rev: bool)
    requires |s.board| == Size
    ensures Evaluate(Mirror(s), rev) == -Evaluate(s, rev)
  {
    var m := Mirror(s).board;
    assert m[7..12] == s.board[1..6];
    assert m[1..6] == s.board[7..12];
    RowPotentialMirror(s, 1, 6, rev);
  }

  /** Each pit's capture potential is between 0 and the stones on the board, so a run's is at most that many times. */
  lemma {:induction false} RowPotentialBounds(b: seq<int>, lo: int, hi: int, rev: bool)
    requires |b| == Size && NonNeg(b) && 0 <= lo <= hi <= Size
    ensures 0 <= RowPotential(b, lo, hi, rev) <= (hi - lo) * Sum(b)
    decreases hi - lo
  {
    if lo < hi {
      var n := Sum(b);
      ElementAtMostSum(b, Next(Next(lo, rev), rev));
      assert 0 <= Potential(b, lo, rev) <= n;
      RowPotentialBounds(b, lo + 1, hi, rev);
      assert (hi - lo) * n == n + (hi - (lo + 1)) * n;
    }
  }

  /** Each side's stones plus capture potential lie between 0 and six times the stones on the board. */
  lemma SideBounds(b: seq<int>, lo: int, rev: bool)
    requires |b| == Size && NonNeg(b) && 0 < lo && lo + 5 <= Size
    ensures 0 <= Sum(b[lo..lo + 5]) + RowPotential(b, lo, lo + 5, rev) <= 6 * Sum(b)
  {
    SliceAtMostSum(b, lo, lo + 5);
    RowPotentialBounds(b, lo, lo + 5, rev);
  }

  lemma EvaluateBounds(s: SimState, rev: bool)
    requires |s.board| == Size && NonNeg(s.board)
    ensures s.computerScore - s.playerScore - 6 * Sum(s.board) <= Evaluate(s, rev)
    ensures Evaluate(s, rev) <= s.computerScore - s.playerScore + 6 * Sum(s.board)
  {
    SideBounds(s.board, 7, rev);
    SideBounds(s.board, 1, rev);
  }

  /**
   * Minimax with alpha-beta pruning. A leaf (depth 0, or a snapshot where
   * the game would end) is scored by Evaluate; the computer maximises over
   * pits 7..11, the player minimises over pits 1..5.
   */
  function Minimax(live: seq<int>, rev: bool, s: SimState, depth: nat, maximizing: bool, alpha: int, beta: int): int
    requires |live| == Size && |s.board| == Size
    decreases depth, 1, 0
  {
    if depth == 0 || IsTerminal(s.board) then Evaluate(s, rev)
    else if maximizing then MaxOver(live, rev, s, depth, 7, alpha, beta, MinInt)
    else MinOver(live, rev, s, depth, 1, alpha, beta, MaxInt)
  }

  /** The maximising loop from pit i on, with the best value so far; it breaks once beta <= alpha. */
  function MaxOver(live: seq<int>, rev: bool, s: SimState, depth: nat, i: int, alpha: int, beta: int, best: int): int
    requires |live| == Size && |s.board| == Size && depth >= 1 && 7 <= i <= 12
    decreases depth, 0, 12 - i
  {
    if i > 11 then best
    else if s.board[i] > 0 then
      var e := Minimax(live, rev, SimulateMove(live, rev, s, i), depth - 1, false, alpha, beta);
      var alpha' := Max(alpha, e);
      if beta <= alpha' then Max(best, e)
      else MaxOver(live, rev, s, depth, i + 1, alpha', beta, Max(best, e))
    else MaxOver(live, rev, s, depth, i + 1, alpha, beta, best)
  }

  /** The minimising loop from pit i on, with the best value so far; it breaks once beta <= alpha. */
  function MinOver(live: seq<int>, rev: bool, s: SimState, depth: nat, i: int, alpha: int, beta: int, best: int): int
    requires |live| == Size && |s.board| == Size && depth >= 1 && 1 <= i <= 6
    decreases depth, 0, 6 - i
  {
    if i > 5 then best
    else if s.board[i] > 0 then
      var e := Minimax(live, rev, SimulateMove(live, rev, s, i), depth - 1, true, alpha, beta);
      var beta' := Min(beta, e);
      if beta' <= alpha then Min(best, e)
      else MinOver(live, rev, s, depth, i + 1, alpha, beta', Min(best, e))
    else MinOver(live, rev, s, depth, i + 1, alpha, beta, best)
  }

  /** Plain minimax over the same tree, without pruning: the value alpha-beta must reproduce. */
  function Value(live: seq<int>, rev: bool, s: SimState, depth: nat, maximizing: bool): int
    requires |live| == Size && |s.board| == Size
    decreases depth, 1, 0
  {
    if depth == 0 || IsTerminal(s.board) then Evaluate(s, rev)
    else if maximizing then MaxAll(live, rev, s, depth, 7, MinInt)
    else MinAll(live, rev, s, depth, 1, MaxInt)
  }

  function MaxAll(live: seq<int>, rev: bool, s: SimState, depth: nat, i: int, best: int): int
    requires |live| == Size && |s.board| == Size && depth >= 1 && 7 <= i <= 12
    decreases depth, 0, 12 - i
  {
    if i > 11 then best
    else if s.board[i] > 0 then
      MaxAll(live, rev, s, depth, i + 1, Max(best, Value(live, rev, SimulateMove(live, rev, s, i), depth - 1, false)))
    else MaxAll(live, rev, s, depth, i + 1, best)
  }

  function MinAll(live: seq<int>, rev: bool, s: SimState, depth: nat, i: int, best: int): int
    requires |live| == Size && |s.board| == Size && depth >= 1 && 1 <= i <= 6
    decreases depth, 0, 6 - i
  {
    if i > 5 then best
    else if s.board[i] > 0 then
      MinAll(live, rev, s, depth, i + 1, Min(best, Value(live, rev, SimulateMove(live, rev, s, i), depth - 1, true)))
    else MinAll(live, rev, s, depth, i + 1, best)
  }

  lemma {:induction false} MaxAllAtLeast(live: seq<int>, rev: bool, s: SimState, depth: nat, i: int, best: int)
    requires |live| == Size && |s.board| == Size && depth >= 1 && 7 <= i <= 12
    ensures MaxAll(live, rev, s, depth, i, best) >= best
    decreases 12 - i
  {
    if i <= 11 {
      var v := if s.board[i] > 0 then Value(live, rev, SimulateMove(live, rev, s, i), depth - 1, false) else best;
      MaxAllAtLeast(live, rev, s, depth, i + 1, Max(best, v));
    }
  }

  lemma {:induction false} MinAllAtMost(live: seq<int>, rev: bool, s: SimState, depth: nat, i: int, best: int)
    requires |live| == Size && |s.board| == Size && depth >= 1 && 1 <= i <= 6
    ensures MinAll(live, rev, s, depth, i, best) <= best
    decreases 6 - i
  {
    if i <= 5 {
      var v := if s.board[i] > 0 then Value(live, rev, SimulateMove(live, rev, s, i), depth - 1, true) else best;
      MinAllAtMost(live, rev, s, depth, i + 1, Min(best, v));
    }
  }

  /**
   * What a fail-soft alpha-beta search promises about its result r against
   * the true value v in the window (alpha, beta).
   */
  predicate Bracket(r: int, v: int, alpha: int, beta: int) {
    && (v <= alpha ==> r <= alpha)
    && (v >= beta ==> r >= beta)
    && (alpha < v < beta ==> r == v)
  }

  /**
   * What the maximising loop keeps against the unpruned one, from the
   * initial floor alpha0: the floor raised by the best value so far, and the
   * two best values agreeing once either rises above alpha0.
   */
  predicate MaxKeeps(alpha0: int, alpha: int, beta: int, best: int, bestP: int) {
    && MinInt <= alpha0 <= alpha < beta <= MaxInt
    && alpha == Max(alpha0, best)
    && (bestP <= alpha0 ==> best <= alpha0)
    && (alpha0 < bestP ==> best == bestP)
    && bestP < beta
  }

  /** The same for the minimising loop, from the initial ceiling beta0. */
  predicate MinKeeps(beta0: int, alpha: int, beta: int, best: int, bestP: int) {
    && MinInt <= alpha < beta <= beta0 <= MaxInt
    && beta == Min(beta0, best)
    && (bestP >= beta0 ==> best >= beta0)
    && (bestP < beta0 ==> best == bestP)
    && bestP > alpha
  }

  /**
   * The window arithmetic of one maximising step, the child's result e
   * bracketing its value v: a cut brackets whatever the unpruned loop goes
   * on to find, and going on keeps the loop's invariant.
   */
  lemma MaxCutWindow(alpha0: int, alpha: int, beta: int, best: int, bestP: int, e: int, v: int, rest: int)
    requires MaxKeeps(alpha0, alpha, beta, best, bestP)
    requires Bracket(e, v, alpha, beta) && beta <= Max(alpha, e) && rest >= Max(bestP, v)
    ensures Bracket(Max(best, e), rest, alpha0, beta)
  {
  }

  lemma MaxGoWindow(alpha0: int, alpha: int, beta: int, best: int, bestP: int, e: int, v: int)
    requires MaxKeeps(alpha0, alpha, beta, best, bestP)
    requires Bracket(e, v, alpha, beta) && Max(alpha, e) < beta
    ensures MaxKeeps(alpha0, Max(alpha, e), beta, Max(best, e), Max(bestP, v))
  {
  }

  /** The same for one minimising step. */
  lemma MinCutWindow(beta0: int, alpha: int, beta: int, best: int, bestP: int, e: int, v: int, rest: int)
    requires MinKeeps(beta0, alpha, beta, best, bestP)
    requires Bracket(e, v, alpha, beta) && Min(beta, e) <= alpha && rest <= Min(bestP, v)
    ensures Bracket(Min(best, e), rest, alpha, beta0)
  {
  }

  lemma MinGoWindow(beta0: int, alpha: int, beta: int, best: int, bestP: int, e: int, v: int)
    requires MinKeeps(beta0, alpha, beta, best, bestP)
    requires Bracket(e, v, alpha, beta) && alpha < Min(beta, e)
    ensures MinKeeps(beta0, alpha, Min(beta, e), Min(best, e), Min(bestP, v))
  {
  }

  /**
   * Alpha-beta pruning is sound: inside the window it returns the plain
   * minimax value, and outside it it returns a value on the same side.
   */
  lemma {:induction false} AlphaBetaSound(live: seq<int>, rev: bool, s: SimState, depth: nat, maximizing: bool, alpha: int, beta: int)
    requires |live| == Size && |s.board| == Size
    requires MinInt <= alpha < beta <= MaxInt
    ensures Bracket(Minimax(live, rev, s, depth, maximizing, alpha, beta), Value(live, rev, s, depth, maximizing), alpha, beta)
    decreases depth, 1, 0, 0
  {
    if depth == 0 || IsTerminal(s.board) {
    } else if maximizing {
      MaxOverSound(live, rev, s, depth, 7, alpha, alpha, beta, MinInt, MinInt);
    } else {
      MinOverSound(live, rev, s, depth, 1, beta, alpha, beta, MaxInt, MaxInt);
    }
  }

  lemma {:induction false} MaxOverSound(live: seq<int>, rev: bool, s: SimState, depth: nat, i: int,
                                         alpha0: int, alpha: int, beta: int, best: int, bestP: int)
    requires |live| == Size && |s.board| == Size && depth >= 1 && 7 <= i <= 12
    requires MaxKeeps(alpha0, alpha, beta, best, bestP)
    ensures Bracket(MaxOver(live, rev, s, depth, i, alpha, beta, best), MaxAll(live, rev, s, depth, i, bestP), alpha0, beta)
    decreases depth, 0, 12 - i, 1
  {
    if i <= 11 {
      if s.board[i] > 0 {
        if beta <= Max(alpha, Minimax(live, rev, SimulateMove(live, rev, s, i), depth - 1, false, alpha, beta)) {
          MaxOverCutSound(live, rev, s, depth, i, alpha0, alpha, beta, best, bestP);
        } else {
          MaxOverGoSound(live, rev, s, depth, i, alpha0, alpha, beta, best, bestP);
        }
      } else {
        MaxOverSound(live, rev, s, depth, i + 1, alpha0, alpha, beta, best, bestP);
      }
    }
  }

  /** The loop breaks at pit i: the window closed. */
  lemma {:induction false} MaxOverCutSound(live: seq<int>, rev: bool, s: SimState, depth: nat, i: int,
                                         alpha0: int, alpha: int, beta: int, best: int, bestP: int)
    requires |live| == Size && |s.board| == Size && depth >= 1 && 7 <= i <= 11 && s.board[i] > 0
    requires beta <= Max(alpha, Minimax(live, rev, SimulateMove(live, rev, s, i), depth - 1, false, alpha, beta))
    requires MaxKeeps(alpha0, alpha, beta, best, bestP)
    ensures Bracket(MaxOver(live, rev, s, depth, i, alpha, beta, best), MaxAll(live, rev, s, depth, i, bestP), alpha0, beta)
    decreases depth, 0, 12 - i, 0
  {
    var child := SimulateMove(live, rev, s, i);
    AlphaBetaSound(live, rev, child, depth - 1, false, alpha, beta);
    var e := Minimax(live, rev, child, depth - 1, false, alpha, beta);
    var v := Value(live, rev, child, depth - 1, false);
    MaxCutStep(live, rev, s, depth, i, alpha, beta, best, bestP);
    MaxCutWindow(alpha0, alpha, beta, best, bestP, e, v, MaxAll(live, rev, s, depth, i, bestP));
  }

  /** The loop goes on past pit i with the narrowed window. */
  lemma {:induction false} MaxOverGoSound(live: seq<int>, rev: bool, s: SimState, depth: nat, i: int,
                                         alpha0: int, alpha: int, beta: int, best: int, bestP: int)
    requires |live| == Size && |s.board| == Size && depth >= 1 && 7 <= i <= 11 && s.board[i] > 0
    requires Max(alpha, Minimax(live, rev, SimulateMove(live, rev, s, i), depth - 1, false, alpha, beta)) < beta
    requires MaxKeeps(alpha0, alpha, beta, best, bestP)
    ensures Bracket(MaxOver(live, rev, s, depth, i, alpha, beta, best), MaxAll(live, rev, s, depth, i, bestP), alpha0, beta)
    decreases depth, 0, 12 - i, 0
  {
    var child := SimulateMove(live, rev, s, i);
    AlphaBetaSound(live, rev, child, depth - 1, false, alpha, beta);
    var e := Minimax(live, rev, child, depth - 1, false, alpha, beta);
    var v := Value(live, rev, child, depth - 1, false);
    MaxGoStep(live, rev, s, depth, i, alpha, beta, best, bestP);
    MaxGoWindow(alpha0, alpha, beta, best, bestP, e, v);
    MaxOverSound(live, rev, s, depth, i + 1, alpha0, Max(alpha, e), beta, Max(best, e), Max(bestP, v));
  }

  /** A cut at the occupied pit i: the pruned loop stops there, the unpruned one ends no lower. */
  lemma MaxCutStep(live: seq<int>, rev: bool, s: SimState, depth: nat, i: int, alpha: int, beta: int, best: int, bestP: int)
    requires |live| == Size && |s.board| == Size && depth >= 1 && 7 <= i <= 11 && s.board[i] > 0
    ensures var child := SimulateMove(live, rev, s, i);
      var e := Minimax(live, rev, child, depth - 1, false, alpha, beta);
      && (beta <= Max(alpha, e) ==> MaxOver(live, rev, s, depth, i, alpha, beta, best) == Max(best, e))
      && MaxAll(live, rev, s, depth, i, bestP) >= Max(bestP, Value(live, rev, child, depth - 1, false))
  {
    MaxAllAtLeast(live, rev, s, depth, i + 1, Max(bestP, Value(live, rev, SimulateMove(live, rev, s, i), depth - 1, false)));
  }

  /** No cut at the occupied pit i: both loops go on to pit i + 1. */
  lemma MaxGoStep(live: seq<int>, rev: bool, s: SimState, depth: nat, i: int, alpha: int, beta: int, best: int, bestP: int)
    requires |live| == Size && |s.board| == Size && depth >= 1 && 7 <= i <= 11 && s.board[i] > 0
    ensures var child := SimulateMove(live, rev, s, i);
      var e := Minimax(live, rev, child, depth - 1, false, alpha, beta);
      && MaxAll(live, rev, s, depth, i, bestP) == MaxAll(live, rev, s, depth, i + 1, Max(bestP, Value(live, rev, child, depth - 1, false)))
      && (Max(alpha, e) < beta ==> MaxOver(live, rev, s, depth, i, alpha, beta, best)
                                   == MaxOver(live, rev, s, depth, i + 1, Max(alpha, e), beta, Max(best, e)))
  {
  }

  lemma {:induction false} MinOverSound(live: seq<int>, rev: bool, s: SimState, depth: nat, i: int,
                                         beta0: int, alpha: int, beta: int, best: int, bestP: int)
    requires |live| == Size && |s.board| == Size && depth >= 1 && 1 <= i <= 6
    requires MinKeeps(beta0, alpha, beta, best, bestP)
    ensures Bracket(MinOver(live, rev, s, depth, i, alpha, beta, best), MinAll(live, rev, s, depth, i, bestP), alpha, beta0)
    decreases depth, 0, 6 - i, 1
  {
    if i <= 5 {
      if s.board[i] > 0 {
        if Min(beta, Minimax(live, rev, SimulateMove(live, rev, s, i), depth - 1, true, alpha, beta)) <= alpha {
          MinOverCutSound(live, rev, s, depth, i, beta0, alpha, beta, best, bestP);
        } else {
          MinOverGoSound(live, rev, s, depth, i, beta0, alpha, beta, best, bestP);
        }
      } else {
        MinOverSound(live, rev, s, depth, i + 1, beta0, alpha, beta, best, bestP);
      }
    }
  }

  /** The loop breaks at pit i: the window closed. */
  lemma {:induction false} MinOverCutSound(live: seq<int>, rev: bool, s: SimState, depth: nat, i: int,
                                         beta0: int, alpha: int, beta: int, best: int, bestP: int)
    requires |live| == Size && |s.board| == Size && depth >= 1 && 1 <= i <= 5 && s.board[i] > 0
    requires Min(beta, Minimax(live, rev, SimulateMove(live, rev, s, i), depth - 1, true, alpha, beta)) <= alpha
    requires MinKeeps(beta0, alpha, beta, best, bestP)
    ensures Bracket(MinOver(live, rev, s, depth, i, alpha, beta, best), MinAll(live, rev, s, depth, i, bestP), alpha, beta0)
    decreases depth, 0, 6 - i, 0
  {
    var child := SimulateMove(live, rev, s, i);
    AlphaBetaSound(live, rev, child, depth - 1, true, alpha, beta);
    var e := Minimax(live, rev, child, depth - 1, true, alpha, beta);
    var v := Value(live, rev, child, depth - 1, true);
    MinCutStep(live, rev, s, depth, i, alpha, beta, best, bestP);
    MinCutWindow(beta0, alpha, beta, best, bestP, e, v, MinAll(live, rev, s, depth, i, bestP));
  }

  /** The loop goes on past pit i with the narrowed window. */
  lemma {:induction false} MinOverGoSound(live: seq<int>, rev: bool, s: SimState, depth: nat, i: int,
                                         beta0: int, alpha: int, beta: int, best: int, bestP: int)
    requires |live| == Size && |s.board| == Size && depth >= 1 && 1 <= i <= 5 && s.board[i] > 0
    requires alpha < Min(beta, Minimax(live, rev, SimulateMove(live, rev, s, i), depth - 1, true, alpha, beta))
    requires MinKeeps(beta0, alpha, beta, best, bestP)
    ensures Bracket(MinOver(live, rev, s, depth, i, alpha, beta, best), MinAll(live, rev, s, depth, i, bestP), alpha, beta0)
    decreases depth, 0, 6 - i, 0
  {
    var child := SimulateMove(live, rev, s, i);
    AlphaBetaSound(live, rev, child, depth - 1, true, alpha, beta);
    var e := Minimax(live, rev, child, depth - 1, true, alpha, beta);
    var v := Value(live, rev, child, depth - 1, true);
    MinGoStep(live, rev, s, depth, i, alpha, beta, best, bestP);
    MinGoWindow(beta0, alpha, beta, best, bestP, e, v);
    MinOverSound(live, rev, s, depth, i + 1, beta0, alpha, Min(beta, e), Min(best, e), Min(bestP, v));
  }

  /** A cut at the occupied pit i: the pruned loop stops there, the unpruned one ends no higher. */
  lemma MinCutStep(live: seq<int>, rev: bool, s: SimState, depth: nat, i: int, alpha: int, beta: int, best: int, bestP: int)
    requires |live| == Size && |s.board| == Size && depth >= 1 && 1 <= i <= 5 && s.board[i] > 0
    ensures var child := SimulateMove(live, rev, s, i);
      var e := Minimax(live, rev, child, depth - 1, true, alpha, beta);
      && (Min(beta, e) <= alpha ==> MinOver(live, rev, s, depth, i, alpha, beta, best) == Min(best, e))
      && MinAll(live, rev, s, depth, i, bestP) <= Min(bestP, Value(live, rev, child, depth - 1, true))
  {
    MinAllAtMost(live, rev, s, depth, i + 1, Min(bestP, Value(live, rev, SimulateMove(live, rev, s, i), depth - 1, true)));
  }

  /** No cut at the occupied pit i: both loops go on to pit i + 1. */
  lemma MinGoStep(live: seq<int>, rev: bool, s: SimState, depth: nat, i: int, alpha: int, beta: int, best: int, bestP: int)
    requires |live| == Size && |s.board| == Size && depth >= 1 && 1 <= i <= 5 && s.board[i] > 0
    ensures var child := SimulateMove(live, rev, s, i);
      var e := Minimax(live, rev, child, depth - 1, true, alpha, beta);
      && MinAll(live, rev, s, depth, i, bestP) == MinAll(live, rev, s, depth, i + 1, Min(bestP, Value(live, rev, child, depth - 1, true)))
      && (alpha < Min(beta, e) ==> MinOver(live, rev, s, depth, i, alpha, beta, best)
                                   == MinOver(live, rev, s, depth, i + 1, alpha, Min(beta, e), Min(best, e)))
  {
  }

  /** The stones a child snapshot holds, plus what it captured, are the live board's. */
  lemma ChildBounds(live: seq<int>, rev: bool, s: SimState, i: Pit)
    requires |live| == Size && NonNeg(live)
    ensures var c := SimulateMove(live, rev, s, i);
      && NonNeg(c.board) && Sum(c.board) <= Sum(live)
      && s.playerScore <= c.playerScore <= s.playerScore + Sum(live)
  {
    SumNonNeg(SimulateMove(live, rev, s, i).board);
  }

  /**
   * Every value of the search from snapshot `s` lies within fixed bounds:
   * each simulated move adds at most the live board's stones to the player
   * score, and the heuristic moves at most six times the stones away from
   * the score difference.
   */
  lemma {:induction false} ValueBounds(live: seq<int>, rev: bool, s: SimState, depth: nat, maximizing: bool, P: int)
    requires |live| == Size && |s.board| == Size
    requires NonNeg(live) && NonNeg(s.board) && Sum(s.board) <= Sum(live)
    requires 0 <= s.playerScore && s.playerScore + depth * Sum(live) <= P
    requires 0 <= s.computerScore
    ensures -(P + 6 * Sum(live)) <= Value(live, rev, s, depth, maximizing) <= s.computerScore + 6 * Sum(live)
    decreases depth, 1, 0, 0
  {
    SumNonNeg(live);
    assert depth * Sum(live) >= 0;
    if depth == 0 || IsTerminal(s.board) {
      EvaluateBounds(s, rev);
    } else if maximizing {
      MaxAllBounds(live, rev, s, depth, 7, MinInt, P);
    } else {
      MinAllBounds(live, rev, s, depth, 1, MaxInt, P);
    }
  }

  lemma {:induction false} MaxAllBounds(live: seq<int>, rev: bool, s: SimState, depth: nat, i: int, best: int, P: int)
    requires |live| == Size && |s.board| == Size && depth >= 1 && 7 <= i <= 12
    requires NonNeg(live) && NonNeg(s.board) && Sum(s.board) <= Sum(live)
    requires 0 <= s.playerScore && s.playerScore + depth * Sum(live) <= P
    requires 0 <= s.computerScore
    requires best <= s.computerScore + 6 * Sum(live)
    requires best >= -(P + 6 * Sum(live)) || exists j :: i <= j <= 11 && s.board[j] > 0
    ensures -(P + 6 * Sum(live)) <= MaxAll(live, rev, s, depth, i, best) <= s.computerScore + 6 * Sum(live)
    decreases depth, 0, 12 - i, 1
  {
    if i <= 11 {
      if s.board[i] > 0 {
        MaxAllStepBounds(live, rev, s, depth, i, best, P);
      } else {
        MaxAllBounds(live, rev, s, depth, i + 1, best, P);
      }
    }
  }

  lemma {:induction false} MaxAllStepBounds(live: seq<int>, rev: bool, s: SimState, depth: nat, i: int, best: int, P: int)
    requires |live| == Size && |s.board| == Size && depth >= 1 && 7 <= i <= 11
    requires s.board[i] > 0
    requires NonNeg(live) && NonNeg(s.board) && Sum(s.board) <= Sum(live)
    requires 0 <= s.playerScore && s.playerScore + depth * Sum(live) <= P
    requires 0 <= s.computerScore
    requires best <= s.computerScore + 6 * Sum(live)
    requires best >= -(P + 6 * Sum(live)) || exists j :: i <= j <= 11 && s.board[j] > 0
    ensures -(P + 6 * Sum(live)) <= MaxAll(live, rev, s, depth, i, best) <= s.computerScore + 6 * Sum(live)
    decreases depth, 0, 12 - i, 0
  {
    var child := SimulateMove(live, rev, s, i);
    ChildBounds(live, rev, s, i);
    assert (depth - 1) * Sum(live) + Sum(live) == depth * Sum(live);
    ValueBounds(live, rev, child, depth - 1, false, P);
    MaxAllBounds(live, rev, s, depth, i + 1, Max(best, Value(live, rev, child, depth - 1, false)), P);
  }

  lemma {:induction false} MinAllBounds(live: seq<int>, rev: bool, s: SimState, depth: nat, i: int, best: int, P: int)
    requires |live| == Size && |s.board| == Size && depth >= 1 && 1 <= i <= 6
    requires NonNeg(live) && NonNeg(s.board) && Sum(s.board) <= Sum(live)
    requires 0 <= s.playerScore && s.playerScore + depth * Sum(live) <= P
    requires 0 <= s.computerScore
    requires best >= -(P + 6 * Sum(live))
    requires best <= s.computerScore + 6 * Sum(live) || exists j :: i <= j <= 5 && s.board[j] > 0
    ensures -(P + 6 * Sum(live)) <= MinAll(live, rev, s, depth, i, best) <= s.computerScore + 6 * Sum(live)
    decreases depth, 0, 6 - i, 1
  {
    if i <= 5 {
      if s.board[i] > 0 {
        MinAllStepBounds(live, rev, s, depth, i, best, P);
      } else {
        MinAllBounds(live, rev, s, depth, i + 1, best, P);
      }
    }
  }

  lemma {:induction false} MinAllStepBounds(live: seq<int>, rev: bool, s: SimState, depth: nat, i: int, best: int, P: int)
    requires |live| == Size && |s.board| == Size && depth >= 1 && 1 <= i <= 5
    requires s.board[i] > 0
    requires NonNeg(live) && NonNeg(s.board) && Sum(s.board) <= Sum(live)
    requires 0 <= s.playerScore && s.playerScore + depth * Sum(live) <= P
    requires 0 <= s.computerScore
    requires best >= -(P + 6 * Sum(live))
    requires best <= s.computerScore + 6 * Sum(live) || exists j :: i <= j <= 5 && s.board[j] > 0
    ensures -(P + 6 * Sum(live)) <= MinAll(live, rev, s, depth, i, best) <= s.computerScore + 6 * Sum(live)
    decreases depth, 0, 6 - i, 0
  {
    var child := SimulateMove(live, rev, s, i);
    ChildBounds(live, rev, s, i);
    assert (depth - 1) * Sum(live) + Sum(live) == depth * Sum(live);
    ValueBounds(live, rev, child, depth - 1, true, P);
    MinAllBounds(live, rev, s, depth, i + 1, Min(best, Value(live, rev, child, depth - 1, true)), P);
  }

  /**
   * Plies searched after the computer's candidate move (BoardManager's fixed
   * depth 3). The search functions below take the depth as a parameter, and
   * their lemmas hold for every depth.
   */
  const SearchDepth := 3

  /** The snapshot after the computer's candidate move from pit i of the live board. */
  function Root(live: seq<int>, rev: bool, ps: int, cs: int, i: Pit): SimState
    requires |live| == Size
  {
    SimulateMove(live, rev, SimState(live, ps, cs, false), i)
  }

  /** What BoardManager's search returns for candidate pit i. */
  function MoveValue(live: seq<int>, rev: bool, ps: int, cs: int, depth: nat, i: Pit): int
    requires |live| == Size
  {
    Minimax(live, rev, Root(live, rev, ps, cs, i), depth, false, MinInt, MaxInt)
  }

  /** The plain minimax value of candidate pit i. */
  function RootValue(live: seq<int>, rev: bool, ps: int, cs: int, depth: nat, i: Pit): int
    requires |live| == Size
  {
    Value(live, rev, Root(live, rev, ps, cs, i), depth, false)
  }

  /** Scores and stones small enough that no search value reaches the 32-bit bounds. */
  predicate NoOverflow(live: seq<int>, ps: int, cs: int, depth: nat) {
    && NonNeg(live) && 0 <= ps && 0 <= cs
    && ps + (depth + 7) * Sum(live) < -MinInt
    && cs + 6 * Sum(live) < MaxInt
  }

  /**
   * From a snapshot whose stones and scores are small enough, the plain
   * minimax value lies strictly between the 32-bit bounds.
   */
  lemma ValueInRange(live: seq<int>, rev: bool, s: SimState, depth: nat, maximizing: bool)
    requires |live| == Size && |s.board| == Size
    requires NonNeg(live) && NonNeg(s.board) && Sum(s.board) <= Sum(live)
    requires 0 <= s.playerScore && s.playerScore + (depth + 6) * Sum(live) < -MinInt
    requires 0 <= s.computerScore && s.computerScore + 6 * Sum(live) < MaxInt
    ensures MinInt < Value(live, rev, s, depth, maximizing) < MaxInt
  {
    var n := Sum(live);
    assert (depth + 6) * n == depth * n + 6 * n;
    ValueBounds(live, rev, s, depth, maximizing, s.playerScore + depth * n);
  }

  /**
   * From such a snapshot, the search with the full window
   * (int.MinValue, int.MaxValue) returns exactly the plain minimax value.
   */
  lemma SearchExact(live: seq<int>, rev: bool, s: SimState, depth: nat, maximizing: bool)
    requires |live| == Size && |s.board| == Size
    requires NonNeg(live) && NonNeg(s.board) && Sum(s.board) <= Sum(live)
    requires 0 <= s.playerScore && s.playerScore + (depth + 6) * Sum(live) < -MinInt
    requires 0 <= s.computerScore && s.computerScore + 6 * Sum(live) < MaxInt
    ensures Minimax(live, rev, s, depth, maximizing, MinInt, MaxInt) == Value(live, rev, s, depth, maximizing)
  {
    ValueInRange(live, rev, s, depth, maximizing);
    AlphaBetaSound(live, rev, s, depth, maximizing, MinInt, MaxInt);
  }

  /** Without overflow, a candidate's plain minimax value lies strictly between the 32-bit bounds. */
  lemma RootValueInRange(live: seq<int>, rev: bool, ps: int, cs: int, depth: nat, i: Pit)
    requires |live| == Size && NoOverflow(live, ps, cs, depth)
    ensures MinInt < RootValue(live, rev, ps, cs, depth, i) < MaxInt
  {
    var n := Sum(live);
    ChildBounds(live, rev, SimState(live, ps, cs, false), i);
    assert (depth + 7) * n == (depth + 6) * n + n;
    ValueInRange(live, rev, Root(live, rev, ps, cs, i), depth, false);
  }

  /** Without overflow, the pruned search of a candidate returns exactly its plain minimax value. */
  lemma MoveValueExact(live: seq<int>, rev: bool, ps: int, cs: int, depth: nat, i: Pit)
    requires |live| == Size && NoOverflow(live, ps, cs, depth)
    ensures MoveValue(live, rev, ps, cs, depth, i) == RootValue(live, rev, ps, cs, depth, i)
  {
    var n := Sum(live);
    ChildBounds(live, rev, SimState(live, ps, cs, false), i);
    assert (depth + 7) * n == (depth + 6) * n + n;
    SearchExact(live, rev, Root(live, rev, ps, cs, i), depth, false);
  }



  /** The candidate chosen so far and its value. */
  datatype Choice = Choice(move: int, value: int)

  /**
   * The loop of ComputerMove from pit i on, `value` giving each candidate's
   * search value: a non-empty pit replaces the choice only when its value is
   * strictly greater.
   */
  function ScanMoves(live: seq<int>, value: Pit -> int, i: int, best: Choice): (r: Choice)
    requires |live| == Size && 7 <= i <= 12
    requires best.move == -1 ==> best.value == MinInt
    requires best.move != -1 ==>
      (7 <= best.move < i && live[best.move] > 0 && best.value == value(best.move) && best.value > MinInt)
    requires forall j :: 7 <= j < i && live[j] > 0 ==> value(j) <= best.value
    requires best.move != -1 ==> forall j :: 7 <= j < best.move && live[j] > 0 ==> value(j) < best.value
    ensures r.move == -1 ==> r.value == MinInt
    ensures r.move != -1 ==>
      (7 <= r.move <= 11 && live[r.move] > 0 && r.value == value(r.move) && r.value > MinInt)
    ensures forall j :: 7 <= j <= 11 && live[j] > 0 ==> value(j) <= r.value
    ensures r.move != -1 ==> forall j :: 7 <= j < r.move && live[j] > 0 ==> value(j) < r.value
    decreases 12 - i
  {
    if i > 11 then best
    else if live[i] > 0 && value(i) > best.value then ScanMoves(live, value, i + 1, Choice(i, value(i)))
    else ScanMoves(live, value, i + 1, best)
  }

  /**
   * The computer's pick, the loop over pits 7..11 of ComputerMove: the
   * non-empty pit with the greatest search value, the lowest such pit on
   * ties, or -1 when no pit's value beats int.MinValue.
   */
  function BestMove(live: seq<int>, rev: bool, ps: int, cs: int, depth: nat): (m: int)
    requires |live| == Size
    ensures m == -1 || (7 <= m <= 11 && live[m] > 0)
    ensures m == -1 <==> forall j :: 7 <= j <= 11 && live[j] > 0 ==> MoveValue(live, rev, ps, cs, depth, j) <= MinInt
    ensures m != -1 ==> forall j :: 7 <= j <= 11 && live[j] > 0 ==>
      MoveValue(live, rev, ps, cs, depth, j) <= MoveValue(live, rev, ps, cs, depth, m)
    ensures m != -1 ==> forall j :: 7 <= j < m && live[j] > 0 ==>
      MoveValue(live, rev, ps, cs, depth, j) < MoveValue(live, rev, ps, cs, depth, m)
  {
    ScanMoves(live, (j: Pit) => MoveValue(live, rev, ps, cs, depth, j), 7, Choice(-1, MinInt)).move
  }

  /** Within the 32-bit range, every candidate's search value is its plain minimax value, above MinInt. */
  lemma AllMoveValuesExact(live: seq<int>, rev: bool, ps: int, cs: int, depth: nat)
    requires |live| == Size && NoOverflow(live, ps, cs, depth)
    ensures forall j: Pit :: MoveValue(live, rev, ps, cs, depth, j) == RootValue(live, rev, ps, cs, depth, j) > MinInt
  {
    forall j: Pit
      ensures MoveValue(live, rev, ps, cs, depth, j) == RootValue(live, rev, ps, cs, depth, j) > MinInt
    {
      MoveValueExact(live, rev, ps, cs, depth, j);
      RootValueInRange(live, rev, ps, cs, depth, j);
    }
  }

  /** Within the 32-bit range, the computer gives up (-1) exactly when its row is empty. */
  lemma BestMoveGivesUp(live: seq<int>, rev: bool, ps: int, cs: int, depth: nat)
    requires |live| == Size && NoOverflow(live, ps, cs, depth)
    ensures BestMove(live, rev, ps, cs, depth) == -1 <==> forall j :: 7 <= j <= 11 ==> live[j] == 0
  {
    AllMoveValuesExact(live, rev, ps, cs, depth);
  }

  /**
   * Within the 32-bit range, the computer picks the lowest pit of greatest
   * plain minimax value: pruning changes nothing in the choice.
   */
  lemma BestMoveOptimal(live: seq<int>, rev: bool, ps: int, cs: int, depth: nat)
    requires |live| == Size && NoOverflow(live, ps, cs, depth)
    ensures var m := BestMove(live, rev, ps, cs, depth);
      && (m != -1 ==> forall j :: 7 <= j <= 11 && live[j] > 0 ==>
            RootValue(live, rev, ps, cs, depth, j) <= RootValue(live, rev, ps, cs, depth, m))
      && (m != -1 ==> forall j :: 7 <= j < m && live[j] > 0 ==>
            RootValue(live, rev, ps, cs, depth, j) < RootValue(live, rev, ps, cs, depth, m))
  {
    AllMoveValuesExact(live, rev, ps, cs, depth);
  }
}
