/**
 * The special cards. A card is drawn from a uniform value in 1..100 when the
 * player's last stone falls into a granary; the value itself comes from the
 * random generator and is an input here.
 */
module Cards {
  import opened Ints

  datatype CardType = ReverseTurn | SkipTurn | ExtraTurn

  /** Card for draw `r`: up to 50 reverses, up to `skipUpTo` skips, the rest give an extra turn. */
  function Classify(r: int, skipUpTo: int): CardType {
    if r < 51 then ReverseTurn
    else if r <= skipUpTo then SkipTurn
    else ExtraTurn
  }

  /** DrawCard as BoardManager writes it: skip for 51..76. */
  function DrawCardAsWritten(r: int): (c: CardType)
    ensures c == ReverseTurn <==> r <= 50
    ensures c == SkipTurn <==> 51 <= r <= 76
  {
    Classify(r, 76)
  }

  /** DrawCard with the 50/25/25 split its comments announce: skip for 51..75. */
  function DrawCard(r: int): (c: CardType)
    ensures c == ReverseTurn <==> r <= 50
    ensures c == SkipTurn <==> 51 <= r <= 75
  {
    Classify(r, 75)
  }

  /** How many of the draws 1..k yield card `c`. */
  function Tally(c: CardType, skipUpTo: int, k: nat): nat {
    if k == 0 then 0
    else Tally(c, skipUpTo, k - 1) + (if Classify(k, skipUpTo) == c then 1 else 0)
  }

  /** Among the first k draws: min(k, 50) reverses, the skips in 51..skipUpTo, the rest extras. */
  lemma {:induction false} TallyClosedForm(skipUpTo: int, k: nat)
    requires 50 <= skipUpTo
    ensures Tally(ReverseTurn, skipUpTo, k) == Min(k, 50)
    ensures Tally(SkipTurn, skipUpTo, k) == Max(0, Min(k, skipUpTo) - 50)
    ensures Tally(ExtraTurn, skipUpTo, k) == Max(0, k - skipUpTo)
  {
    if k > 0 {
      TallyClosedForm(skipUpTo, k - 1);
    }
  }

  /** As written, the 100 equally likely draws give 50 reverses, 26 skips and 24 extras. */
  lemma DrawCardAsWrittenSplit()
    ensures Tally(ReverseTurn, 76, 100) == 50
    ensures Tally(SkipTurn, 76, 100) == 26
    ensures Tally(ExtraTurn, 76, 100) == 24
    ensures DrawCardAsWritten(76) == SkipTurn
  {
    TallyClosedForm(76, 100);
  }

  /** The corrected draw gives 50 reverses, 25 skips and 25 extras. */
  lemma DrawCardSplit()
    ensures Tally(ReverseTurn, 75, 100) == 50
    ensures Tally(SkipTurn, 75, 100) == 25
    ensures Tally(ExtraTurn, 75, 100) == 25
    ensures DrawCard(76) == ExtraTurn
  {
    TallyClosedForm(75, 100);
  }
}
