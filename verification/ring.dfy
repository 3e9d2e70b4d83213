/**
 * The circular board of Ô Ăn Quan: twelve pits, numbered 0..11, of which
 * pits 0 and 6 are the two granaries ("quan"). Play goes one pit at a time,
 * forward (increasing index) or, after a ReverseTurn card, backward.
 */
module Ring {

  /** Number of pits on the board. */
  const Size := 12

  type Pit = i: int | 0 <= i < Size

  /** The two granaries. */
  predicate IsGranary(i: int) {
    i == 0 || i == 6
  }

  /** Signed step of play: +1 forward, -1 in reverse. */
  function Dir(rev: bool): int {
    if rev then -1 else 1
  }

  /** The neighbour of `i` in the direction of play (calcNextIndex). */
  function Next(i: Pit, rev: bool): (r: Pit)
    ensures r == (i + Dir(rev)) % Size
  {
    var n := i + (if rev then -1 else 1);
    var n := if n < 0 then n + Size else n;
    if n > Size - 1 then n - Size else n
  }

  /** The pit two steps away from `i` in the direction of play (calcNextNextIndex). */
  function NextNext(i: Pit, rev: bool): (r: Pit)
    ensures r == (i + 2 * Dir(rev)) % Size
    ensures r == Next(Next(i, rev), rev)
  {
    var n := i + (if rev then -2 else 2);
    var n := if n < 0 then n + Size else n;
    if n > Size - 1 then n - Size else n
  }

  /** The pit reached after `k` steps from `from`. */
  function Walk(from: Pit, k: nat, rev: bool): Pit {
    if rev then (from - k) % Size else (from + k) % Size
  }

  /** How many steps (1..Size) it takes to reach `to` from `from`; a full lap when they coincide. */
  function Dist(from: Pit, to: Pit, rev: bool): (d: int)
    ensures 1 <= d <= Size
    ensures Walk(from, d, rev) == to
  {
    var k := if rev then from - to else to - from;
    if k > 0 then k else k + Size
  }

  /** One step more is one step from the neighbour. */
  lemma WalkNext(from: Pit, k: nat, rev: bool)
    requires k > 0
    ensures Walk(Next(from, rev), k - 1, rev) == Walk(from, k, rev)
  {
    if rev && from == 0 {
      ModShift(-(k as int));
    } else if !rev && from == Size - 1 {
      ModShift(k - 1);
    }
  }

  /** Walking `m` steps and then `k` more is walking `m + k` steps. */
  lemma WalkAdd(from: Pit, m: nat, k: nat, rev: bool)
    ensures Walk(Walk(from, m, rev), k, rev) == Walk(from, m + k, rev)
  {
    var x := if rev then from - m else from + m;
    var y := if rev then -(k as int) else k;
    var q := x / Size;
    assert x == q * Size + x % Size;
    assert x % Size + y == (x + y) - q * Size;
    ModLaps(x + y, q);
  }

  /** Walks of an odd and an even number of steps never meet: the ring has an even size. */
  lemma OddApart(from: Pit, m: nat, k: nat, rev: bool)
    requires (m - k) % 2 == 1
    ensures Walk(from, m, rev) != Walk(from, k, rev)
  {
  }

  /** Removing whole laps does not change the pit. */
  lemma {:induction false} ModLaps(x: int, q: int)
    ensures (x - q * Size) % Size == x % Size
    decreases if q < 0 then -q else q
  {
    if q > 0 {
      ModLaps(x, q - 1);
      assert x - q * Size + Size == x - (q - 1) * Size;
      ModShift(x - q * Size);
    } else if q < 0 {
      ModLaps(x, q + 1);
      assert x - (q + 1) * Size + Size == x - q * Size;
      ModShift(x - (q + 1) * Size);
    }
  }

  /** Adding a full lap does not change the pit. */
  lemma ModShift(x: int)
    ensures (x + Size) % Size == x % Size
  {
  }

  /** The pit after `i`'s neighbour is at distance one less, unless it is that neighbour. */
  lemma DistNext(from: Pit, to: Pit, rev: bool)
    ensures to == Next(from, rev) ==> Dist(from, to, rev) == 1 && Dist(Next(from, rev), to, rev) == Size
    ensures to != Next(from, rev) ==> Dist(from, to, rev) >= 2 && Dist(Next(from, rev), to, rev) == Dist(from, to, rev) - 1
  {
  }
}
