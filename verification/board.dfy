/**
 * Stone counts on the twelve pits, and the two board operations of a move:
 * sowing a pit's stones one by one around the ring, and the chain of
 * captures across empty pits that may follow it.
 */
module Board {
  import opened Ring

  /** Total number of stones in a run of pits. */
  function Sum(s: seq<int>): int {
    if s == [] then 0 else s[0] + Sum(s[1..])
  }

  /** No pit holds a negative count. */
  predicate NonNeg(s: seq<int>) {
    forall k :: 0 <= k < |s| ==> s[k] >= 0
  }

  lemma {:induction false} SumUpdate(s: seq<int>, j: int, v: int)
    requires 0 <= j < |s|
    ensures Sum(s[j := v]) == Sum(s) - s[j] + v
  {
    if j == 0 {
      assert s[j := v][1..] == s[1..];
    } else {
      SumUpdate(s[1..], j - 1, v);
      assert s[j := v][1..] == s[1..][j - 1 := v];
    }
  }

  lemma {:induction false} SumSplit(s: seq<int>, k: int)
    requires 0 <= k <= |s|
    ensures Sum(s[..k]) + Sum(s[k..]) == Sum(s)
  {
    if k == 0 {
      assert s[..0] == [];
      assert s[0..] == s;
    } else {
      SumSplit(s[1..], k - 1);
      assert s[..k][1..] == s[1..][..k - 1];
      assert s[k..] == s[1..][k - 1..];
    }
  }

  /** A prefix grows by the element after it. */
  lemma SumExtend(s: seq<int>, i: int)
    requires 0 <= i < |s|
    ensures Sum(s[..i + 1]) == Sum(s[..i]) + s[i]
  {
    SumSplit(s[..i + 1], i);
    assert s[..i + 1][..i] == s[..i];
    assert s[..i + 1][i..] == [s[i]];
  }

  lemma {:induction false} SumNonNeg(s: seq<int>)
    requires NonNeg(s)
    ensures Sum(s) >= 0
  {
    if s != [] {
      SumNonNeg(s[1..]);
    }
  }

  /** A pit never holds more than all the stones together. */
  lemma {:induction false} ElementAtMostSum(s: seq<int>, k: int)
    requires NonNeg(s) && 0 <= k < |s|
    ensures s[k] <= Sum(s)
  {
    SumNonNeg(s[1..]);
    if k > 0 {
      ElementAtMostSum(s[1..], k - 1);
    }
  }

  /** Nor does a run of consecutive pits. */
  lemma SliceAtMostSum(s: seq<int>, lo: int, hi: int)
    requires NonNeg(s) && 0 <= lo <= hi <= |s|
    ensures 0 <= Sum(s[lo..hi]) <= Sum(s)
  {
    SumSplit(s, hi);
    SumSplit(s[..hi], lo);
    assert s[..hi][lo..] == s[lo..hi];
    SumNonNeg(s[..hi][..lo]);
    SumNonNeg(s[hi..]);
    SumNonNeg(s[lo..hi]);
  }

  lemma {:induction false} SumZero(s: seq<int>)
    requires forall k :: 0 <= k < |s| ==> s[k] == 0
    ensures Sum(s) == 0
  {
    if s != [] {
      SumZero(s[1..]);
    }
  }

  /** Result of sowing: the new counts and the pit the last stone fell into. */
  datatype Sown = Sown(board: seq<int>, last: Pit)

  /** How many of `n` stones dropped one by one after `from` land in `to`. */
  function Hits(from: Pit, to: Pit, n: nat, rev: bool): nat {
    var d := Dist(from, to, rev);
    if n >= d then (n - d) / Size + 1 else 0
  }

  /** Drop `n` stones one per pit, starting with the neighbour of `from` (moveFromCell's inner loop). */
  function Drop(b: seq<int>, from: Pit, n: nat, rev: bool): (r: Sown)
    requires |b| == Size
    ensures |r.board| == Size
    ensures Sum(r.board) == Sum(b) + n
    ensures r.last == Walk(from, n, rev)
    ensures NonNeg(b) ==> NonNeg(r.board)
    decreases n
  {
    if n == 0 then Sown(b, from)
    else
      var j := Next(from, rev);
      SumUpdate(b, j, b[j] + 1);
      WalkNext(from, n, rev);
      Drop(b[j := b[j] + 1], j, n - 1, rev)
  }

  /** Every pit receives exactly the stones that the count of steps says land in it. */
  lemma {:induction false} DropHits(b: seq<int>, from: Pit, n: nat, rev: bool)
    requires |b| == Size
    ensures forall x :: 0 <= x < Size ==> Drop(b, from, n, rev).board[x] == b[x] + Hits(from, x, n, rev)
    decreases n
  {
    if n > 0 {
      var j := Next(from, rev);
      DropHits(b[j := b[j] + 1], j, n - 1, rev);
      forall x | 0 <= x < Size
        ensures Drop(b, from, n, rev).board[x] == b[x] + Hits(from, x, n, rev)
      {
        HitsStep(from, x, n, rev);
      }
    }
  }

  /** The first of n drops lands in the neighbour; the other n - 1 are drops from it. */
  lemma HitsStep(from: Pit, x: Pit, n: nat, rev: bool)
    requires n > 0
    ensures Hits(from, x, n, rev)
         == (if x == Next(from, rev) then 1 else 0) + Hits(Next(from, rev), x, n - 1, rev)
  {
    DistNext(from, x, rev);
    var d := Dist(from, x, rev);
    if x == Next(from, rev) {
      assert d == 1;
      assert n - 1 >= Size ==> (n - 1 - Size) / Size + 1 == (n - 1) / Size;
    }
  }

  /** The number of stones a pit holds, or nothing for a negative count. */
  function Stones(v: int): nat {
    if v > 0 then v else 0
  }

  /**
   * Pick up every stone of `start` and sow them one per pit in the direction
   * of play. The start pit is emptied first, so it receives a stone again only
   * once twelve or more are sown.
   */
  function Sow(b: seq<int>, start: Pit, rev: bool): (r: Sown)
    requires |b| == Size
    ensures |r.board| == Size
    ensures r.last == Walk(start, Stones(b[start]), rev)
    ensures b[start] >= 0 ==> Sum(r.board) == Sum(b)
    ensures NonNeg(b) ==> NonNeg(r.board)
  {
    SumUpdate(b, start, 0);
    Drop(b[start := 0], start, Stones(b[start]), rev)
  }

  /**
   * What sowing leaves in each pit, in closed form: the emptied start pit
   * and every other pit get one stone per lap that reaches them.
   */
  lemma SowHits(b: seq<int>, start: Pit, rev: bool)
    requires |b| == Size
    ensures forall x :: 0 <= x < Size ==>
      Sow(b, start, rev).board[x] == (if x == start then 0 else b[x]) + Hits(start, x, Stones(b[start]), rev)
  {
    DropHits(b[start := 0], start, Stones(b[start]), rev);
  }

  /** Number of pits that hold stones; every capture empties one of them. */
  function Occupied(s: seq<int>): nat {
    if s == [] then 0 else (if s[0] > 0 then 1 else 0) + Occupied(s[1..])
  }

  lemma {:induction false} OccupiedEmptied(s: seq<int>, j: int)
    requires 0 <= j < |s| && s[j] > 0
    ensures Occupied(s[j := 0]) == Occupied(s) - 1
  {
    if j == 0 {
      assert s[j := 0][1..] == s[1..];
    } else {
      OccupiedEmptied(s[1..], j - 1);
      assert s[j := 0][1..] == s[1..][j - 1 := 0];
    }
  }

  /** The pit `j` hops of two pits away from `at`: where the capture chain looks after `j` captures. */
  function Hop(at: Pit, j: nat, rev: bool): Pit
    decreases j
  {
    if j == 0 then at else Hop(NextNext(at, rev), j - 1, rev)
  }

  /** A hop is two steps. */
  lemma {:induction false} HopWalk(at: Pit, j: nat, rev: bool)
    ensures Hop(at, j, rev) == Walk(at, 2 * j, rev)
    decreases j
  {
    if j > 0 {
      HopWalk(NextNext(at, rev), j - 1, rev);
      WalkAdd(at, 2, 2 * (j - 1), rev);
    }
  }

  /** The pits a chain of `n` captures from `at` empties: the neighbour of each of the first `n` hops. */
  function Taken(at: Pit, n: nat, rev: bool): set<Pit>
    decreases n
  {
    if n == 0 then {} else {Next(at, rev)} + Taken(NextNext(at, rev), n - 1, rev)
  }

  /**
   * Result of a capture chain: the new counts, the stones taken, how many
   * pits were emptied and the pit where the chain stopped.
   */
  datatype Captured = Captured(board: seq<int>, taken: int, count: nat, stop: Pit)

  /**
   * The capture chain: while pit `at` is empty and the pit after it holds
   * stones, take those stones and go on two pits further.
   */
  function CaptureChain(b: seq<int>, at: Pit, rev: bool): (r: Captured)
    requires |b| == Size
    ensures |r.board| == Size
    ensures Sum(r.board) + r.taken == Sum(b)
    ensures r.taken >= 0
    ensures forall x :: 0 <= x < Size ==> r.board[x] == b[x] || r.board[x] == 0
    ensures !(b[at] == 0 && b[Next(at, rev)] > 0) ==> r == Captured(b, 0, 0, at)
    ensures b[at] == 0 && b[Next(at, rev)] > 0 ==>
      r.count >= 1 && r.board[Next(at, rev)] == 0 && r.taken >= b[Next(at, rev)]
    decreases Occupied(b)
  {
    var target := Next(at, rev);
    if b[at] == 0 && b[target] > 0 then
      OccupiedEmptied(b, target);
      SumUpdate(b, target, 0);
      var b' := b[target := 0];
      var rest := CaptureChain(b', NextNext(at, rev), rev);
      assert forall x :: 0 <= x < Size ==> b'[x] == b[x] || b'[x] == 0;
      Captured(rest.board, rest.taken + b[target], rest.count + 1, rest.stop)
    else
      Captured(b, 0, 0, at)
  }

  /**
   * The chain stops `count` hops away from `at`, and only where no capture
   * is possible on the board it leaves.
   */
  lemma {:induction false} CaptureChainStops(b: seq<int>, at: Pit, rev: bool)
    requires |b| == Size
    ensures var r := CaptureChain(b, at, rev);
      r.stop == Hop(at, r.count, rev)
    ensures var r := CaptureChain(b, at, rev);
      !(r.board[r.stop] == 0 && r.board[Next(r.stop, rev)] > 0)
    decreases Occupied(b)
  {
    var target := Next(at, rev);
    if b[at] == 0 && b[target] > 0 {
      OccupiedEmptied(b, target);
      var rest := CaptureChain(b[target := 0], NextNext(at, rev), rev);
      CaptureChainStops(b[target := 0], NextNext(at, rev), rev);
      var r := CaptureChain(b, at, rev);
      assert r.board == rest.board && r.stop == rest.stop && r.count == rest.count + 1;
      assert Hop(at, rest.count + 1, rev) == Hop(NextNext(at, rev), rest.count, rev);
    } else {
      assert CaptureChain(b, at, rev) == Captured(b, 0, 0, at);
    }
  }

  /**
   * The extent of the capture chain: it empties exactly the pits of
   * `Taken(at, count)` and every other pit keeps its count.
   */
  lemma {:induction false} CaptureChainTakes(b: seq<int>, at: Pit, rev: bool)
    requires |b| == Size
    ensures var r := CaptureChain(b, at, rev);
      forall x :: 0 <= x < Size ==> r.board[x] == (if x in Taken(at, r.count, rev) then 0 else b[x])
    decreases Occupied(b)
  {
    var target := Next(at, rev);
    if b[at] == 0 && b[target] > 0 {
      OccupiedEmptied(b, target);
      var at2 := NextNext(at, rev);
      var rest := CaptureChain(b[target := 0], at2, rev);
      CaptureChainTakes(b[target := 0], at2, rev);
      assert CaptureChain(b, at, rev).board == rest.board;
      assert CaptureChain(b, at, rev).count == rest.count + 1;
      ZeroedAlso(b, target, Taken(at2, rest.count, rev), Taken(at, rest.count + 1, rev), rest.board);
    } else {
      assert CaptureChain(b, at, rev) == Captured(b, 0, 0, at);
    }
  }

  /** Zeroing the pits of `t` after zeroing `target` is zeroing the pits of `u`, when `u` is `{target} + t`. */
  lemma ZeroedAlso(b: seq<int>, target: Pit, t: set<Pit>, u: set<Pit>, c: seq<int>)
    requires |b| == Size && |c| == Size && u == {target} + t
    requires forall x :: 0 <= x < Size ==> c[x] == (if x in t then 0 else b[target := 0][x])
    ensures forall x :: 0 <= x < Size ==> c[x] == (if x in u then 0 else b[x])
  {
  }

  /**
   * Why the chain went on: at each of its `count` hops the pit was empty and
   * its neighbour held stones, on the board the chain started from.
   */
  lemma {:induction false} CaptureChainHops(b: seq<int>, at: Pit, rev: bool)
    requires |b| == Size
    ensures var r := CaptureChain(b, at, rev);
      forall j :: 0 <= j < r.count ==> b[Hop(at, j, rev)] == 0 && b[Next(Hop(at, j, rev), rev)] > 0
    decreases Occupied(b)
  {
    var target := Next(at, rev);
    if b[at] == 0 && b[target] > 0 {
      OccupiedEmptied(b, target);
      var b' := b[target := 0];
      var at2 := NextNext(at, rev);
      CaptureChainHops(b', at2, rev);
      var rest := CaptureChain(b', at2, rev);
      var r := CaptureChain(b, at, rev);
      assert r.count == rest.count + 1;
      forall j | 0 <= j < r.count
        ensures b[Hop(at, j, rev)] == 0 && b[Next(Hop(at, j, rev), rev)] > 0
      {
        if j > 0 {
          var h := Hop(at2, j - 1, rev);
          assert Hop(at, j, rev) == h;
          assert b'[h] == 0 && b'[Next(h, rev)] > 0;
          HopNotNeighbour(at, j, rev);
        }
      }
    }
  }

  /** A hop from `at` never lands on the neighbour of `at`: they are an odd number of steps apart. */
  lemma HopNotNeighbour(at: Pit, j: nat, rev: bool)
    ensures Hop(at, j, rev) != Next(at, rev)
  {
    HopWalk(at, j, rev);
    WalkNext(at, 1, rev);
    OddApart(at, 2 * j, 1, rev);
  }

  /** Scan pits lo..hi for stones, stopping at the first one (the loops of CheckEndGame). */
  function RowEmpty(b: seq<int>, lo: int, hi: int): (r: bool)
    requires 0 <= lo && hi < |b|
    ensures r <==> forall k :: lo <= k <= hi ==> b[k] <= 0
    decreases hi - lo + 1
  {
    if lo > hi then true
    else if b[lo] > 0 then false
    else RowEmpty(b, lo + 1, hi)
  }

  /**
   * The game is over when the player's row (1..5) or the computer's row
   * (7..11) has no stones, or when both granaries are empty.
   */
  function IsTerminal(b: seq<int>): (r: bool)
    requires |b| == Size
    ensures r <==>
      || (forall k :: 1 <= k <= 5 ==> b[k] <= 0)
      || (forall k :: 7 <= k <= 11 ==> b[k] <= 0)
      || (b[0] == 0 && b[6] == 0)
  {
    RowEmpty(b, 1, 5) || RowEmpty(b, 7, 11) || (b[0] == 0 && b[6] == 0)
  }
}
