/** The heights that skip pointers lead to, and how long a walk along them is. */
module SkipHeights {
  import opened Numbers

  /** Bitwise and. */
  function And(x: nat, y: nat): nat {
    if x == 0 || y == 0 then 0 else 2 * And(x / 2, y / 2) + if x % 2 == 1 && y % 2 == 1 then 1 else 0
  }

  lemma {:induction false} AndBelow(x: nat, y: nat)
    ensures And(x, y) <= y
  {
    if x != 0 && y != 0 {
      AndBelow(x / 2, y / 2);
    }
  }

  function InvertLowestOne(n: nat): (r: nat)
    ensures n > 0 ==> r < n
    ensures n == 0 ==> r == 0
  {
    if n == 0 then 0 else
      AndBelow(n, n - 1);
      And(n, n - 1)
  }

  /** Any lower height would do for correctness. */
  function GetSkipHeight(height: nat): (h: nat)
    ensures height > 0 ==> h < height
    ensures h <= height
  {
    if height < 2 then 0
    else if height % 2 == 1 then InvertLowestOne(InvertLowestOne(height - 1)) + 1
    else InvertLowestOne(height)
  }

  /** Whether the walk down to `target` takes the skip at `height`: not when the previous block's is the better one. */
  predicate TakesSkip(height: nat, target: nat)
    requires height > 0
  {
    var skip, skipPrev := GetSkipHeight(height), GetSkipHeight(height - 1);
    skip == target || (skip > target && !(skipPrev < skip - 2 && skipPrev >= target))
  }

  function Next(height: nat, target: nat): (h: nat)
    requires target < height
    ensures target <= h < height
  {
    if TakesSkip(height, target) then GetSkipHeight(height) else height - 1
  }

  /** The number of steps of GetAncestor. */
  function Steps(height: nat, target: nat): nat
    requires target <= height
    decreases height
  {
    if height == target then 0 else 1 + Steps(Next(height, target), target)
  }

  // ---------------------------------------------------------------------
  // Clearing the lowest one
  // ---------------------------------------------------------------------

  lemma {:induction false} AndSelf(x: nat)
    ensures And(x, x) == x
  {
    if x != 0 {
      AndSelf(x / 2);
    }
  }

  lemma InvertOdd(n: nat)
    requires n % 2 == 1
    ensures InvertLowestOne(n) == n - 1
  {
    if n > 1 {
      AndSelf(n / 2);
      assert (n - 1) / 2 == n / 2;
    }
  }

  lemma InvertEven(n: nat)
    requires n > 0
    ensures InvertLowestOne(2 * n) == 2 * InvertLowestOne(n)
  {
    assert (2 * n - 1) / 2 == n - 1 && 2 * n / 2 == n;
    if n == 1 {
      assert And(1, 0) == 0;
    }
  }

  /** The number of ones. */
  function Ones(n: nat): nat {
    if n == 0 then 0 else Ones(n / 2) + n % 2
  }

  lemma {:induction false} OnesInvert(n: nat)
    requires n > 0
    ensures Ones(n) > 0 && Ones(InvertLowestOne(n)) == Ones(n) - 1
    ensures n % 2 == 0 ==> InvertLowestOne(n) % 2 == 0
  {
    hide InvertLowestOne;
    if n % 2 == 1 {
      InvertOdd(n);
      assert n > 1 ==> (n - 1) / 2 == n / 2;
    } else {
      InvertEven(n / 2);
      OnesInvert(n / 2);
      assert 2 * InvertLowestOne(n / 2) / 2 == InvertLowestOne(n / 2);
    }
  }

  lemma {:induction false} OnesBelow(n: nat, k: nat)
    requires n < Two(k)
    ensures Ones(n) <= k
    decreases k
  {
    if n != 0 {
      assert k > 0;
      TwoNext(k - 1);
      OnesBelow(n / 2, k - 1);
    }
  }

  lemma TwoNext(k: nat)
    ensures Two(0) == 1 && Two(k + 1) == 2 * Two(k)
  {
  }

  lemma OnesEven(n: nat)
    requires n % 2 == 0
    ensures Ones(n + 1) == Ones(n) + 1
  {
    assert (n + 1) / 2 == n / 2;
  }

  lemma OnesZero(n: nat)
    ensures Ones(n) == 0 <==> n == 0
  {
    if n > 0 {
      OnesInvert(n);
    }
  }

  /** `b` has `k` zeros at the end. */
  predicate Aligned(b: nat, k: nat) { k == 0 || (b % 2 == 0 && Aligned(b / 2, k - 1)) }

  /** Below the zeros, only the rest counts. */
  lemma {:induction false} InvertShift(b: nat, k: nat, r: nat)
    requires Aligned(b, k) && 0 < r < Two(k)
    ensures InvertLowestOne(b + r) == b + InvertLowestOne(r)
    decreases k
  {
    hide InvertLowestOne;
    hide Two;
    TwoNext(if k > 0 then k - 1 else 0);
    if r % 2 == 1 {
      InvertOdd(r);
      InvertOdd(b + r);
    } else {
      var c, q := b / 2, r / 2;
      assert b == 2 * c && r == 2 * q && b + r == 2 * (c + q);
      InvertShift(c, k - 1, q);
      InvertEven(c + q);
      InvertEven(q);
    }
  }

  lemma {:induction false} AlignedLess(b: nat, k: nat, m: nat)
    requires Aligned(b, k) && m <= k
    ensures Aligned(b, m)
    decreases m
  {
    if m > 0 {
      AlignedLess(b / 2, k - 1, m - 1);
    }
  }

  lemma {:induction false} AlignedHalf(b: nat, k: nat)
    requires Aligned(b, k + 1)
    ensures Aligned(b, k) && Aligned(b + Two(k), k)
    decreases k
  {
    AlignedLess(b, k + 1, k);
    if k > 0 {
      TwoNext(k - 1);
      AlignedHalf(b / 2, k - 1);
      assert (b + Two(k)) / 2 == b / 2 + Two(k - 1);
    }
  }

  lemma {:induction false} InvertTwo(k: nat)
    ensures InvertLowestOne(Two(k)) == 0
  {
    hide InvertLowestOne;
    if k == 0 {
      InvertOdd(1);
    } else {
      TwoNext(k - 1);
      InvertTwo(k - 1);
      InvertEven(Two(k - 1));
    }
  }

  // ---------------------------------------------------------------------
  // Down to a round height
  // ---------------------------------------------------------------------

  /** At an odd height the skip is taken whenever it does not lead too far. */
  lemma OddSkips(w: nat, t: nat)
    requires w % 2 == 1 && t < w
    ensures TakesSkip(w, t) <==> GetSkipHeight(w) >= t
  {
    hide InvertLowestOne;
  }

  lemma InvertTwice(n: nat, m: nat)
    requires n > 0 && m == 2 * n
    ensures InvertLowestOne(m) == 2 * InvertLowestOne(n)
  {
    InvertEven(n);
  }

  lemma InvertOneMore(n: nat, m: nat)
    requires m == 2 * n + 1
    ensures InvertLowestOne(m) == 2 * n
  {
    hide InvertLowestOne;
    InvertOdd(m);
  }

  lemma InvertRound(x: nat, w: nat)
    requires x > 0 && w == 8 * x
    ensures InvertLowestOne(w) == 8 * InvertLowestOne(x)
  {
    hide InvertLowestOne;
    InvertTwice(x, 2 * x);
    InvertTwice(2 * x, 4 * x);
    InvertTwice(4 * x, w);
  }

  lemma InvertBefore(y: nat, w: nat)
    requires w == 8 * y + 6
    ensures InvertLowestOne(w) == w - 2 && InvertLowestOne(w - 2) == w - 6
  {
    hide InvertLowestOne;
    var a, b := 4 * y + 3, 2 * y + 1;
    InvertOneMore(2 * y + 1, a);
    InvertTwice(a, w);
    InvertOneMore(y, b);
    InvertTwice(b, 2 * b);
    InvertTwice(2 * b, w - 2);
  }

  /** At a multiple of eight the previous block's skip is never the better one. */
  lemma RoundSkips(w: nat, t: nat)
    requires w % 8 == 0 && w > 0 && t < InvertLowestOne(w)
    ensures TakesSkip(w, t)
  {
    hide InvertLowestOne;
    RoundSkipHeights(w / 8, w);
  }

  lemma RoundSkipHeights(x: nat, w: nat)
    requires x > 0 && w == 8 * x
    ensures GetSkipHeight(w) == InvertLowestOne(w) <= w - 8 && GetSkipHeight(w - 1) == w - 7
  {
    hide InvertLowestOne;
    InvertRound(x, w);
    InvertBefore(x - 1, w - 2);
  }

  lemma OnesTwice(n: nat, m: nat)
    ensures m == 2 * n ==> Ones(m) == Ones(n)
    ensures m == 2 * n + 1 ==> Ones(m) == Ones(n) + 1
  {
    assert 2 * n / 2 == n && (2 * n + 1) / 2 == n;
  }

  /** Where the previous block's skip may be the better one, it starts from no more ones. */
  lemma OnesBefore(r: nat)
    requires r % 2 == 0 && r % 8 != 0
    ensures Ones(r - 2) <= Ones(r)
  {
    hide Ones;
    var y, d := r / 8, r % 8;
    EvenRest(r, y, d);
    if d == 2 {
      OnesBeforeTwo(2 * y, r);
    } else if d == 6 {
      OnesBeforeTwo(2 * y + 1, r);
    } else {
      OnesBeforeFour(y, r);
    }
  }

  lemma EvenRest(r: nat, y: nat, d: nat)
    requires r == 8 * y + d && r % 2 == 0 && 0 < d < 8
    ensures d == 2 || d == 4 || d == 6
  {
    assert r % 2 == d % 2;
  }

  lemma OnesBeforeTwo(y: nat, r: nat)
    requires r == 4 * y + 2
    ensures Ones(r - 2) <= Ones(r)
  {
    hide Ones;
    OnesTwice(2 * y + 1, r);
    OnesTwice(2 * y, r - 2);
    OnesTwice(y, 2 * y + 1);
    OnesTwice(y, 2 * y);
  }

  lemma OnesBeforeFour(y: nat, r: nat)
    requires r == 8 * y + 4
    ensures Ones(r - 2) <= Ones(r)
  {
    hide Ones;
    OnesTwice(4 * y + 2, r);
    OnesTwice(2 * y + 1, 4 * y + 2);
    OnesTwice(y, 2 * y + 1);
    OnesTwice(4 * y + 1, r - 2);
    OnesTwice(2 * y, 4 * y + 1);
    OnesTwice(y, 2 * y);
  }

  /** Steps that suffice from `r` above a round height. */
  function Cost(r: nat): nat {
    if r == 0 then 0 else if r % 2 == 1 || Ones(r) == 1 then Ones(r) + 1 else Ones(r) + 2
  }

  /** Clearing two ones above a round height `b`: it stays above `b`, or falls to it or below. */
  lemma TwoCleared(b: nat, k: nat, r: nat)
    requires Aligned(b, k) && k > 0 && b > 0 && r < Two(k) && r % 2 == 0
    ensures var v := InvertLowestOne(InvertLowestOne(b + r)) + 1;
      if Ones(r) < 2 then v <= b
      else var r' := v - b; 0 < r' <= r && r' % 2 == 1 && Ones(r') == Ones(r) - 1
  {
    hide InvertLowestOne;
    OnesZero(r);
    if r > 0 {
      InvertShift(b, k, r);
      OnesInvert(r);
      var q := InvertLowestOne(r);
      OnesZero(q);
      if q > 0 {
        InvertShift(b, k, q);
        OnesInvert(q);
        OnesEven(InvertLowestOne(q));
      }
    }
  }

  lemma StepsNext(w: nat, t: nat)
    requires t < w
    ensures Steps(w, t) == 1 + Steps(Next(w, t), t)
  {
  }

  /** From just above the round height `b` the walk soon comes to it, or below. */
  lemma {:induction false} DownTo(b: nat, k: nat, r: nat, t: nat) returns (v: nat)
    requires Aligned(b, k) && r < Two(k) && t < b
    ensures t <= v <= b && Steps(b + r, t) <= Cost(r) + Steps(v, t)
    decreases r
  {
    hide InvertLowestOne;
    hide TakesSkip;
    hide Steps;
    hide Ones;
    hide Two;
    if r == 0 {
      return b;
    }
    var w := b + r;
    OnesZero(r);
    RoundBase(b, k, r);
    StepsNext(w, t);
    if r % 2 == 1 {
      var s := GetSkipHeight(w);
      OddSkips(w, t);
      OnesEven(r - 1);
      TwoCleared(b, k, r - 1);
      if s >= t {
        if Ones(r - 1) < 2 {
          return s;
        }
        v := DownTo(b, k, s - b, t);
      } else {
        OnesZero(r - 1);
        v := DownTo(b, k, r - 1, t);
      }
    } else {
      InvertShift(b, k, r);
      OnesInvert(r);
      OnesZero(InvertLowestOne(r));
      if TakesSkip(w, t) {
        v := DownTo(b, k, InvertLowestOne(r), t);
      } else {
        var s := BetterBefore(b, k, r, t);
        if Ones(r - 2) < 2 {
          return s;
        }
        v := DownTo(b, k, s - b, t);
      }
    }
  }

  lemma RoundBase(b: nat, k: nat, r: nat)
    requires Aligned(b, k) && 0 < r < Two(k)
    ensures k > 0 && b % 2 == 0 && (r % 8 == 0 ==> b % 8 == 0)
  {
    TwoNext(0);
    TwoNext(1);
    TwoNext(2);
    if k == 0 || k == 1 || k == 2 {
    } else {
      AlignedLess(b, k, 3);
      assert Aligned(b / 2, 2) && Aligned(b / 2 / 2, 1);
    }
  }

  /** The other way from an even height: one down, and then the skip from there. */
  lemma BetterBefore(b: nat, k: nat, r: nat, t: nat) returns (s: nat)
    requires Aligned(b, k) && 0 < r < Two(k) && t < b && r % 2 == 0 && !TakesSkip(b + r, t)
    ensures t <= s && Steps(Next(b + r, t), t) == 1 + Steps(s, t) && Ones(r - 2) <= Ones(r)
    ensures if Ones(r - 2) < 2 then s <= b else b < s && s - b < r && (s - b) % 2 == 1 && Ones(s - b) == Ones(r - 2) - 1
  {
    hide InvertLowestOne;
    hide Steps;
    hide Ones;
    hide Two;
    hide Aligned;
    hide TakesSkip;
    hide GetSkipHeight;
    var w := b + r;
    RoundBase(b, k, r);
    InvertShift(b, k, r);
    if r % 8 == 0 {
      RoundSkips(w, t);
    }
    OnesBefore(r);
    s := SkipBefore(w, t);
    TwoCleared(b, k, r - 2);
  }

  lemma SkipBefore(w: nat, t: nat) returns (s: nat)
    requires w % 2 == 0 && w > 2 && t < InvertLowestOne(w) && !TakesSkip(w, t)
    ensures t <= s && s == InvertLowestOne(InvertLowestOne(w - 2)) + 1 && Steps(Next(w, t), t) == 1 + Steps(s, t)
  {
    hide InvertLowestOne;
    hide Steps;
    s := GetSkipHeight(w - 1);
    OddSkips(w - 1, t);
    StepsNext(w - 1, t);
  }

  // ---------------------------------------------------------------------
  // The whole walk
  // ---------------------------------------------------------------------

  /** Steps that suffice between two heights below 2^k. */
  function StepLimit(k: nat): nat {
    if k == 0 then 0 else StepLimit(k - 1) + k + 2
  }

  lemma CostBelow(r: nat, k: nat)
    requires r < Two(k)
    ensures Cost(r) <= k + 2
  {
    OnesBelow(r, k);
  }

  /** At a round height the skip leads to the start of its block of heights. */
  lemma RoundStep(a: nat, k: nat, t: nat)
    requires Aligned(a, k + 1) && a <= t < a + Two(k)
    ensures var b := a + Two(k); Next(b, t) == t || Next(b, t) == b - 1
  {
    hide InvertLowestOne;
    TwoNext(k);
    if k == 0 {
      TwoNext(0);
    } else {
      TwoNext(k - 1);
      InvertShift(a, k + 1, Two(k));
      InvertTwo(k);
    }
  }

  lemma {:induction false} StepsWithin(a: nat, k: nat, w: nat, t: nat)
    requires Aligned(a, k) && a <= t <= w < a + Two(k)
    ensures Steps(w, t) <= StepLimit(k)
    decreases k
  {
    hide Steps;
    hide Cost;
    hide Two;
    if w == t {
      NoSteps(t);
    } else {
      TwoNext(if k > 0 then k - 1 else 0);
      var b := a + Two(k - 1);
      AlignedHalf(a, k - 1);
      if w < b {
        StepsWithin(a, k - 1, w, t);
      } else if t >= b {
        StepsWithin(b, k - 1, w, t);
      } else {
        var v := DownTo(b, k - 1, w - b, t);
        CostBelow(w - b, k - 1);
        if v == b {
          StepsNext(b, t);
          RoundStep(a, k - 1, t);
          v := Next(b, t);
        }
        StepsWithin(a, k - 1, v, t);
      }
    }
  }

  lemma NoSteps(t: nat)
    ensures Steps(t, t) == 0
  {
  }

  lemma {:induction false} StepLimitIs(k: nat)
    ensures 2 * StepLimit(k) == k * (k + 5)
  {
    if k > 0 {
      StepLimitIs(k - 1);
      assert (k - 1) * (k + 4) + 2 * (k + 2) == k * (k + 5);
    }
  }

  lemma {:induction false} ZeroAligned(k: nat)
    ensures Aligned(0, k)
  {
    if k > 0 {
      ZeroAligned(k - 1);
    }
  }

  /** From a height of `k` bits every ancestor is reached in at most k(k + 5)/2 steps. */
  lemma StepsBound(height: nat, target: nat, k: nat)
    requires target <= height < Two(k)
    ensures 2 * Steps(height, target) <= k * (k + 5)
  {
    ZeroAligned(k);
    StepsWithin(0, k, height, target);
    StepLimitIs(k);
  }
}
