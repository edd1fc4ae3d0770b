/**
  Bitmaps as non-negative integers, with the bit operations spelled out on
  binary digits, and the ascending list of the one bits.
 */
module Bitmap {
  import opened PowerOfTwo

  /** `n & (1 << i) != 0`. */
  predicate Bit(n: nat, i: nat) {
    if i == 0 then n % 2 == 1 else Bit(n / 2, i - 1)
  }

  /** `n | (1 << i)`. */
  function SetBit(n: nat, i: nat): nat {
    if i == 0 then 1 + 2 * (n / 2) else n % 2 + 2 * SetBit(n / 2, i - 1)
  }

  /** `n & ~(1 << i)`. */
  function ClearBit(n: nat, i: nat): nat {
    if i == 0 then 2 * (n / 2) else n % 2 + 2 * ClearBit(n / 2, i - 1)
  }

  /** `(n & -n).bit_length() - 1`. */
  function Lowest(n: nat): nat
    requires n > 0
  {
    if n % 2 == 1 then 0 else 1 + Lowest(n / 2)
  }

  /** `n & (n - 1)`. */
  function ClearLowest(n: nat): (r: nat)
    requires n > 0
    ensures r < n
  {
    if n % 2 == 1 then n - 1 else 2 * ClearLowest(n / 2)
  }

  function PopCount(n: nat): nat {
    if n == 0 then 0 else n % 2 + PopCount(n / 2)
  }

  /** A bit is the binary digit of its weight. */
  lemma {:induction false} BitIsDigit(n: nat, i: nat)
    ensures Bit(n, i) <==> n / TwoTo(i) % 2 == 1
  {
    if i > 0 {
      BitIsDigit(n / 2, i - 1);
      HalfQuotient(n, TwoTo(i - 1));
    }
  }

  /** Setting a bit adds its weight, once. */
  lemma {:induction false} SetBitAdds(n: nat, i: nat)
    ensures SetBit(n, i) == if n / TwoTo(i) % 2 == 1 then n else n + TwoTo(i)
  {
    if i > 0 {
      SetBitAdds(n / 2, i - 1);
      HalfQuotient(n, TwoTo(i - 1));
    }
  }

  // ---- the list of one bits ----

  function Raise(xs: seq<nat>): (r: seq<nat>)
    ensures |r| == |xs| && forall k :: 0 <= k < |xs| ==> r[k] == xs[k] + 1
  {
    seq(|xs|, k requires 0 <= k < |xs| => xs[k] + 1)
  }

  /** A lowest digit below the digits of `xs`. */
  function Digit(d: nat, xs: seq<nat>): seq<nat> {
    (if d == 1 then [0] else []) + Raise(xs)
  }

  /** The positions of the one bits, lowest first. */
  function Ones(n: nat): seq<nat> {
    if n == 0 then [] else Digit(n % 2, Ones(n / 2))
  }

  /** Remove `r` from a list. */
  function Without(bm: seq<nat>, r: nat): seq<nat> {
    if bm == [] then [] else if bm[0] == r then bm[1..] else [bm[0]] + Without(bm[1..], r)
  }

  lemma OnesJoin(d: nat, m: nat)
    requires d < 2
    ensures Ones(d + 2 * m) == Digit(d, Ones(m))
  {
    assert (d + 2 * m) / 2 == m && (d + 2 * m) % 2 == d;
  }

  lemma OnesHalf(n: nat)
    ensures Ones(n) == Digit(n % 2, Ones(n / 2))
  {
  }

  lemma RaiseAppend(xs: seq<nat>, y: nat)
    ensures Raise(xs + [y]) == Raise(xs) + [y + 1]
  {
  }

  lemma RaiseHead(x: nat, ys: seq<nat>)
    ensures Raise([x] + ys) == [x + 1] + Raise(ys)
  {
  }

  lemma DigitHead(x: nat, ys: seq<nat>)
    ensures Digit(0, [x] + ys) == [x + 1] + Digit(0, ys)
  {
    RaiseHead(x, ys);
  }

  /** Taking the lowest bit off a bitmap takes the first off the list. */
  lemma {:induction false} OnesStep(n: nat)
    requires n > 0
    ensures Ones(n) == [Lowest(n)] + Ones(ClearLowest(n))
  {
    if n % 2 == 1 {
      OddStep(n, n / 2);
    } else {
      OnesStep(n / 2);
      EvenStep(n, n / 2, Lowest(n / 2), ClearLowest(n / 2));
    }
  }

  lemma OddStep(n: nat, m: nat)
    requires n == 1 + 2 * m
    ensures Ones(n) == [0] + Ones(2 * m)
  {
    OnesJoin(1, m);
    OnesJoin(0, m);
    DigitOne(Ones(m));
  }

  lemma DigitOne(xs: seq<nat>)
    ensures Digit(1, xs) == [0] + Digit(0, xs)
  {
  }

  lemma EvenStep(n: nat, m: nat, low: nat, rest: nat)
    requires n == 2 * m && Ones(m) == [low] + Ones(rest)
    ensures Ones(n) == [1 + low] + Ones(2 * rest)
  {
    OnesJoin(0, m);
    OnesJoin(0, rest);
    DigitHead(low, Ones(rest));
  }

  lemma {:induction false} PopCountIsOnes(n: nat)
    ensures PopCount(n) == |Ones(n)|
  {
    if n > 0 {
      PopCountIsOnes(n / 2);
    }
  }

  lemma {:induction false} WithoutRaised(xs: seq<nat>, r: nat)
    ensures Without(Raise(xs), r) == if r == 0 then Raise(xs) else Raise(Without(xs, r - 1))
    decreases |xs|
  {
    if xs != [] {
      var x, rest := xs[0], xs[1..];
      RaiseHead(x, rest);
      assert [x] + rest == xs && Raise(xs)[1..] == Raise(rest);
      WithoutRaised(rest, r);
      if r > 0 && x != r - 1 {
        RaiseHead(x, Without(rest, r - 1));
      }
    }
  }

  lemma WithoutDigit(d: nat, xs: seq<nat>, r: nat)
    ensures Without(Digit(d, xs), r) == if r == 0 then Digit(0, xs) else Digit(d, Without(xs, r - 1))
  {
    WithoutRaised(xs, r);
    if d == 1 {
      assert Digit(d, xs)[1..] == Raise(xs);
    } else {
      assert Digit(d, xs) == Raise(xs);
    }
  }

  /** Clearing a bit removes it from the list. */
  lemma {:induction false} OnesClear(n: nat, r: nat)
    ensures Ones(ClearBit(n, r)) == Without(Ones(n), r)
    decreases r
  {
    OnesHalf(n);
    if r == 0 {
      OnesClearLast(n % 2, n / 2);
    } else {
      OnesClear(n / 2, r - 1);
      OnesClearAbove(n % 2, n / 2, r, ClearBit(n / 2, r - 1));
    }
  }

  lemma OnesClearLast(d: nat, m: nat)
    ensures Ones(2 * m) == Without(Digit(d, Ones(m)), 0)
  {
    OnesJoin(0, m);
    WithoutDigit(d, Ones(m), 0);
  }

  lemma OnesClearAbove(d: nat, m: nat, r: nat, cleared: nat)
    requires d < 2 && r > 0 && Ones(cleared) == Without(Ones(m), r - 1)
    ensures Ones(d + 2 * cleared) == Without(Digit(d, Ones(m)), r)
  {
    OnesJoin(d, cleared);
    WithoutDigit(d, Ones(m), r);
  }

  lemma RaisedIn(xs: seq<nat>, x: nat)
    ensures x in Raise(xs) <==> x > 0 && x - 1 in xs
  {
    if x in Raise(xs) {
      var k :| 0 <= k < |xs| && Raise(xs)[k] == x;
      assert xs[k] == x - 1;
    }
    if x > 0 && x - 1 in xs {
      var k :| 0 <= k < |xs| && xs[k] == x - 1;
      assert Raise(xs)[k] == x;
    }
  }

  lemma DigitIn(d: nat, xs: seq<nat>, x: nat)
    ensures x in Digit(d, xs) <==> if x == 0 then d == 1 else x - 1 in xs
  {
    RaisedIn(xs, x);
  }

  lemma DigitAppend(d: nat, xs: seq<nat>, y: nat)
    ensures Digit(d, xs + [y]) == Digit(d, xs) + [y + 1]
  {
    RaiseAppend(xs, y);
  }

  ghost predicate Below(xs: seq<nat>, i: nat) {
    forall x :: x in xs ==> x < i
  }

  lemma DigitBelow(d: nat, xs: seq<nat>, i: nat)
    requires Below(Digit(d, xs), i)
    ensures if i == 0 then xs == [] && d != 1 else Below(xs, i - 1)
  {
    if i == 0 {
      if xs != [] {
        DigitIn(d, xs, xs[0] + 1);
      }
      DigitIn(d, xs, 0);
    } else {
      forall x | x in xs
        ensures x < i - 1
      {
        DigitIn(d, xs, x + 1);
      }
    }
  }

  lemma BelowHalf(n: nat, i: nat)
    requires Below(Ones(n), i)
    ensures if i == 0 then Ones(n / 2) == [] && n % 2 != 1 else Below(Ones(n / 2), i - 1)
  {
    OnesHalf(n);
    DigitBelow(n % 2, Ones(n / 2), i);
  }

  /** Setting a bit above all others appends it to the list. */
  lemma {:induction false} OnesSet(n: nat, i: nat)
    requires Below(Ones(n), i)
    ensures Ones(SetBit(n, i)) == Ones(n) + [i]
    decreases i
  {
    BelowHalf(n, i);
    if i == 0 {
      OnesSetLast(n, n / 2);
    } else {
      OnesSet(n / 2, i - 1);
      OnesSetAbove(n, n % 2, n / 2, i, SetBit(n / 2, i - 1));
    }
  }

  lemma OnesSetLast(n: nat, m: nat)
    requires n == 2 * m && Ones(m) == []
    ensures Ones(1 + 2 * m) == Ones(n) + [0]
  {
    OnesJoin(1, m);
    OnesJoin(0, m);
  }

  lemma OnesSetAbove(n: nat, d: nat, m: nat, i: nat, with: nat)
    requires d < 2 && n == d + 2 * m && i > 0 && Ones(with) == Ones(m) + [i - 1]
    ensures Ones(d + 2 * with) == Ones(n) + [i]
  {
    OnesJoin(d, m);
    OnesJoin(d, with);
    DigitAppend(d, Ones(m), i - 1);
  }

  lemma {:induction false} BitIffOne(n: nat, i: nat)
    ensures Bit(n, i) <==> i in Ones(n)
    decreases i
  {
    OnesHalf(n);
    DigitIn(n % 2, Ones(n / 2), i);
    if i > 0 {
      BitIffOne(n / 2, i - 1);
    }
  }

  lemma OnesEmptyIff(n: nat)
    ensures Ones(n) == [] <==> n == 0
  {
    if n > 0 {
      OnesStep(n);
    }
  }

  // ---- counting bits ----

  /** `n & ((1 << i) - 1)`. */
  function Low(n: nat, i: nat): nat {
    if i == 0 then 0 else n % 2 + 2 * Low(n / 2, i - 1)
  }

  lemma PopJoin(d: nat, m: nat)
    requires d < 2
    ensures PopCount(d + 2 * m) == d + PopCount(m)
  {
    assert (d + 2 * m) / 2 == m && (d + 2 * m) % 2 == d;
  }

  /** A lowest digit in front keeps how far two counts are apart. */
  lemma PopApart(d: nat, a: nat, b: nat, c: int)
    requires d < 2 && PopCount(b) == PopCount(a) + c
    ensures PopCount(d + 2 * b) == PopCount(d + 2 * a) + c
  {
    PopJoin(d, a);
    PopJoin(d, b);
  }

  lemma {:induction false} PopLowNext(n: nat, i: nat)
    ensures PopCount(Low(n, i + 1)) == PopCount(Low(n, i)) + if Bit(n, i) then 1 else 0
  {
    if i > 0 {
      PopLowNext(n / 2, i - 1);
      PopApart(n % 2, Low(n / 2, i - 1), Low(n / 2, i), if Bit(n, i) then 1 else 0);
    } else {
      assert Low(n, 1) == n % 2 && PopCount(n % 2) == n % 2;
    }
  }

  lemma {:induction false} LowAll(n: nat, i: nat)
    requires n < TwoTo(i)
    ensures Low(n, i) == n
  {
    if i > 0 {
      LowAll(n / 2, i - 1);
    }
  }

  lemma {:induction false} PopClear(n: nat, i: nat)
    ensures PopCount(ClearBit(n, i)) == PopCount(n) - if Bit(n, i) then 1 else 0
  {
    if i > 0 {
      var c := if Bit(n, i) then -1 else 0;
      PopClear(n / 2, i - 1);
      PopBelow(n, n / 2, ClearBit(n / 2, i - 1), c);
    } else {
      PopJoin(0, n / 2);
    }
  }

  lemma PopBelow(n: nat, m: nat, k: nat, c: int)
    requires m == n / 2 && PopCount(k) == PopCount(m) + c
    ensures PopCount(n % 2 + 2 * k) == PopCount(n) + c
  {
    assert n == n % 2 + 2 * m;
    PopApart(n % 2, m, k, c);
  }

  lemma {:induction false} BitClear(n: nat, i: nat, j: nat)
    ensures Bit(ClearBit(n, i), j) <==> Bit(n, j) && i != j
  {
    if i > 0 && j > 0 {
      BitClear(n / 2, i - 1, j - 1);
    }
  }

  lemma {:induction false} ClearSmaller(n: nat, i: nat)
    ensures ClearBit(n, i) <= n
  {
    if i > 0 {
      ClearSmaller(n / 2, i - 1);
    }
  }
}
