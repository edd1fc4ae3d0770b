/** Powers of two and the bit mask that the ring uses instead of a remainder. */
module PowerOfTwo {

  function TwoTo(k: nat): (r: nat)
    ensures r > 0
  {
    if k == 0 then 1 else 2 * TwoTo(k - 1)
  }

  ghost predicate IsPow2(n: nat) {
    exists k: nat :: n == TwoTo(k)
  }

  lemma Pow2Halves(n: nat)
    requires IsPow2(n)
    ensures n == 1 || (n == 2 * (n / 2) && n / 2 < n && IsPow2(n / 2))
  {
    var k: nat :| n == TwoTo(k);
    if k > 0 {
      assert n / 2 == TwoTo(k - 1);
    }
  }

  lemma Pow2Doubles(n: nat)
    requires IsPow2(n)
    ensures IsPow2(2 * n)
  {
    var k: nat :| n == TwoTo(k);
    assert 2 * n == TwoTo(k + 1);
  }

  /** Bitwise conjunction of two unsigned integers. */
  function And(x: nat, y: nat): nat
    decreases y
  {
    if y == 0 then 0 else 2 * And(x / 2, y / 2) + (if x % 2 == 1 && y % 2 == 1 then 1 else 0)
  }

  /** The slot `v & (cap - 1)` of version `v` in a ring of `cap` entries. */
  function Slot(v: nat, cap: nat): nat {
    if cap == 0 then 0 else And(v, cap - 1)
  }

  lemma {:induction false} SlotIsRemainder(v: nat, cap: nat)
    requires IsPow2(cap)
    ensures Slot(v, cap) == v % cap
  {
    Pow2Halves(cap);
    if cap > 1 {
      SlotIsRemainder(v / 2, cap / 2);
      ModHalf(v, cap / 2);
    }
  }

  lemma ModHalf(v: nat, h: nat)
    requires h > 0
    ensures v % (2 * h) == 2 * ((v / 2) % h) + v % 2
  {
    var q := v / 2 / h;
    var r := (v / 2) % h;
    assert v / 2 == q * h + r;
    assert v == 2 * (v / 2) + v % 2;
    assert v == q * (2 * h) + (2 * r + v % 2);
    RemainderUnique(v, 2 * h, q, 2 * r + v % 2);
  }

  /** Distinct multiples of `d` are at least `d` apart. */
  lemma MultiplesApart(d: nat, q: int, q': int)
    ensures q < q' ==> q * d + d <= q' * d
  {
    if q < q' {
      var x := q' - q - 1;
      assert x * d >= 0;
      assert q' * d == (q + 1 + x) * d == q * d + d + x * d;
    }
  }

  lemma QuotientUnique(d: nat, q: int, r: nat, q': int, r': nat)
    requires r < d && r' < d && q * d + r == q' * d + r'
    ensures q == q' && r == r'
  {
    MultiplesApart(d, q, q');
    MultiplesApart(d, q', q);
  }

  lemma RemainderUnique(v: int, d: nat, q: int, r: nat)
    requires r < d && v == q * d + r
    ensures v % d == r && v / d == q
  {
    QuotientUnique(d, q, r, v / d, v % d);
  }

  lemma HalfQuotient(v: nat, h: nat)
    requires h > 0
    ensures v / (2 * h) == v / 2 / h
  {
    var q, r := v / 2 / h, v / 2 % h;
    assert v / 2 == q * h + r;
    assert v == q * (2 * h) + (2 * r + v % 2);
    RemainderUnique(v, 2 * h, q, 2 * r + v % 2);
  }

  lemma SlotInRing(v: nat, cap: nat)
    requires IsPow2(cap)
    ensures Slot(v, cap) < cap
  {
    SlotIsRemainder(v, cap);
  }

  /** In a ring of twice the size a version keeps its slot or sits exactly `cap` further. */
  lemma {:induction false} SlotWhenDoubled(v: nat, cap: nat)
    requires IsPow2(cap)
    ensures Slot(v, 2 * cap) == Slot(v, cap) || Slot(v, 2 * cap) == Slot(v, cap) + cap
    decreases cap
  {
    Pow2Halves(cap);
    assert And(v, 2 * cap - 1) == 2 * And(v / 2, cap - 1) + v % 2;
    if cap > 1 {
      SlotWhenDoubled(v / 2, cap / 2);
    }
  }

  lemma RemaindersDistinct(u: nat, v: nat, cap: nat)
    requires u < v < u + cap
    ensures u % cap != v % cap
  {
    var q, q' := u / cap, v / cap;
    MultiplesApart(cap, q, q');
    MultiplesApart(cap, q', q);
    assert u == q * cap + u % cap && v == q' * cap + v % cap;
  }

  /** Versions closer together than the capacity never share a slot. */
  lemma SlotsDistinct(u: nat, v: nat, cap: nat)
    requires IsPow2(cap) && u < v < u + cap
    ensures Slot(u, cap) != Slot(v, cap)
  {
    SlotIsRemainder(u, cap);
    SlotIsRemainder(v, cap);
    RemaindersDistinct(u, v, cap);
  }

  lemma Pow2Times(a: nat, b: nat)
    requires IsPow2(a) && IsPow2(b)
    ensures IsPow2(a * b)
    decreases a
  {
    Pow2Halves(a);
    if a > 1 {
      Pow2Times(a / 2, b);
      Pow2Doubles((a / 2) * b);
      assert a * b == 2 * ((a / 2) * b);
    }
  }
}
