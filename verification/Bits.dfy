/** Bitwise operations on natural numbers, by recursion on the binary digits. */
module Bits {
  import opened Base

  function And(x: nat, y: nat): nat {
    if x == 0 || y == 0 then 0
    else 2 * And(x / 2, y / 2) + (if x % 2 == 1 && y % 2 == 1 then 1 else 0)
  }

  function Or(x: nat, y: nat): int { x + y - And(x, y) }

  function Xor(x: nat, y: nat): int { x + y - 2 * And(x, y) }

  /** The 32-bit complement. */
  function Not(x: int): int { W32 - 1 - x }

  lemma {:induction false} AndBounds(x: nat, y: nat)
    ensures And(x, y) <= x && And(x, y) <= y && And(x, y) == And(y, x)
  {
    if x != 0 && y != 0 { AndBounds(x / 2, y / 2); }
  }

  /** Masks that share no bit select parts that add up. */
  lemma {:induction false} AndSum(v: nat, a: nat, b: nat)
    requires And(a, b) == 0
    ensures And(v, a) + And(v, b) == And(v, a + b)
  {
    if v != 0 && a != 0 && b != 0 { AndSum(v / 2, a / 2, b / 2); }
  }

  lemma {:induction false} AndIdempotent(v: nat, a: nat)
    ensures And(And(v, a), a) == And(v, a)
  {
    if v != 0 && a != 0 { AndIdempotent(v / 2, a / 2); }
  }

  lemma {:induction false} AndLowOnes(v: nat, n: nat)
    requires v < Pow2(n)
    ensures And(v, Pow2(n) - 1) == v
  {
    if n > 0 && v > 0 { AndLowOnes(v / 2, n - 1); }
  }

  lemma {:induction false} AndNot(a: nat, n: nat)
    requires a < Pow2(n)
    ensures And(a, Pow2(n) - 1 - a) == 0
  {
    if n > 0 && a > 0 { AndNot(a / 2, n - 1); }
  }

  /** And works separately above and below any bit position `k`. */
  lemma {:induction false} AndConcat(k: nat, x: nat, h: nat, l: nat, y: nat, h': nat, l': nat)
    requires l < Pow2(k) && l' < Pow2(k) && x == h * Pow2(k) + l && y == h' * Pow2(k) + l'
    ensures And(x, y) == And(h, h') * Pow2(k) + And(l, l')
    decreases k
  {
    if k > 0 {
      var p, q := Pow2(k - 1), Pow2(k);
      var a: int := And(h, h');
      var high: int := a * p;
      Halve(h, p, q, l, x);
      Halve(h', p, q, l', y);
      AndConcat(k - 1, x / 2, h, l / 2, y / 2, h', l' / 2);
      ConcatStep(x, y, l, l', high);
      Double(a, p, q);
    } else {
      assert l == 0 && l' == 0 && x == h && y == h';
    }
  }

  lemma Double(a: int, p: int, q: int)
    requires q == 2 * p
    ensures a * q == 2 * (a * p)
  {
  }

  lemma ConcatStep(x: nat, y: nat, l: nat, l': nat, high: int)
    requires And(x / 2, y / 2) == high + And(l / 2, l' / 2) && x % 2 == l % 2 && y % 2 == l' % 2
    ensures And(x, y) == 2 * high + And(l, l')
  {
    AndStep(x, y);
    AndStep(l, l');
  }

  lemma Halve(h: nat, p: nat, q: nat, l: nat, x: nat)
    requires q == 2 * p && x == h * q + l
    ensures x / 2 == h * p + l / 2 && x % 2 == l % 2
  {
    Double(h, p, q);
  }

  lemma AndStep(x: nat, y: nat)
    ensures And(x, y) == 2 * And(x / 2, y / 2) + (if x % 2 == 1 && y % 2 == 1 then 1 else 0)
  {
  }

  lemma {:induction false} Pow2Value(n: nat)
    ensures n == 8 ==> Pow2(n) == 0x100
    ensures n == 30 ==> Pow2(n) == 0x4000_0000
    ensures n == 32 ==> Pow2(n) == W32
  {
    var one, two, four, eight, sixteen, thirty := 1, 2, 4, 8, 16, 30;
    assert Pow2(one) == 2;
    Pow2Add(one, one);
    Pow2Add(two, two);
    Pow2Add(four, four);
    Pow2Add(eight, eight);
    Pow2Add(sixteen, sixteen);
    Pow2Add(thirty, two);
    assert Pow2(thirty) * 4 == W32;
  }

  /** Below the mask's complement: x & ~y keeps what x & y drops. */
  lemma AndComplement(x: nat, y: nat, n: nat)
    requires x < Pow2(n) && y < Pow2(n)
    ensures And(x, Pow2(n) - 1 - y) == x - And(x, y)
  {
    AndNot(y, n);
    AndSum(x, y, Pow2(n) - 1 - y);
    AndLowOnes(x, n);
  }

  lemma OrBound(x: nat, y: nat, n: nat)
    requires x < Pow2(n) && y < Pow2(n)
    ensures x <= Or(x, y) < Pow2(n) && 0 <= Xor(x, y) <= Or(x, y)
  {
    AndBounds(x, y);
    AndComplement(y, x, n);
    AndBounds(y, Pow2(n) - 1 - x);
  }
}
