/** Rounding up to alignments, which are powers of two. */
module Rounding {
  import opened Division

  predicate PowerOfTwo(a: nat) { a == 1 || (a > 0 && a % 2 == 0 && PowerOfTwo(a / 2)) }

  /** (x + (a - 1)) & ~(a - 1) for a power of two a: the least multiple of a from x on. */
  function Up(x: nat, a: nat): (r: nat)
    requires a > 0
    ensures x <= r < x + a
  {
    if x == 0 then 0 else if x <= a then a else a + Up(x - a, a)
  }

  lemma HalfPower(a: nat) returns (b: nat)
    requires PowerOfTwo(a) && a > 1
    ensures a == 2 * b && PowerOfTwo(b)
  {
    b := a / 2;
  }

  lemma SmallPowers(a: nat)
    requires PowerOfTwo(a)
    ensures a == 1 || a == 2 || a == 4 || a == 8 || a == 16 || (a >= 32 && a % 32 == 0)
  {
    if a > 1 {
      var b := HalfPower(a);
      if b > 1 {
        var c := HalfPower(b);
        if c > 1 {
          var d := HalfPower(c);
          if d > 1 {
            var e := HalfPower(d);
            if e > 1 { var f := HalfPower(e); }
          }
        }
      }
    }
  }

  lemma {:induction false} UpScale(s: nat, a: nat)
    requires a > 0
    ensures Up(4 * s, 4 * a) == 4 * Up(s, a)
    decreases s
  {
    if s > a { UpScale(s - a, a); }
  }

  lemma {:induction false} UpEight(x: nat, a: nat)
    requires a > 0 && a % 8 == 0
    ensures Up(x, a) % 8 == 0
    decreases x
  {
    if x > a { UpEight(x - a, a); }
  }

  lemma {:induction false} UpExact(x: nat, a: nat, q: nat)
    requires a > 0 && x == q * a
    ensures Up(x, a) == x
    decreases q
  {
    if q > 1 {
      assert x - a == (q - 1) * a;
      assert (q - 1) * a >= a;
      UpExact(x - a, a, q - 1);
    }
  }

  /** Rounding up a multiple of eight gives a multiple of eight. */
  lemma UpKeepsEight(x: nat, a: nat)
    requires PowerOfTwo(a) && x % 8 == 0
    ensures Up(x, a) % 8 == 0
  {
    SmallPowers(a);
    if a <= 4 { UpSmall(x, a, x / 8); } else { UpEight(x, a); }
  }

  lemma UpSmall(x: nat, a: nat, e: nat)
    requires (a == 1 || a == 2 || a == 4) && x == 8 * e
    ensures Up(x, a) == x
  {
    if a == 1 { UpExact(x, a, x); } else if a == 2 { UpExact(x, a, 4 * e); } else { UpExact(x, a, 2 * e); }
  }

  /** Of the numbers from x on, Up(x, a) is the first that a divides. */
  predicate FirstMultiple(x: int, a: int, r: int)
    requires a > 0
  {
    x <= r < x + a && r % a == 0
  }

  lemma {:induction false} UpMultiple(x: nat, a: nat) returns (q: nat)
    requires a > 0
    ensures Up(x, a) == q * a
    decreases x
  {
    if x == 0 {
      q := 0;
    } else if x <= a {
      q := 1;
    } else {
      var p := UpMultiple(x - a, a);
      q := p + 1;
    }
  }

  lemma UpFirst(x: nat, a: nat)
    requires a > 0
    ensures FirstMultiple(x, a, Up(x, a))
  {
    var q := UpMultiple(x, a);
    Divide(Up(x, a), a, q, 0);
  }

  /** Nothing between x and the first multiple is one. */
  lemma NoneBefore(x: int, a: int, r: int, y: int)
    requires a > 0 && FirstMultiple(x, a, r) && x <= y < r
    ensures y % a != 0
  {
    if y % a == 0 {
      DivMod(r, a);
      DivMod(y, a);
      Ordered(y / a, r / a, a);
    }
  }

  lemma Ordered(p: int, q: int, a: int)
    requires a > 0 && p * a < q * a
    ensures p * a + a <= q * a
  {
    var d := q - p;
    assert d * a == q * a - p * a;
    assert d <= 0 ==> d * a <= 0;
    assert d >= 1 ==> d * a >= a;
  }
}
