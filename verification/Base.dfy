/** Shared types and numbers. A call of the C function `tcc_error`, which never returns, is None or a false result. */
module Base {
  const W32 := 0x1_0000_0000
  const W64 := 0x1_0000_0000_0000_0000

  datatype Option<+T> = None | Some(value: T)

  /** The C int that holds x modulo 2^32. */
  function ToInt(x: int): int {
    var u := x % W32;
    if u < 0x8000_0000 then u else u - W32
  }

  function Pow2(n: nat): (p: nat)
    ensures p >= 1
  {
    if n == 0 then 1 else 2 * Pow2(n - 1)
  }

  lemma {:induction false} Pow2Add(m: nat, n: nat)
    ensures Pow2(m + n) == Pow2(m) * Pow2(n)
  {
    if n > 0 {
      Pow2Add(m, n - 1);
      assert Pow2(m) * Pow2(n) == 2 * (Pow2(m) * Pow2(n - 1));
    }
  }
}
