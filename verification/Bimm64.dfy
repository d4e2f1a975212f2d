/** A64 bitmask immediates: the encoder of arm64-gen.c against the architecture's decoder.
    64-bit words are integers; a shift or mask of the source is a division or remainder here. */
module Bimm64 {
  import opened Division
  import opened Base

  /** `y` shifted up by `n`, the vacated bits all equal to `b`. */
  function Grow(b: int, y: int, n: nat): int {
    if n == 0 then y else 2 * Grow(b, y, n - 1) + b
  }

  /** `len` ones starting at bit `pos`. */
  function Run(len: nat, pos: nat): int {
    Pow2(pos + len) - Pow2(pos)
  }

  predicate IsSize(rep: int) {
    rep == 2 || rep == 4 || rep == 8 || rep == 16 || rep == 32 || rep == 64
  }

  /** 2 to the `k` for the shift counts that occur as constants. */
  function Two(k: int): (p: int)
    ensures p >= 2
  {
    if k == 2 then 0x4 else if k == 4 then 0x10 else if k == 8 then 0x100 else if k == 16 then 0x1_0000
    else if k == 32 then 0x1_0000_0000 else if k == 64 then W64 else 2
  }

  // ---- The reference: DecodeBitMasks ----

  function Ror1(rep: nat, y: int): int
    requires rep >= 1
  {
    y / 2 + (if y % 2 == 1 then Pow2(rep - 1) else 0)
  }

  function Ror(rep: nat, y: int, n: nat): int
    requires rep >= 1
  {
    if n == 0 then y else Ror1(rep, Ror(rep, y, n - 1))
  }

  /** An element of `rep` bits repeated over 64 bits. */
  function Replicate(rep: int, y: int): int
    requires IsSize(rep)
  {
    if rep == 2 then y * 0x5555_5555_5555_5555 else if rep == 4 then y * 0x1111_1111_1111_1111
    else if rep == 8 then y * 0x0101_0101_0101_0101 else if rep == 16 then y * 0x0001_0001_0001_0001
    else if rep == 32 then y * 0x0000_0001_0000_0001 else y
  }

  /** Element size selected by N:imms, or 0 for a reserved encoding. */
  function ElementSize(e: int): (rep: int)
    ensures rep == 0 || IsSize(rep)
  {
    var imms := e % 64;
    if e / 4096 % 2 == 1 then 64
    else if imms < 32 then 32 else if imms < 48 then 16 else if imms < 56 then 8
    else if imms < 60 then 4 else if imms < 62 then 2 else 0
  }

  /** Section J1.1 of DDI 0487 on the 13-bit field N:immr:imms. */
  function Decode(e: int): Option<int> {
    var rep := ElementSize(e);
    if !(0 <= e < 0x2000) || rep == 0 || e % 64 % rep == rep - 1 then None
    else Some(Replicate(rep, Ror(rep, Pow2(e % 64 % rep + 1) - 1, e / 64 % 64 % rep)))
  }

  /** No bits of immr are set above the element size. */
  predicate Canonical(e: int) {
    Decode(e).Some? && e / 64 % 64 < ElementSize(e)
  }

  // ---- Arithmetic of runs ----

  lemma {:induction false} GrowAdd(b: int, y: int, m: nat, n: nat)
    ensures Grow(b, Grow(b, y, m), n) == Grow(b, y, m + n)
  {
    if n > 0 { GrowAdd(b, y, m, n - 1); }
  }

  /** Growing by a power of two of places at once. */
  lemma {:induction false} GrowTwo(b: int, y: int, k: int)
    requires IsSize(k) || k == 1
    ensures Grow(b, y, k) == y * Two(k) + b * (Two(k) - 1)
    decreases k
  {
    if k == 1 {
      assert Grow(b, y, 0) == y;
    } else {
      GrowTwo(b, y, k / 2);
      GrowTwo(b, Grow(b, y, k / 2), k / 2);
      GrowAdd(b, y, k / 2, k / 2);
    }
  }

  lemma {:induction false} GrowPow(n: nat, m: nat)
    ensures Grow(0, Pow2(m), n) == Pow2(m + n)
  {
    if n > 0 { GrowPow(n - 1, m); }
  }

  lemma PowTwo(k: int, m: nat)
    requires IsSize(k) || k == 1
    ensures Pow2(m + k) == Pow2(m) * Two(k) && Pow2(k) == Two(k)
  {
    GrowPow(k, m);
    GrowTwo(0, Pow2(m), k);
    GrowPow(k, 0);
    GrowTwo(0, 1, k);
  }

  lemma {:induction false} PowMonotone(m: nat, n: nat)
    requires m <= n
    ensures Pow2(m) <= Pow2(n)
  {
    if m < n { PowMonotone(m, n - 1); }
  }

  lemma {:induction false} GrowOnes(n: nat)
    ensures Grow(1, 0, n) == Pow2(n) - 1
  {
    if n > 0 { GrowOnes(n - 1); }
  }

  lemma {:induction false} GrowRun(len: nat, pos: nat)
    ensures Grow(0, Pow2(len) - 1, pos) == Run(len, pos)
  {
    if pos > 0 { GrowRun(len, pos - 1); }
  }

  /** The number of trailing `b` bits and what lies above them are determined by the word. */
  lemma GrowParity(b: int, y: int, n: nat)
    requires 0 <= b <= 1 && n > 0
    ensures Grow(b, y, n) % 2 == b && Grow(b, y, n) / 2 == Grow(b, y, n - 1)
  {
  }

  lemma {:induction false} GrowUnique(b: int, y: int, m: nat, z: int, n: nat)
    requires 0 <= b <= 1 && y % 2 != b && z % 2 != b
    requires Grow(b, y, m) == Grow(b, z, n)
    ensures m == n && y == z
    decreases m + n
  {
    if m > 0 { GrowParity(b, y, m); }
    if n > 0 { GrowParity(b, z, n); }
    if m > 0 && n > 0 { GrowUnique(b, y, m - 1, z, n - 1); }
  }

  lemma RunUnique(len: nat, pos: nat, len': nat, pos': nat)
    requires len > 0 && len' > 0 && Run(len, pos) == Run(len', pos')
    ensures len == len' && pos == pos'
  {
    GrowRun(len, pos);
    GrowRun(len', pos');
    GrowUnique(0, Pow2(len) - 1, pos, Pow2(len') - 1, pos');
    GrowOnes(len);
    GrowOnes(len');
    GrowUnique(1, 0, len, 0, len');
  }

  lemma PowStep(n: nat)
    requires n > 0
    ensures Pow2(n) == 2 * Pow2(n - 1)
  {
  }

  lemma Ror1Even(rep: nat, y: int)
    requires rep >= 1
    ensures Ror1(rep, 2 * y) == y && Ror1(rep, 2 * y - 1) == y - 1 + Pow2(rep - 1)
  {
  }

  /** Rotating a low block of ones: it wraps round until it has moved by its own length. */
  function Rotated(rep: nat, len: nat, n: nat): int
    requires 1 <= len < rep && n < rep
  {
    if n < len then Pow2(rep) - 1 - Run(rep - len, len - n) else Run(len, rep - n)
  }

  lemma RotatedStep(rep: nat, len: nat, n: nat)
    requires 1 <= len < rep && 1 <= n < rep
    ensures Ror1(rep, Rotated(rep, len, n - 1)) == Rotated(rep, len, n)
  {
    PowStep(rep);
    PowStep(rep - n + 1);
    if n <= len {
      PowStep(len - n + 1);
      var z := Pow2(rep - 1) - Pow2(rep - n) + Pow2(len - n);
      assert Rotated(rep, len, n - 1) == 2 * z - 1;
      Ror1Even(rep, z);
    } else {
      PowStep(len + rep - n + 1);
      var z := Run(len, rep - n);
      assert Rotated(rep, len, n - 1) == 2 * z;
      Ror1Even(rep, z);
    }
  }

  lemma {:induction false} RotatedOnes(rep: nat, len: nat, n: nat)
    requires 1 <= len < rep && n < rep
    ensures Ror(rep, Pow2(len) - 1, n) == Rotated(rep, len, n)
  {
    if n == 0 {
      assert Rotated(rep, len, 0) == Pow2(rep) - 1 - Run(rep - len, len);
    } else {
      RotatedOnes(rep, len, n - 1);
      RotatedStep(rep, len, n);
    }
  }

  // ---- Periods ----

  /** The low `p` bits. */
  function Low(p: int, x: int): int
    requires IsSize(p)
  {
    if p == 2 then x % 0x4 else if p == 4 then x % 0x10 else if p == 8 then x % 0x100
    else if p == 16 then x % 0x1_0000 else if p == 32 then x % 0x1_0000_0000 else x % W64
  }

  /** The encoder's test for a period of `p` bits: x >> p against the low 64 - p bits of x. */
  predicate Periodic(p: int, x: int)
    requires IsSize(p)
  {
    if p == 2 then x / 0x4 == x % 0x4000_0000_0000_0000
    else if p == 4 then x / 0x10 == x % 0x1000_0000_0000_0000
    else if p == 8 then x / 0x100 == x % 0x100_0000_0000_0000
    else if p == 16 then x / 0x1_0000 == x % 0x1_0000_0000_0000
    else if p == 32 then x / 0x1_0000_0000 == x % 0x1_0000_0000
    else true
  }

  lemma Period2(x: int)
    requires 0 <= x < W64 && x / 0x4 == x % 0x4000_0000_0000_0000
    ensures x == x % 0x4 * 0x5555_5555_5555_5555
  {
    var t := x / 0x4000_0000_0000_0000;
    assert 0x3 * (x - t * 0x5555_5555_5555_5555) == t - x % 0x4;
  }

  lemma Period4(x: int)
    requires 0 <= x < W64 && x / 0x10 == x % 0x1000_0000_0000_0000
    ensures x == x % 0x10 * 0x1111_1111_1111_1111
  {
    var t := x / 0x1000_0000_0000_0000;
    assert 0xf * (x - t * 0x1111_1111_1111_1111) == t - x % 0x10;
  }

  lemma Period8(x: int)
    requires 0 <= x < W64 && x / 0x100 == x % 0x100_0000_0000_0000
    ensures x == x % 0x100 * 0x101_0101_0101_0101
  {
    var t := x / 0x100_0000_0000_0000;
    assert 0xff * (x - t * 0x101_0101_0101_0101) == t - x % 0x100;
  }

  lemma Period16(x: int)
    requires 0 <= x < W64 && x / 0x1_0000 == x % 0x1_0000_0000_0000
    ensures x == x % 0x1_0000 * 0x1_0001_0001_0001
  {
    var t := x / 0x1_0000_0000_0000;
    assert 0xffff * (x - t * 0x1_0001_0001_0001) == t - x % 0x1_0000;
  }

  lemma Period32(x: int)
    requires 0 <= x < W64 && x / 0x1_0000_0000 == x % 0x1_0000_0000
    ensures x == x % 0x1_0000_0000 * 0x1_0000_0001
  {
    var t := x / 0x1_0000_0000;
    assert 0xffff_ffff * (x - t * 0x1_0000_0001) == t - x % 0x1_0000_0000;
  }

  lemma PeriodicIsReplicated(p: int, x: int)
    requires IsSize(p) && 0 <= x < W64 && Periodic(p, x)
    ensures x == Replicate(p, Low(p, x))
  {
    if p == 2 { Period2(x); } else if p == 4 { Period4(x); } else if p == 8 { Period8(x); }
    else if p == 16 { Period16(x); } else if p == 32 { Period32(x); }
  }

  lemma Repeat2(y: int)
    requires 0 <= y < 0x4
    ensures var x := y * 0x5555_5555_5555_5555; 0 <= x < W64 && x / 0x4 == x % 0x4000_0000_0000_0000 && x % 0x4 == y
  {
    var q := y * 0x1555_5555_5555_5555;
    Divide(y * 0x5555_5555_5555_5555, 0x4, q, y);
    Divide(y * 0x5555_5555_5555_5555, 0x4000_0000_0000_0000, y, q);
  }

  lemma Repeat4(y: int)
    requires 0 <= y < 0x10
    ensures var x := y * 0x1111_1111_1111_1111; 0 <= x < W64 && x / 0x10 == x % 0x1000_0000_0000_0000 && x % 0x10 == y
  {
    var q := y * 0x111_1111_1111_1111;
    Divide(y * 0x1111_1111_1111_1111, 0x10, q, y);
    Divide(y * 0x1111_1111_1111_1111, 0x1000_0000_0000_0000, y, q);
  }

  lemma Repeat8(y: int)
    requires 0 <= y < 0x100
    ensures var x := y * 0x101_0101_0101_0101; 0 <= x < W64 && x / 0x100 == x % 0x100_0000_0000_0000 && x % 0x100 == y
  {
    var q := y * 0x1_0101_0101_0101;
    Divide(y * 0x101_0101_0101_0101, 0x100, q, y);
    Divide(y * 0x101_0101_0101_0101, 0x100_0000_0000_0000, y, q);
  }

  lemma Repeat16(y: int)
    requires 0 <= y < 0x1_0000
    ensures var x := y * 0x1_0001_0001_0001; 0 <= x < W64 && x / 0x1_0000 == x % 0x1_0000_0000_0000 && x % 0x1_0000 == y
  {
    var q := y * 0x1_0001_0001;
    Divide(y * 0x1_0001_0001_0001, 0x1_0000, q, y);
    Divide(y * 0x1_0001_0001_0001, 0x1_0000_0000_0000, y, q);
  }

  lemma Repeat32(y: int)
    requires 0 <= y < 0x1_0000_0000
    ensures var x := y * 0x1_0000_0001; 0 <= x < W64 && x / 0x1_0000_0000 == x % 0x1_0000_0000 && x % 0x1_0000_0000 == y
  {
    var q := y * 0x1;
    Divide(y * 0x1_0000_0001, 0x1_0000_0000, q, y);
    Divide(y * 0x1_0000_0001, 0x1_0000_0000, y, q);
  }

  lemma ReplicatedIsPeriodic(p: int, y: int)
    requires IsSize(p) && 0 <= y < Two(p)
    ensures 0 <= Replicate(p, y) < W64 && Periodic(p, Replicate(p, y)) && Low(p, Replicate(p, y)) == y
  {
    if p == 2 { Repeat2(y); } else if p == 4 { Repeat4(y); } else if p == 8 { Repeat8(y); }
    else if p == 16 { Repeat16(y); } else if p == 32 { Repeat32(y); }
  }

  lemma PeriodDoubles(p: int, x: int)
    requires IsSize(p) && p < 64 && 0 <= x < W64 && Periodic(p, x)
    ensures Periodic(2 * p, x)
  {
    PeriodicIsReplicated(p, x);
    var y := Low(p, x);
    ReplicatedIsPeriodic(2 * p, y * Two(p) + y);
  }

  /** Positive, even, and below the first power of two that it does not reach. */
  lemma RunBounds(len: nat, pos: nat, n: nat)
    requires len >= 1 && pos >= 1 && pos + len <= n
    ensures 0 < Run(len, pos) < Pow2(n) && Run(len, pos) % 2 == 0
  {
    PowMonotone(pos + len, n);
    PowMonotone(pos + 1, pos + len);
    PowStep(pos);
    PowStep(pos + len);
  }

  lemma RunAbove(h: nat, m: nat, n: nat)
    ensures Pow2(n + h) - Pow2(m + h) == (Pow2(n) - Pow2(m)) * Pow2(h)
  {
    Pow2Add(m, h);
    Pow2Add(n, h);
  }

  lemma RunAcross(h: nat, m: nat, k: nat)
    ensures Pow2(k + h) - Pow2(m) == (Pow2(k) - 1) * Pow2(h) + (Pow2(h) - Pow2(m))
  {
    Pow2Add(k, h);
  }

  lemma PowEven(n: nat)
    requires n > 0
    ensures Pow2(n) % 2 == 0
  {
  }

  /** Where a run above bit 0 falls when the word is cut at bit `h`. */
  lemma RunCut(h: nat, len: nat, pos: nat) returns (hi: int, lo: int)
    requires len >= 1 && pos >= 1 && pos + len <= 2 * h
    ensures Run(len, pos) == hi * Pow2(h) + lo && 0 <= lo < Pow2(h)
    ensures hi == 0 || lo == 0 || (hi % 2 == 1 && lo % 2 == 0)
  {
    if pos + len <= h {
      RunBounds(len, pos, h);
      hi, lo := 0, Run(len, pos);
    } else if pos >= h {
      RunAbove(h, pos - h, pos + len - h);
      hi, lo := Pow2(pos + len - h) - Pow2(pos - h), 0;
    } else {
      hi, lo := RunSplit(h, pos, pos + len - h, len);
    }
  }

  lemma RunSplit(h: nat, pos: nat, k: nat, len: nat) returns (hi: int, lo: int)
    requires 1 <= pos < h && k >= 1 && len == h + k - pos
    ensures Run(len, pos) == hi * Pow2(h) + lo && 0 <= lo < Pow2(h) && hi % 2 == 1 && lo % 2 == 0
  {
    RunAcross(h, pos, k);
    RunBounds(h - pos, pos, h);
    PowEven(k);
    hi, lo := Pow2(k) - 1, Run(h - pos, pos);
  }

  /** A run that starts above bit 0 and fits in 2h bits has two different halves. */
  lemma RunHalvesDiffer(h: nat, len: nat, pos: nat, lo: int)
    requires len >= 1 && pos >= 1 && pos + len <= 2 * h && 0 <= lo < Pow2(h)
    ensures Run(len, pos) != lo * Pow2(h) + lo
  {
    RunBounds(len, pos, 2 * h);
    if Run(len, pos) == lo * Pow2(h) + lo {
      var q, r := RunCut(h, len, pos);
      QuotientUnique(Pow2(h), lo, lo, q, r);
    }
  }

  /** What a decoded word looks like after the encoder has cleared bit 0 by complementing. */
  ghost predicate IsForm(x: int, rep: int, len: nat, pos: nat) {
    IsSize(rep) && len >= 1 && pos >= 1 && pos + len <= rep && 0 <= x < W64 &&
    (if x % 2 == 1 then W64 - 1 - x else x) == Replicate(rep, Run(len, pos))
  }

  lemma ReplicateEven(rep: int, y: int)
    requires IsSize(rep) && y % 2 == 0 && y > 0
    ensures Replicate(rep, y) % 2 == 0 && Replicate(rep, y) > 0
  {
    var h := y / 2;
    DoubleElement(rep, y, h);
    TwiceEven(Replicate(rep, y), Replicate(rep, h));
  }

  lemma DoubleElement(rep: int, y: int, h: int)
    requires IsSize(rep) && y == 2 * h
    ensures Replicate(rep, y) == 2 * Replicate(rep, h) && (y > 0 ==> Replicate(rep, y) > 0)
  {
  }

  lemma RunFits(rep: int, len: nat, pos: nat)
    requires IsSize(rep) && len >= 1 && pos >= 1 && pos + len <= rep
    ensures 0 < Run(len, pos) < Two(rep) && Run(len, pos) % 2 == 0
    ensures Replicate(rep, Run(len, pos)) % 2 == 0
    ensures Periodic(rep, Replicate(rep, Run(len, pos)))
    ensures Low(rep, Replicate(rep, Run(len, pos))) == Run(len, pos)
    ensures 0 < Replicate(rep, Run(len, pos)) < W64
  {
    var y := Run(len, pos);
    RunBounds(len, pos, rep);
    PowTwo(rep, 0);
    ReplicatedIsPeriodic(rep, y);
    ReplicateEven(rep, y);
  }

  lemma {:induction false} NoSmallerPeriod(q: int, rep: int, len: nat, pos: nat)
    requires IsSize(q) && IsSize(rep) && q < rep && len >= 1 && pos >= 1 && pos + len <= rep
    ensures !Periodic(q, Replicate(rep, Run(len, pos)))
    decreases rep - q
  {
    var x := Replicate(rep, Run(len, pos));
    RunFits(rep, len, pos);
    if Periodic(q, x) {
      if 2 * q < rep {
        NoSmallerPeriod(2 * q, rep, len, pos);
        PeriodDoubles(q, x);
      } else {
        PeriodicIsReplicated(q, x);
        PowTwo(q, 0);
        RunHalvesDiffer(q, len, pos, Low(q, x));
      }
    }
  }

  lemma FormUnique(x: int, rep: int, len: nat, pos: nat, rep': int, len': nat, pos': nat)
    requires IsForm(x, rep, len, pos) && IsForm(x, rep', len', pos')
    ensures rep == rep' && len == len' && pos == pos'
  {
    RunFits(rep, len, pos);
    RunFits(rep', len', pos');
    if rep < rep' { NoSmallerPeriod(rep, rep', len', pos'); }
    if rep' < rep { NoSmallerPeriod(rep', rep, len, pos); }
    RunUnique(len, pos, len', pos');
  }

  lemma ReplicateComplement(rep: int, y: int, v: int)
    requires IsSize(rep) && y + v == Two(rep) - 1
    ensures Replicate(rep, v) == W64 - 1 - Replicate(rep, y)
  {
  }

  lemma PowSize(rep: int)
    requires IsSize(rep)
    ensures Pow2(rep) == Two(rep)
  {
    PowTwo(rep, 0);
  }

  lemma PlainForm(rep: int, len: nat, pos: nat, v: int)
    requires IsSize(rep) && len >= 1 && pos >= 1 && pos + len <= rep && v == Run(len, pos)
    ensures var x := Replicate(rep, v); IsForm(x, rep, len, pos) && x % 2 == 0
  {
    RunFits(rep, len, pos);
  }

  lemma OddComplement(r: int, x: int)
    requires 0 < r < W64 && r % 2 == 0 && x == W64 - 1 - r
    ensures 0 <= x < W64 && x % 2 == 1 && W64 - 1 - x == r
  {
  }

  lemma InvertedForm(rep: int, len: nat, pos: nat, v: int)
    requires IsSize(rep) && len >= 1 && pos >= 1 && pos + len <= rep && Run(len, pos) + v == Two(rep) - 1
    ensures var x := Replicate(rep, v); IsForm(x, rep, len, pos) && x % 2 == 1
  {
    RunFits(rep, len, pos);
    var r := Replicate(rep, Run(len, pos));
    ReplicateComplement(rep, Run(len, pos), v);
    OddComplement(r, Replicate(rep, v));
  }

  lemma FormOfRotated(rep: int, len: nat, n: nat, v: int)
    requires IsSize(rep) && 1 <= len < rep && n < rep && v == Rotated(rep, len, n)
    ensures var x := Replicate(rep, v);
            (if n < len then IsForm(x, rep, rep - len, len - n) else IsForm(x, rep, len, rep - n)) &&
            (x % 2 == 1 <==> n < len)
  {
    PowSize(rep);
    if n < len { InvertedForm(rep, rep - len, len - n, v); } else { PlainForm(rep, len, rep - n, v); }
  }

  // ---- Fields of an encoding ----

  /** The bits of imms that only select the element size: ((rep - 1) ^ 31) << 1 & 63. */
  function SizeBits(rep: int): int {
    if rep == 2 then 60 else if rep == 4 then 56 else if rep == 8 then 48 else if rep == 16 then 32 else 0
  }

  /** The encoding with element size `rep`, `len` ones, rotated right by `n`. */
  function Code(rep: int, len: int, n: int): int {
    (if rep == 64 then 0x1000 else 0) + SizeBits(rep) + n * 64 + (len - 1)
  }

  lemma CodeFields(rep: int, len: nat, n: nat, e: int)
    requires IsSize(rep) && 1 <= len < rep && n < rep && e == Code(rep, len, n)
    ensures e % 64 == SizeBits(rep) + len - 1 && e / 64 % 64 == n && e / 4096 % 2 == (if rep == 64 then 1 else 0)
    ensures 0 <= e < 0x2000
  {
    var low := SizeBits(rep) + len - 1;
    assert 0 <= low < 64;
    var top := if rep == 64 then 1 else 0;
    assert e == (top * 64 + n) * 64 + low;
    assert e / 64 == top * 64 + n;
  }

  lemma SizeBack(rep: int, len: nat, imms: int)
    requires IsSize(rep) && 1 <= len < rep && imms == SizeBits(rep) + len - 1
    ensures imms % rep == len - 1
    ensures rep != 64 ==> rep == if imms < 32 then 32 else if imms < 48 then 16 else if imms < 56 then 8
                                 else if imms < 60 then 4 else 2
  {
    if rep == 2 {} else if rep == 4 {} else if rep == 8 {} else if rep == 16 {} else if rep == 32 {} else {}
  }

  lemma CodeDecodes(rep: int, len: nat, n: nat)
    requires IsSize(rep) && 1 <= len < rep && n < rep
    ensures Canonical(Code(rep, len, n))
    ensures Decode(Code(rep, len, n)) == Some(Replicate(rep, Ror(rep, Pow2(len) - 1, n)))
  {
    var e := Code(rep, len, n);
    CodeFields(rep, len, n, e);
    SizeBack(rep, len, e % 64);
    SmallMod(n, rep);
    assert ElementSize(e) == rep;
  }

  lemma SizeField(imms: int, rep: int, len: int)
    requires 0 <= imms < 64 && IsSize(rep) && len == imms % rep + 1 && len < rep
    requires rep == 64 || rep == (if imms < 32 then 32 else if imms < 48 then 16 else if imms < 56 then 8
                                  else if imms < 60 then 4 else if imms < 62 then 2 else 0)
    ensures imms == SizeBits(rep) + len - 1
  {
    if rep == 2 {} else if rep == 4 {} else if rep == 8 {} else if rep == 16 {} else if rep == 32 {} else {}
  }

  lemma ThreeFields(e: int)
    requires 0 <= e < 0x2000
    ensures e == e / 4096 % 2 * 4096 + e / 64 % 64 * 64 + e % 64
  {
    var q := e / 64;
    assert q / 64 == e / 4096;
  }

  lemma FieldsOf(e: int) returns (rep: int, len: nat, n: nat)
    requires Decode(e).Some?
    ensures IsSize(rep) && 1 <= len < rep && n < rep
    ensures Decode(e) == Some(Replicate(rep, Ror(rep, Pow2(len) - 1, n)))
    ensures rep == ElementSize(e)
    ensures Canonical(e) ==> e == Code(rep, len, n)
  {
    rep := ElementSize(e);
    len, n := e % 64 % rep + 1, e / 64 % 64 % rep;
    SizeField(e % 64, rep, len);
    if Canonical(e) {
      ThreeFields(e);
      SmallMod(e / 64 % 64, rep);
    }
  }

  lemma SmallMod(x: int, m: int)
    requires 0 <= x < m
    ensures x % m == x
  {
  }

  /** The run of zeros or ones clear of bit 0 in a pattern of `len` ones rotated right by `n`. */
  lemma PatternForm(rep: int, len: nat, n: nat) returns (l: nat, p: nat)
    requires IsSize(rep) && 1 <= len < rep && n < rep
    ensures if n < len then l == rep - len && p == len - n else l == len && p == rep - n
    ensures var x := Replicate(rep, Ror(rep, Pow2(len) - 1, n)); IsForm(x, rep, l, p) && (x % 2 == 1 <==> n < len)
  {
    l, p := if n < len then rep - len else len, if n < len then len - n else rep - n;
    FormOfPattern(rep, len, n, Ror(rep, Pow2(len) - 1, n));
  }

  lemma FormOfPattern(rep: int, len: nat, n: nat, v: int)
    requires IsSize(rep) && 1 <= len < rep && n < rep && v == Ror(rep, Pow2(len) - 1, n)
    ensures var x := Replicate(rep, v);
            (if n < len then IsForm(x, rep, rep - len, len - n) else IsForm(x, rep, len, rep - n)) &&
            (x % 2 == 1 <==> n < len)
  {
    RotatedOnes(rep, len, n);
    FormOfRotated(rep, len, n, v);
  }

  /** A value has at most one canonical encoding. */
  lemma CanonicalUnique(e: int, e': int)
    requires Canonical(e) && Canonical(e') && Decode(e) == Decode(e')
    ensures e == e'
  {
    var rep, len, n := FieldsOf(e);
    var rep', len', n' := FieldsOf(e');
    var l, p := PatternForm(rep, len, n);
    var l', p' := PatternForm(rep', len', n');
    FormUnique(Decode(e).value, rep, l, p, rep', l', p');
  }

  // ---- The encoder ----

  lemma {:induction false} GrowAt(b: int, y: int, n: nat)
    ensures Grow(b, y, n) == y * Pow2(n) + b * (Pow2(n) - 1)
  {
    if n > 0 {
      GrowAt(b, y, n - 1);
      var p: int := Pow2(n - 1);
      MulTwo(y, p);
      MulTwo(b, p);
      MulLess(b, p);
      MulLess(b, 2 * p);
    }
  }

  lemma TwoDigits(m: int, q: int, d: int, r: int)
    requires 0 <= d < m && 0 <= r < m
    ensures (q * m + d) * m + r == q * (m * m) + (d * m + r)
    ensures 0 <= d * m + r < m * m
  {
    Distribute(q * m, d, m);
    Associate(q, m, m);
    NotNegative(d, m);
    NotNegative(m - 1 - d, m);
    Distribute(m - 1 - d, d + 1, m);
    Distribute(d, 1, m);
  }

  lemma ModSquare(x: int, m: int)
    requires x >= 0 && m > 0
    ensures x % (m * m) == (x / m % m) * m + x % m
  {
    DivMod(x, m);
    DivMod(x / m, m);
    var q, d, r := x / m / m, x / m % m, x % m;
    TwoDigits(m, q, d, r);
    var mm := m * m;
    DivMod(x, mm);
    QuotientUnique(mm, x / mm, x % mm, q, d * m + r);
  }

  lemma DivisionShrinks(x: int, m: int)
    requires x >= 0 && m > 0
    ensures 0 <= x / m <= x
  {
    DivMod(x, m);
    NotNegative(x / m, m - 1);
    MulLess(x / m, m);
  }

  lemma FewerRemain(b: int, x: int, m: int)
    requires 0 <= b <= 1 && m > 0 && x >= 0
    requires x % m == b * (m - 1) && x % (m * m) != b * (m * m - 1)
    ensures x / m % m != b * (m - 1) && 0 <= x / m <= x
  {
    ModSquare(x, m);
    var d := x / m % m;
    Distribute(m - 1, 1, m);
    DivisionShrinks(x, m);
  }

  /** `k` more trailing `b` bits are stripped, and fewer than `k` remain. */
  lemma Strip(b: int, x0: int, x: int, n: nat, k: nat, m: int)
    requires 0 <= b <= 1 && m == Pow2(k) && x >= 0 && x0 == Grow(b, x, n)
    requires x % m == b * (m - 1) && x % (m * m) != b * (m * m - 1)
    ensures x0 == Grow(b, x / m, n + k) && 0 <= x / m <= x && x / m % m != b * (m - 1)
  {
    FewerRemain(b, x, m);
    DivMod(x, m);
    GrowAt(b, x / m, k);
    GrowAdd(b, x / m, k, n);
  }

  lemma PowConstants()
    ensures Pow2(1) == 2 && Pow2(2) == 4 && Pow2(4) == 0x10 && Pow2(8) == 0x100
    ensures Pow2(16) == 0x1_0000 && Pow2(32) == 0x1_0000_0000
  {
    Pow2Add(1, 1);
    Pow2Add(2, 2);
    Pow2Add(4, 4);
    Pow2Add(8, 8);
    Pow2Add(16, 16);
  }

  lemma FormValue(x: int, y: int, rep: int, len: nat, pos: nat)
    requires IsForm(x, rep, len, pos) && IsForm(y, rep, len, pos) && x % 2 == y % 2
    ensures x == y
  {
  }

  /** Reduction modulo `rep` of a position that is at most `rep`. */
  lemma Wrap(p: int, rep: int)
    requires 0 <= p <= rep && rep > 0
    ensures p % rep == if p == rep then 0 else p
  {
  }

  /** The value encoded by the fields that the encoder writes for a run of `len` at `pos`. */
  lemma EncodedValue(x: int, rep: int, len: nat, pos: nat, l: nat, n: nat)
    requires IsForm(x, rep, len, pos)
    requires if x % 2 == 1 then l == rep - len && n == rep - pos - len else l == len && n == rep - pos
    ensures Canonical(Code(rep, l, n)) && Decode(Code(rep, l, n)) == Some(x)
  {
    CodeDecodes(rep, l, n);
    var len', pos' := PatternForm(rep, l, n);
    FormValue(x, Decode(Code(rep, l, n)).value, rep, len, pos);
  }

  /** A representable value passes every test of the encoder, at the element size of its run. */
  lemma RepresentableForm(x: int, e: int) returns (rep: int, len: nat, pos: nat)
    requires Decode(e) == Some(x)
    ensures IsForm(x, rep, len, pos)
  {
    var l, n;
    rep, l, n := FieldsOf(e);
    len, pos := PatternForm(rep, l, n);
  }

  /** The element size chosen by the encoder: the first period found. */
  ghost predicate LeastPeriod(rep: int, x: int) {
    IsSize(rep) && Periodic(rep, x) && forall q | IsSize(q) && q < rep :: !Periodic(q, x)
  }

  /** The word after bit 0 has been cleared by complementing. */
  function Even(x: int): int {
    if x % 2 == 1 then W64 - 1 - x else x
  }

  lemma LeastPeriodIsSize(x: int, rep: int, rep': int, len: nat, pos: nat)
    requires IsForm(x, rep', len, pos) && LeastPeriod(rep, Even(x))
    ensures rep == rep' && Low(rep, Even(x)) == Run(len, pos) && Even(x) > 0
  {
    RunFits(rep', len, pos);
    if rep < rep' { NoSmallerPeriod(rep, rep', len, pos); }
  }

  lemma NotRepresentable(x: int, e: int)
    requires 0 <= x < W64 && Even(x) == 0
    ensures Decode(e) != Some(x)
  {
    if Decode(e) == Some(x) {
      var rep, len, pos := RepresentableForm(x, e);
      RunFits(rep, len, pos);
    }
  }

  /** What the two scans leave, `rest`, is zero when the word is representable. */
  lemma ScansAreExact(x: int, e: int, rep: int, odd: int, pos: nat, rest: int, len: nat)
    requires Decode(e) == Some(x) && LeastPeriod(rep, Even(x))
    requires Low(rep, Even(x)) == Grow(0, odd, pos) && odd % 2 == 1
    requires odd == Grow(1, rest, len) && rest % 2 == 0
    ensures rest == 0
  {
    var rep', len', pos' := RepresentableForm(x, e);
    LeastPeriodIsSize(x, rep, rep', len', pos');
    GrowRun(len', pos');
    PowEven(len');
    GrowUnique(0, odd, pos, Pow2(len') - 1, pos');
    GrowOnes(len');
    GrowUnique(1, rest, len, 0, len');
  }

  lemma ScanIsRun(elem: int, odd: int, pos: nat, len: nat)
    requires elem == Grow(0, odd, pos) && odd == Grow(1, 0, len)
    ensures odd == Pow2(len) - 1 && elem == Run(len, pos)
  {
    GrowOnes(len);
    GrowRun(len, pos);
  }

  /** When nothing is left the word is the run that was counted. */
  lemma ScansFindRun(x: int, rep: int, elem: int, odd: int, pos: nat, len: nat)
    requires 0 <= x < W64 && IsSize(rep) && Even(x) == Replicate(rep, elem)
    requires 0 <= elem < Two(rep) && elem % 2 == 0
    requires elem == Grow(0, odd, pos) && odd % 2 == 1 && odd == Grow(1, 0, len)
    ensures IsForm(x, rep, len, pos)
  {
    ScanIsRun(elem, odd, pos, len);
    PowSize(rep);
    RunEndsBelow(len, pos, rep);
  }

  lemma RunEndsBelow(len: nat, pos: nat, n: nat)
    requires (Pow2(len) - 1) % 2 == 1 && Run(len, pos) % 2 == 0 && Run(len, pos) < Pow2(n)
    ensures len >= 1 && pos >= 1 && pos + len <= n
  {
    assert Pow2(0) == 1;
    if pos + len > n {
      var e := pos + len - 1;
      PowMonotone(n, e);
      PowMonotone(pos, e);
    }
  }

  lemma EvenRemainder(x: int, m: int, h: int)
    requires m > 0 && m == 2 * h && x >= 0 && x % 2 == 0
    ensures x % m % 2 == 0 && 0 <= x % m <= x
  {
    DivMod(x, m);
    var q := x / m;
    MulTwo(q, h);
    NotNegative(q, m);
    TwiceEven(x % m, x / 2 - q * h);
  }

  lemma TwiceEven(z: int, k: int)
    requires z == 2 * k
    ensures z % 2 == 0
  {
  }

  lemma LowEven(rep: int, x: int)
    requires IsSize(rep) && 0 <= x < W64 && x % 2 == 0
    ensures Low(rep, x) % 2 == 0 && 0 <= Low(rep, x) <= x && Low(rep, x) < Two(rep)
  {
    var h := Two(rep) / 2;
    EvenRemainder(x, Two(rep), h);
  }

  /** The element size and the element: the first period among 2, 4, ..., 64. */
  method DetectPeriod(x: int) returns (rep: int, elem: int)
    requires 0 <= x < W64
    ensures LeastPeriod(rep, x) && elem == Low(rep, x)
  {
    if x / 0x4 == x % 0x4000_0000_0000_0000 { rep, elem := 2, x % 0x4; }
    else if x / 0x10 == x % 0x1000_0000_0000_0000 { rep, elem := 4, x % 0x10; }
    else if x / 0x100 == x % 0x100_0000_0000_0000 { rep, elem := 8, x % 0x100; }
    else if x / 0x1_0000 == x % 0x1_0000_0000_0000 { rep, elem := 16, x % 0x1_0000; }
    else if x / 0x1_0000_0000 == x % 0x1_0000_0000 { rep, elem := 32, x % 0x1_0000_0000; }
    else { rep, elem := 64, x; }
  }

  lemma ComplementMod(x: int, m: int, c: int)
    requires m > 0 && m * c == W64
    ensures (W64 - 1 - x) % m == m - 1 - x % m
  {
    DivMod(x, m);
    DivMod(W64 - 1 - x, m);
    var q := c - 1 - x / m;
    assert q * m == W64 - m - x / m * m;
    QuotientUnique(m, (W64 - 1 - x) / m, (W64 - 1 - x) % m, q, m - 1 - x % m);
  }

  /** `if (!(x & mask)) x >>= k, n += k`, with ~x for x when counting ones. */
  method StripStep(b: int, ghost x0: int, x: int, n: nat, k: nat, m: int) returns (x': int, n': nat)
    requires 0 <= b <= 1 && k <= 64 && m == Pow2(k) && 0 <= x <= x0 < W64 && x0 == Grow(b, x, n)
    requires x % (m * m) != b * (m * m - 1)
    ensures 0 <= x' <= x0 && x0 == Grow(b, x', n') && x' % m != b * (m - 1)
  {
    x', n' := x, n;
    Pow2Add(k, 64 - k);
    PowSize(64);
    ComplementMod(x, m, Pow2(64 - k));
    if (if b == 0 then x else W64 - 1 - x) % m == 0 {
      Strip(b, x0, x, n, k, m);
      x', n' := x / m, n + k;
    }
  }

  /** Strips and counts the trailing zeros (b = 0) or ones (b = 1). */
  method ScanTrailing(b: int, x0: int) returns (x: int, n: nat)
    requires 0 <= b <= 1 && 0 <= x0 < W64 && x0 != b * (W64 - 1)
    ensures x0 == Grow(b, x, n) && x % 2 != b && 0 <= x <= x0
  {
    PowConstants();
    x, n := x0, 0;
    x, n := StripStep(b, x0, x, n, 32, 0x1_0000_0000);
    x, n := StripStep(b, x0, x, n, 16, 0x1_0000);
    x, n := StripStep(b, x0, x, n, 8, 0x100);
    x, n := StripStep(b, x0, x, n, 4, 0x10);
    x, n := StripStep(b, x0, x, n, 2, 0x4);
    x, n := StripStep(b, x0, x, n, 1, 0x2);
  }

  /** The fields of the encoding, from the run found in the word or its complement. */
  method FinalCode(ghost x0: int, rep: int, len0: nat, pos0: nat, neg: bool) returns (e: int)
    requires IsForm(x0, rep, len0, pos0) && (neg <==> x0 % 2 == 1) && 0 <= x0 < W64
    ensures Canonical(e) && Decode(e) == Some(x0)
  {
    var len, pos := len0, pos0;
    EncodedValue(x0, rep, len, pos, if neg then rep - len else len, if neg then rep - pos - len else rep - pos);
    if neg {
      Wrap(pos + len, rep);
      pos, len := (pos + len) % rep, rep - len;
    }
    Wrap(rep - pos, rep);
    e := Code(rep, len, (rep - pos) % rep);
  }

  /** No encoding decodes to x. */
  ghost predicate Unrepresentable(x: int) { forall e :: Decode(e) != Some(x) }

  lemma NothingDecodes(x: int)
    requires 0 <= x < W64 && Even(x) == 0
    ensures Unrepresentable(x)
  {
    forall e ensures Decode(e) != Some(x) { NotRepresentable(x, e); }
  }

  lemma BitsLeftOver(x: int, rep: int, odd: int, pos: nat, rest: int, len: nat)
    requires LeastPeriod(rep, Even(x)) && Low(rep, Even(x)) == Grow(0, odd, pos) && odd % 2 == 1
    requires odd == Grow(1, rest, len) && rest % 2 == 0 && rest != 0
    ensures Unrepresentable(x)
  {
    forall e ensures Decode(e) != Some(x) {
      if Decode(e) == Some(x) { ScansAreExact(x, e, rep, odd, pos, rest, len); }
    }
  }

  lemma PeriodElement(rep: int, x0: int, elem: int)
    requires 0 <= x0 < W64 && Even(x0) != 0 && LeastPeriod(rep, Even(x0)) && elem == Low(rep, Even(x0))
    ensures Even(x0) == Replicate(rep, elem) && 0 < elem < Two(rep) && elem % 2 == 0 && elem < W64
  {
    LowEven(rep, Even(x0));
    PeriodicIsReplicated(rep, Even(x0));
    ElementNotZero(rep, Even(x0));
  }

  /** The part after the period has been found: the run in the element of an even word that is not zero. */
  method EncodeElement(x0: int, rep: int, elem: int, neg: bool) returns (r: Option<int>)
    requires 0 <= x0 < W64 && (neg <==> x0 % 2 == 1) && Even(x0) != 0
    requires LeastPeriod(rep, Even(x0)) && elem == Low(rep, Even(x0))
    ensures r.Some? ==> Canonical(r.value) && Decode(r.value) == Some(x0)
    ensures r.None? ==> Unrepresentable(x0)
  {
    PeriodElement(rep, x0, elem);
    var odd, pos := ScanTrailing(0, elem);
    var rest, len := ScanTrailing(1, odd);
    if rest != 0 {
      BitsLeftOver(x0, rep, odd, pos, rest, len);
      return None;
    }
    ScansFindRun(x0, rep, elem, odd, pos, len);
    var code := FinalCode(x0, rep, len, pos, neg);
    r := Some(code);
  }

  /** arm64_encode_bimm64: exact, and the only canonical encoding when there is one. */
  method EncodeBimm64(x0: int) returns (r: Option<int>)
    requires 0 <= x0 < W64
    ensures r.Some? ==> Canonical(r.value) && Decode(r.value) == Some(x0)
    ensures r.None? ==> Unrepresentable(x0)
  {
    var x := x0;
    var neg := x % 2 == 1;
    if neg { x := W64 - 1 - x; }
    assert x == Even(x0);
    if x == 0 {
      NothingDecodes(x0);
      return None;
    }
    var rep, elem := DetectPeriod(x);
    r := EncodeElement(x0, rep, elem, neg);
  }

  lemma ElementNotZero(rep: int, x: int)
    requires IsSize(rep) && 0 < x < W64 && x == Replicate(rep, Low(rep, x))
    ensures Low(rep, x) != 0
  {
  }

  // ---- Patterns that repeat after 32 bits ----

  lemma {:induction false} PeriodicAt32(p: int, x: int)
    requires IsSize(p) && p <= 32 && 0 <= x < W64 && Periodic(p, x)
    ensures Periodic(32, x)
    decreases 32 - p
  {
    if p < 32 {
      PeriodDoubles(p, x);
      PeriodicAt32(2 * p, x);
    }
  }

  lemma ElementSize64(e: int)
    requires 0 <= e < 0x2000
    ensures ElementSize(e) == 64 <==> e >= 0x1000
  {
  }

  lemma RepeatsAfter32(v: int)
    requires 0 <= v < W64 && Periodic(32, Even(v))
    ensures v == v % 0x1_0000_0000 * 0x1_0000_0001
  {
    Period32(Even(v));
    var z := Even(v) % 0x1_0000_0000;
    if v % 2 == 1 { assert v == (0xffff_ffff - z) * 0x1_0000_0001; }
  }

  /** Without N the two words of a decoded value are the same. */
  lemma SmallElementRepeats(e: int)
    requires Decode(e).Some? && e < 0x1000
    ensures var v := Decode(e).value; 0 <= v < W64 && v == v % 0x1_0000_0000 * 0x1_0000_0001
  {
    var rep, l, n := FieldsOf(e);
    ElementSize64(e);
    var len, pos := PatternForm(rep, l, n);
    RunFits(rep, len, pos);
    PeriodicAt32(rep, Even(Decode(e).value));
    RepeatsAfter32(Decode(e).value);
  }

  /** The canonical encoding of a value whose two words are the same has N clear. */
  lemma RepeatedHasSmallElement(e: int, x: int)
    requires Canonical(e) && 0 <= x < 0x1_0000_0000 && Decode(e) == Some(x * 0x1_0000_0001)
    ensures e < 0x1000
  {
    var rep, l, n := FieldsOf(e);
    var len, pos := PatternForm(rep, l, n);
    var v := x * 0x1_0000_0001;
    Repeat32(if v % 2 == 1 then 0xffff_ffff - x else x);
    assert Periodic(32, Even(v));
    ElementSize64(e);
    if rep == 64 { NoSmallerPeriod(32, 64, len, pos); }
  }
}
