/** Loading a 64-bit constant on A64: arm64_movi and arm64_movimm of arm64-gen.c,
    against the meaning of MOVZ, MOVN, MOVK and ORR (immediate). */
module A64Const {
  import opened Base
  import opened Text
  import B = Bimm64

  type Regs = r: seq<int> | |r| == 31 witness seq(31, _ => 0)

  // ---- Meaning of the emitted instructions ----

  /** 2 to the power 16k. */
  function Place(k: int): int {
    if k == 0 then 1 else if k == 1 then 0x1_0000 else if k == 2 then 0x1_0000_0000 else 0x1_0000_0000_0000
  }

  function Half(x: int, k: int): int {
    if k == 0 then x % 0x1_0000 else if k == 1 then x / 0x1_0000 % 0x1_0000
    else if k == 2 then x / 0x1_0000_0000 % 0x1_0000 else x / 0x1_0000_0000_0000 % 0x1_0000
  }

  /** The constant put in the destination by MOVZ, MOVN or ORR from the zero register. */
  function Value(w: int): Option<int> {
    var op, k, imm := w / 0x80_0000, w / 0x20_0000 % 4, w / 0x20 % 0x1_0000;
    var e := w / 0x400 % 0x2000;
    if op == 0x1a5 then Some(imm * Place(k))
    else if op == 0x125 then Some(W64 - 1 - imm * Place(k))
    else if op == 0xa5 && k < 2 then Some(imm * Place(k))
    else if op == 0x25 && k < 2 then Some(W32 - 1 - imm * Place(k))
    else if op == 0x164 && w / 0x20 % 0x20 == 31 then B.Decode(e)
    else if op == 0x64 && w / 0x20 % 0x20 == 31 && e < 0x1000 && B.Decode(e).Some? then Some(B.Decode(e).value % W32)
    else None
  }

  /** One instruction word; None when it is none of the five or writes register 31. */
  function Exec(w: int, regs: Regs): Option<Regs> {
    var rd := w % 0x20;
    if rd == 31 then None
    else if w / 0x80_0000 == 0x1e5 then
      var k, imm := w / 0x20_0000 % 4, w / 0x20 % 0x1_0000;
      Some(regs[rd := regs[rd] + (imm - Half(regs[rd], k)) * Place(k)])
    else if Value(w).Some? then Some(regs[rd := Value(w).value])
    else None
  }

  function ExecAll(code: seq<int>, regs: Regs): Option<Regs> {
    if code == [] then Some(regs)
    else match ExecAll(code[..|code| - 1], regs)
      case Some(mid) => Exec(code[|code| - 1], mid)
      case None => None
  }

  /** Running `code` leaves `x` in register `r` and changes nothing else. */
  ghost predicate Loads(code: seq<int>, r: int, x: int)
    requires 0 <= r < 31
  {
    forall regs: Regs :: ExecAll(code, regs) == Some(regs[r := x])
  }

  /** Some single instruction of the subset loads `x`. */
  ghost predicate Single(x: int) {
    exists w :: Value(w) == Some(x)
  }

  // ---- arm64_movi ----

  lemma WideFields(op: int, k: int, imm: int, r: int)
    requires 0 <= k < 4 && 0 <= imm < 0x1_0000 && 0 <= r < 31
    ensures var w := op * 0x80_0000 + k * 0x20_0000 + imm * 0x20 + r;
            w / 0x80_0000 == op && w / 0x20_0000 % 4 == k && w / 0x20 % 0x1_0000 == imm && w % 0x20 == r
  {
    var w := op * 0x80_0000 + k * 0x20_0000 + imm * 0x20 + r;
    assert w / 0x20_0000 == op * 4 + k;
    assert w / 0x20 == (op * 4 + k) * 0x1_0000 + imm;
  }

  lemma OrrFields(op: int, e: int, r: int)
    requires 0 <= e < 0x2000 && 0 <= r < 31
    ensures var w := op * 0x80_0000 + e * 0x400 + 0x3e0 + r;
            w / 0x80_0000 == op && w / 0x400 % 0x2000 == e && w / 0x20 % 0x20 == 31 && w % 0x20 == r
  {
    var w := op * 0x80_0000 + e * 0x400 + 0x3e0 + r;
    var h := op * 0x2000 + e;
    TopField(op, e * 0x400 + 0x3e0 + r, w);
    MiddleField(op, e, h);
    LowFields(h, r, w);
  }

  lemma TopField(op: int, rest: int, w: int)
    requires 0 <= rest < 0x80_0000 && w == op * 0x80_0000 + rest
    ensures w / 0x80_0000 == op
  {
  }

  lemma MiddleField(op: int, e: int, h: int)
    requires 0 <= e < 0x2000 && h == op * 0x2000 + e
    ensures h % 0x2000 == e
  {
  }

  lemma LowFields(h: int, r: int, w: int)
    requires 0 <= r < 31 && w == h * 0x400 + 0x3e0 + r
    ensures w / 0x400 == h && w / 0x20 % 0x20 == 31 && w % 0x20 == r
  {
    var l := h * 0x20 + 31;
    assert w == l * 0x20 + r;
    assert w / 0x20 == l;
  }

  lemma Halves(x: int)
    requires 0 <= x < W64
    ensures x == Half(x, 0) + Half(x, 1) * 0x1_0000 + Half(x, 2) * 0x1_0000_0000 + Half(x, 3) * 0x1_0000_0000_0000
  {
    var a := x / 0x1_0000;
    var b := a / 0x1_0000;
    var c := b / 0x1_0000;
    assert b == x / 0x1_0000_0000 && c == x / 0x1_0000_0000_0000;
  }

  lemma HalvesOf(a: int, b: int, c: int, d: int, x: int)
    requires 0 <= a < 0x1_0000 && 0 <= b < 0x1_0000 && 0 <= c < 0x1_0000 && 0 <= d < 0x1_0000
    requires x == a + b * 0x1_0000 + c * 0x1_0000_0000 + d * 0x1_0000_0000_0000
    ensures 0 <= x < W64 && Half(x, 0) == a && Half(x, 1) == b && Half(x, 2) == c && Half(x, 3) == d
  {
    assert x / 0x1_0000 == b + c * 0x1_0000 + d * 0x1_0000_0000;
    assert x / 0x1_0000_0000 == c + d * 0x1_0000;
  }

  /** All halfwords but the `k`-th equal `fill`. */
  predicate OneHalf(x: int, k: int, fill: int)
    requires 0 <= k < 4
  {
    (k == 0 || Half(x, 0) == fill) && (k == 1 || Half(x, 1) == fill) &&
    (k == 2 || Half(x, 2) == fill) && (k == 3 || Half(x, 3) == fill)
  }

  /** The tests of arm64_movi for a single MOVZ or MOVN. */
  predicate Wide(x: int) {
    OneHalf(x, 0, 0) || OneHalf(x, 1, 0) || OneHalf(x, 2, 0) || OneHalf(x, 3, 0) ||
    (Half(x, 1) == 0xffff && Half(x, 2) == 0 && Half(x, 3) == 0) ||
    (Half(x, 0) == 0xffff && Half(x, 2) == 0 && Half(x, 3) == 0) ||
    OneHalf(x, 0, 0xffff) || OneHalf(x, 1, 0xffff) || OneHalf(x, 2, 0xffff) || OneHalf(x, 3, 0xffff)
  }

  lemma MovzHalves(k: int, imm: int)
    requires 0 <= k < 4 && 0 <= imm < 0x1_0000
    ensures 0 <= imm * Place(k) < W64 && OneHalf(imm * Place(k), k, 0)
  {
    HalvesOf(if k == 0 then imm else 0, if k == 1 then imm else 0, if k == 2 then imm else 0,
             if k == 3 then imm else 0, imm * Place(k));
  }

  lemma MovnHalves(k: int, imm: int)
    requires 0 <= k < 4 && 0 <= imm < 0x1_0000
    ensures 0 <= W64 - 1 - imm * Place(k) < W64 && OneHalf(W64 - 1 - imm * Place(k), k, 0xffff)
  {
    var h := 0xffff - imm;
    HalvesOf(if k == 0 then h else 0xffff, if k == 1 then h else 0xffff, if k == 2 then h else 0xffff,
             if k == 3 then h else 0xffff, W64 - 1 - imm * Place(k));
  }

  lemma MovnWHalves(k: int, imm: int)
    requires 0 <= k < 2 && 0 <= imm < 0x1_0000
    ensures var x := W32 - 1 - imm * Place(k);
            0 <= x < W64 && Half(x, 1 - k) == 0xffff && Half(x, 2) == 0 && Half(x, 3) == 0
  {
    var h := 0xffff - imm;
    HalvesOf(if k == 0 then h else 0xffff, if k == 1 then h else 0xffff, 0, 0, W32 - 1 - imm * Place(k));
  }

  /** A constant that MOVZ or MOVN loads passes one of the ten tests. */
  lemma WideIsComplete(w: int)
    requires Value(w).Some? && w / 0x80_0000 != 0x164 && w / 0x80_0000 != 0x64
    ensures Wide(Value(w).value)
  {
    var op, k, imm := w / 0x80_0000, w / 0x20_0000 % 4, w / 0x20 % 0x1_0000;
    if op == 0x1a5 || op == 0xa5 { MovzHalves(k, imm); }
    else if op == 0x125 { MovnHalves(k, imm); }
    else { MovnWHalves(k, imm); }
  }

  /** The word of a MOVZ, MOVN or 32-bit MOVN, with what it loads. */
  lemma MovzWord(op: int, k: int, x: int, r: int) returns (w: int)
    requires 0 <= k < 4 && 0 <= x < W64 && OneHalf(x, k, 0) && 0 <= r < 31
    requires op == 0x1a5 || (k < 2 && op == 0xa5)
    ensures w == op * 0x80_0000 + k * 0x20_0000 + r + Half(x, k) * 0x20 && w > 0
    ensures Value(w) == Some(x) && w % 0x20 == r
  {
    w := op * 0x80_0000 + k * 0x20_0000 + Half(x, k) * 0x20 + r;
    WideFields(op, k, Half(x, k), r);
    Halves(x);
    assert Half(x, k) * Place(k) == x;
  }

  lemma MovnWord(k: int, x: int, r: int) returns (w: int)
    requires 0 <= k < 4 && 0 <= x < W64 && OneHalf(x, k, 0xffff) && 0 <= r < 31
    ensures w == 0x125 * 0x80_0000 + k * 0x20_0000 + r + (0xffff - Half(x, k)) * 0x20
    ensures Value(w) == Some(x) && w % 0x20 == r
  {
    w := 0x125 * 0x80_0000 + k * 0x20_0000 + (0xffff - Half(x, k)) * 0x20 + r;
    WideFields(0x125, k, 0xffff - Half(x, k), r);
    Halves(x);
    assert W64 - 1 - (0xffff - Half(x, k)) * Place(k) == x;
  }

  lemma MovnWWord(k: int, x: int, r: int) returns (w: int)
    requires 0 <= k < 2 && 0 <= x < W64 && Half(x, 1 - k) == 0xffff && Half(x, 2) == 0 && Half(x, 3) == 0 && 0 <= r < 31
    ensures w == 0x25 * 0x80_0000 + k * 0x20_0000 + r + (0xffff - Half(x, k)) * 0x20
    ensures Value(w) == Some(x) && w % 0x20 == r
  {
    w := 0x25 * 0x80_0000 + k * 0x20_0000 + (0xffff - Half(x, k)) * 0x20 + r;
    WideFields(0x25, k, 0xffff - Half(x, k), r);
    Halves(x);
    assert W32 - 1 - (0xffff - Half(x, k)) * Place(k) == x;
  }

  /** The word of a 32-bit ORR of a pattern that repeats `x`. */
  lemma OrrWord32(e: int, x: int, r: int) returns (w: int)
    requires B.Canonical(e) && 0 <= x < W32 && B.Decode(e) == Some(x + x * W32) && 0 <= r < 31
    ensures w == 0x3200_03e0 + r + e * 0x400 && Value(w) == Some(x) && w % 0x20 == r
  {
    w := 0x64 * 0x80_0000 + e * 0x400 + 0x3e0 + r;
    var v := x + x * W32;
    assert v == x * 0x1_0000_0001;
    B.RepeatedHasSmallElement(e, x);
    OrrFields(0x64, e, r);
    LowWord(x, v);
    OrrValue32(w, e, v);
  }

  lemma LowWord(x: int, v: int)
    requires 0 <= x < W32 && v == x + x * W32
    ensures v % W32 == x
  {
  }

  lemma OrrValue32(w: int, e: int, v: int)
    requires w / 0x80_0000 == 0x64 && w / 0x400 % 0x2000 == e && w / 0x20 % 0x20 == 31 && e < 0x1000 &&
             B.Decode(e) == Some(v)
    ensures Value(w) == Some(v % W32)
  {
  }

  lemma OrrWord64(e: int, x: int, r: int) returns (w: int)
    requires B.Canonical(e) && B.Decode(e) == Some(x) && 0 <= r < 31
    ensures w == 0xb200_03e0 + r + e * 0x400 && Value(w) == Some(x) && w % 0x20 == r
  {
    w := 0x164 * 0x80_0000 + e * 0x400 + 0x3e0 + r;
    OrrFields(0x164, e, r);
  }

  /** If neither `x` nor its doubling is a bitmask immediate and no wide move fits, nothing loads `x`. */
  lemma NothingLoads(x: int, w: int)
    requires 0 <= x < W64 && !Wide(x) && (forall e :: B.Decode(e) != Some(x))
    requires x < W32 ==> forall e :: B.Decode(e) != Some(x + x * W32)
    ensures Value(w) != Some(x)
  {
    if Value(w) == Some(x) {
      var op, e := w / 0x80_0000, w / 0x400 % 0x2000;
      if op == 0x64 { B.SmallElementRepeats(e); } else if op != 0x164 { WideIsComplete(w); }
    }
  }

  /** The first ten tests of arm64_movi. */
  method MoviWide(r: int, x: int) returns (w: int)
    requires 0 <= r < 31 && 0 <= x < W64
    ensures w == 0 <==> !Wide(x)
    ensures w != 0 ==> Value(w) == Some(x) && w % 0x20 == r
  {
    ghost var v;
    w := 0;
    if OneHalf(x, 0, 0) {
      v := MovzWord(0xa5, 0, x, r);
      w := 0x5280_0000 + r + Half(x, 0) * 0x20;
    } else if OneHalf(x, 1, 0) {
      v := MovzWord(0xa5, 1, x, r);
      w := 0x52a0_0000 + r + Half(x, 1) * 0x20;
    } else if OneHalf(x, 2, 0) {
      v := MovzWord(0x1a5, 2, x, r);
      w := 0xd2c0_0000 + r + Half(x, 2) * 0x20;
    } else if OneHalf(x, 3, 0) {
      v := MovzWord(0x1a5, 3, x, r);
      w := 0xd2e0_0000 + r + Half(x, 3) * 0x20;
    } else if Half(x, 1) == 0xffff && Half(x, 2) == 0 && Half(x, 3) == 0 {
      v := MovnWWord(0, x, r);
      w := 0x1280_0000 + r + (0xffff - Half(x, 0)) * 0x20;
    } else if Half(x, 0) == 0xffff && Half(x, 2) == 0 && Half(x, 3) == 0 {
      v := MovnWWord(1, x, r);
      w := 0x12a0_0000 + r + (0xffff - Half(x, 1)) * 0x20;
    } else if OneHalf(x, 0, 0xffff) {
      v := MovnWord(0, x, r);
      w := 0x9280_0000 + r + (0xffff - Half(x, 0)) * 0x20;
    } else if OneHalf(x, 1, 0xffff) {
      v := MovnWord(1, x, r);
      w := 0x92a0_0000 + r + (0xffff - Half(x, 1)) * 0x20;
    } else if OneHalf(x, 2, 0xffff) {
      v := MovnWord(2, x, r);
      w := 0x92c0_0000 + r + (0xffff - Half(x, 2)) * 0x20;
    } else if OneHalf(x, 3, 0xffff) {
      v := MovnWord(3, x, r);
      w := 0x92e0_0000 + r + (0xffff - Half(x, 3)) * 0x20;
    }
    assert w != 0 ==> w == v;
  }

  /** arm64_movi: one instruction, or 0 exactly when no instruction of the subset loads `x`. */
  method Movi(r: int, x: int) returns (w: int)
    requires 0 <= r < 31 && 0 <= x < W64
    ensures w == 0 <==> !Single(x)
    ensures w != 0 ==> Value(w) == Some(x) && w % 0x20 == r
  {
    w := MoviWide(r, x);
    if w != 0 { return; }
    ghost var v;
    if x / W32 == 0 {
      var e := B.EncodeBimm64(x + x * W32);
      if e.Some? {
        v := OrrWord32(e.value, x, r);
        return 0x3200_03e0 + r + e.value * 0x400;
      }
    }
    var e := B.EncodeBimm64(x);
    if e.Some? {
      v := OrrWord64(e.value, x, r);
      return 0xb200_03e0 + r + e.value * 0x400;
    }
    forall v ensures Value(v) != Some(x) { NothingLoads(x, v); }
    w := 0;
  }

  // ---- arm64_movimm ----

  /** How many of the halfwords 0 .. n-1 equal `h`. */
  function CountHalves(x: int, h: int, n: nat): nat
    requires n <= 4
  {
    if n == 0 then 0 else CountHalves(x, h, n - 1) + (if Half(x, n - 1) == h then 1 else 0)
  }

  function Max(a: int, b: int): int {
    if a > b then a else b
  }

  /** Halfwords below `n` from `x`, the others equal to `fill`. */
  function Mixed(x: int, fill: int, n: nat): int {
    (if n > 0 then Half(x, 0) else fill) + (if n > 1 then Half(x, 1) else fill) * 0x1_0000 +
    (if n > 2 then Half(x, 2) else fill) * 0x1_0000_0000 + (if n > 3 then Half(x, 3) else fill) * 0x1_0000_0000_0000
  }

  lemma MixedHalf(x: int, fill: int, n: nat)
    requires n < 4 && 0 <= x < W64 && 0 <= fill <= 0xffff
    ensures Half(Mixed(x, fill, n), n) == fill
    ensures Mixed(x, fill, n + 1) == Mixed(x, fill, n) + (Half(x, n) - fill) * Place(n)
  {
    var f := fill;
    HalvesOf(if n > 0 then Half(x, 0) else f, if n > 1 then Half(x, 1) else f, if n > 2 then Half(x, 2) else f, f,
             Mixed(x, fill, n));
  }

  lemma MixedAll(x: int, fill: int)
    requires 0 <= x < W64
    ensures Mixed(x, fill, 4) == x
  {
    Halves(x);
  }

  lemma ExecAppend(code: seq<int>, w: int, regs: Regs)
    ensures ExecAll(code + [w], regs) ==
            (match ExecAll(code, regs) case Some(mid) => Exec(w, mid) case None => None)
  {
    assert (code + [w])[..|code|] == code;
  }

  lemma MovkExec(w: int, r: int, k: int, imm: int, v: int, regs: Regs)
    requires 0 <= r < 31 && 0 <= k < 4 && 0 <= imm < 0x1_0000
    requires w == 0xf280_0000 + r + imm * 0x20 + k * 0x20_0000
    ensures Exec(w, regs[r := v]) == Some(regs[r := v + (imm - Half(v, k)) * Place(k)])
  {
    WideFields(0x1e5, k, imm, r);
    var v' := v + (imm - Half(v, k)) * Place(k);
    assert regs[r := v][r := v'] == regs[r := v'];
  }

  /** MOVK of halfword `n` turns one mix into the next. */
  lemma MovkStep(code: seq<int>, r: int, x: int, fill: int, n: nat, w: int)
    requires 0 <= r < 31 && n < 4 && 0 <= x < W64 && 0 <= fill <= 0xffff
    requires Loads(code, r, Mixed(x, fill, n))
    requires w == 0xf280_0000 + r + Half(x, n) * 0x20 + n * 0x20_0000
    ensures Loads(code + [w], r, Mixed(x, fill, n + 1))
  {
    MixedHalf(x, fill, n);
    var v, v' := Mixed(x, fill, n), Mixed(x, fill, n + 1);
    forall regs: Regs ensures ExecAll(code + [w], regs) == Some(regs[r := v']) {
      ExecAppend(code, w, regs);
      MovkExec(w, r, n, Half(x, n), v, regs);
    }
  }

  lemma LoadsOne(w: int, r: int, x: int)
    requires 0 <= r < 31 && w % 0x20 == r && w / 0x80_0000 != 0x1e5 && Value(w) == Some(x)
    ensures Loads([w], r, x)
  {
    forall regs: Regs ensures ExecAll([w], regs) == Some(regs[r := x]) {
      ExecAppend([], w, regs);
      assert [] + [w] == [w] && ExecAll([], regs) == Some(regs);
    }
  }

  /** One halfword among fillers. */
  lemma AloneHalf(x: int, fill: int, n: nat)
    requires n < 4 && (fill == 0 || fill == 0xffff) && forall j: nat :: j < n ==> Half(x, j) == fill
    ensures Mixed(x, fill, n + 1) ==
            if fill == 0 then Half(x, n) * Place(n) else W64 - 1 - (0xffff - Half(x, n)) * Place(n)
  {
    if n == 0 {} else if n == 1 {} else if n == 2 {} else { assert n == 3; }
  }

  /** MOVZ or MOVN of the lowest halfword that differs from the filler. */
  lemma FirstMove(x: int, fill: int, n: nat, r: int, w: int)
    requires 0 <= r < 31 && n < 4 && 0 <= x < W64 && (fill == 0 || fill == 0xffff)
    requires forall j: nat :: j < n ==> Half(x, j) == fill
    requires w == (if fill == 0 then 0xd280_0000 else 0x9280_0000) + r + n * 0x20_0000 +
                  (if fill == 0 then Half(x, n) else 0xffff - Half(x, n)) * 0x20
    ensures Loads([w], r, Mixed(x, fill, n + 1))
  {
    var imm := if fill == 0 then Half(x, n) else 0xffff - Half(x, n);
    WideFields(if fill == 0 then 0x1a5 else 0x125, n, imm, r);
    AloneHalf(x, fill, n);
    LoadsOne(w, r, Mixed(x, fill, n + 1));
  }

  lemma NotSingleHasHalves(x: int, fill: int)
    requires 0 <= x < W64 && !Single(x) && (fill == 0 || fill == 0xffff)
    ensures exists j: nat :: j < 4 && Half(x, j) != fill
  {
    if forall j: nat :: j < 4 ==> Half(x, j) == fill {
      assert Half(x, 0) == fill && Half(x, 1) == fill && Half(x, 2) == fill && Half(x, 3) == fill;
      var w;
      if fill == 0 { w := MovzWord(0x1a5, 0, x, 0); } else { w := MovnWord(0, x, 0); }
    }
  }

  lemma ComplementHalf(x: int, k: int)
    requires 0 <= x < W64 && 0 <= k < 4
    ensures Half(W64 - 1 - x, k) == 0xffff - Half(x, k)
  {
    Halves(x);
    HalvesOf(0xffff - Half(x, 0), 0xffff - Half(x, 1), 0xffff - Half(x, 2), 0xffff - Half(x, 3), W64 - 1 - x);
  }

  /** Numbers of halfwords equal to 0 and to 0xffff. */
  method CountFillers(x: int) returns (z: nat, m: nat)
    requires 0 <= x < W64
    ensures z == CountHalves(x, 0, 4) && m == CountHalves(x, 0xffff, 4)
  {
    z, m := 0, 0;
    var k := 0;
    while k < 4
      invariant 0 <= k <= 4 && z == CountHalves(x, 0, k) && m == CountHalves(x, 0xffff, k)
    {
      ComplementHalf(x, k);
      z := z + (if Half(x, k) == 0 then 1 else 0);
      m := m + (if Half(W64 - 1 - x, k) == 0 then 1 else 0);
      k := k + 1;
    }
  }

  /** `x1` is `x`, or its complement when the filler is 0xffff. */
  predicate Filled(x: int, x1: int, fill: int) {
    (fill == 0 && x1 == x) || (fill == 0xffff && x1 == W64 - 1 - x)
  }

  lemma FilledHalf(x: int, x1: int, fill: int, k: nat)
    requires 0 <= x < W64 && k < 4 && Filled(x, x1, fill)
    ensures Half(x1, k) == (if fill == 0 then Half(x, k) else 0xffff - Half(x, k))
    ensures Half(x1, k) == 0 <==> Half(x, k) == fill
  {
    ComplementHalf(x, k);
  }

  /** The first halfword that is not the filler. */
  method FirstHalf(x: int, x1: int, ghost fill: int) returns (k: nat)
    requires 0 <= x < W64 && !Single(x) && Filled(x, x1, fill)
    ensures k < 4 && Half(x, k) != fill && CountHalves(x, fill, k) == k && forall j: nat :: j < k ==> Half(x, j) == fill
  {
    NotSingleHasHalves(x, fill);
    k := 0;
    FilledHalf(x, x1, fill, k);
    while Half(x1, k) == 0
      invariant k < 4 && CountHalves(x, fill, k) == k && forall j: nat :: j < k ==> Half(x, j) == fill
      invariant Half(x1, k) == 0 <==> Half(x, k) == fill
      decreases 4 - k
    {
      k := k + 1;
      FilledHalf(x, x1, fill, k);
    }
  }

  /** The code from `start` on sets the halfwords below k, and leaves the filler in the others. */
  ghost predicate SetBelow(data: seq<int>, start: nat, r: int, x: int, fill: int, k: nat)
    requires 0 <= r < 31 && 0 <= x < W64 && k <= 4
  {
    start <= |data| && |data| == start + k - CountHalves(x, fill, k) && Loads(data[start..], r, Mixed(x, fill, k))
  }

  lemma FirstSet(data: seq<int>, r: int, x: int, fill: int, k: nat, w: int)
    requires 0 <= r < 31 && 0 <= x < W64 && k < 4 && Half(x, k) != fill && CountHalves(x, fill, k) == k
    requires Loads([w], r, Mixed(x, fill, k + 1))
    ensures SetBelow(data + [w], |data|, r, x, fill, k + 1)
  {
    assert (data + [w])[|data|..] == [w];
  }

  lemma NextSet(data: seq<int>, start: nat, r: int, x: int, fill: int, k: nat, w: int)
    requires 0 <= r < 31 && 0 <= x < W64 && k < 4 && 0 <= fill <= 0xffff && Half(x, k) != fill
    requires SetBelow(data, start, r, x, fill, k) && w == 0xf280_0000 + r + Half(x, k) * 0x20 + k * 0x20_0000
    ensures SetBelow(data + [w], start, r, x, fill, k + 1)
  {
    MovkStep(data[start..], r, x, fill, k, w);
    assert (data + [w])[start..] == data[start..] + [w];
  }

  lemma NextIsFiller(data: seq<int>, start: nat, r: int, x: int, fill: int, k: nat)
    requires 0 <= r < 31 && 0 <= x < W64 && k < 4 && 0 <= fill <= 0xffff && Half(x, k) == fill
    requires SetBelow(data, start, r, x, fill, k)
    ensures SetBelow(data, start, r, x, fill, k + 1)
  {
    MixedHalf(x, fill, k);
  }

  /** A MOVZ or MOVN and then a MOVK for every further halfword of `x1` that is not zero. */
  method MovSequence(text: Text<int>, r: int, x: int, x1: int, mov1: int, ghost fill: int)
    requires 0 <= r < 31 && 0 <= x < W64 && !Single(x) && Filled(x, x1, fill)
    requires mov1 == if fill == 0 then 0xd280_0000 else 0x9280_0000
    modifies text
    ensures old(text.data) <= text.data
    ensures Loads(text.data[|old(text.data)|..], r, x)
    ensures |text.data| == |old(text.data)| + 4 - CountHalves(x, fill, 4)
  {
    ghost var start := |text.data|;
    var k := FirstHalf(x, x1, fill);
    var w := mov1 + r + Half(x1, k) * 0x20 + k * 0x20_0000;
    FilledHalf(x, x1, fill, k);
    FirstMove(x, fill, k, r, w);
    FirstSet(text.data, r, x, fill, k, w);
    text.Emit(w);
    k := k + 1;
    while k < 4
      invariant 1 <= k <= 4 && old(text.data) <= text.data && SetBelow(text.data, start, r, x, fill, k)
    {
      FilledHalf(x, x1, fill, k);
      if Half(x1, k) != 0 {
        w := 0xf280_0000 + r + Half(x, k) * 0x20 + k * 0x20_0000;
        NextSet(text.data, start, r, x, fill, k, w);
        text.Emit(w);
      } else {
        NextIsFiller(text.data, start, r, x, fill, k);
      }
      k := k + 1;
    }
    MixedAll(x, fill);
  }

  /** arm64_movimm: the emitted code loads exactly `x` into `r`, in one instruction whenever one exists,
      and otherwise in as many as there are halfwords that differ from the commoner of 0 and 0xffff. */
  method Movimm(text: Text<int>, r: int, x: int)
    requires 0 <= r < 31 && 0 <= x < W64
    modifies text
    ensures old(text.data) <= text.data
    ensures Loads(text.data[|old(text.data)|..], r, x)
    ensures |text.data| == |old(text.data)| +
            if Single(x) then 1 else 4 - Max(CountHalves(x, 0, 4), CountHalves(x, 0xffff, 4))
  {
    ghost var start := |text.data|;
    var i := Movi(r, x);
    if i != 0 {
      text.Emit(i);
      LoadsOne(i, r, x);
      assert text.data[start..] == [i];
    } else {
      var z, m := CountFillers(x);
      if m > z {
        MovSequence(text, r, x, W64 - 1 - x, 0x9280_0000, 0xffff);
      } else {
        MovSequence(text, r, x, x, 0xd280_0000, 0);
      }
    }
  }
}
