/** gjmp, gjmp_cond, gjmp_append and gsym_addr of the four back ends, on the section being emitted.
    A false `ok` is the fatal error "function bigger than 32MB" or "branch out of range". */
module JumpEmitters {
  import opened Base
  import opened CodeBytes
  import opened JumpChains
  import opened JumpMeaning
  import opened Patch
  import opened Text

  // ---- Emitting a jump at the head of the list `t` ----

  method GjmpArm64(text: Text<Byte>, t: Word) returns (r: nat)
    modifies text
    ensures text.data == old(text.data) + JumpCode(Arm64, |old(text.data)|, t, None)
    ensures r == JumpPos(Arm64, |old(text.data)|, None)
  {
    r := |text.data|;
    EmitWord(text, t);
  }

  /** gjmp without a condition, else gjmp_cond */
  method GjmpI386(text: Text<Byte>, t: Word, cc: Condition) returns (r: nat)
    modifies text
    ensures text.data == old(text.data) + JumpCode(I386, |old(text.data)|, t, cc)
    ensures r == JumpPos(I386, |old(text.data)|, cc) && JumpsWhen(I386, text.data, r, cc)
  {
    if cc.Some? {
      text.Emit(0x0f);
      text.Emit(0x80 + cc.value);
    } else {
      text.Emit(0xe9);
    }
    r := |text.data|;
    EmitWord(text, t);
    EmittedJump(I386, old(text.data), t, cc, text.data, r);
  }

  /** gjmp without a condition, else gjmp_cond: mapcc and encbranch can fail. */
  method GjmpArm(text: Text<Byte>, t: int, cc: Condition) returns (ok: bool, r: nat)
    modifies text
    ensures ok <==> Mapped(cc) && EncBranch(|old(text.data)|, t) != 0
    ensures ok ==> text.data == old(text.data) + JumpCode(Arm, |old(text.data)|, t, cc)
    ensures r == JumpPos(Arm, |old(text.data)|, cc) && (ok ==> JumpsWhen(Arm, text.data, r, cc))
  {
    r := |text.data|;
    var b := EncBranch(r, t);
    ok := Mapped(cc) && b != 0;
    if ok {
      EmitWord(text, CondField(cc) * 0x1000_0000 + b);
      EmittedJump(Arm, old(text.data), t, cc, text.data, r);
    }
  }

  method GjmpC67(text: Text<Byte>, t: Word) returns (r: nat)
    modifies text
    ensures text.data == old(text.data) + JumpCode(C67, |old(text.data)|, t, None)
    ensures r == JumpPos(C67, |old(text.data)|, None) && JumpsWhen(C67, text.data, r, None)
  {
    r := |text.data|;
    EmitWord(text, t % 0x1_0000 * 0x80 + 0x28);
    EmitWord(text, t / 0x1_0000 * 0x80 + 0x68);
    EmitWord(text, 0x1362);
    EmitWord(text, 0x8000);
    EmittedJump(C67, old(text.data), t, None, text.data, r);
  }

  // ---- Splicing ----

  /** The code after gjmp_append(n, t), when `ns` is the list of `n`. */
  ghost function Appended(arch: Arch, s: Code, ns: seq<nat>, t: int): Code
    requires arch != Arm ==> 0 <= t < 0x1_0000_0000
    requires ns != [] ==> ns[|ns| - 1] + SlotSize(arch) <= |s|
  {
    if ns == [] then s else SetLink(arch, s, ns[|ns| - 1], t)
  }

  /** One step of the walk to the end of a list: `k` is the index reached. */
  lemma WalkStep(arch: Arch, s: Code, n: int, ns: seq<nat>, k: nat)
    requires k < |ns| && IsChain(arch, s, n, ns[k..])
    ensures n == ns[k] && ns[k] + SlotSize(arch) <= |s| && IsSlot(arch, s, ns[k])
    ensures IsChain(arch, s, LinkAt(arch, s, ns[k]), ns[k + 1..])
    ensures LinkAt(arch, s, ns[k]) == 0 <==> k == |ns| - 1
  {
    assert ns[k..][1..] == ns[k + 1..];
  }

  /** arm64 and i386: the link is the word itself. */
  method GjmpAppendRaw(arch: Arch, text: Text<Byte>, n: Word, t: Word, ghost ns: seq<nat>) returns (r: Word)
    requires arch == Arm64 || arch == I386
    requires IsChain(arch, text.data, n, ns)
    modifies text
    ensures ns != [] ==> ns[|ns| - 1] + SlotSize(arch) <= |old(text.data)|
    ensures text.data == Appended(arch, old(text.data), ns, t)
    ensures r == if ns == [] then t else n
  {
    r := t;
    if n != 0 {
      var n1 := n;
      ghost var k := 0;
      assert ns[0..] == ns;
      WalkStep(arch, text.data, n1, ns, k);
      var n2 := Read32(text.data, n1);
      while n2 != 0
        invariant k < |ns| && n1 == ns[k] && n1 + 4 <= |text.data| && text.data == old(text.data)
        invariant n2 == Read32(text.data, n1)
        invariant IsChain(arch, text.data, n1, ns[k..])
        decreases |ns| - k
      {
        WalkStep(arch, text.data, n1, ns, k);
        n1 := n2;
        k := k + 1;
        WalkStep(arch, text.data, n1, ns, k);
        n2 := Read32(text.data, n1);
      }
      WalkStep(arch, text.data, n1, ns, k);
      text.data := Write32(text.data, n1, t);
      r := n;
    }
  }

  /** arm: the link is a branch displacement. */
  method GjmpAppendArm(text: Text<Byte>, n: int, t: int, ghost ns: seq<nat>) returns (ok: bool, r: int)
    requires IsChain(Arm, text.data, n, ns)
    modifies text
    ensures ns != [] ==> ns[|ns| - 1] + 4 <= |old(text.data)|
    ensures ok <==> ns == [] || EncBranch(ns[|ns| - 1], t) != 0
    ensures ok ==> text.data == Appended(Arm, old(text.data), ns, t)
    ensures r == if ns == [] then t else n
  {
    ok, r := true, t;
    if n != 0 {
      assert ns[0..] == ns;
      ghost var k := 0;
      WalkStep(Arm, text.data, n, ns, k);
      var lp, p := n, DecBranch(Read32(text.data, n), n);
      while p != 0
        invariant k < |ns| && lp == ns[k] && lp + 4 <= |text.data| && text.data == old(text.data)
        invariant p == DecBranch(Read32(text.data, lp), lp)
        invariant IsChain(Arm, text.data, lp, ns[k..])
        decreases |ns| - k
      {
        WalkStep(Arm, text.data, lp, ns, k);
        lp := p;
        k := k + 1;
        WalkStep(Arm, text.data, lp, ns, k);
        p := DecBranch(Read32(text.data, lp), lp);
      }
      WalkStep(Arm, text.data, lp, ns, k);
      r := n;
      var b := EncBranch(lp, t);
      ok := b != 0;
      if ok {
        text.data := Write32(text.data, lp, WithDisp(Read32(text.data, lp), b % 0x100_0000));
      }
    }
  }

  /** c67: the link is split over two instructions; at the end of the list both fields are zero,
      so that or-ing the halves in is the same as writing them. */
  method GjmpAppendC67(text: Text<Byte>, n0: Word, t: Word, ghost ns: seq<nat>) returns (r: Word)
    requires IsChain(C67, text.data, n0, ns)
    modifies text
    ensures ns != [] ==> ns[|ns| - 1] + 8 <= |old(text.data)|
    ensures text.data == Appended(C67, old(text.data), ns, t)
    ensures r == if ns == [] then t else n0
  {
    r := t;
    if n0 != 0 {
      assert ns[0..] == ns;
      ghost var k := 0;
      WalkStep(C67, text.data, n0, ns, k);
      var p, n := n0, LinkAt(C67, text.data, n0);
      while n != 0
        invariant k < |ns| && p == ns[k] && p + 8 <= |text.data| && text.data == old(text.data)
        invariant n == LinkAt(C67, text.data, p)
        invariant IsChain(C67, text.data, p, ns[k..])
        decreases |ns| - k
      {
        WalkStep(C67, text.data, p, ns, k);
        p := n;
        k := k + 1;
        WalkStep(C67, text.data, p, ns, k);
        n := LinkAt(C67, text.data, p);
      }
      WalkStep(C67, text.data, p, ns, k);
      OrLinkC67(text, p, t);
      r := n0;
    }
  }

  /** One half or-ed into a field known to be zero. */
  method OrHalf(text: Text<Byte>, p: nat, h: int)
    requires p + 4 <= |text.data| && 0 <= h < 0x1_0000 && Read32(text.data, p) / 0x80 % 0x1_0000 == 0
    modifies text
    ensures text.data == Write32(old(text.data), p, WithHalf(Read32(old(text.data), p), h))
  {
    var w := Read32(text.data, p);
    EmptyHalf(w, h);
    text.data := Write32(text.data, p, w + h * 0x80);
  }

  lemma NoLink(s: Code, p: nat)
    requires p + 8 <= |s| && LinkAt(C67, s, p) == 0
    ensures Read32(s, p) / 0x80 % 0x1_0000 == 0 && Read32(s, p + 4) / 0x80 % 0x1_0000 == 0
  {
    var a, b := Read32(s, p) / 0x80 % 0x1_0000, Read32(s, p + 4) / 0x80 % 0x1_0000;
    assert a + b * 0x1_0000 == 0 && a >= 0 && b >= 0;
  }

  method OrLinkC67(text: Text<Byte>, p: nat, t: Word)
    requires p + 8 <= |text.data| && LinkAt(C67, text.data, p) == 0
    modifies text
    ensures text.data == SetLink(C67, old(text.data), p, t)
  {
    NoLink(text.data, p);
    ghost var s := text.data;
    OrHalf(text, p, t % 0x1_0000);
    ReadWritten(s, p, WithHalf(Read32(s, p), t % 0x1_0000));
    ReadFrame(s, text.data, p + 4);
    OrHalf(text, p + 4, t / 0x1_0000);
  }

  lemma EmptyHalf(w: Word, h: int)
    requires w / 0x80 % 0x1_0000 == 0 && 0 <= h < 0x1_0000
    ensures w + h * 0x80 == WithHalf(w, h)
  {
    var q := w / 0x80;
    assert q == q / 0x1_0000 * 0x1_0000 && q / 0x1_0000 == w / 0x80_0000;
  }

  // ---- Resolving a list ----

  /** All positions of the list are inside the code. */
  ghost predicate Inside(arch: Arch, s: Code, ps: seq<nat>) {
    forall i :: 0 <= i < |ps| ==> ps[i] + SlotSize(arch) <= |s|
  }

  ghost predicate AllOk(arch: Arch, ps: seq<nat>, a: int) {
    forall i :: 0 <= i < |ps| ==> TargetOk(arch, ps[i], a)
  }

  /** The first `k` branches of `ps` are patched and `t` heads the list of the others. */
  ghost predicate Patching(arch: Arch, s0: Code, s: Code, t: int, ps: seq<nat>, k: nat, a: int) {
    Inside(arch, s0, ps) && Separate(arch, ps) && k <= |ps| && AllOk(arch, ps[..k], a) &&
    s == PatchAll(arch, s0, ps[..k], a) && IsChain(arch, s, t, ps[k..])
  }

  lemma PatchingStarts(arch: Arch, s: Code, t: int, ps: seq<nat>, a: int)
    requires IsChain(arch, s, t, ps) && Separate(arch, ps)
    ensures Patching(arch, s, s, t, ps, 0, a)
  {
    ChainInside(arch, s, t, ps);
    assert ps[0..] == ps && ps[..0] == [];
  }

  lemma PatchingEnds(arch: Arch, s0: Code, s: Code, ps: seq<nat>, k: nat, a: int)
    requires Patching(arch, s0, s, 0, ps, k, a)
    ensures s == PatchAll(arch, s0, ps, a) && AllOk(arch, ps, a)
  {
    assert ps[..k] == ps;
  }

  /** The slots still to come are clear of the one being patched. */
  lemma RestStays(arch: Arch, s: Code, t: nat, next: int, rest: seq<nat>, a: int)
    requires t + SlotSize(arch) <= |s| && IsChain(arch, s, next, rest)
    requires forall i :: 0 <= i < |rest| ==> Apart(arch, t, rest[i])
    ensures IsChain(arch, SetTarget(arch, s, t, a), next, rest)
  {
    var r := SetTarget(arch, s, t, a);
    SetTargetOutside(arch, s, t, a);
    ChainInside(arch, s, next, rest);
    forall i | 0 <= i < |rest| ensures Agree(s, r, rest[i], rest[i] + SlotSize(arch)) { }
    ChainFrame(arch, s, r, next, rest);
  }

  lemma PatchedNext(arch: Arch, s0: Code, s: Code, ps: seq<nat>, k: nat, a: int)
    requires Inside(arch, s0, ps) && k < |ps| && AllOk(arch, ps[..k], a) && s == PatchAll(arch, s0, ps[..k], a)
    requires TargetOk(arch, ps[k], a)
    ensures ps[k] + SlotSize(arch) <= |s| && SetTarget(arch, s, ps[k], a) == PatchAll(arch, s0, ps[..k + 1], a)
    ensures AllOk(arch, ps[..k + 1], a)
  {
    assert ps[..k + 1][..k] == ps[..k];
  }

  /** Patching the next slot leaves the rest of the list in place. */
  lemma PatchingAdvances(arch: Arch, s0: Code, s: Code, t: int, ps: seq<nat>, k: nat, a: int)
    requires Patching(arch, s0, s, t, ps, k, a) && t != 0
    ensures k < |ps| && t == ps[k] && t > 0 && ps[k] + SlotSize(arch) <= |s| && IsSlot(arch, s, ps[k])
    ensures TargetOk(arch, t, a) ==>
              Patching(arch, s0, SetTarget(arch, s, ps[k], a), LinkAt(arch, s, ps[k]), ps, k + 1, a)
  {
    WalkStep(arch, s, t, ps, k);
    var rest := ps[k + 1..];
    forall i | 0 <= i < |rest| ensures Apart(arch, ps[k], rest[i]) {
      assert rest[i] == ps[k + 1 + i];
    }
    RestStays(arch, s, ps[k], LinkAt(arch, s, ps[k]), rest, a);
    if TargetOk(arch, t, a) { PatchedNext(arch, s0, s, ps, k, a); }
  }

  /** The range check, and a nop or a b instruction over the link. */
  method PatchArm64(text: Text<Byte>, t: nat, a: Word) returns (ok: bool)
    requires t + 4 <= |text.data|
    modifies text
    ensures ok <==> TargetOk(Arm64, t, a)
    ensures ok ==> text.data == SetTarget(Arm64, old(text.data), t, a)
  {
    if (a - t + 0x800_0000) % 0x1_0000_0000 >= 0x1000_0000 {
      return false;
    }
    var f := (a - t) % 0x1_0000_0000 / 4 % 0x400_0000;
    text.data := Write32(text.data, t, if a - t == 4 then 0xd503_201f else 0x1400_0000 + f);
    ok := true;
  }

  method GsymAddrArm64(text: Text<Byte>, t0: Word, a: Word, ghost ps: seq<nat>) returns (ok: bool)
    requires IsChain(Arm64, text.data, t0, ps) && Separate(Arm64, ps)
    modifies text
    ensures Inside(Arm64, old(text.data), ps)
    ensures ok <==> AllOk(Arm64, ps, a)
    ensures ok ==> text.data == PatchAll(Arm64, old(text.data), ps, a)
  {
    PatchingStarts(Arm64, text.data, t0, ps, a);
    var t := t0;
    ghost var k := 0;
    while t != 0
      invariant Patching(Arm64, old(text.data), text.data, t, ps, k, a)
      decreases |ps| - k
    {
      PatchingAdvances(Arm64, old(text.data), text.data, t, ps, k, a);
      var next := Read32(text.data, t);
      ok := PatchArm64(text, t, a);
      if !ok { return; }
      t := next;
      k := k + 1;
    }
    PatchingEnds(Arm64, old(text.data), text.data, ps, k, a);
    ok := true;
  }

  method PatchI386(text: Text<Byte>, t: nat, a: Word)
    requires t + 4 <= |text.data|
    modifies text
    ensures TargetOk(I386, t, a) && text.data == SetTarget(I386, old(text.data), t, a)
  {
    text.data := Write32(text.data, t, (a - t - 4) % 0x1_0000_0000);
  }

  method PatchArm(text: Text<Byte>, t: nat, a: int) returns (ok: bool)
    requires t + 4 <= |text.data|
    modifies text
    ensures ok <==> TargetOk(Arm, t, a)
    ensures ok ==> text.data == SetTarget(Arm, old(text.data), t, a)
  {
    if a == t + 4 {
      text.data := Write32(text.data, t, 0xe1a0_0000);
    } else {
      var b := EncBranch(t, a);
      if b == 0 { return false; }
      text.data := Write32(text.data, t, WithDisp(Read32(text.data, t), b % 0x100_0000));
    }
    ok := true;
  }

  method GsymAddrI386(text: Text<Byte>, t0: Word, a: Word, ghost ps: seq<nat>)
    requires IsChain(I386, text.data, t0, ps) && Separate(I386, ps)
    modifies text
    ensures Inside(I386, old(text.data), ps)
    ensures text.data == PatchAll(I386, old(text.data), ps, a)
  {
    PatchingStarts(I386, text.data, t0, ps, a);
    var t := t0;
    ghost var k := 0;
    while t != 0
      invariant Patching(I386, old(text.data), text.data, t, ps, k, a)
      decreases |ps| - k
    {
      PatchingAdvances(I386, old(text.data), text.data, t, ps, k, a);
      var n := Read32(text.data, t);
      PatchI386(text, t, a);
      t := n;
      k := k + 1;
    }
    PatchingEnds(I386, old(text.data), text.data, ps, k, a);
  }

  method GsymAddrArm(text: Text<Byte>, t0: int, a: int, ghost ps: seq<nat>) returns (ok: bool)
    requires IsChain(Arm, text.data, t0, ps) && Separate(Arm, ps)
    modifies text
    ensures Inside(Arm, old(text.data), ps)
    ensures ok <==> AllOk(Arm, ps, a)
    ensures ok ==> text.data == PatchAll(Arm, old(text.data), ps, a)
  {
    PatchingStarts(Arm, text.data, t0, ps, a);
    var t := t0;
    ghost var k := 0;
    while t != 0
      invariant Patching(Arm, old(text.data), text.data, t, ps, k, a)
      decreases |ps| - k
    {
      PatchingAdvances(Arm, old(text.data), text.data, t, ps, k, a);
      var lt := t;
      t := DecBranch(Read32(text.data, lt), lt);
      ok := PatchArm(text, lt, a);
      if !ok { return; }
      k := k + 1;
    }
    PatchingEnds(Arm, old(text.data), text.data, ps, k, a);
    ok := true;
  }

  /** The relocations that resolve the list `ps` to `a`. */
  function RelocsFor(ps: seq<nat>, a: int): (r: seq<Reloc>)
    ensures |r| == |ps| && forall i :: 0 <= i < |ps| ==> r[i] == Reloc(ps[i], a)
  {
    seq(|ps|, i requires 0 <= i < |ps| => Reloc(ps[i], a))
  }

  lemma RelocsNext(ps: seq<nat>, k: nat, a: int)
    requires k < |ps|
    ensures RelocsFor(ps[..k + 1], a) == RelocsFor(ps[..k], a) + [Reloc(ps[k], a)]
  {
  }

  method ClearLinkC67(text: Text<Byte>, t: nat, ghost a: int)
    requires t + 8 <= |text.data|
    modifies text
    ensures text.data == SetTarget(C67, old(text.data), t, a)
  {
    var w, w1 := Read32(text.data, t), Read32(text.data, t + 4);
    text.data := Write32(text.data, t, WithHalf(w, 0));
    text.data := Write32(text.data, t + 4, WithHalf(w1, 0));
  }

  method GsymAddrC67(text: Text<Byte>, relocs: Text<Reloc>, t0: Word, a: int, ghost ps: seq<nat>)
    requires IsChain(C67, text.data, t0, ps) && Separate(C67, ps)
    modifies text, relocs
    ensures Inside(C67, old(text.data), ps)
    ensures text.data == PatchAll(C67, old(text.data), ps, a)
    ensures relocs.data == old(relocs.data) + RelocsFor(ps, a)
  {
    PatchingStarts(C67, text.data, t0, ps, a);
    var t := t0;
    ghost var k := 0;
    while t != 0
      invariant Patching(C67, old(text.data), text.data, t, ps, k, a)
      invariant relocs.data == old(relocs.data) + RelocsFor(ps[..k], a)
      decreases |ps| - k
    {
      PatchingAdvances(C67, old(text.data), text.data, t, ps, k, a);
      var n := LinkAt(C67, text.data, t);
      relocs.Emit(Reloc(t, a));
      RelocsNext(ps, k, a);
      ClearLinkC67(text, t, a);
      t := n;
      k := k + 1;
    }
    PatchingEnds(C67, old(text.data), text.data, ps, k, a);
    assert ps[..k] == ps;
  }
}
