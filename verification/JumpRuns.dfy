/** Whole runs: any interleaving of code emission, gjmp, gjmp_append and gsym_addr,
    against a machine that keeps the pending jumps as plain lists. */
module JumpRuns {
  import opened Base
  import opened CodeBytes
  import opened JumpChains
  import opened JumpEmitters
  import opened JumpMeaning
  import opened Text

  // ---- The list machine ----

  /** `len` bytes emitted; `lists[v]` the pending jumps held by the caller's variable v;
      `bound` the resolved jumps with their targets; `slots` every jump ever emitted; `conds` their conditions;
      `other` the code as emitted, of which the bytes in slots do not matter. */
  datatype Abs =
    Abs(len: nat, lists: seq<seq<nat>>, bound: map<nat, int>, slots: set<nat>, conds: map<nat, Condition>, other: Code)

  datatype Op =
    | Emit(code: Code)            // any other code
    | Jump(v: nat, cc: Condition)       // v = gjmp(v) or gjmp_cond(cc, v)
    | Append(src: nat, dst: nat)  // dst = gjmp_append(src, dst); src = 0
    | Bind(v: nat, a: int)        // gsym_addr(v, a); v = 0

  function Head(ps: seq<nat>): int { if ps == [] then 0 else ps[0] }

  function BoundTo(ps: seq<nat>, a: int): map<nat, int> {
    map p | p in ps :: a
  }

  /** None stands for the fatal error of mapcc, encbranch or gsym_addr. */
  ghost function AbsStep(arch: Arch, m: Abs, op: Op): Option<Abs>
    requires Disciplined(arch, m, op)
  {
    match op
    case Emit(code) => Some(m.(len := m.len + |code|, other := m.other + code))
    case Jump(v, cc) =>
      var p := JumpPos(arch, m.len, cc);
      if arch == Arm && !(Mapped(cc) && EncBranch(p, Head(m.lists[v])) != 0) then None
      else Some(Abs(m.len + JumpLen(arch, cc), m.lists[v := [p] + m.lists[v]], m.bound, m.slots + {p},
                    m.conds[p := cc], m.other + AroundSlot(arch, cc)))
    case Append(src, dst) =>
      var ns, ts := m.lists[src], m.lists[dst];
      if arch == Arm && ns != [] && EncBranch(ns[|ns| - 1], Head(ts)) == 0 then None
      else Some(m.(lists := m.lists[dst := ns + ts][src := []]))
    case Bind(v, a) =>
      if !AllOk(arch, m.lists[v], a) then None
      else Some(m.(lists := m.lists[v := []], bound := m.bound + BoundTo(m.lists[v], a)))
  }

  function JumpLen(arch: Arch, cc: Condition): nat
  {
    |Prefix(arch, cc)| + SlotSize(arch) + |Suffix(arch)|
  }

  /** The opcode bytes and delay slots around a new slot. */
  function AroundSlot(arch: Arch, cc: Condition): (b: Code)
    ensures |b| == JumpLen(arch, cc)
  {
    Prefix(arch, cc) + seq(SlotSize(arch), _ => 0) + Suffix(arch)
  }

  /** Section sizes for which links and labels fit: on arm the end mark 0 must be within reach of a 24-bit field. */
  function MaxLen(arch: Arch): nat {
    match arch
    case Arm => 0x200_0000 - 4
    case Arm64 => 0x7fff_fffc
    case I386 => 0x7fff_ffff
    case C67 => 0x7fff_fffc
  }

  /** Instructions are words, except on i386. */
  predicate Aligned(arch: Arch, x: int) { arch == I386 || x % 4 == 0 }

  /** What callers do: variables in range, labels inside the code, whole instructions. */
  predicate Disciplined(arch: Arch, m: Abs, op: Op) {
    match op
    case Emit(code) => Aligned(arch, |code|) && m.len + |code| <= MaxLen(arch)
    case Jump(v, cc) => v < |m.lists| && (arch == Arm64 || arch == C67 ==> cc == None) &&
                        m.len + JumpLen(arch, cc) <= MaxLen(arch)
    case Append(src, dst) => src < |m.lists| && dst < |m.lists| && src != dst
    case Bind(v, a) => v < |m.lists| && 0 <= a <= MaxLen(arch) && Aligned(arch, a)
  }

  /** How often `p` is pending. */
  ghost function Count(lists: seq<seq<nat>>, p: nat): nat {
    if lists == [] then 0 else multiset(lists[0])[p] + Count(lists[1..], p)
  }

  /** Slots lie inside the code, clear of position 0 and of one another. */
  ghost predicate Layout(arch: Arch, len: nat, slots: set<nat>) {
    len <= MaxLen(arch) && Aligned(arch, len) && (arch != I386 ==> len > 0) &&
    (forall p :: p in slots ==> 0 < p && p + SlotSize(arch) <= len && Aligned(arch, p)) &&
    (forall p, q :: p in slots && q in slots && p != q ==> Apart(arch, p, q))
  }

  /** Every jump emitted is pending in exactly one place, or bound. */
  ghost predicate Conserved(m: Abs) {
    forall p: nat :: Count(m.lists, p) + (if p in m.bound then 1 else 0) == if p in m.slots then 1 else 0
  }

  ghost predicate Inv(arch: Arch, m: Abs) {
    Layout(arch, m.len, m.slots) && Conserved(m) && m.conds.Keys == m.slots
  }

  // ---- Conservation ----

  lemma {:induction false} CountUpdate(lists: seq<seq<nat>>, i: nat, ps: seq<nat>, p: nat)
    requires i < |lists|
    ensures Count(lists[i := ps], p) + multiset(lists[i])[p] == Count(lists, p) + multiset(ps)[p]
  {
    var r := lists[i := ps];
    if i == 0 {
      assert r[1..] == lists[1..];
    } else {
      assert r[1..] == lists[1..][i - 1 := ps];
      CountUpdate(lists[1..], i - 1, ps, p);
    }
  }

  lemma CountPair(lists: seq<seq<nat>>, i: nat, j: nat, p: nat)
    requires i < |lists| && j < |lists| && i != j
    ensures multiset(lists[i])[p] + multiset(lists[j])[p] <= Count(lists, p)
  {
    CountUpdate(lists, i, [], p);
    CountUpdate(lists[i := []], j, [], p);
  }

  lemma CountTwice(ps: seq<nat>, a: nat, b: nat)
    requires a < b < |ps| && ps[a] == ps[b]
    ensures multiset(ps)[ps[a]] >= 2
  {
    var front, back, x := ps[..b], ps[b..], ps[a];
    assert ps == front + back;
    assert front[a] == x && back[0] == x;
    assert multiset(ps) == multiset(front) + multiset(back);
    assert x in multiset(front) && x in multiset(back);
  }

  /** A pending jump was emitted, is not bound, and is on no second place of any list. */
  lemma PendingOnce(arch: Arch, m: Abs, i: nat, p: nat)
    requires Inv(arch, m) && i < |m.lists| && p in m.lists[i]
    ensures p in m.slots && p !in m.bound && multiset(m.lists[i])[p] == 1
    ensures forall j :: 0 <= j < |m.lists| && j != i ==> p !in m.lists[j]
  {
    CountUpdate(m.lists, i, [], p);
    assert multiset(m.lists[i])[p] >= 1;
    forall j | 0 <= j < |m.lists| && j != i ensures p !in m.lists[j] {
      CountPair(m.lists, i, j, p);
    }
  }

  /** The slots of one list do not overlap; two lists, or a list and the bound jumps, share none. */
  lemma ListsApart(arch: Arch, m: Abs, i: nat, j: nat)
    requires Inv(arch, m) && i < |m.lists| && j < |m.lists|
    ensures Separate(arch, m.lists[i])
    ensures i != j ==> SeparateFrom(arch, m.lists[i], m.lists[j])
    ensures forall k, p :: 0 <= k < |m.lists[i]| && p in m.bound ==> p in m.slots && Apart(arch, m.lists[i][k], p)
  {
    var ps := m.lists[i];
    forall a, b | 0 <= a < b < |ps| ensures Apart(arch, ps[a], ps[b]) {
      PendingOnce(arch, m, i, ps[a]);
      PendingOnce(arch, m, i, ps[b]);
      if ps[a] == ps[b] { CountTwice(ps, a, b); }
    }
    if i != j {
      forall a, b | 0 <= a < |ps| && 0 <= b < |m.lists[j]| ensures Apart(arch, ps[a], m.lists[j][b]) {
        PendingOnce(arch, m, i, ps[a]);
        PendingOnce(arch, m, j, m.lists[j][b]);
      }
    }
    forall k, p | 0 <= k < |ps| && p in m.bound ensures p in m.slots && Apart(arch, ps[k], p) {
      PendingOnce(arch, m, i, ps[k]);
      BoundEmitted(arch, m, p);
    }
  }

  lemma BoundEmitted(arch: Arch, m: Abs, p: nat)
    requires Inv(arch, m) && p in m.bound
    ensures p in m.slots
  {
    assert Count(m.lists, p) + 1 == if p in m.slots then 1 else 0;
  }

  /** Each step moves jumps between the lists and the bound ones, and loses none. */
  lemma StepCounts(arch: Arch, m: Abs, op: Op, p: nat)
    requires Inv(arch, m) && Disciplined(arch, m, op) && AbsStep(arch, m, op).Some?
    ensures var r := AbsStep(arch, m, op).value;
            Count(r.lists, p) + (if p in r.bound then 1 else 0) == if p in r.slots then 1 else 0
  {
    assert Count(m.lists, p) + (if p in m.bound then 1 else 0) == if p in m.slots then 1 else 0;
    match op
    case Emit(code) =>
    case Jump(v, cc) =>
      var q := JumpPos(arch, m.len, cc);
      CountUpdate(m.lists, v, [q] + m.lists[v], p);
      assert multiset([q] + m.lists[v])[p] == multiset(m.lists[v])[p] + if p == q then 1 else 0;
      assert q !in m.slots;
    case Append(src, dst) =>
      var ns, ts := m.lists[src], m.lists[dst];
      CountUpdate(m.lists, dst, ns + ts, p);
      CountUpdate(m.lists[dst := ns + ts], src, [], p);
      assert multiset(ns + ts)[p] == multiset(ns)[p] + multiset(ts)[p];
    case Bind(v, a) =>
      CountUpdate(m.lists, v, [], p);
      if p in m.lists[v] { PendingOnce(arch, m, v, p); }
  }

  lemma LayoutGrows(arch: Arch, len: nat, slots: set<nat>, cc: Condition)
    requires Layout(arch, len, slots) && len + JumpLen(arch, cc) <= MaxLen(arch)
    ensures Layout(arch, len + JumpLen(arch, cc), slots + {JumpPos(arch, len, cc)})
    ensures JumpPos(arch, len, cc) !in slots
  {
  }

  /** The list machine keeps its invariant. */
  lemma StepKeepsInv(arch: Arch, m: Abs, op: Op)
    requires Inv(arch, m) && Disciplined(arch, m, op) && AbsStep(arch, m, op).Some?
    ensures Inv(arch, AbsStep(arch, m, op).value)
  {
    StepConserves(arch, m, op, AbsStep(arch, m, op).value);
    assert AbsStep(arch, m, op).value.conds.Keys == AbsStep(arch, m, op).value.slots;
    StepLayout(arch, m, op, AbsStep(arch, m, op).value);
  }

  lemma StepConserves(arch: Arch, m: Abs, op: Op, r: Abs)
    requires Inv(arch, m) && Disciplined(arch, m, op) && AbsStep(arch, m, op) == Some(r)
    ensures Conserved(r)
  {
    forall p: nat ensures Count(r.lists, p) + (if p in r.bound then 1 else 0) == if p in r.slots then 1 else 0 {
      StepCounts(arch, m, op, p);
    }
  }

  lemma StepLayout(arch: Arch, m: Abs, op: Op, r: Abs)
    requires Layout(arch, m.len, m.slots) && Disciplined(arch, m, op) && AbsStep(arch, m, op) == Some(r)
    ensures Layout(arch, r.len, r.slots)
  {
    match op
    case Emit(code) => LongerLayout(arch, m.len, m.slots, |code|);
    case Jump(v, cc) => LayoutGrows(arch, m.len, m.slots, cc);
    case Append(_, _) =>
    case Bind(_, _) =>
  }

  lemma LongerLayout(arch: Arch, len: nat, slots: set<nat>, n: nat)
    requires Layout(arch, len, slots) && Aligned(arch, n) && len + n <= MaxLen(arch)
    ensures Layout(arch, len + n, slots)
  {
  }

  // ---- The code against the list machine ----

  /** The heads lead to exactly the pending lists. */
  ghost predicate ChainsHold(arch: Arch, s: Code, heads: seq<int>, lists: seq<seq<nat>>) {
    |heads| == |lists| && forall i :: 0 <= i < |heads| ==> IsChain(arch, s, heads[i], lists[i])
  }

  /** Every bound jump goes to its label. */
  ghost predicate TargetsHold(arch: Arch, s: Code, relocs: seq<Reloc>, bound: map<nat, int>) {
    forall p :: p in bound ==> p + SlotSize(arch) <= |s| && BranchesTo(arch, s, relocs, p, bound[p])
  }

  predicate OutsideSlots(arch: Arch, slots: set<nat>, i: int) {
    forall p :: p in slots ==> i < p || p + SlotSize(arch) <= i
  }

  /** The bytes outside all slots are as emitted. */
  ghost predicate OthersHold(arch: Arch, s: Code, other: Code, slots: set<nat>) {
    |s| == |other| && forall i :: 0 <= i < |s| && OutsideSlots(arch, slots, i) ==> s[i] == other[i]
  }

  lemma OthersGrow(arch: Arch, s: Code, other: Code, slots: set<nat>, b: Code)
    requires OthersHold(arch, s, other, slots)
    ensures OthersHold(arch, s + b, other + b, slots)
  {
  }

  lemma OthersJump(arch: Arch, s: Code, other: Code, slots: set<nat>, t: int, cc: Condition)
    requires OthersHold(arch, s, other, slots) && (arch != Arm ==> 0 <= t < W32)
    ensures OthersHold(arch, s + JumpCode(arch, |s|, t, cc), other + AroundSlot(arch, cc),
                       slots + {JumpPos(arch, |s|, cc)})
  {
    var p, all := JumpPos(arch, |s|, cc), slots + {JumpPos(arch, |s|, cc)};
    var r, o := s + JumpCode(arch, |s|, t, cc), other + AroundSlot(arch, cc);
    forall i | 0 <= i < |r| && OutsideSlots(arch, all, i) ensures r[i] == o[i] {
      assert p in all;
      if i < |s| {
        assert OutsideSlots(arch, slots, i);
      } else if i < p {
        assert r[i] == Prefix(arch, cc)[i - |s|] == o[i];
      } else {
        assert r[i] == Suffix(arch)[i - p - SlotSize(arch)] == o[i];
      }
    }
  }

  /** Rewriting slots only. */
  lemma OthersKept(arch: Arch, s: Code, r: Code, other: Code, slots: set<nat>, ps: seq<nat>)
    requires OthersHold(arch, s, other, slots) && PatchedOutside(arch, s, r, ps)
    requires forall i :: 0 <= i < |ps| ==> ps[i] in slots
    ensures OthersHold(arch, r, other, slots)
  {
    forall k | 0 <= k < |r| && OutsideSlots(arch, slots, k) ensures r[k] == other[k] {
      assert forall i :: 0 <= i < |ps| ==> k < ps[i] || ps[i] + SlotSize(arch) <= k;
    }
  }

  lemma ListedSlots(arch: Arch, m: Abs, v: nat)
    requires Inv(arch, m) && v < |m.lists|
    ensures forall i :: 0 <= i < |m.lists[v]| ==> m.lists[v][i] in m.slots
  {
    forall i | 0 <= i < |m.lists[v]| ensures m.lists[v][i] in m.slots { PendingOnce(arch, m, v, m.lists[v][i]); }
  }

  ghost predicate Refines(arch: Arch, s: Code, relocs: seq<Reloc>, heads: seq<int>, m: Abs) {
    && Inv(arch, m)
    && |s| == m.len
    && OthersHold(arch, s, m.other, m.slots)
    && ChainsHold(arch, s, heads, m.lists)
    && TargetsHold(arch, s, relocs, m.bound)
  }

  lemma HeadIs(arch: Arch, s: Code, t: int, ps: seq<nat>)
    requires IsChain(arch, s, t, ps)
    ensures t == Head(ps)
  {
  }

  /** Within the size limit every link that can arise fits. */
  lemma LinksFit(arch: Arch, m: Abs, p: nat, t: int)
    requires Inv(arch, m) && Aligned(arch, p) && p + SlotSize(arch) <= MaxLen(arch)
    requires t == 0 || (t in m.slots)
    ensures LinkFits(arch, p, t) && (arch != Arm ==> 0 <= t < 0x1_0000_0000)
  {
  }

  /** Appending code leaves everything that was there in place. */
  lemma GrowthRefines(arch: Arch, s: Code, relocs: seq<Reloc>, heads: seq<int>, m: Abs, b: Code)
    requires Refines(arch, s, relocs, heads, m)
    ensures ChainsHold(arch, s + b, heads, m.lists) && TargetsHold(arch, s + b, relocs, m.bound)
  {
    forall i | 0 <= i < |heads| ensures IsChain(arch, s + b, heads[i], m.lists[i]) {
      ChainInside(arch, s, heads[i], m.lists[i]);
      ChainFrame(arch, s, s + b, heads[i], m.lists[i]);
    }
    forall p | p in m.bound ensures BranchesTo(arch, s + b, relocs, p, m.bound[p]) {
      TargetFrame(arch, s, s + b, relocs, p, m.bound[p]);
    }
  }

  lemma EmitRefines(arch: Arch, s: Code, relocs: seq<Reloc>, heads: seq<int>, m: Abs, b: Code)
    requires Refines(arch, s, relocs, heads, m) && Disciplined(arch, m, Emit(b))
    ensures Refines(arch, s + b, relocs, heads, AbsStep(arch, m, Emit(b)).value)
  {
    StepKeepsInv(arch, m, Emit(b));
    OthersGrow(arch, s, m.other, m.slots, b);
    GrowthRefines(arch, s, relocs, heads, m, b);
  }

  /** The link of a new jump, the old head of its list, can be encoded. */
  lemma NewLinkFits(arch: Arch, s: Code, m: Abs, v: nat, cc: Condition, h: int, p: nat)
    requires Inv(arch, m) && |s| == m.len && Disciplined(arch, m, Jump(v, cc)) && IsChain(arch, s, h, m.lists[v])
    requires p == JumpPos(arch, |s|, cc)
    ensures h == Head(m.lists[v]) && (arch != Arm ==> 0 <= h < 0x1_0000_0000) && LinkFits(arch, p, h)
  {
    HeadIs(arch, s, h, m.lists[v]);
    if m.lists[v] != [] { PendingOnce(arch, m, v, h); }
    LinksFit(arch, m, p, h);
  }

  lemma JumpLinkFits(arch: Arch, s: Code, relocs: seq<Reloc>, heads: seq<int>, m: Abs, v: nat, cc: Condition)
    requires Refines(arch, s, relocs, heads, m) && Disciplined(arch, m, Jump(v, cc))
    ensures heads[v] == Head(m.lists[v]) && (arch != Arm ==> 0 <= heads[v] < 0x1_0000_0000)
    ensures LinkFits(arch, JumpPos(arch, |s|, cc), heads[v])
  {
    NewLinkFits(arch, s, m, v, cc, heads[v], JumpPos(arch, |s|, cc));
  }

  lemma ConsChain(arch: Arch, s: Code, p: nat, t: int, ps: seq<nat>)
    requires p > 0 && p + SlotSize(arch) <= |s| && IsSlot(arch, s, p) && LinkAt(arch, s, p) == t &&
             IsChain(arch, s, t, ps)
    ensures IsChain(arch, s, p, [p] + ps)
  {
    assert ([p] + ps)[1..] == ps;
  }

  lemma JumpChainsHold(arch: Arch, s: Code, relocs: seq<Reloc>, heads: seq<int>, m: Abs, v: nat, cc: Condition, r: Code)
    requires Refines(arch, s, relocs, heads, m) && Disciplined(arch, m, Jump(v, cc))
    requires (arch != Arm ==> 0 <= heads[v] < 0x1_0000_0000) && r == s + JumpCode(arch, |s|, heads[v], cc)
    ensures var p := JumpPos(arch, |s|, cc); ChainsHold(arch, r, heads[v := p], m.lists[v := [p] + m.lists[v]])
    ensures TargetsHold(arch, r, relocs, m.bound) && |r| == m.len + JumpLen(arch, cc)
  {
    var p, t := JumpPos(arch, |s|, cc), heads[v];
    JumpLinkFits(arch, s, relocs, heads, m, v, cc);
    EmittedLink(arch, s, t, cc);
    GrowthRefines(arch, s, relocs, heads, m, JumpCode(arch, |s|, t, cc));
    ConsChain(arch, r, p, t, m.lists[v]);
  }

  /** gjmp conses the new jump onto its list. */
  lemma JumpRefines(arch: Arch, s: Code, relocs: seq<Reloc>, heads: seq<int>, m: Abs, v: nat, cc: Condition)
    requires Refines(arch, s, relocs, heads, m) && Disciplined(arch, m, Jump(v, cc))
    requires AbsStep(arch, m, Jump(v, cc)).Some?
    ensures arch != Arm ==> 0 <= heads[v] < 0x1_0000_0000
    ensures Refines(arch, s + JumpCode(arch, |s|, heads[v], cc), relocs, heads[v := JumpPos(arch, |s|, cc)],
                    AbsStep(arch, m, Jump(v, cc)).value)
  {
    StepKeepsInv(arch, m, Jump(v, cc));
    JumpLinkFits(arch, s, relocs, heads, m, v, cc);
    OthersJump(arch, s, m.other, m.slots, heads[v], cc);
    JumpChainsHold(arch, s, relocs, heads, m, v, cc, s + JumpCode(arch, |s|, heads[v], cc));
  }

  /** The code outside the slots of `ps` is unchanged: the other lists and the bound jumps are as before. */
  lemma RewriteFrame(arch: Arch, s: Code, r: Code, relocs: seq<Reloc>, heads: seq<int>, m: Abs, v: nat)
    requires Refines(arch, s, relocs, heads, m) && v < |heads| && PatchedOutside(arch, s, r, m.lists[v])
    ensures forall i :: 0 <= i < |heads| && i != v ==> IsChain(arch, r, heads[i], m.lists[i])
    ensures TargetsHold(arch, r, relocs, m.bound)
  {
    var ps := m.lists[v];
    forall i | 0 <= i < |heads| && i != v ensures IsChain(arch, r, heads[i], m.lists[i]) {
      ListsApart(arch, m, v, i);
      ChainInside(arch, s, heads[i], m.lists[i]);
      forall k | 0 <= k < |m.lists[i]| ensures Agree(s, r, m.lists[i][k], m.lists[i][k] + SlotSize(arch)) {
        SlotUntouched(arch, s, r, ps, m.lists[i][k]);
      }
      ChainFrame(arch, s, r, heads[i], m.lists[i]);
    }
    ListsApart(arch, m, v, v);
    forall p | p in m.bound ensures p + SlotSize(arch) <= |r| && BranchesTo(arch, r, relocs, p, m.bound[p]) {
      SlotUntouched(arch, s, r, ps, p);
      TargetFrame(arch, s, r, relocs, p, m.bound[p]);
    }
  }

  lemma AppendLinkFits(arch: Arch, s: Code, relocs: seq<Reloc>, heads: seq<int>, m: Abs, src: nat, dst: nat)
    requires Refines(arch, s, relocs, heads, m) && Disciplined(arch, m, Append(src, dst)) && m.lists[src] != []
    ensures var ns := m.lists[src];
            heads[dst] == Head(m.lists[dst]) && LinkFits(arch, ns[|ns| - 1], heads[dst]) &&
            ns[|ns| - 1] + SlotSize(arch) <= |s|
  {
    var ns := m.lists[src];
    HeadIs(arch, s, heads[dst], m.lists[dst]);
    if m.lists[dst] != [] { PendingOnce(arch, m, dst, heads[dst]); }
    PendingOnce(arch, m, src, ns[|ns| - 1]);
    LinksFit(arch, m, ns[|ns| - 1], heads[dst]);
  }

  /** `r` is what gjmp_append leaves. */
  ghost predicate AppendedTo(arch: Arch, s: Code, r: Code, ns: seq<nat>, t: int)
    requires ns != []
  {
    && ns[|ns| - 1] + SlotSize(arch) <= |s|
    && (arch != Arm ==> 0 <= t < 0x1_0000_0000)
    && r == SetLink(arch, s, ns[|ns| - 1], t)
  }

  lemma SetLinkReadsAt(arch: Arch, s: Code, n: int, ns: seq<nat>, t: int)
    requires ns != [] && IsChain(arch, s, n, ns) && LinkFits(arch, ns[|ns| - 1], t)
    ensures ns[|ns| - 1] + SlotSize(arch) <= |s| && PatchedOutside(arch, s, SetLink(arch, s, ns[|ns| - 1], t), ns)
  {
    ChainInside(arch, s, n, ns);
    SetLinkReads(arch, s, ns[|ns| - 1], t);
  }

  lemma SplicedChainsHold(arch: Arch, r: Code, heads: seq<int>, lists: seq<seq<nat>>, src: nat, dst: nat,
        joined: seq<nat>)
    requires |heads| == |lists| && src < |heads| && dst < |heads| && src != dst
    requires forall i :: 0 <= i < |heads| && i != src ==> IsChain(arch, r, heads[i], lists[i])
    requires IsChain(arch, r, heads[src], joined)
    ensures ChainsHold(arch, r, heads[dst := heads[src]][src := 0], lists[dst := joined][src := []])
  {
    var heads', lists' := heads[dst := heads[src]][src := 0], lists[dst := joined][src := []];
    forall i | 0 <= i < |heads'| ensures IsChain(arch, r, heads'[i], lists'[i]) {
      if i == dst {} else if i == src {} else {}
    }
  }

  lemma AppendedChain(arch: Arch, s: Code, r: Code, relocs: seq<Reloc>, heads: seq<int>, m: Abs, src: nat, dst: nat)
    requires Refines(arch, s, relocs, heads, m) && Disciplined(arch, m, Append(src, dst))
    requires m.lists[src] != [] && AppendedTo(arch, s, r, m.lists[src], heads[dst])
    ensures IsChain(arch, r, heads[src], m.lists[src] + m.lists[dst])
    ensures PatchedOutside(arch, s, r, m.lists[src])
  {
    AppendLinkFits(arch, s, relocs, heads, m, src, dst);
    ListsApart(arch, m, src, dst);
    AppendedTwo(arch, s, r, heads[src], m.lists[src], heads[dst], m.lists[dst]);
  }

  /** The two lists alone. */
  lemma AppendedTwo(arch: Arch, s: Code, r: Code, n: int, ns: seq<nat>, t: int, ts: seq<nat>)
    requires ns != [] && IsChain(arch, s, n, ns) && IsChain(arch, s, t, ts) && AppendedTo(arch, s, r, ns, t)
    requires Separate(arch, ns) && SeparateFrom(arch, ns, ts) && LinkFits(arch, ns[|ns| - 1], t)
    ensures IsChain(arch, r, n, ns + ts) && PatchedOutside(arch, s, r, ns)
  {
    SetLinkReadsAt(arch, s, n, ns, t);
    AppendIsConcat(arch, s, n, ns, t, ts);
  }

  lemma AppendChainsHold(arch: Arch, s: Code, r: Code, relocs: seq<Reloc>, heads: seq<int>, m: Abs, src: nat, dst: nat)
    requires Refines(arch, s, relocs, heads, m) && Disciplined(arch, m, Append(src, dst))
    requires m.lists[src] != [] && AppendedTo(arch, s, r, m.lists[src], heads[dst])
    ensures ChainsHold(arch, r, heads[dst := heads[src]][src := 0],
            m.lists[dst := m.lists[src] + m.lists[dst]][src := []])
    ensures TargetsHold(arch, r, relocs, m.bound)
  {
    AppendedChain(arch, s, r, relocs, heads, m, src, dst);
    RewriteFrame(arch, s, r, relocs, heads, m, src);
    SplicedChainsHold(arch, r, heads, m.lists, src, dst, m.lists[src] + m.lists[dst]);
  }

  /** gjmp_append concatenates the two lists. */
  lemma AppendRefines(arch: Arch, s: Code, r: Code, relocs: seq<Reloc>, heads: seq<int>, m: Abs, src: nat, dst: nat)
    requires Refines(arch, s, relocs, heads, m) && Disciplined(arch, m, Append(src, dst))
    requires AbsStep(arch, m, Append(src, dst)).Some?
    requires m.lists[src] != [] ==> AppendedTo(arch, s, r, m.lists[src], heads[dst])
    requires m.lists[src] == [] ==> r == s
    ensures Refines(arch, r, relocs, heads[dst := if m.lists[src] == [] then heads[dst] else heads[src]][src := 0],
                    AbsStep(arch, m, Append(src, dst)).value)
  {
    StepKeepsInv(arch, m, Append(src, dst));
    if m.lists[src] == [] {
      NothingAppended(arch, s, heads, m.lists, src, dst);
    } else {
      AppendChainsHold(arch, s, r, relocs, heads, m, src, dst);
      AppendOthersHold(arch, s, r, relocs, heads, m, src, dst);
    }
  }

  lemma NothingAppended(arch: Arch, s: Code, heads: seq<int>, lists: seq<seq<nat>>, src: nat, dst: nat)
    requires ChainsHold(arch, s, heads, lists) && src < |lists| && dst < |lists| && src != dst && lists[src] == []
    ensures lists[dst := lists[src] + lists[dst]] == lists && ChainsHold(arch, s, heads[src := 0], lists[src := []])
    ensures heads[dst := heads[dst]] == heads
  {
    assert lists[src] + lists[dst] == lists[dst];
  }

  lemma AppendOthersHold(arch: Arch, s: Code, r: Code, relocs: seq<Reloc>, heads: seq<int>, m: Abs, src: nat, dst: nat)
    requires Refines(arch, s, relocs, heads, m) && Disciplined(arch, m, Append(src, dst))
    requires m.lists[src] != [] && AppendedTo(arch, s, r, m.lists[src], heads[dst])
    ensures |r| == |s| && OthersHold(arch, r, m.other, m.slots)
  {
    AppendedChain(arch, s, r, relocs, heads, m, src, dst);
    ListedSlots(arch, m, src);
    OthersKept(arch, s, r, m.other, m.slots, m.lists[src]);
  }

  /** Within the size limit a label that raises no error is at an expressible distance. */
  lemma LabelFits(arch: Arch, m: Abs, p: nat, a: int)
    requires Inv(arch, m) && p in m.slots && 0 <= a <= MaxLen(arch) && Aligned(arch, a) && TargetOk(arch, p, a)
    ensures TargetFits(arch, p, a) && -0x8000_0000 < a - p < 0x8000_0000
  {
    InSection(arch, p, a);
  }

  lemma InSection(arch: Arch, p: nat, a: int)
    requires 0 < p && p + SlotSize(arch) <= MaxLen(arch) && Aligned(arch, p)
    requires 0 <= a <= MaxLen(arch) && Aligned(arch, a)
    ensures TargetOk(arch, p, a) <==> TargetFits(arch, p, a)
    ensures TargetOk(arch, p, a) <==> (arch == Arm64 ==> -0x800_0000 <= a - p < 0x800_0000)
    ensures -0x8000_0000 < a - p < 0x8000_0000
  {
    match arch
    case Arm64 => NearBranch(a - p);
    case I386 =>
    case Arm =>
    case C67 =>
  }

  lemma NearBranch(d: int)
    requires -0x8000_0000 < d < 0x8000_0000
    ensures (d + 0x800_0000) % 0x1_0000_0000 < 0x1000_0000 <==> -0x800_0000 <= d < 0x800_0000
  {
  }

  /** The relocations after gsym_addr. */
  function RelocsAfter(arch: Arch, relocs: seq<Reloc>, ps: seq<nat>, a: int): seq<Reloc> {
    if arch == C67 then relocs + RelocsFor(ps, a) else relocs
  }

  lemma BoundBranches(arch: Arch, s: Code, relocs: seq<Reloc>, heads: seq<int>, m: Abs, v: nat, a: int, k: nat)
    requires Refines(arch, s, relocs, heads, m) && Disciplined(arch, m, Bind(v, a)) && AllOk(arch, m.lists[v], a)
    requires k < |m.lists[v]| && Inside(arch, s, m.lists[v])
    ensures BranchesTo(arch, PatchAll(arch, s, m.lists[v], a), RelocsAfter(arch, relocs, m.lists[v], a),
            m.lists[v][k], a)
  {
    var ps, rs := m.lists[v], RelocsAfter(arch, relocs, m.lists[v], a);
    ChainInside(arch, s, heads[v], ps);
    ListsApart(arch, m, v, v);
    forall i | 0 <= i < |ps| ensures Patchable(arch, s, rs, ps[i], a) && TargetFits(arch, ps[i], a) {
      PendingOnce(arch, m, v, ps[i]);
      LabelFits(arch, m, ps[i], a);
      if arch == C67 { assert rs[|relocs| + i] == Reloc(ps[i], a); }
    }
    PatchedChain(arch, s, rs, ps, a, k);
  }

  lemma BindTargetsHold(arch: Arch, s: Code, relocs: seq<Reloc>, heads: seq<int>, m: Abs, v: nat, a: int)
    requires Refines(arch, s, relocs, heads, m) && Disciplined(arch, m, Bind(v, a)) && AllOk(arch, m.lists[v], a)
    requires Inside(arch, s, m.lists[v]) && TargetsHold(arch, PatchAll(arch, s, m.lists[v], a), relocs, m.bound)
    ensures TargetsHold(arch, PatchAll(arch, s, m.lists[v], a), RelocsAfter(arch, relocs, m.lists[v], a),
                        m.bound + BoundTo(m.lists[v], a))
  {
    var ps, r, rs := m.lists[v], PatchAll(arch, s, m.lists[v], a), RelocsAfter(arch, relocs, m.lists[v], a);
    var bound := m.bound + BoundTo(ps, a);
    ChainInside(arch, s, heads[v], ps);
    forall p | p in bound ensures p + SlotSize(arch) <= |r| && BranchesTo(arch, r, rs, p, bound[p]) {
      if p in ps {
        var k :| 0 <= k < |ps| && ps[k] == p;
        BoundBranches(arch, s, relocs, heads, m, v, a, k);
      }
    }
  }

  /** gsym_addr binds exactly the jumps of its list. */
  lemma BindRefines(arch: Arch, s: Code, relocs: seq<Reloc>, heads: seq<int>, m: Abs, v: nat, a: int)
    requires Refines(arch, s, relocs, heads, m) && Disciplined(arch, m, Bind(v, a)) &&
             AbsStep(arch, m, Bind(v, a)).Some?
    requires Inside(arch, s, m.lists[v])
    ensures Refines(arch, PatchAll(arch, s, m.lists[v], a), RelocsAfter(arch, relocs, m.lists[v], a), heads[v := 0],
                    AbsStep(arch, m, Bind(v, a)).value)
  {
    var r := PatchAll(arch, s, m.lists[v], a);
    StepKeepsInv(arch, m, Bind(v, a));
    PatchAllOutside(arch, s, m.lists[v], a);
    RewriteFrame(arch, s, r, relocs, heads, m, v);
    ListedSlots(arch, m, v);
    OthersKept(arch, s, r, m.other, m.slots, m.lists[v]);
    BindTargetsHold(arch, s, relocs, heads, m, v, a);
  }

  // ---- Conditions ----

  /** The code refines the list machine, and every jump is taken under the condition it was emitted with. */
  ghost predicate Faithful(arch: Arch, s: Code, relocs: seq<Reloc>, heads: seq<int>, m: Abs) {
    Refines(arch, s, relocs, heads, m) && JumpsHold(arch, s, m.conds, m.bound)
  }

  lemma EmitFaithful(arch: Arch, s: Code, relocs: seq<Reloc>, heads: seq<int>, m: Abs, b: Code)
    requires Faithful(arch, s, relocs, heads, m) && Disciplined(arch, m, Emit(b))
    ensures Faithful(arch, s + b, relocs, heads, AbsStep(arch, m, Emit(b)).value)
  {
    EmitRefines(arch, s, relocs, heads, m, b);
    JumpsGrow(arch, s, b, m.conds, m.bound);
  }

  lemma JumpFaithful(arch: Arch, s: Code, relocs: seq<Reloc>, heads: seq<int>, m: Abs, v: nat, cc: Condition)
    requires Faithful(arch, s, relocs, heads, m) && Disciplined(arch, m, Jump(v, cc))
    requires AbsStep(arch, m, Jump(v, cc)).Some?
    ensures arch != Arm ==> 0 <= heads[v] < 0x1_0000_0000
    ensures Faithful(arch, s + JumpCode(arch, |s|, heads[v], cc), relocs, heads[v := JumpPos(arch, |s|, cc)],
                     AbsStep(arch, m, Jump(v, cc)).value)
  {
    JumpRefines(arch, s, relocs, heads, m, v, cc);
    var b, p := JumpCode(arch, |s|, heads[v], cc), JumpPos(arch, |s|, cc);
    EmittedJump(arch, s, heads[v], cc, s + b, p);
    JumpAdded(arch, s, b, m.conds, m.bound, p, cc);
  }

  lemma AppendFaithful(arch: Arch, s: Code, r: Code, relocs: seq<Reloc>, heads: seq<int>, m: Abs, src: nat, dst: nat)
    requires Faithful(arch, s, relocs, heads, m) && Disciplined(arch, m, Append(src, dst))
    requires AbsStep(arch, m, Append(src, dst)).Some?
    requires m.lists[src] != [] ==> AppendedTo(arch, s, r, m.lists[src], heads[dst])
    requires m.lists[src] == [] ==> r == s
    ensures Faithful(arch, r, relocs, heads[dst := if m.lists[src] == [] then heads[dst] else heads[src]][src := 0],
                     AbsStep(arch, m, Append(src, dst)).value)
  {
    AppendRefines(arch, s, r, relocs, heads, m, src, dst);
    if m.lists[src] != [] { AppendJumps(arch, s, r, relocs, heads, m, src, dst); }
  }

  lemma AppendJumps(arch: Arch, s: Code, r: Code, relocs: seq<Reloc>, heads: seq<int>, m: Abs, src: nat, dst: nat)
    requires Faithful(arch, s, relocs, heads, m) && Disciplined(arch, m, Append(src, dst))
    requires m.lists[src] != [] && AppendedTo(arch, s, r, m.lists[src], heads[dst])
    ensures JumpsHold(arch, r, m.conds, m.bound)
  {
    var ns := m.lists[src];
    ChainInside(arch, s, heads[src], ns);
    ListedSlots(arch, m, src);
    AppendLinkFits(arch, s, relocs, heads, m, src, dst);
    LastRewritten(arch, s, r, heads[src], ns, heads[dst]);
    JumpsRewritten(arch, s, r, [ns[|ns| - 1]], m.conds, m.bound, m.bound);
  }

  lemma LastRewritten(arch: Arch, s: Code, r: Code, n: int, ns: seq<nat>, t: int)
    requires ns != [] && IsChain(arch, s, n, ns) && AppendedTo(arch, s, r, ns, t) && LinkFits(arch, ns[|ns| - 1], t)
    ensures PatchedOutside(arch, s, r, [ns[|ns| - 1]]) && SameOpcode(arch, s, r, ns[|ns| - 1])
  {
    var last := ns[|ns| - 1];
    ChainInside(arch, s, n, ns);
    SetLinkReads(arch, s, last, t);
    SetLinkOpcode(arch, s, last, t);
    assert [last][0] == last;
  }

  lemma BindFaithful(arch: Arch, s: Code, relocs: seq<Reloc>, heads: seq<int>, m: Abs, v: nat, a: int)
    requires Faithful(arch, s, relocs, heads, m) && Disciplined(arch, m, Bind(v, a)) &&
             AbsStep(arch, m, Bind(v, a)).Some?
    requires Inside(arch, s, m.lists[v])
    ensures Faithful(arch, PatchAll(arch, s, m.lists[v], a), RelocsAfter(arch, relocs, m.lists[v], a), heads[v := 0],
                     AbsStep(arch, m, Bind(v, a)).value)
  {
    BindRefines(arch, s, relocs, heads, m, v, a);
    StepKeeps(arch, m, Bind(v, a), AbsStep(arch, m, Bind(v, a)).value);
    BindJumps(arch, s, relocs, heads, m, v, a, m.bound + BoundTo(m.lists[v], a));
  }

  lemma BindJumps(arch: Arch, s: Code, relocs: seq<Reloc>, heads: seq<int>, m: Abs, v: nat, a: int,
        bound: map<nat, int>)
    requires Faithful(arch, s, relocs, heads, m) && v < |m.lists| && Inside(arch, s, m.lists[v])
    requires bound == m.bound + BoundTo(m.lists[v], a)
    requires forall p :: p in m.bound ==> p in bound && bound[p] == m.bound[p]
    ensures JumpsHold(arch, PatchAll(arch, s, m.lists[v], a), m.conds, bound)
  {
    var ps := m.lists[v];
    var r := PatchAll(arch, s, ps, a);
    ListsApart(arch, m, v, v);
    ListedSlots(arch, m, v);
    PatchAllOutside(arch, s, ps, a);
    forall i | 0 <= i < |ps| ensures SameOpcode(arch, s, r, ps[i]) || Kept(arch, r, ps[i], m.conds[ps[i]], bound) {
      PatchAllRewrites(arch, s, ps, a, i);
      assert ps[i] in bound && bound[ps[i]] == a;
    }
    JumpsRewritten(arch, s, r, ps, m.conds, m.bound, bound);
  }

  /** After any run: a bound jump goes to its label exactly when the condition it was emitted with is met. */
  lemma BoundJumpGoes(arch: Arch, s: Code, relocs: seq<Reloc>, heads: seq<int>, m: Abs, p: nat, x: Word, y: Word)
    requires arch != C67 && Faithful(arch, s, relocs, heads, m) && p in m.bound
    ensures p in m.conds && Lead(arch, m.conds[p]) <= p && End(arch, p) <= |s|
    ensures GoesTo(arch, s, p, m.bound[p], m.conds[p], x, y)
  {
    BoundEmitted(arch, m, p);
    JumpGoes(arch, s, relocs, m.conds, m.bound, p, x, y);
  }

  /** On c67 it does once the linker has put in the address of the label. */
  lemma LinkedBoundGoes(s: Code, relocs: seq<Reloc>, heads: seq<int>, m: Abs, p: nat, val: Word, r: Code, x: Word,
        y: Word)
    requires Faithful(C67, s, relocs, heads, m) && p in m.bound
    ensures p in m.conds && End(C67, p) <= |s| && Reloc(p, m.bound[p]) in relocs
    ensures r == SetLink(C67, s, p, (val + LinkAt(C67, s, p)) % W32) ==>
              JumpsWhen(C67, r, p, m.conds[p]) && GoesTo(C67, r, p, val, m.conds[p], x, y)
  {
    BoundEmitted(C67, m, p);
    assert Kept(C67, s, p, m.conds[p], m.bound);
    if r == SetLink(C67, s, p, (val + LinkAt(C67, s, p)) % W32) {
      LinkedJumpGoes(s, p, m.bound[p], m.conds[p], relocs, val, r, x, y);
    }
  }

  // ---- Runs ----

  /** None as soon as one step fails. */
  ghost function AbsRun(arch: Arch, m: Abs, ops: seq<Op>): Option<Abs>
    requires DisciplinedRun(arch, m, ops)
    decreases |ops|
  {
    if ops == [] then Some(m)
    else match AbsStep(arch, m, ops[0])
      case Some(next) => AbsRun(arch, next, ops[1..])
      case None => None
  }

  ghost predicate DisciplinedRun(arch: Arch, m: Abs, ops: seq<Op>)
    decreases |ops|
  {
    ops == [] ||
    (Disciplined(arch, m, ops[0]) &&
     match AbsStep(arch, m, ops[0])
     case Some(next) => DisciplinedRun(arch, next, ops[1..])
     case None => true)
  }

  lemma StepKeeps(arch: Arch, m: Abs, op: Op, r: Abs)
    requires Inv(arch, m) && Disciplined(arch, m, op) && AbsStep(arch, m, op) == Some(r)
    ensures m.slots <= r.slots && m.other <= r.other
    ensures forall p :: p in m.slots ==> p in r.conds && r.conds[p] == m.conds[p]
    ensures forall p :: p in m.bound ==> p in r.bound && r.bound[p] == m.bound[p]
  {
    match op
    case Emit(_) =>
    case Jump(_, cc) => LayoutGrows(arch, m.len, m.slots, cc);
    case Append(_, _) =>
    case Bind(v, a) =>
      forall p | p in m.bound ensures p in r.bound && r.bound[p] == m.bound[p] {
        if p in m.lists[v] { PendingOnce(arch, m, v, p); }
      }
  }

  /** Over any run the pending lists stay disjoint and free of repetition, no jump is lost,
      and a jump once bound keeps its label. */
  lemma {:induction false} RunConserves(arch: Arch, m: Abs, ops: seq<Op>)
    requires Inv(arch, m) && DisciplinedRun(arch, m, ops) && AbsRun(arch, m, ops).Some?
    ensures var r := AbsRun(arch, m, ops).value;
            && Inv(arch, r)
            && m.slots <= r.slots
            && m.other <= r.other
            && (forall p :: p in m.slots ==> r.conds[p] == m.conds[p])
            && forall p :: p in m.bound ==> p in r.bound && r.bound[p] == m.bound[p]
    decreases |ops|
  {
    if ops != [] {
      var next := AbsStep(arch, m, ops[0]).value;
      StepKeepsInv(arch, m, ops[0]);
      StepKeeps(arch, m, ops[0], next);
      RunConserves(arch, next, ops[1..]);
    }
  }

  /** The variables of the caller before any jump: nothing pending. */
  function Nothing(n: nat): (lists: seq<seq<nat>>)
    ensures |lists| == n && forall i :: 0 <= i < n ==> lists[i] == []
  {
    if n == 0 then [] else [[]] + Nothing(n - 1)
  }

  function Zeros(n: nat): (heads: seq<int>)
    ensures |heads| == n && forall i :: 0 <= i < n ==> heads[i] == 0
  {
    if n == 0 then [] else [0] + Zeros(n - 1)
  }

  /** With nothing pending any code that has already begun is a start. */
  lemma StartRefines(arch: Arch, s: Code, n: nat)
    requires |s| <= MaxLen(arch) && Aligned(arch, |s|) && (arch != I386 ==> |s| > 0)
    ensures Faithful(arch, s, [], Zeros(n), Abs(|s|, Nothing(n), map[], {}, map[], s))
  {
    forall p: nat ensures Count(Nothing(n), p) == 0 { NothingPending(n, p); }
  }

  lemma {:induction false} NothingPending(n: nat, p: nat)
    ensures Count(Nothing(n), p) == 0
  {
    if n > 0 {
      assert Nothing(n)[1..] == Nothing(n - 1);
      NothingPending(n - 1, p);
    }
  }

  /** Why the arm limit is what it is: the end mark 0 written by gjmp is read back as 0 only up to there,
      although encbranch accepts positions twice as far. */
  lemma ArmEndMark(p: nat)
    requires p % 4 == 0 && EncBranch(p, 0) != 0
    ensures var w := 0x0a00_0000 + EncBranch(p, 0) % 0x100_0000; DecBranch(w, p) == 0 <==> p + 4 <= MaxLen(Arm)
    ensures EncBranch(0x200_0000, 0) != 0 && !FitsBranch(0x200_0000, 0)
  {
    BranchRoundTrip(p, 0, 0x0a);
  }

  /** The label is in reach of a branch from every one of them. */
  predicate AllNear(ps: seq<nat>, a: int) {
    forall k :: 0 <= k < |ps| ==> -0x800_0000 <= a - ps[k] < 0x800_0000
  }

  /** The steps that fail inside the size limit: gjmp_cond of arm under a condition that mapcc does not know, and
      gsym_addr of arm64 for a label out of reach of one of the branches. */
  predicate Refused(arch: Arch, m: Abs, op: Op)
    requires Disciplined(arch, m, op)
  {
    match op
    case Emit(_) => false
    case Jump(_, cc) => arch == Arm && !Mapped(cc)
    case Append(_, _) => false
    case Bind(v, a) => arch == Arm64 && !AllNear(m.lists[v], a)
  }

  lemma AllOkExactly(arch: Arch, ps: seq<nat>, a: int)
    requires 0 <= a <= MaxLen(arch) && Aligned(arch, a)
    requires forall k :: 0 <= k < |ps| ==> 0 < ps[k] && ps[k] + SlotSize(arch) <= MaxLen(arch) && Aligned(arch, ps[k])
    ensures AllOk(arch, ps, a) <==> (arch == Arm64 ==> AllNear(ps, a))
  {
    forall k | 0 <= k < |ps|
      ensures TargetOk(arch, ps[k], a) <==> (arch == Arm64 ==> -0x800_0000 <= a - ps[k] < 0x800_0000)
    {
      InSection(arch, ps[k], a);
    }
  }

  lemma FailsExactly(arch: Arch, m: Abs, op: Op)
    requires Inv(arch, m) && Disciplined(arch, m, op)
    ensures AbsStep(arch, m, op).None? <==> Refused(arch, m, op)
  {
    match op
    case Emit(_) =>
    case Jump(v, cc) => if arch == Arm { ArmLinks(m, v, JumpPos(Arm, m.len, cc)); }
    case Append(src, dst) =>
      if arch == Arm && m.lists[src] != [] {
        ListedSlots(arch, m, src);
        ArmLinks(m, dst, m.lists[src][|m.lists[src]| - 1]);
      }
    case Bind(v, a) =>
      ListedSlots(arch, m, v);
      AllOkExactly(arch, m.lists[v], a);
  }

  /** encbranch reaches the head of any list from anywhere in the section. */
  lemma ArmLinks(m: Abs, v: nat, p: nat)
    requires Inv(Arm, m) && v < |m.lists| && p <= MaxLen(Arm)
    ensures EncBranch(p, Head(m.lists[v])) != 0
  {
    if m.lists[v] != [] { PendingOnce(Arm, m, v, Head(m.lists[v])); }
    InReach(p, Head(m.lists[v]));
  }

  lemma InReach(p: nat, t: nat)
    requires p <= MaxLen(Arm) && t <= MaxLen(Arm)
    ensures EncBranch(p, t) != 0
  {
  }

  /** One operation of the caller, carried out by the back end's own routines on the code and the heads. */
  method Step(arch: Arch, text: Text<Byte>, relocs: Text<Reloc>, heads: array<int>, op: Op,
        ghost m: Abs) returns (ok: bool)
    requires Faithful(arch, text.data, relocs.data, heads[..], m) && Disciplined(arch, m, op)
    modifies text, relocs, heads
    ensures ok <==> AbsStep(arch, m, op).Some?
    ensures ok ==> Faithful(arch, text.data, relocs.data, heads[..], AbsStep(arch, m, op).value)
  {
    match op
    case Emit(code) =>
      EmitFaithful(arch, text.data, relocs.data, heads[..], m, code);
      text.EmitAll(code);
      ok := true;
    case Jump(v, cc) =>
      ok := StepJump(arch, text, relocs, heads, v, cc, m);
    case Append(src, dst) =>
      ok := StepAppend(arch, text, relocs, heads, src, dst, m);
    case Bind(v, a) =>
      ok := StepBind(arch, text, relocs, heads, v, a, m);
  }

  /** gjmp or gjmp_cond of the back end */
  method Gjmp(arch: Arch, text: Text<Byte>, t: int, cc: Condition) returns (ok: bool, r: nat)
    requires (arch == Arm64 || arch == C67 ==> cc == None) && (arch != Arm ==> 0 <= t < 0x1_0000_0000)
    modifies text
    ensures ok <==> arch != Arm || (Mapped(cc) && EncBranch(|old(text.data)|, t) != 0)
    ensures ok ==> text.data == old(text.data) + JumpCode(arch, |old(text.data)|, t, cc)
    ensures r == JumpPos(arch, |old(text.data)|, cc)
  {
    ok := true;
    match arch
    case Arm64 => r := GjmpArm64(text, t);
    case I386 => r := GjmpI386(text, t, cc);
    case Arm => ok, r := GjmpArm(text, t, cc);
    case C67 => r := GjmpC67(text, t);
  }

  /** gjmp_append of the back end */
  method GjmpAppend(arch: Arch, text: Text<Byte>, n: int, t: int, ghost ns: seq<nat>) returns (ok: bool, r: int)
    requires IsChain(arch, text.data, n, ns)
    requires arch != Arm ==> 0 <= n < 0x1_0000_0000 && 0 <= t < 0x1_0000_0000
    modifies text
    ensures ok <==> arch != Arm || ns == [] || EncBranch(ns[|ns| - 1], t) != 0
    ensures ok && ns != [] ==> AppendedTo(arch, old(text.data), text.data, ns, t)
    ensures ns == [] ==> text.data == old(text.data)
    ensures r == if ns == [] then t else n
  {
    ok := true;
    match arch
    case Arm64 => r := GjmpAppendRaw(arch, text, n, t, ns);
    case I386 => r := GjmpAppendRaw(arch, text, n, t, ns);
    case Arm => ok, r := GjmpAppendArm(text, n, t, ns);
    case C67 => r := GjmpAppendC67(text, n, t, ns);
  }

  /** gsym_addr of the back end */
  method GsymAddr(arch: Arch, text: Text<Byte>, relocs: Text<Reloc>, t: int, a: int,
        ghost ps: seq<nat>) returns (ok: bool)
    requires IsChain(arch, text.data, t, ps) && Separate(arch, ps)
    requires arch != Arm ==> 0 <= t < 0x1_0000_0000 && 0 <= a < 0x1_0000_0000
    modifies text, relocs
    ensures Inside(arch, old(text.data), ps)
    ensures ok <==> AllOk(arch, ps, a)
    ensures ok ==> text.data == PatchAll(arch, old(text.data), ps, a)
    ensures ok ==> relocs.data == RelocsAfter(arch, old(relocs.data), ps, a)
  {
    ok := true;
    match arch
    case Arm64 => ok := GsymAddrArm64(text, t, a, ps);
    case I386 => GsymAddrI386(text, t, a, ps);
    case Arm => ok := GsymAddrArm(text, t, a, ps);
    case C67 => GsymAddrC67(text, relocs, t, a, ps);
  }

  /** The heads are in the range of the source's integers. */
  lemma HeadInRange(arch: Arch, s: Code, relocs: seq<Reloc>, heads: seq<int>, m: Abs, v: nat)
    requires Refines(arch, s, relocs, heads, m) && v < |heads|
    ensures 0 <= heads[v] < 0x1_0000_0000 && heads[v] == Head(m.lists[v])
  {
    HeadIs(arch, s, heads[v], m.lists[v]);
    if m.lists[v] != [] { PendingOnce(arch, m, v, heads[v]); }
  }

  method StepJump(arch: Arch, text: Text<Byte>, relocs: Text<Reloc>, heads: array<int>, v: nat, cc: Condition,
        ghost m: Abs)
    returns (ok: bool)
    requires Faithful(arch, text.data, relocs.data, heads[..], m) && Disciplined(arch, m, Jump(v, cc))
    modifies text, heads
    ensures ok <==> AbsStep(arch, m, Jump(v, cc)).Some?
    ensures ok ==> Faithful(arch, text.data, relocs.data, heads[..], AbsStep(arch, m, Jump(v, cc)).value)
  {
    HeadInRange(arch, text.data, relocs.data, heads[..], m, v);
    ghost var s0, heads0 := text.data, heads[..];
    var r;
    ok, r := Gjmp(arch, text, heads[v], cc);
    heads[v] := r;
    assert heads[..] == heads0[v := r];
    if ok { JumpFaithful(arch, s0, relocs.data, heads0, m, v, cc); }
  }

  method StepAppend(arch: Arch, text: Text<Byte>, relocs: Text<Reloc>, heads: array<int>, src: nat, dst: nat,
        ghost m: Abs)
    returns (ok: bool)
    requires Faithful(arch, text.data, relocs.data, heads[..], m) && Disciplined(arch, m, Append(src, dst))
    modifies text, heads
    ensures ok <==> AbsStep(arch, m, Append(src, dst)).Some?
    ensures ok ==> Faithful(arch, text.data, relocs.data, heads[..], AbsStep(arch, m, Append(src, dst)).value)
  {
    HeadInRange(arch, text.data, relocs.data, heads[..], m, src);
    HeadInRange(arch, text.data, relocs.data, heads[..], m, dst);
    ghost var s0, heads0 := text.data, heads[..];
    var r;
    ok, r := GjmpAppend(arch, text, heads[src], heads[dst], m.lists[src]);
    heads[dst] := r;
    heads[src] := 0;
    assert heads[..] == heads0[dst := r][src := 0];
    if ok { AppendFaithful(arch, s0, text.data, relocs.data, heads0, m, src, dst); }
  }

  method StepBind(arch: Arch, text: Text<Byte>, relocs: Text<Reloc>, heads: array<int>, v: nat, a: int, ghost m: Abs)
    returns (ok: bool)
    requires Faithful(arch, text.data, relocs.data, heads[..], m) && Disciplined(arch, m, Bind(v, a))
    modifies text, relocs, heads
    ensures ok <==> AbsStep(arch, m, Bind(v, a)).Some?
    ensures ok ==> Faithful(arch, text.data, relocs.data, heads[..], AbsStep(arch, m, Bind(v, a)).value)
  {
    HeadInRange(arch, text.data, relocs.data, heads[..], m, v);
    ListsApart(arch, m, v, v);
    ghost var s0, rs0, heads0 := text.data, relocs.data, heads[..];
    ok := GsymAddr(arch, text, relocs, heads[v], a, m.lists[v]);
    if ok { BindFaithful(arch, s0, rs0, heads0, m, v, a); }
    heads[v] := 0;
    assert heads[..] == heads0[v := 0];
  }

  lemma RunUnrolls(arch: Arch, m: Abs, ops: seq<Op>, i: nat)
    requires i < |ops| && DisciplinedRun(arch, m, ops[i..])
    ensures Disciplined(arch, m, ops[i])
    ensures AbsStep(arch, m, ops[i]).None? ==> AbsRun(arch, m, ops[i..]).None?
    ensures AbsStep(arch, m, ops[i]).Some? ==>
              var next := AbsStep(arch, m, ops[i]).value;
              && AbsRun(arch, m, ops[i..]) == AbsRun(arch, next, ops[i + 1..])
              && DisciplinedRun(arch, next, ops[i + 1..])
  {
    assert ops[i..][1..] == ops[i + 1..];
  }

  /** Any interleaving: the back end's code fails exactly when the list machine does, and otherwise ends
      with every pending list and every bound jump as the list machine has them. */
  method Run(arch: Arch, text: Text<Byte>, relocs: Text<Reloc>, heads: array<int>, ops: seq<Op>, ghost m: Abs)
    returns (ok: bool)
    requires Faithful(arch, text.data, relocs.data, heads[..], m) && DisciplinedRun(arch, m, ops)
    modifies text, relocs, heads
    ensures ok <==> AbsRun(arch, m, ops).Some?
    ensures ok ==> Faithful(arch, text.data, relocs.data, heads[..], AbsRun(arch, m, ops).value)
  {
    ghost var now := m;
    var i := 0;
    assert ops[0..] == ops;
    while i < |ops|
      invariant 0 <= i <= |ops| && DisciplinedRun(arch, now, ops[i..])
      invariant AbsRun(arch, m, ops) == AbsRun(arch, now, ops[i..])
      invariant Faithful(arch, text.data, relocs.data, heads[..], now)
    {
      RunUnrolls(arch, now, ops, i);
      ok := Step(arch, text, relocs, heads, ops[i], now);
      if !ok { return; }
      now := AbsStep(arch, now, ops[i]).value;
      i := i + 1;
    }
    ok := true;
  }
}
