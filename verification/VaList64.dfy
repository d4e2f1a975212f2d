/** Variable arguments on A64: where va_start and va_arg look, against where the caller put the arguments. */
module VaList64 {
  import opened Pcs64
  import opened Rounding

  // ---- What the prolog leaves for va_start ----

  /** Registers of its class that an argument takes. */
  function Regs(t: Type): nat {
    if VectorClass(t) then if t.hfa > 0 then t.hfa else 1
    else if t.size > 16 then 1
    else Up8(t.size) / 8
  }

  /** The end of the last parameter that came in general registers, and of the last in vector registers. */
  function GeneralEnd(ts: seq<Type>): nat
    requires AllWellFormed(ts)
    decreases |ts|
  {
    if ts == [] then 0
    else
      var l := LocOf(ts, |ts| - 1);
      if l.X? then l.first + l.count else GeneralEnd(ts[..|ts| - 1])
  }

  function VectorEnd(ts: seq<Type>): nat
    requires AllWellFormed(ts)
    decreases |ts|
  {
    if ts == [] then 0
    else
      var l := LocOf(ts, |ts| - 1);
      if l.V? then l.first + l.count else VectorEnd(ts[..|ts| - 1])
  }

  lemma EndNext(ts: seq<Type>, n: nat)
    requires AllWellFormed(ts) && n < |ts|
    ensures var l := LocOf(ts, n);
            GeneralEnd(ts[..n + 1]) == (if l.X? then l.first + l.count else GeneralEnd(ts[..n])) &&
            VectorEnd(ts[..n + 1]) == (if l.V? then l.first + l.count else VectorEnd(ts[..n]))
  {
    var us := ts[..n + 1];
    assert us[..n] == ts[..n] && LocOf(us, n) == LocOf(ts, n);
  }

  lemma OffsetOf(l: Loc, t: Type, a: int)
    requires Sized(t) && Holds(t, l) && a == Code(l) && (l.Stack? ==> l.offset >= 32)
    requires (l.X? || l.V?) ==> l.first < 8
    ensures l.X? ==> a < 16 && a / 2 - 7 + (if a % 2 == 0 && t.size > 8 then 1 else 0) == l.first + l.count - 8
    ensures l.V? ==> 16 <= a < 32 && a / 2 - 16 + (if t.hfa > 0 then t.hfa else 1) == l.first + l.count - 8
    ensures l.Stack? ==> a >= 32
  {
  }

  /** One parameter's share in the loop of gfunc_prolog. */
  method OffsetsFor(t: Type, a: int, ghost l: Loc, gr0: int, vr0: int) returns (gr: int, vr: int)
    requires Sized(t) && Holds(t, l) && a == Code(l) && (l.Stack? ==> l.offset >= 32)
    requires (l.X? || l.V?) ==> l.first < 8
    ensures gr == if l.X? then (l.first + l.count - 8) * 8 else gr0
    ensures vr == if l.V? then (l.first + l.count - 8) * 16 else vr0
  {
    OffsetOf(l, t, a);
    gr, vr := gr0, vr0;
    if a < 16 {
      gr := (a / 2 - 7 + if a % 2 == 0 && t.size > 8 then 1 else 0) * 8;
    } else if a < 32 {
      vr := (a / 2 - 16 + if t.hfa > 0 then t.hfa else 1) * 16;
    }
  }

  /** The offsets that gfunc_prolog computes from the codes of the parameters. */
  method VaOffsets(ts: seq<Type>, a: seq<nat>) returns (gr: int, vr: int)
    requires AllWellFormed(ts) && |a| == |ts| && Coded(ts, a, |ts|)
    ensures gr == (GeneralEnd(ts) - 8) * 8 && vr == (VectorEnd(ts) - 8) * 16
  {
    gr, vr := -64, -128;
    var i := 0;
    while i < |ts|
      invariant 0 <= i <= |ts| && gr == (GeneralEnd(ts[..i]) - 8) * 8 && vr == (VectorEnd(ts[..i]) - 8) * 16
    {
      EndNext(ts, i);
      LocTakes(ts, i);
      gr, vr := OffsetsFor(ts[i], a[i], LocOf(ts, i), gr, vr);
      i := i + 1;
    }
    assert ts[..|ts|] == ts;
  }

  /** An argument for the stack that passes over a register of its class. */
  predicate PassesOver(s: State, t: Type, l: Loc) {
    l.Stack? && if VectorClass(t) then s.nv < 8 else s.nx < 8
  }

  /** Nobody of the class did. */
  ghost predicate NonePassed(ts: seq<Type>, n: nat, vector: bool)
    requires AllWellFormed(ts) && n <= |ts|
  {
    forall i :: 0 <= i < n && VectorClass(ts[i]) == vector ==> !PassesOver(After(ts[..i]), ts[i], LocOf(ts, i))
  }

  /** The ends follow the counters until a register is passed over, and then stay behind. */
  lemma {:induction false} EndsFollow(ts: seq<Type>, n: nat)
    requires AllWellFormed(ts) && n <= |ts|
    ensures NonePassed(ts, n, false) ==> GeneralEnd(ts[..n]) == After(ts[..n]).nx
    ensures !NonePassed(ts, n, false) ==> GeneralEnd(ts[..n]) < After(ts[..n]).nx == 8
    ensures NonePassed(ts, n, true) ==> VectorEnd(ts[..n]) == After(ts[..n]).nv
    ensures !NonePassed(ts, n, true) ==> VectorEnd(ts[..n]) < After(ts[..n]).nv == 8
  {
    if n > 0 {
      EndsFollow(ts, n - 1);
      EndNext(ts, n - 1);
      LocTakes(ts, n - 1);
      PassedNext(ts, n - 1, false);
      PassedNext(ts, n - 1, true);
    }
  }

  lemma PassedNext(ts: seq<Type>, n: nat, vector: bool)
    requires AllWellFormed(ts) && n < |ts|
    ensures NonePassed(ts, n + 1, vector) <==>
              (NonePassed(ts, n, vector) &&
               (VectorClass(ts[n]) == vector ==> !PassesOver(After(ts[..n]), ts[n], LocOf(ts, n))))
  {
  }

  /** The offsets stand where the allocator's counters do exactly when no parameter passed over a register. */
  lemma OffsetsExact(ts: seq<Type>)
    requires AllWellFormed(ts)
    ensures GeneralEnd(ts) == After(ts).nx <==> NonePassed(ts, |ts|, false)
    ensures VectorEnd(ts) == After(ts).nv <==> NonePassed(ts, |ts|, true)
  {
    assert ts[..|ts|] == ts;
    EndsFollow(ts, |ts|);
  }

  // ---- va_arg ----

  /** The pointer to stacked arguments, counted as `State.ns` is, and the offsets from the ends of the saved
      registers. */
  datatype VaList = VaList(stack: nat, gr: int, vr: int)

  /** Floats of 16 bytes are aligned to 16 on the stack, alone or in an aggregate. */
  function StackAt(ns: nat, t: Type): nat {
    if VectorClass(t) && t.size == 16 * Regs(t) then Up(ns, 16) else ns
  }

  /** gen_va_arg has an assertion that excludes other types aligned to 16. */
  predicate VaFatal(t: Type) { !VectorClass(t) && t.align == 16 }

  /** What the code of gen_va_arg does: the frame offset of the argument, or of its address, and the list after it. */
  function VaArg(v: VaList, t: Type): (int, VaList) {
    if !VectorClass(t) then
      var n := if t.size > 16 then 8 else Up8(t.size);
      if v.gr + n <= 0 then (224 + v.gr, v.(gr := v.gr + n)) else (192 + v.stack, v.(stack := v.stack + n))
    else
      var n, at := 16 * if t.hfa > 0 then t.hfa else 1, StackAt(v.stack, t);
      if v.vr + n <= 0 then (144 + v.vr, v.(vr := v.vr + n)) else (192 + at, v.(stack := at + Up8(t.size)))
  }

  function ListAt(s: State, e: nat, f: nat): VaList { VaList(s.ns, (e - 8) * 8, (f - 8) * 16) }

  /** va_start. */
  function Start(ts: seq<Type>): VaList
    requires AllWellFormed(ts)
  {
    ListAt(After(ts), GeneralEnd(ts), VectorEnd(ts))
  }

  /** The list after the arguments from n on of `all` up to m, n of which are parameters. */
  function ListAfter(all: seq<Type>, n: nat, m: nat): VaList
    requires AllWellFormed(all) && n <= m <= |all|
    decreases m
  {
    if m == n then Start(all[..n]) else VaArg(ListAfter(all, n, m - 1), all[m - 1]).1
  }

  /** va_arg finds argument j where the caller put it. */
  ghost predicate FoundAt(all: seq<Type>, n: nat, j: nat)
    requires AllWellFormed(all) && n <= j < |all|
  {
    (LocOf(all, j).Stack? ==> LocOf(all, j).offset >= 32) &&
    VaArg(ListAfter(all, n, j), all[j]).0 == FrameStart(LocOf(all, j))
  }

  /** With the caller's counters s, and the ends e and f of what came in registers: the caller stacked the argument,
      though it fits into the registers that were passed over, or aligned it in another way than va_arg. */
  predicate MissedAt(s: State, e: nat, f: nat, t: Type, l: Loc) {
    l.Stack? && ((if VectorClass(t) then f else e) + Regs(t) <= 8 || l.offset != StackAt(s.ns, t))
  }

  predicate Missed(all: seq<Type>, j: nat)
    requires AllWellFormed(all) && j < |all|
  {
    MissedAt(After(all[..j]), GeneralEnd(all[..j]), VectorEnd(all[..j]), all[j], LocOf(all, j))
  }

  predicate EndsAt(s: State, e: nat, f: nat) {
    (e == s.nx || e < s.nx == 8) && (f == s.nv || f < s.nv == 8)
  }

  lemma GeneralStep(s: State, e: nat, f: nat, t: Type, l: Loc, s': State)
    requires Inv(s) && WellFormed(t) && !VectorClass(t) && t.align != 16 && EndsAt(s, e, f) && (l, s') == Place(s, t)
    ensures l.Stack? ==> l.offset >= 32
    ensures var (p, v) := VaArg(ListAt(s, e, f), t);
            if MissedAt(s, e, f, t, l) then p != FrameStart(l)
            else p == FrameStart(l) && v == ListAt(s', if l.X? then l.first + l.count else e, f)
  {
    PlaceTakes(s, t);
    Up8Exact(s.ns);
    Doublewords(t.size);
  }

  lemma VectorStep(s: State, e: nat, f: nat, t: Type, l: Loc, s': State)
    requires Inv(s) && WellFormed(t) && VectorClass(t) && EndsAt(s, e, f) && (l, s') == Place(s, t)
    ensures l.Stack? ==> l.offset >= 32
    ensures var (p, v) := VaArg(ListAt(s, e, f), t);
            if MissedAt(s, e, f, t, l) then p != FrameStart(l)
            else p == FrameStart(l) && v == ListAt(s', e, if l.V? then l.first + l.count else f)
  {
    PlaceTakes(s, t);
    if s.nv + Regs(t) <= 8 { VectorHeld(s, e, f, t, l, s'); } else { VectorStacked(s, e, f, t, l, s'); }
  }

  lemma VectorHeld(s: State, e: nat, f: nat, t: Type, l: Loc, s': State)
    requires Inv(s) && WellFormed(t) && VectorClass(t) && EndsAt(s, e, f) && (l, s') == Place(s, t)
    requires s.nv + Regs(t) <= 8
    ensures l == V(s.nv, Regs(t)) && VaArg(ListAt(s, e, f), t) == (FrameStart(l), ListAt(s', e, l.first + l.count))
  {
  }

  lemma VectorStacked(s: State, e: nat, f: nat, t: Type, l: Loc, s': State)
    requires Inv(s) && WellFormed(t) && VectorClass(t) && EndsAt(s, e, f) && (l, s') == Place(s, t)
    requires s.nv + Regs(t) > 8
    ensures l.Stack? && l.offset >= 32
    ensures var (p, v) := VaArg(ListAt(s, e, f), t);
            if MissedAt(s, e, f, t, l) then p != FrameStart(l) else p == FrameStart(l) && v == ListAt(s', e, f)
  {
    StackSlot(s.ns, t.align);
  }

  /** What va_arg finds with the list at (s, e, f), and leaves at (s', e', f'). */
  ghost predicate FollowsAt(s: State, e: nat, f: nat, t: Type, l: Loc, s': State, e': nat, f': nat) {
    (l.Stack? ==> l.offset >= 32) &&
    var (p, v) := VaArg(ListAt(s, e, f), t);
    if MissedAt(s, e, f, t, l) then p != FrameStart(l) else p == FrameStart(l) && v == ListAt(s', e', f')
  }

  lemma AnyStep(s: State, e: nat, f: nat, t: Type, l: Loc, s': State, e': nat, f': nat)
    requires Inv(s) && WellFormed(t) && !VaFatal(t) && EndsAt(s, e, f) && (l, s') == Place(s, t)
    requires e' == (if l.X? then l.first + l.count else e) && f' == if l.V? then l.first + l.count else f
    ensures FollowsAt(s, e, f, t, l, s', e', f')
  {
    PlaceTakes(s, t);
    if VectorClass(t) { VectorStep(s, e, f, t, l, s'); } else { GeneralStep(s, e, f, t, l, s'); }
  }

  lemma StepFollows(all: seq<Type>, j: nat)
    requires AllWellFormed(all) && j < |all| && !VaFatal(all[j])
    ensures FollowsAt(After(all[..j]), GeneralEnd(all[..j]), VectorEnd(all[..j]), all[j], LocOf(all, j),
                      After(all[..j + 1]), GeneralEnd(all[..j + 1]), VectorEnd(all[..j + 1]))
  {
    AfterInv(all[..j]);
    AfterNext(all, j);
    EndNext(all, j);
    EndsFollow(all, j);
    AnyStep(After(all[..j]), GeneralEnd(all[..j]), VectorEnd(all[..j]), all[j], LocOf(all, j),
            After(all[..j + 1]), GeneralEnd(all[..j + 1]), VectorEnd(all[..j + 1]));
  }

  /** The list stands where the caller is, as long as none was missed. */
  lemma {:induction false} ListFollows(all: seq<Type>, n: nat, m: nat)
    requires AllWellFormed(all) && n <= m <= |all|
    requires forall j :: n <= j < m ==> !VaFatal(all[j]) && !Missed(all, j)
    ensures ListAfter(all, n, m) == Start(all[..m])
    decreases m
  {
    if m > n {
      ListFollows(all, n, m - 1);
      StepFollows(all, m - 1);
    }
  }

  lemma FoundExact(all: seq<Type>, n: nat, j: nat)
    requires AllWellFormed(all) && n <= j < |all| && NoneMissed(all, n, j)
    requires forall i :: n <= i <= j ==> !VaFatal(all[i])
    ensures FoundAt(all, n, j) <==> !Missed(all, j)
  {
    ListFollows(all, n, j);
    StepFollows(all, j);
  }

  ghost predicate AllFound(all: seq<Type>, n: nat)
    requires AllWellFormed(all) && n <= |all|
  {
    forall j :: n <= j < |all| ==> FoundAt(all, n, j)
  }

  ghost predicate NoneMissed(all: seq<Type>, n: nat, m: nat)
    requires AllWellFormed(all) && n <= m <= |all|
  {
    forall j :: n <= j < m ==> !Missed(all, j)
  }

  lemma {:induction false} FirstMissed(all: seq<Type>, n: nat, m: nat) returns (k: nat)
    requires AllWellFormed(all) && n <= m <= |all| && !NoneMissed(all, n, m)
    ensures n <= k < m && NoneMissed(all, n, k) && Missed(all, k)
  {
    if NoneMissed(all, n, m - 1) { k := m - 1; } else { k := FirstMissed(all, n, m - 1); }
  }

  /** For every list of parameters and every list of variable arguments: va_arg finds all of them where the caller put
      them exactly when the caller stacked none that fits into registers it passed over, or that it aligned in another
      way than va_arg. */
  lemma VaArgExact(all: seq<Type>, n: nat)
    requires AllWellFormed(all) && n <= |all| && forall j :: n <= j < |all| ==> !VaFatal(all[j])
    ensures AllFound(all, n) <==> NoneMissed(all, n, |all|)
  {
    if NoneMissed(all, n, |all|) {
      forall j | n <= j < |all| ensures FoundAt(all, n, j) { FoundExact(all, n, j); }
    } else {
      var k := FirstMissed(all, n, |all|);
      FoundExact(all, n, k);
    }
  }

  /** Aligned as its size has it: floats of 16 bytes to 16, all else to eight at the most, but for what goes by its
      address. */
  predicate Natural(t: Type) {
    if VectorClass(t) && t.size == 16 * Regs(t) then t.align == 16 else t.align <= 8 || (t.size > 16 && t.hfa == 0)
  }

  /** Then va_arg looks at the first slot that the standard allows, and where the caller puts what it stacks. */
  lemma NaturalSlot(s: State, t: Type, l: Loc)
    requires Inv(s) && WellFormed(t) && Natural(t) && l == Place(s, t).0
    ensures FirstSlot(s.ns, t, StackAt(s.ns, t)) && (l.Stack? ==> l.offset == StackAt(s.ns, t))
  {
    NaturalFirst(s, t, StackAt(s.ns, t));
    var r, n, at := PlaceByRule(s, t);
    if l.Stack? { FirstOnce(s.ns, t, at, StackAt(s.ns, t)); }
  }

  /** There is only one first slot. */
  lemma FirstOnce(ns: nat, t: Type, a: nat, b: nat)
    requires t.align > 0 && FirstSlot(ns, t, a) && FirstSlot(ns, t, b)
    ensures a == b
  {
  }

  lemma NaturalFirst(s: State, t: Type, at: nat)
    requires Inv(s) && WellFormed(t) && Natural(t) && at == StackAt(s.ns, t)
    ensures FirstSlot(s.ns, t, at)
  {
    Up8Exact(s.ns);
    if t.size > 16 && t.hfa == 0 {
    } else if t.kind == Floating {
      FloatSlot(s.ns, t);
    } else if t.align <= 8 {
      SlotKept(s.ns, t.align);
      SlotRule(s.ns, t, s.ns);
    } else {
      SlotRule(s.ns, t, Up(s.ns, 16));
    }
  }

  /** The caller stacked argument j although it fits into registers that were passed over. */
  predicate PassedFit(all: seq<Type>, j: nat)
    requires AllWellFormed(all) && j < |all|
  {
    LocOf(all, j).Stack? &&
    (if VectorClass(all[j]) then VectorEnd(all[..j]) else GeneralEnd(all[..j])) + Regs(all[j]) <= 8
  }

  /** With natural alignment va_arg finds all arguments exactly when none of them is such a one. */
  lemma NaturalExact(all: seq<Type>, n: nat)
    requires AllWellFormed(all) && n <= |all|
    requires forall j :: n <= j < |all| ==> !VaFatal(all[j]) && Natural(all[j])
    ensures AllFound(all, n) <==> forall j :: n <= j < |all| ==> !PassedFit(all, j)
  {
    VaArgExact(all, n);
    forall j | n <= j < |all| ensures Missed(all, j) <==> PassedFit(all, j) {
      AfterInv(all[..j]);
      NaturalSlot(After(all[..j]), all[j], LocOf(all, j));
    }
  }

  /** A value of one register, or an address. */
  predicate Single(t: Type) { Regs(t) == 1 && t.align <= 8 && (VectorClass(t) ==> t.size <= 8) }

  lemma SlotKept(ns: nat, a: nat)
    requires ns % 8 == 0 && PowerOfTwo(a) && a <= 8
    ensures Up8(ns) == ns && Up(ns, a) == ns
  {
    StackSlot(ns, a);
  }

  lemma SingleStep(s: State, e: nat, f: nat, t: Type, l: Loc)
    requires Inv(s) && WellFormed(t) && Single(t) && e == s.nx && f == s.nv && l == Place(s, t).0
    ensures !MissedAt(s, e, f, t, l) && !PassesOver(s, t, l)
  {
    SlotKept(s.ns, t.align);
  }

  lemma {:induction false} NothingPassed(all: seq<Type>, n: nat)
    requires AllWellFormed(all) && n <= |all| && forall j :: 0 <= j < |all| ==> Single(all[j])
    ensures NonePassed(all, n, false) && NonePassed(all, n, true)
  {
    if n > 0 {
      NothingPassed(all, n - 1);
      SingleAt(all, n - 1);
      PassedNext(all, n - 1, false);
      PassedNext(all, n - 1, true);
    }
  }

  lemma SingleAt(all: seq<Type>, j: nat)
    requires AllWellFormed(all) && j < |all| && Single(all[j])
    requires NonePassed(all, j, false) && NonePassed(all, j, true)
    ensures !Missed(all, j) && !PassesOver(After(all[..j]), all[j], LocOf(all, j))
  {
    AfterInv(all[..j]);
    EndsFollow(all, j);
    SingleStep(After(all[..j]), GeneralEnd(all[..j]), VectorEnd(all[..j]), all[j], LocOf(all, j));
  }

  /** In particular when all arguments are values of one register, or go by their addresses. */
  lemma SinglesFound(all: seq<Type>, n: nat)
    requires AllWellFormed(all) && n <= |all| && forall j :: 0 <= j < |all| ==> Single(all[j])
    ensures AllFound(all, n)
  {
    forall j | n <= j < |all| ensures !Missed(all, j) && !VaFatal(all[j]) {
      NothingPassed(all, j);
      SingleAt(all, j);
    }
    VaArgExact(all, n);
  }

  const INT := Type(Integral, 4, 4, 0)
  const PAIR := Type(Structure, 16, 8, 0)

  lemma {:induction false} Ints(all: seq<Type>, n: nat)
    requires AllWellFormed(all) && n <= |all| && n <= 7 && forall j :: 0 <= j < n ==> all[j] == INT
    ensures After(all[..n]) == State(n, 0, 32) && GeneralEnd(all[..n]) == n
  {
    if n > 0 {
      Ints(all, n - 1);
      AfterNext(all, n - 1);
      EndNext(all, n - 1);
    }
  }

  lemma PowersHere()
    ensures PowerOfTwo(4) && PowerOfTwo(8)
  {
    assert PowerOfTwo(2);
    assert PowerOfTwo(4);
  }

  /** After seven ints and a structure of 16 bytes, which the caller stacks, an int is looked for in x7 and is on the
      stack. */
  lemma PassedOverMissed(all: seq<Type>)
    requires |all| == 9 && all[7] == PAIR && all[8] == INT && forall j :: 0 <= j < 7 ==> all[j] == INT
    ensures AllWellFormed(all) && !FoundAt(all, 8, 8)
  {
    PowersHere();
    Ints(all, 7);
    AfterNext(all, 7);
    EndNext(all, 7);
    SlotKept(32, 8);
    assert After(all[..8]) == State(8, 0, 48) && GeneralEnd(all[..8]) == 7;
    StepFollows(all, 8);
  }
}
