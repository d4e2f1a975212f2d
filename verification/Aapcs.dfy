/** Core-register argument passing of the soft-float EABI: the caller's plan and the callee's frame layout
    are computed by two different algorithms, which must agree. */
module Aapcs {
  import opened Division
  import opened Rounding

  datatype Kind =
    | Scalar     // integers of at most a word, pointers
    | LongLong
    | Composite  // structures, and floating-point values when they travel in core registers

  /** A parameter type as type_size reports it. */
  datatype Type = Type(kind: Kind, size: nat, align: nat)

  /** Non-empty types; a size is a multiple of the alignment. */
  predicate WellFormed(t: Type) {
    t.size > 0 && t.align > 0 && PowerOfTwo(t.align) && Up(t.size, t.align) == t.size &&
    (t.kind == Scalar ==> t.size <= 4 && t.align <= 4) && (t.kind == LongLong ==> t.size == 8 && t.align == 8)
  }

  /** A type with its alignment and its size rounded up to words. */
  datatype Shape = Shape(kind: Kind, unit: nat, words: nat)

  function Rounded(t: Type): Shape {
    Shape(t.kind, (t.align + 3) / 4, (t.size + 3) / 4)
  }

  /** Alignments of one, two and four words, or more. */
  predicate Proper(t: Shape) {
    (t.unit == 1 || t.unit == 2 || t.unit == 4 || t.unit >= 8) && t.words >= t.unit &&
    (t.kind == Scalar ==> t.words == 1) && (t.kind == LongLong ==> t.words == 2 && t.unit == 2)
  }

  predicate AllProper(ps: seq<Shape>) { forall i :: 0 <= i < |ps| ==> Proper(ps[i]) }

  function Shapes(ts: seq<Type>): (ps: seq<Shape>)
    ensures |ps| == |ts| && forall i :: 0 <= i < |ts| ==> ps[i] == Rounded(ts[i])
  {
    if ts == [] then [] else Shapes(ts[..|ts| - 1]) + [Rounded(ts[|ts| - 1])]
  }

  /** Every well-formed type rounds to a proper shape; the unit exceeds four words only for alignments above 16. */
  lemma RoundedProper(t: Type)
    requires WellFormed(t)
    ensures Proper(Rounded(t)) && (Rounded(t).unit > 4 <==> t.align > 16)
  {
    SmallPowers(t.align);
  }

  // ---- The caller: assign_regs ----

  datatype Class = StackClass | CoreStructClass | CoreClass

  /** `end` is the next free address on the stack, the next register for a structure, the last register otherwise. */
  datatype Plan = Plan(cls: Class, start: int, end: int)

  datatype Caller = Caller(ncrn: nat, nsaa: nat)

  function OnStack(ncrn: nat, s: nat, t: Shape): (Plan, Caller) {
    (Plan(StackClass, s, s + 4 * t.words), Caller(ncrn, s + 4 * t.words))
  }

  function InCore(c: Caller, k: nat, w: nat): (Plan, Caller) {
    (Plan(CoreStructClass, k, if k + w < 4 then k + w else 4),
     Caller(k + w, if k + w > 4 then (k + w - 4) * 4 else c.nsaa))
  }

  /** One argument, with `k` the next register and `s` the next stack address rounded up to its alignment. */
  function Placed(c: Caller, k: nat, s: nat, t: Shape): (Plan, Caller) {
    match t.kind
    case Composite =>
      if k + t.words <= 4 || k < 4 then InCore(c, k, t.words) else OnStack(4, s, t)
    case Scalar =>
      if c.ncrn < 4 then (Plan(CoreClass, c.ncrn, c.ncrn), c.(ncrn := c.ncrn + 1)) else OnStack(c.ncrn, s, t)
    case LongLong =>
      var even := c.ncrn + c.ncrn % 2;
      if c.ncrn >= 4 then OnStack(c.ncrn, s, t)
      else if even == 4 then OnStack(4, s, t)
      else (Plan(CoreClass, even, even + 1), c.(ncrn := even + 2))
  }

  function CallerStep(c: Caller, t: Shape): (Plan, Caller)
    requires t.unit > 0
  {
    Placed(c, Up(c.ncrn, t.unit), Up(c.nsaa, 4 * t.unit), t)
  }

  /** The caller's counters once all of `ps` have been placed. */
  function CallerAfter(ps: seq<Shape>): Caller
    requires AllProper(ps)
    decreases |ps|
  {
    if ps == [] then Caller(0, 0) else CallerStep(CallerAfter(ps[..|ps| - 1]), ps[|ps| - 1]).1
  }

  function PlanOf(ps: seq<Shape>, i: nat): Plan
    requires AllProper(ps) && i < |ps|
  {
    CallerStep(CallerAfter(ps[..i]), ps[i]).0
  }

  method PlaceComposite(t: Shape, ncrn0: nat, nsaa0: nat, todo0: set<int>)
    returns (plan: Plan, ncrn: nat, nsaa: nat, todo: set<int>, stacked: bool)
    requires t.kind == Composite && t.unit > 0
    ensures stacked <==> !(Up(ncrn0, t.unit) + t.words <= 4 || Up(ncrn0, t.unit) < 4)
    ensures stacked ==> ncrn == 4 && nsaa == nsaa0 && todo == todo0
    ensures !stacked ==> (plan, Caller(ncrn, nsaa)) == InCore(Caller(ncrn0, nsaa0), Up(ncrn0, t.unit), t.words)
    ensures !stacked ==> forall k :: k in todo <==> k in todo0 || plan.start <= k < plan.end
  {
    plan, nsaa, todo := Plan(StackClass, 0, 0), nsaa0, todo0;
    ncrn := Up(ncrn0, t.unit);
    stacked := !(ncrn + t.words <= 4 || ncrn < 4);
    if stacked {
      ncrn := 4;
    } else {
      var j := ncrn;
      while j < 4 && j < ncrn + t.words
        invariant ncrn <= j && (j <= 4 || j == ncrn) && j <= ncrn + t.words
        invariant forall k :: k in todo <==> k in todo0 || ncrn <= k < j
      {
        todo := todo + {j};
        j := j + 1;
      }
      plan := Plan(CoreStructClass, ncrn, j);
      ncrn := ncrn + t.words;
      if ncrn > 4 { nsaa := (ncrn - 4) * 4; }
    }
  }

  lemma CallerLast(front: seq<Shape>, t: Shape)
    requires AllProper(front) && Proper(t)
    ensures CallerAfter(front + [t]) == CallerStep(CallerAfter(front), t).1
  {
    assert (front + [t])[..|front|] == front;
  }

  lemma PrefixAfter(ps: seq<Shape>, i: nat)
    requires AllProper(ps) && i < |ps|
    ensures CallerAfter(ps[..i + 1]) == CallerStep(CallerAfter(ps[..i]), ps[i]).1
  {
    assert ps[..i + 1] == ps[..i] + [ps[i]];
    CallerLast(ps[..i], ps[i]);
  }

  ghost predicate Popped(plans: seq<Plan>, todo: set<int>) {
    forall k :: k in todo <==>
      exists j :: 0 <= j < |plans| && plans[j].cls == CoreStructClass && plans[j].start <= k < plans[j].end
  }

  /** One argument's effect on the registers to pop. */
  ghost predicate PopsMore(plan: Plan, todo0: set<int>, todo: set<int>) {
    if plan.cls == CoreStructClass then forall k :: k in todo <==> k in todo0 || plan.start <= k < plan.end
    else todo == todo0
  }

  lemma TodoGrows(plans: seq<Plan>, plan: Plan, todo0: set<int>, todo: set<int>)
    requires Popped(plans, todo0) && PopsMore(plan, todo0, todo)
    ensures Popped(plans + [plan], todo)
  {
    var more := plans + [plan];
    forall k | k in todo
      ensures exists j :: 0 <= j < |more| && more[j].cls == CoreStructClass && more[j].start <= k < more[j].end
    {
      if k in todo0 {
        var j :| 0 <= j < |plans| && plans[j].cls == CoreStructClass && plans[j].start <= k < plans[j].end;
        assert more[j] == plans[j];
      } else {
        assert more[|plans|] == plan;
      }
    }
  }

  method PlaceArgument(t: Shape, ncrn0: nat, nsaa0: nat, todo0: set<int>)
    returns (plan: Plan, ncrn: nat, nsaa: nat, todo: set<int>)
    requires t.unit > 0
    ensures (plan, Caller(ncrn, nsaa)) == CallerStep(Caller(ncrn0, nsaa0), t)
    ensures PopsMore(plan, todo0, todo)
  {
    ncrn, nsaa, todo := ncrn0, nsaa0, todo0;
    var stacked := true;
    plan := Plan(StackClass, 0, 0);
    if t.kind == Composite {
      plan, ncrn, nsaa, todo, stacked := PlaceComposite(t, ncrn, nsaa, todo);
    } else if ncrn < 4 {
      var isLong := if t.kind == LongLong then 1 else 0;
      if t.kind == LongLong { ncrn := ncrn + ncrn % 2; }
      if !(t.kind == LongLong && ncrn == 4) {
        plan, ncrn, stacked := Plan(CoreClass, ncrn, ncrn + isLong), ncrn + 1 + isLong, false;
      }
    }
    if stacked {
      nsaa := Up(nsaa, 4 * t.unit);
      plan := Plan(StackClass, nsaa, nsaa + 4 * t.words);
      nsaa := nsaa + 4 * t.words;
    }
  }

  ghost predicate Planned(ps: seq<Shape>, plans: seq<Plan>)
    requires AllProper(ps)
  {
    |plans| <= |ps| && forall i :: 0 <= i < |plans| ==> plans[i] == PlanOf(ps, i)
  }

  lemma PlannedGrows(ps: seq<Shape>, plans: seq<Plan>, plan: Plan)
    requires AllProper(ps) && Planned(ps, plans) && |plans| < |ps| && plan == PlanOf(ps, |plans|)
    ensures Planned(ps, plans + [plan])
  {
  }

  /** assign_regs: a plan for every argument, the registers that structures are popped into,
      and the stack space needed. */
  method AssignRegs(ts: seq<Type>) returns (plans: seq<Plan>, todo: set<int>, nsaa: nat)
    requires AllProper(Shapes(ts))
    ensures |plans| == |ts| && Planned(Shapes(ts), plans)
    ensures nsaa == CallerAfter(Shapes(ts)).nsaa
    ensures Popped(plans, todo)
  {
    var ncrn := 0;
    plans, todo, nsaa := [], {}, 0;
    ghost var ps := Shapes(ts);
    var i := 0;
    while i < |ts|
      invariant 0 <= i == |plans| <= |ts|
      invariant Planned(ps, plans) && Popped(plans, todo)
      invariant Caller(ncrn, nsaa) == CallerAfter(ps[..i])
    {
      PrefixAfter(ps, i);
      var plan;
      ghost var todo0 := todo;
      plan, ncrn, nsaa, todo := PlaceArgument(Rounded(ts[i]), ncrn, nsaa, todo);
      TodoGrows(plans, plan, todo0, todo);
      PlannedGrows(ps, plans, plan);
      plans := plans + [plan];
      i := i + 1;
    }
    assert ps[..|ps|] == ps;
  }

  // ---- The callee: gfunc_prolog ----

  /** Words counted for pushing, alignment gaps not included. */
  function Counted(n: nat, ps: seq<Shape>): nat
    decreases |ps|
  {
    if ps == [] then n
    else
      var m := Counted(n, ps[..|ps| - 1]);
      if m < 4 then m + ps[|ps| - 1].words else m
  }

  /** How many core registers the prolog pushes: r0 up to r(n-1). */
  function Pushed(structRet: bool, variadic: bool, ps: seq<Shape>): (n: int)
    ensures 0 <= n <= 4 && n % 2 == 0
  {
    var n := if variadic then 4 else Counted(if structRet then 1 else 0, ps);
    if n > 4 then 4 else n + n % 2
  }

  datatype Callee = Callee(pn: nat, sn: nat)

  /** One parameter, with `p` and `q` the counters rounded up to its alignment. */
  function Found(n: int, d: Callee, p: nat, q: nat, t: Shape): (int, Callee) {
    if d.pn < 4 then
      (p * 4 + 12, Callee(p + t.words, if d.sn == 0 && p + t.words > 4 then p + t.words - 4 else d.sn))
    else
      ((n + q) * 4 + 12, Callee(d.pn, q + t.words))
  }

  function CalleeStep(n: int, d: Callee, t: Shape): (int, Callee)
    requires t.unit > 0
  {
    Found(n, d, Up(d.pn, t.unit), Up(d.sn, t.unit), t)
  }

  function CalleeAfter(structRet: bool, n: int, ps: seq<Shape>): Callee
    requires AllProper(ps)
    decreases |ps|
  {
    if ps == [] then Callee(if structRet then 1 else 0, 0)
    else CalleeStep(n, CalleeAfter(structRet, n, ps[..|ps| - 1]), ps[|ps| - 1]).1
  }

  /** The frame offset of parameter i. */
  function AddrOf(structRet: bool, n: int, ps: seq<Shape>, i: nat): int
    requires AllProper(ps) && i < |ps|
  {
    CalleeStep(n, CalleeAfter(structRet, n, ps[..i]), ps[i]).0
  }

  lemma CountedNext(n: nat, ps: seq<Shape>, i: nat)
    requires i < |ps|
    ensures var m := Counted(n, ps[..i]); Counted(n, ps[..i + 1]) == if m < 4 then m + ps[i].words else m
  {
    assert ps[..i + 1][..i] == ps[..i];
  }

  method CountWords(hidden: nat, ts: seq<Type>) returns (n: nat)
    ensures n == Counted(hidden, Shapes(ts))
  {
    n := hidden;
    ghost var ps := Shapes(ts);
    var i := 0;
    while i < |ts|
      invariant 0 <= i <= |ts| && n == Counted(hidden, ps[..i])
    {
      CountedNext(hidden, ps, i);
      assert ps[i].words == (ts[i].size + 3) / 4;
      if n < 4 { n := n + (ts[i].size + 3) / 4; }
      i := i + 1;
    }
    assert ps[..|ps|] == ps;
  }

  method CountPushed(structRet: bool, variadic: bool, ts: seq<Type>) returns (n: int)
    ensures n == Pushed(structRet, variadic, Shapes(ts))
  {
    n := CountWords(if structRet then 1 else 0, ts);
    if variadic { n := 4; }
    if n > 0 {
      if n > 4 { n := 4; }
      n := n + n % 2;
    }
  }

  method PlaceParameter(n: int, t: Shape, pn0: nat, sn0: nat) returns (addr: int, pn: nat, sn: nat)
    requires t.unit > 0
    ensures (addr, Callee(pn, sn)) == CalleeStep(n, Callee(pn0, sn0), t)
  {
    pn, sn := pn0, sn0;
    if pn < 4 {
      pn := Up(pn, t.unit);
      addr := pn * 4 + 12;
      pn := pn + t.words;
      if sn == 0 && pn > 4 { sn := pn - 4; }
    } else {
      sn := Up(sn, t.unit);
      addr := (n + sn) * 4 + 12;
      sn := sn + t.words;
    }
  }

  lemma PrefixAfterCallee(structRet: bool, n: int, ps: seq<Shape>, i: nat)
    requires AllProper(ps) && i < |ps|
    ensures CalleeAfter(structRet, n, ps[..i + 1]) == CalleeStep(n, CalleeAfter(structRet, n, ps[..i]), ps[i]).1
  {
    assert ps[..i + 1][..i] == ps[..i];
  }

  ghost predicate Addressed(structRet: bool, n: int, ps: seq<Shape>, addrs: seq<int>)
    requires AllProper(ps)
  {
    |addrs| <= |ps| && forall i :: 0 <= i < |addrs| ==> addrs[i] == AddrOf(structRet, n, ps, i)
  }

  lemma AddressedGrows(structRet: bool, n: int, ps: seq<Shape>, addrs: seq<int>, addr: int)
    requires AllProper(ps) && Addressed(structRet, n, ps, addrs) && |addrs| < |ps|
    requires addr == AddrOf(structRet, n, ps, |addrs|)
    ensures Addressed(structRet, n, ps, addrs + [addr])
  {
  }

  /** gfunc_prolog: the number of registers pushed and the frame offset of every parameter. */
  method GfuncProlog(structRet: bool, variadic: bool, ts: seq<Type>) returns (n: int, addrs: seq<int>)
    requires AllProper(Shapes(ts))
    ensures n == Pushed(structRet, variadic, Shapes(ts))
    ensures |addrs| == |ts| && Addressed(structRet, n, Shapes(ts), addrs)
  {
    n := CountPushed(structRet, variadic, ts);
    ghost var ps := Shapes(ts);
    var pn, sn := if structRet then 1 else 0, 0;
    addrs := [];
    var i := 0;
    while i < |ts|
      invariant 0 <= i == |addrs| <= |ts|
      invariant Callee(pn, sn) == CalleeAfter(structRet, n, ps[..i])
      invariant Addressed(structRet, n, ps, addrs)
    {
      PrefixAfterCallee(structRet, n, ps, i);
      var addr;
      addr, pn, sn := PlaceParameter(n, Rounded(ts[i]), pn, sn);
      AddressedGrows(structRet, n, ps, addrs, addr);
      addrs := addrs + [addr];
      i := i + 1;
    }
  }

  // ---- Agreement ----

  /** Where a word of an argument is when the callee starts. */
  datatype Place = Reg(k: int) | Stack(s: int)

  /** A structure cut at r3 goes on at the start of the stacked arguments. */
  function WordAt(p: Plan, w: nat): Place {
    match p.cls
    case StackClass => Stack(p.start + 4 * w)
    case CoreClass => Reg(p.start + w)
    case CoreStructClass => if p.start + w < p.end then Reg(p.start + w) else Stack(4 * (p.start - p.end + w))
  }

  /** The frame once fp, ip, lr and below the stacked arguments r0 up to r(n-1) have been pushed. */
  function FrameAddr(n: int, place: Place): int {
    match place
    case Reg(k) => 12 + 4 * k
    case Stack(s) => 12 + 4 * n + s
  }

  /** Every word of the argument is where the parameter is looked for, and only pushed registers are used. */
  ghost predicate Agrees(n: int, p: Plan, addr: int, t: Shape) {
    forall w: nat :: w < t.words ==>
      FrameAddr(n, WordAt(p, w)) == addr + 4 * w && (WordAt(p, w).Reg? ==> 0 <= WordAt(p, w).k < n)
  }

  ghost predicate Linked(c: Caller, d: Callee) {
    if c.ncrn < 4 then d.pn == c.ncrn >= 0 && c.nsaa == 0 && d.sn == 0
    else d.pn >= 4 && d.sn >= 0 && c.nsaa == 4 * d.sn
  }

  /** The counters of both sides against the words counted for pushing. */
  ghost predicate CountOk(pn: int, m: nat) {
    (m <= 2 ==> pn == m) && (pn >= 4 ==> m >= 3)
  }

  /** Rounding up a register number below four. */
  lemma UpCore(x: nat, t: Shape)
    requires Proper(t) && x < 4
    ensures RoundedTo(x, Up(x, t.unit), t) && Up(0, 4 * t.unit) == 0
  {
    assert Up(1, 1) == 1 && Up(2, 1) == 2 && Up(3, 1) == 3 && Up(3, 2) == 4;
  }

  /** Its alignment exceeds the register file's and r1, r2 or r3 is next: the callee then skips past the stack's
      start. */
  ghost predicate Skips(c: Caller, t: Shape) {
    t.unit > 4 && 0 < c.ncrn < 4
  }

  lemma StackAgrees(c: Caller, d: Callee, k: nat, s: nat, p: nat, q: nat, t: Shape)
    requires c.ncrn >= 4 && Linked(c, d) && k >= 4 && s == 4 * q && t.words > 0
    ensures Agrees(4, Placed(c, k, s, t).0, Found(4, d, p, q, t).0, t)
    ensures Linked(Placed(c, k, s, t).1, Found(4, d, p, q, t).1)
  {
  }

  /** How rounding moves a register number below four. */
  ghost predicate RoundedTo(x: nat, k: nat, t: Shape) {
    (t.unit == 1 ==> k == x) && (t.unit == 2 ==> k == x + x % 2) &&
    (t.unit >= 4 ==> k == if x == 0 then 0 else t.unit)
  }

  lemma CompositeAgrees(n: int, c: Caller, d: Callee, k: nat, q: nat, t: Shape)
    requires Proper(t) && c.ncrn < 4 && Linked(c, d) && RoundedTo(c.ncrn, k, t) && !Skips(c, t) && t.kind == Composite
    requires 0 <= n <= 4 && (k + t.words > n ==> n == 4)
    ensures Agrees(n, Placed(c, k, 0, t).0, Found(n, d, k, q, t).0, t)
    ensures Linked(Placed(c, k, 0, t).1, Found(n, d, k, q, t).1)
  {
    assert k <= 4;
    if k < 4 {
      assert Placed(c, k, 0, t) == InCore(c, k, t.words);
    } else {
      assert Placed(c, k, 0, t) == OnStack(4, 0, t);
    }
  }

  lemma SimpleAgrees(n: int, c: Caller, d: Callee, k: nat, q: nat, t: Shape)
    requires Proper(t) && c.ncrn < 4 && Linked(c, d) && RoundedTo(c.ncrn, k, t) && !Skips(c, t) && t.kind != Composite
    requires 0 <= n <= 4 && (k + t.words > n ==> n == 4)
    ensures Agrees(n, Placed(c, k, 0, t).0, Found(n, d, k, q, t).0, t)
    ensures Linked(Placed(c, k, 0, t).1, Found(n, d, k, q, t).1)
  {
    if t.kind == Scalar { ScalarAgrees(n, c, d, k, q, t); } else { LongLongAgrees(n, c, d, k, q, t); }
  }

  lemma ScalarAgrees(n: int, c: Caller, d: Callee, k: nat, q: nat, t: Shape)
    requires Proper(t) && c.ncrn < 4 && Linked(c, d) && RoundedTo(c.ncrn, k, t) && t.kind == Scalar
    requires 0 <= n <= 4 && (k + t.words > n ==> n == 4)
    ensures Agrees(n, Placed(c, k, 0, t).0, Found(n, d, k, q, t).0, t)
    ensures Linked(Placed(c, k, 0, t).1, Found(n, d, k, q, t).1)
  {
    assert k == c.ncrn && t.words == 1;
  }

  lemma LongLongAgrees(n: int, c: Caller, d: Callee, k: nat, q: nat, t: Shape)
    requires Proper(t) && c.ncrn < 4 && Linked(c, d) && RoundedTo(c.ncrn, k, t) && t.kind == LongLong
    requires 0 <= n <= 4 && (k + t.words > n ==> n == 4)
    ensures Agrees(n, Placed(c, k, 0, t).0, Found(n, d, k, q, t).0, t)
    ensures Linked(Placed(c, k, 0, t).1, Found(n, d, k, q, t).1)
  {
    assert k == c.ncrn + c.ncrn % 2 && t.words == 2;
    assert Found(n, d, k, q, t) == (k * 4 + 12, Callee(k + 2, if k == 4 then 2 else 0));
    if k == 4 {
      assert Placed(c, k, 0, t) == OnStack(4, 0, t);
    } else {
      assert Placed(c, k, 0, t) == (Plan(CoreClass, k, k + 1), c.(ncrn := k + 2));
    }
  }

  lemma StepAgrees(n: int, c: Caller, d: Callee, t: Shape)
    requires Proper(t) && Linked(c, d) && !Skips(c, t) && 0 <= n <= 4
    requires CalleeStep(n, d, t).1.pn > n ==> n == 4
    ensures Agrees(n, CallerStep(c, t).0, CalleeStep(n, d, t).0, t)
    ensures Linked(CallerStep(c, t).1, CalleeStep(n, d, t).1)
  {
    var k, s, p, q := Up(c.ncrn, t.unit), Up(c.nsaa, 4 * t.unit), Up(d.pn, t.unit), Up(d.sn, t.unit);
    UpScale(d.sn, t.unit);
    if c.ncrn >= 4 {
      StackAgrees(c, d, k, s, p, q, t);
    } else {
      UpCore(c.ncrn, t);
      if t.kind == Composite { CompositeAgrees(n, c, d, k, q, t); } else { SimpleAgrees(n, c, d, k, q, t); }
    }
  }

  lemma SkipDisagrees(n: int, c: Caller, d: Callee, k: nat, q: nat, t: Shape)
    requires Proper(t) && Linked(c, d) && RoundedTo(c.ncrn, k, t) && Skips(c, t) && 0 <= n <= 4
    ensures !Agrees(n, Placed(c, k, 0, t).0, Found(n, d, k, q, t).0, t)
  {
    assert FrameAddr(n, WordAt(Placed(c, k, 0, t).0, 0)) == 12 + 4 * n;
  }

  lemma StepDisagrees(n: int, c: Caller, d: Callee, t: Shape)
    requires Proper(t) && Linked(c, d) && Skips(c, t) && 0 <= n <= 4
    ensures !Agrees(n, CallerStep(c, t).0, CalleeStep(n, d, t).0, t)
  {
    UpCore(c.ncrn, t);
    SkipDisagrees(n, c, d, Up(c.ncrn, t.unit), Up(d.sn, t.unit), t);
  }

  /** One argument seen from both sides: where the caller puts it and where the callee looks for it. */
  ghost predicate Meeting(n: int, c: Caller, d: Callee, t: Shape, plan: Plan, addr: int) {
    Proper(t) && Linked(c, d) && 0 <= n <= 4 && (CalleeStep(n, d, t).1.pn > n ==> n == 4) &&
    plan == CallerStep(c, t).0 && addr == CalleeStep(n, d, t).0
  }

  lemma StepExact(n: int, c: Caller, d: Callee, t: Shape, plan: Plan, addr: int)
    requires Meeting(n, c, d, t, plan, addr)
    ensures Agrees(n, plan, addr, t) <==> !Skips(c, t)
  {
    if Skips(c, t) { StepDisagrees(n, c, d, t); } else { StepAgrees(n, c, d, t); }
  }

  // ---- Whole parameter lists ----

  function Hidden(structRet: bool): (ps: seq<Shape>)
    ensures AllProper(ps)
  {
    if structRet then [Shape(Scalar, 1, 1)] else []
  }

  /** What the caller passes: the address for a returned structure, the declared parameters, and past an ellipsis
      more. */
  function Args(structRet: bool, ps: seq<Shape>, extra: seq<Shape>): seq<Shape> {
    Hidden(structRet) + ps + extra
  }

  function CallerAt(structRet: bool, ps: seq<Shape>, i: nat): Caller
    requires AllProper(ps) && i <= |ps|
  {
    CallerAfter(Hidden(structRet) + ps[..i])
  }

  lemma CallerNext(structRet: bool, ps: seq<Shape>, i: nat)
    requires AllProper(ps) && i < |ps|
    ensures CallerAt(structRet, ps, i + 1) == CallerStep(CallerAt(structRet, ps, i), ps[i]).1
  {
    assert Hidden(structRet) + ps[..i + 1] == Hidden(structRet) + ps[..i] + [ps[i]];
    CallerLast(Hidden(structRet) + ps[..i], ps[i]);
  }

  /** Where the caller puts the argument for declared parameter i. */
  function PlanFor(structRet: bool, ps: seq<Shape>, extra: seq<Shape>, i: nat): Plan
    requires AllProper(ps) && AllProper(extra) && i < |ps|
  {
    PlanOf(Args(structRet, ps, extra), |Hidden(structRet)| + i)
  }

  lemma PlanAt(structRet: bool, ps: seq<Shape>, extra: seq<Shape>, i: nat)
    requires AllProper(ps) && AllProper(extra) && i < |ps|
    ensures PlanFor(structRet, ps, extra, i) == CallerStep(CallerAt(structRet, ps, i), ps[i]).0
  {
    ArgsPrefix(structRet, ps, extra, i);
  }

  lemma ArgsPrefix(structRet: bool, ps: seq<Shape>, extra: seq<Shape>, i: nat)
    requires AllProper(ps) && AllProper(extra) && i < |ps|
    ensures var h := |Hidden(structRet)|;
            Args(structRet, ps, extra)[..h + i] == Hidden(structRet) + ps[..i] &&
              Args(structRet, ps, extra)[h + i] == ps[i]
  {
  }

  lemma CountStep(n: int, d: Callee, t: Shape, m: nat)
    requires Proper(t) && CountOk(d.pn, m) && d.pn >= 0
    ensures CountOk(CalleeStep(n, d, t).1.pn, if m < 4 then m + t.words else m)
  {
    if d.pn < 4 { UpCore(d.pn, t); }
  }

  lemma {:induction false} CountPrefix(structRet: bool, n: int, ps: seq<Shape>)
    requires AllProper(ps)
    ensures CountOk(CalleeAfter(structRet, n, ps).pn, Counted(if structRet then 1 else 0, ps))
    ensures CalleeAfter(structRet, n, ps).pn >= 0
    decreases |ps|
  {
    if ps != [] {
      var front := ps[..|ps| - 1];
      CountPrefix(structRet, n, front);
      CountStep(n, CalleeAfter(structRet, n, front), ps[|ps| - 1], Counted(if structRet then 1 else 0, front));
    }
  }

  lemma {:induction false} CountedGrows(m: nat, ps: seq<Shape>, i: nat)
    requires i <= |ps|
    ensures Counted(m, ps[..i]) <= Counted(m, ps)
    decreases |ps|
  {
    if i < |ps| {
      var front := ps[..|ps| - 1];
      assert front[..i] == ps[..i];
      CountedGrows(m, front, i);
    } else {
      assert ps[..i] == ps;
    }
  }

  /** The registers pushed cover every register that parameter i reaches, and all four once anything is stacked. */
  lemma PushedEnough(structRet: bool, variadic: bool, ps: seq<Shape>, i: nat)
    requires AllProper(ps) && i <= |ps|
    ensures var n := Pushed(structRet, variadic, ps);
            CalleeAfter(structRet, n, ps[..i]).pn > n ==> n == 4
    ensures CalleeAfter(structRet, Pushed(structRet, variadic, ps), ps[..i]).pn >= 4 ==>
              Pushed(structRet, variadic, ps) == 4
  {
    var n := Pushed(structRet, variadic, ps);
    CountPrefix(structRet, n, ps[..i]);
    CountedGrows(if structRet then 1 else 0, ps, i);
  }

  /** Parameter j skips what is left of the register file. */
  ghost predicate SkipsAt(structRet: bool, ps: seq<Shape>, j: nat)
    requires AllProper(ps) && j < |ps|
  {
    Skips(CallerAt(structRet, ps, j), ps[j])
  }

  /** None of the first n parameters does. */
  ghost predicate NoneSkips(structRet: bool, ps: seq<Shape>, n: nat)
    requires AllProper(ps) && n <= |ps|
  {
    n == 0 || (NoneSkips(structRet, ps, n - 1) && !SkipsAt(structRet, ps, n - 1))
  }

  lemma {:induction false} FirstSkip(structRet: bool, ps: seq<Shape>, n: nat) returns (k: nat)
    requires AllProper(ps) && n <= |ps| && !NoneSkips(structRet, ps, n)
    ensures k < n && NoneSkips(structRet, ps, k) && SkipsAt(structRet, ps, k)
  {
    if NoneSkips(structRet, ps, n - 1) { k := n - 1; } else { k := FirstSkip(structRet, ps, n - 1); }
  }

  lemma {:induction false} NoneSkipsAt(structRet: bool, ps: seq<Shape>, n: nat, j: nat)
    requires AllProper(ps) && j < n <= |ps| && NoneSkips(structRet, ps, n)
    ensures !SkipsAt(structRet, ps, j)
  {
    if j < n - 1 { NoneSkipsAt(structRet, ps, n - 1, j); }
  }

  lemma NoneSkipsExact(structRet: bool, ps: seq<Shape>, n: nat)
    requires AllProper(ps) && n <= |ps|
    ensures NoneSkips(structRet, ps, n) <==> forall j: nat :: j < n ==> !SkipsAt(structRet, ps, j)
  {
    if NoneSkips(structRet, ps, n) {
      forall j: nat | j < n ensures !SkipsAt(structRet, ps, j) { NoneSkipsAt(structRet, ps, n, j); }
    } else {
      var k := FirstSkip(structRet, ps, n);
    }
  }

  /** As long as nothing skips, both sides' counters correspond. */
  lemma {:induction false} CountersLinked(structRet: bool, n: int, ps: seq<Shape>, i: nat)
    requires AllProper(ps) && i <= |ps|
    requires NoneSkips(structRet, ps, i)
    ensures Linked(CallerAt(structRet, ps, i), CalleeAfter(structRet, n, ps[..i]))
  {
    if i == 0 {
      assert Hidden(structRet) + ps[..0] == Hidden(structRet);
      if structRet { assert Hidden(true)[..0] == []; }
    } else {
      var k := i - 1;
      var c, d := CallerAt(structRet, ps, k), CalleeAfter(structRet, n, ps[..k]);
      CountersLinked(structRet, n, ps, k);
      CallerNext(structRet, ps, k);
      PrefixAfterCallee(structRet, n, ps, k);
      StepLinked(n, c, d, ps[k], CallerStep(c, ps[k]).1, CalleeStep(n, d, ps[k]).1);
    }
  }

  lemma StepLinked(n: int, c: Caller, d: Callee, t: Shape, c': Caller, d': Callee)
    requires Proper(t) && Linked(c, d) && !Skips(c, t)
    requires c' == CallerStep(c, t).1 && d' == CalleeStep(n, d, t).1
    ensures Linked(c', d')
  {
    StepAgrees(4, c, d, t);
  }

  /** The argument for declared parameter i is found where the prolog says. */
  ghost predicate AgreeAt(structRet: bool, variadic: bool, ps: seq<Shape>, extra: seq<Shape>, i: nat)
    requires AllProper(ps) && AllProper(extra) && i < |ps|
  {
    var n := Pushed(structRet, variadic, ps);
    Agrees(n, PlanFor(structRet, ps, extra, i), AddrOf(structRet, n, ps, i), ps[i])
  }

  lemma MeetingAt(structRet: bool, variadic: bool, ps: seq<Shape>, i: nat, n: int, c: Caller, t: Shape,
        plan: Plan, addr: int)
    requires AllProper(ps) && i < |ps| && n == Pushed(structRet, variadic, ps) && NoneSkips(structRet, ps, i)
    requires c == CallerAt(structRet, ps, i) && t == ps[i]
    requires plan == CallerStep(c, t).0 && addr == AddrOf(structRet, n, ps, i)
    ensures Agrees(n, plan, addr, t) <==> !Skips(c, t)
  {
    var d := CalleeAfter(structRet, n, ps[..i]);
    CountersLinked(structRet, n, ps, i);
    PushedFor(structRet, variadic, ps, i);
    StepExact(n, c, d, t, plan, addr);
  }

  lemma PlannedMeeting(structRet: bool, variadic: bool, ps: seq<Shape>, extra: seq<Shape>, i: nat, n: int,
        plan: Plan, addr: int)
    requires AllProper(ps) && AllProper(extra) && i < |ps| && NoneSkips(structRet, ps, i)
    requires n == Pushed(structRet, variadic, ps) && addr == AddrOf(structRet, n, ps, i)
    requires plan == PlanFor(structRet, ps, extra, i)
    ensures Agrees(n, plan, addr, ps[i]) <==> !SkipsAt(structRet, ps, i)
  {
    PlanAt(structRet, ps, extra, i);
    MeetingAt(structRet, variadic, ps, i, n, CallerAt(structRet, ps, i), ps[i], plan, addr);
  }

  lemma AgreeStep(structRet: bool, variadic: bool, ps: seq<Shape>, extra: seq<Shape>, i: nat)
    requires AllProper(ps) && AllProper(extra) && i < |ps|
    requires NoneSkips(structRet, ps, i)
    ensures AgreeAt(structRet, variadic, ps, extra, i) <==> !SkipsAt(structRet, ps, i)
  {
    var n := Pushed(structRet, variadic, ps);
    var plan, addr := PlanFor(structRet, ps, extra, i), AddrOf(structRet, n, ps, i);
    assert AgreeAt(structRet, variadic, ps, extra, i) == Agrees(n, plan, addr, ps[i]);
    PlannedMeeting(structRet, variadic, ps, extra, i, n, plan, addr);
  }

  lemma PushedFor(structRet: bool, variadic: bool, ps: seq<Shape>, i: nat)
    requires AllProper(ps) && i < |ps|
    ensures var n := Pushed(structRet, variadic, ps);
            CalleeStep(n, CalleeAfter(structRet, n, ps[..i]), ps[i]).1.pn > n ==> n == 4
  {
    PushedEnough(structRet, variadic, ps, i + 1);
    PrefixAfterCallee(structRet, Pushed(structRet, variadic, ps), ps, i);
  }

  /** Caller and callee agree on a parameter list exactly when no parameter aligned to more than four words
      comes while r1, r2 or r3 is the next register. The procedure call standard has no such alignment. */
  lemma CallerCalleeAgree(structRet: bool, variadic: bool, ps: seq<Shape>, extra: seq<Shape>)
    requires AllProper(ps) && AllProper(extra)
    ensures (forall i :: 0 <= i < |ps| ==> AgreeAt(structRet, variadic, ps, extra, i)) <==>
            (forall i: nat :: i < |ps| ==> !SkipsAt(structRet, ps, i))
  {
    NoneSkipsExact(structRet, ps, |ps|);
    if NoneSkips(structRet, ps, |ps|) {
      forall i | 0 <= i < |ps| ensures AgreeAt(structRet, variadic, ps, extra, i) {
        NoneSkipsExact(structRet, ps, i);
        AgreeStep(structRet, variadic, ps, extra, i);
      }
    } else {
      var k := FirstSkip(structRet, ps, |ps|);
      AgreeStep(structRet, variadic, ps, extra, k);
    }
  }

  /** In particular on every list of types whose alignments the standard allows. */
  lemma StandardTypesAgree(structRet: bool, variadic: bool, ts: seq<Type>, extra: seq<Shape>)
    requires forall i :: 0 <= i < |ts| ==> WellFormed(ts[i]) && ts[i].align <= 8
    requires AllProper(extra)
    ensures AllProper(Shapes(ts)) && forall i :: 0 <= i < |ts| ==> AgreeAt(structRet, variadic, Shapes(ts), extra, i)
  {
    var ps := Shapes(ts);
    forall i | 0 <= i < |ps| ensures Proper(ps[i]) && ps[i].unit <= 4 { RoundedProper(ts[i]); }
    forall i | 0 <= i < |ps| ensures !SkipsAt(structRet, ps, i) { }
    CallerCalleeAgree(structRet, variadic, ps, extra);
  }

  lemma AfterFirstWord(int1: Shape, t: Shape)
    requires int1.kind == Scalar && Proper(int1) && Proper(t)
    ensures CallerAt(false, [int1, t], 0) == Caller(0, 0) && CallerAt(false, [int1, t], 1) == Caller(1, 0)
  {
    var ps := [int1, t];
    assert Hidden(false) + ps[..0] == [];
    CallerNext(false, ps, 0);
    assert ps[0] == int1;
    FirstWord(int1);
  }

  lemma FirstWord(t: Shape)
    requires t.kind == Scalar && t.unit > 0
    ensures CallerStep(Caller(0, 0), t).1 == Caller(1, 0)
  {
  }

  /** Beyond the standard it can fail: an int, then any structure aligned to more than 16 bytes. */
  lemma WideAlignmentDisagrees(int1: Shape, t: Shape)
    requires int1.kind == Scalar && Proper(int1) && Proper(t) && t.unit > 4
    ensures !AgreeAt(false, false, [int1, t], [], 1)
  {
    AfterFirstWord(int1, t);
    AgreeStep(false, false, [int1, t], [], 1);
  }

  /** The address for a returned structure comes in r0, which is pushed, and lies at fp + 12. */
  lemma HiddenAddress(variadic: bool, ps: seq<Shape>, extra: seq<Shape>)
    requires AllProper(ps) && AllProper(extra)
    ensures PlanOf(Args(true, ps, extra), 0) == Plan(CoreClass, 0, 0) && Pushed(true, variadic, ps) > 0
  {
    assert Args(true, ps, extra)[..0] == [];
    CountedGrows(1, ps, 0);
  }

  // ---- Parameters do not overlap ----

  /** The first frame offset past the parameters placed so far. */
  function End(n: int, d: Callee): int {
    if d.pn < 4 then 12 + 4 * d.pn else 12 + 4 * (n + d.sn)
  }

  /** Where the parameters before i end. */
  function EndAt(structRet: bool, n: int, ps: seq<Shape>, i: nat): int
    requires AllProper(ps) && i <= |ps|
  {
    End(n, CalleeAfter(structRet, n, ps[..i]))
  }

  lemma StepEnd(n: int, d: Callee, t: Shape)
    requires t.unit > 0 && d.pn >= 0 && (d.pn < 4 ==> d.sn == 0) && (CalleeStep(n, d, t).1.pn >= 4 ==> n == 4)
    ensures End(n, d) <= CalleeStep(n, d, t).0
    ensures CalleeStep(n, d, t).0 + 4 * t.words == End(n, CalleeStep(n, d, t).1)
    ensures CalleeStep(n, d, t).1.pn < 4 ==> CalleeStep(n, d, t).1.sn == 0
  {
  }

  lemma EndStep(structRet: bool, n: int, ps: seq<Shape>, i: nat, d: Callee, d': Callee)
    requires AllProper(ps) && i < |ps| && d == CalleeAfter(structRet, n, ps[..i]) &&
             d' == CalleeAfter(structRet, n, ps[..i + 1])
    requires (d.pn < 4 ==> d.sn == 0) && (d'.pn >= 4 ==> n == 4)
    ensures End(n, d) <= AddrOf(structRet, n, ps, i) && AddrOf(structRet, n, ps, i) + 4 * ps[i].words == End(n, d')
    ensures d'.pn < 4 ==> d'.sn == 0
  {
    PrefixAfterCallee(structRet, n, ps, i);
    StepEnd(n, d, ps[i]);
  }

  lemma {:induction false} NoStackYet(structRet: bool, n: int, ps: seq<Shape>)
    requires AllProper(ps)
    ensures var d := CalleeAfter(structRet, n, ps); d.pn < 4 ==> d.sn == 0
    decreases |ps|
  {
    if ps != [] { NoStackYet(structRet, n, ps[..|ps| - 1]); }
  }

  lemma AddrBetween(structRet: bool, variadic: bool, ps: seq<Shape>, i: nat)
    requires AllProper(ps) && i < |ps|
    ensures var n := Pushed(structRet, variadic, ps);
            EndAt(structRet, n, ps, i) <= AddrOf(structRet, n, ps, i) &&
            AddrOf(structRet, n, ps, i) + 4 * ps[i].words == EndAt(structRet, n, ps, i + 1)
  {
    var n := Pushed(structRet, variadic, ps);
    NoStackYet(structRet, n, ps[..i]);
    PushedEnough(structRet, variadic, ps, i + 1);
    EndStep(structRet, n, ps, i, CalleeAfter(structRet, n, ps[..i]), CalleeAfter(structRet, n, ps[..i + 1]));
  }

  lemma {:induction false} EndsInOrder(structRet: bool, variadic: bool, ps: seq<Shape>, n: int, i: nat, j: nat)
    requires AllProper(ps) && i <= j <= |ps| && n == Pushed(structRet, variadic, ps)
    ensures EndAt(structRet, n, ps, i) <= EndAt(structRet, n, ps, j)
    decreases j
  {
    if i < j {
      var k := j - 1;
      EndsInOrder(structRet, variadic, ps, n, i, k);
      AddrBetween(structRet, variadic, ps, k);
      EndRises(structRet, n, ps, k);
    }
  }

  lemma EndRises(structRet: bool, n: int, ps: seq<Shape>, k: nat)
    requires AllProper(ps) && k < |ps|
    requires EndAt(structRet, n, ps, k) <= AddrOf(structRet, n, ps, k)
    requires AddrOf(structRet, n, ps, k) + 4 * ps[k].words == EndAt(structRet, n, ps, k + 1)
    ensures EndAt(structRet, n, ps, k) <= EndAt(structRet, n, ps, k + 1)
  {
  }

  /** For every list, agreed or not: parameters lie in the frame in order, each clear of the next. */
  lemma ParametersDisjoint(structRet: bool, variadic: bool, ps: seq<Shape>, i: nat, j: nat)
    requires AllProper(ps) && i < j < |ps|
    ensures var n := Pushed(structRet, variadic, ps);
            12 <= AddrOf(structRet, n, ps, i) &&
              AddrOf(structRet, n, ps, i) + 4 * ps[i].words <= AddrOf(structRet, n, ps, j)
  {
    var n := Pushed(structRet, variadic, ps);
    EndsInOrder(structRet, variadic, ps, n, 0, i);
    EndsInOrder(structRet, variadic, ps, n, i + 1, j);
    AddrBetween(structRet, variadic, ps, i);
    AddrBetween(structRet, variadic, ps, j);
  }

  // ---- The standard's rules, on the types themselves ----

  predicate AllWellFormed(ts: seq<Type>) { forall i :: 0 <= i < |ts| ==> WellFormed(ts[i]) }

  /** A value of this alignment may start in register r. */
  predicate RegisterFits(r: int, align: nat)
    requires align > 0
  {
    4 * r % align == 0
  }

  /** The first such register from n on, rule C.3 of the procedure call standard. */
  ghost predicate FirstRegister(n: int, align: nat, r: int)
    requires align > 0
  {
    n <= r && RegisterFits(r, align) && forall q :: n <= q < r ==> !RegisterFits(q, align)
  }

  /** Stacked arguments start at words that their alignment divides. */
  predicate AddressFits(s: int, align: nat)
    requires align > 0
  {
    s % 4 == 0 && s % align == 0
  }

  ghost predicate FirstAddress(n: int, align: nat, s: int)
    requires align > 0
  {
    n <= s && AddressFits(s, align) && forall q :: n <= q < s ==> !AddressFits(q, align)
  }

  /** w words are just enough for the value. */
  predicate CoveredBy(size: nat, w: nat) { 4 * w - 4 < size <= 4 * w }

  /** The plan for an argument when the next core register and stacked argument address are those of c, and what they
      are then: from the first register that fits if there is one, what is left of it at the start of the stack, and
      otherwise at the first address that fits. */
  ghost predicate PlannedByRule(c: Caller, t: Type, p: Plan, c': Caller, r: int, s: int, w: nat)
    requires t.align > 0
  {
    FirstRegister(c.ncrn, t.align, r) && FirstAddress(c.nsaa, t.align, s) && CoveredBy(t.size, w) &&
    if c.ncrn < 4 && r < 4 then
      p.start == r && c'.ncrn == r + w && c'.nsaa == (if r + w > 4 then 4 * (r + w - 4) else c.nsaa) &&
      (if t.kind == Composite then p.cls == CoreStructClass && p.end == (if r + w < 4 then r + w else 4)
       else p.cls == CoreClass && p.end == r + w - 1 < 4)
    else p == Plan(StackClass, s, s + 4 * w) && c'.ncrn >= 4 && c'.nsaa == s + 4 * w
  }

  /** The alignments by cases: below a doubleword every register fits. */
  lemma UnitScale(t: Type)
    requires WellFormed(t)
    ensures Rounded(t).unit == 1 ==> t.align == 1 || t.align == 2 || t.align == 4
    ensures Rounded(t).unit > 1 ==> t.align == 4 * Rounded(t).unit
  {
    SmallPowers(t.align);
  }

  lemma MultipleScale(q: int, u: int)
    requires u > 0
    ensures 4 * q % (4 * u) == 0 <==> q % u == 0
  {
    DivMod(q, u);
    var d, e := q / u, q % u;
    Associate(4, u, d);
    assert 4 * q == d * (4 * u) + 4 * e;
    Divide(4 * q, 4 * u, d, 4 * e);
  }

  lemma RegisterRule(n: nat, t: Type, r: nat)
    requires WellFormed(t) && r == Up(n, Rounded(t).unit)
    ensures FirstRegister(n, t.align, r)
  {
    var u := Rounded(t).unit;
    UnitScale(t);
    UpFirst(n, u);
    if u == 1 {
      forall q: int ensures RegisterFits(q, t.align) { SmallFits(q, t.align); }
    } else {
      MultipleScale(r, u);
      forall q | n <= q < r ensures !RegisterFits(q, t.align) {
        NoneBefore(n, u, r, q);
        MultipleScale(q, u);
      }
    }
  }

  lemma SmallFits(q: int, a: nat)
    requires a == 1 || a == 2 || a == 4
    ensures RegisterFits(q, a)
  {
  }

  lemma AddressRule(n: nat, t: Type, s: nat)
    requires WellFormed(t) && s == Up(n, 4 * Rounded(t).unit)
    ensures FirstAddress(n, t.align, s)
  {
    var u := Rounded(t).unit;
    UnitScale(t);
    UpFirst(n, 4 * u);
    forall q: int ensures AddressFits(q, t.align) <==> q % (4 * u) == 0 { AddressScale(q, t.align, u); }
    forall q | n <= q < s ensures !AddressFits(q, t.align) { NoneBefore(n, 4 * u, s, q); }
  }

  lemma AddressScale(q: int, a: nat, u: nat)
    requires (u == 1 && (a == 1 || a == 2 || a == 4)) || (u > 1 && a == 4 * u)
    ensures AddressFits(q, a) <==> q % (4 * u) == 0
  {
    if u == 1 { SmallAddress(q, a); } else if q % a == 0 { WholeWords(q, a, u); }
  }

  lemma SmallAddress(q: int, a: nat)
    requires a == 1 || a == 2 || a == 4
    ensures AddressFits(q, a) <==> q % 4 == 0
  {
  }

  lemma WholeWords(q: int, a: nat, u: nat)
    requires u > 0 && a == 4 * u && q % a == 0
    ensures q % 4 == 0
  {
    var d := q / a;
    DivMod(q, a);
    Associate(4, u, d);
    Divide(q, 4, u * d, 0);
  }

  lemma WordsCover(t: Type)
    requires t.size > 0
    ensures CoveredBy(t.size, Rounded(t).words)
  {
  }

  /** The caller plans every argument by the rules. */
  lemma PlanFollowsRule(ts: seq<Type>, i: nat) returns (r: int, s: int, w: nat)
    requires AllWellFormed(ts) && AllProper(Shapes(ts)) && i < |ts|
    ensures CallerAfter(Shapes(ts)[..0]) == Caller(0, 0)
    ensures PlannedByRule(CallerAfter(Shapes(ts)[..i]), ts[i], PlanOf(Shapes(ts), i), CallerAfter(Shapes(ts)[..i + 1]),
                          r, s, w)
  {
    var ps := Shapes(ts);
    var c, t := CallerAfter(ps[..i]), Rounded(ts[i]);
    PrefixAfter(ps, i);
    r, s, w := Up(c.ncrn, t.unit), Up(c.nsaa, 4 * t.unit), t.words;
    RegisterRule(c.ncrn, ts[i], r);
    AddressRule(c.nsaa, ts[i], s);
    WordsCover(ts[i]);
    PlacedByRule(c, ts[i], r, s);
  }

  lemma PlacedByRule(c: Caller, t: Type, k: nat, s: nat)
    requires WellFormed(t) && Proper(Rounded(t)) && k == Up(c.ncrn, Rounded(t).unit)
    requires FirstRegister(c.ncrn, t.align, k) && FirstAddress(c.nsaa, t.align, s)
    requires CoveredBy(t.size, Rounded(t).words)
    ensures var (p, c') := Placed(c, k, s, Rounded(t)); PlannedByRule(c, t, p, c', k, s, Rounded(t).words)
  {
    UnitScale(t);
    if c.ncrn < 4 { UpCore(c.ncrn, Rounded(t)); }
  }

  /** The frame offset of a parameter by the same rules, when n registers are pushed and the next register, or the next
      stacked word if it is past r3, is that of d. */
  ghost predicate FoundByRule(n: int, d: Callee, t: Type, addr: int, d': Callee, r: int, q: int, w: nat)
    requires t.align > 0
  {
    FirstRegister(d.pn, t.align, r) && FirstAddress(4 * d.sn, t.align, 4 * q) && CoveredBy(t.size, w) &&
    if d.pn < 4 then
      addr == 12 + 4 * r && d'.pn == r + w && d'.sn == if d.sn == 0 && r + w > 4 then r + w - 4 else d.sn
    else
      addr == 12 + 4 * (n + q) && d'.pn == d.pn && d'.sn == q + w
  }

  /** The callee looks for every parameter by the rules. */
  lemma AddrFollowsRule(structRet: bool, n: int, ts: seq<Type>, i: nat) returns (r: int, q: int, w: nat)
    requires AllWellFormed(ts) && AllProper(Shapes(ts)) && i < |ts|
    ensures CalleeAfter(structRet, n, Shapes(ts)[..0]) == Callee(if structRet then 1 else 0, 0)
    ensures FoundByRule(n, CalleeAfter(structRet, n, Shapes(ts)[..i]), ts[i], AddrOf(structRet, n, Shapes(ts), i),
                        CalleeAfter(structRet, n, Shapes(ts)[..i + 1]), r, q, w)
  {
    var ps := Shapes(ts);
    var d, t := CalleeAfter(structRet, n, ps[..i]), Rounded(ts[i]);
    PrefixAfterCallee(structRet, n, ps, i);
    r, q, w := Up(d.pn, t.unit), Up(d.sn, t.unit), t.words;
    RegisterRule(d.pn, ts[i], r);
    UpScale(d.sn, t.unit);
    AddressRule(4 * d.sn, ts[i], 4 * q);
    WordsCover(ts[i]);
  }

  /** The words that a list of sizes takes. */
  function TotalWords(ts: seq<Type>): nat {
    if ts == [] then 0 else TotalWords(ts[..|ts| - 1]) + (ts[|ts| - 1].size + 3) / 4
  }

  lemma {:induction false} CountedTotal(n: nat, ts: seq<Type>)
    ensures Counted(n, Shapes(ts)) == n + TotalWords(ts) || (4 <= Counted(n, Shapes(ts)) <= n + TotalWords(ts))
    decreases |ts|
  {
    if ts != [] {
      var front := ts[..|ts| - 1];
      CountedTotal(n, front);
      assert Shapes(ts)[..|ts| - 1] == Shapes(front);
    }
  }

  /** As many registers are pushed as the parameters take, an even number of them and at most four; all four for an
      ellipsis. */
  lemma PushedExact(structRet: bool, variadic: bool, ts: seq<Type>)
    ensures var all := (if structRet then 1 else 0) + TotalWords(ts);
            Pushed(structRet, variadic, Shapes(ts)) == if variadic || all >= 4 then 4 else all + all % 2
  {
    CountedTotal(if structRet then 1 else 0, ts);
  }
}
