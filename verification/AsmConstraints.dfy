/** Register allocation for the operands of an inline assembler statement, on i386 and on ARM. */
module AsmConstraints {
  import opened Base

  datatype Cpu = I386 | Arm

  /** Registers of ARM; i386 has eight, and numbers from eight on count as reserved there. */
  const REGS := 16

  /** General registers are handed out below this number. */
  function Last(cpu: Cpu): nat { if cpu == I386 then 8 else 9 }

  /** A register is needed to carry a value into the statement, out of it, or both. */
  datatype Role = In | Out

  const BOTH := {In, Out}

  /** Where the C value of an operand is: a constant, behind a pointer kept in memory (VT_LLOCAL),
      in a register variable, or anywhere else. */
  datatype Value = Constant(hasSym: bool) | LocalPointer | RegisterVariable(reg: nat) | Elsewhere

  /** `target` is the operand that a constraint such as "0" or "[name]" names, -1 if there is none. */
  datatype Operand = Operand(constraint: string, target: int, value: Value,
                             inputIndex: int, refIndex: int, priority: int,
                             reg: int, isLlong: bool, isMemory: bool, isRw: bool)

  // ---- Constraint strings ----

  predicate Modifier(c: char) { c == '=' || c == '&' || c == '+' || c == '%' }

  /** Priority of a constraint letter, -1 if it is not one. */
  function LetterPriority(cpu: Cpu, c: char): int {
    if cpu == Arm then
      if c == 'l' || c == 'r' || c == 'p' then 3
      else if c == 'M' || c == 'I' || c == 'J' || c == 'i' || c == 'm' || c == 'g' then 4
      else -1
    else if c == 'A' then 0
    else if c == 'a' || c == 'b' || c == 'c' || c == 'd' || c == 'S' || c == 'D' then 1
    else if c == 'q' then 2
    else if c == 'r' || c == 'R' || c == 'p' then 3
    else if c == 'N' || c == 'M' || c == 'I' || c == 'e' || c == 'i' || c == 'm' || c == 'g' then 4
    else -1
  }

  predicate Letters(cpu: Cpu, s: string) { forall i :: 0 <= i < |s| ==> LetterPriority(cpu, s[i]) >= 0 }

  predicate Modifiers(s: string) { forall i :: 0 <= i < |s| ==> Modifier(s[i]) }

  /** The number of leading modifiers. */
  function Skip(s: string): (n: nat)
    ensures n <= |s| && Modifiers(s[..n]) && (n < |s| ==> !Modifier(s[n]))
  {
    if s == [] || !Modifier(s[0]) then 0
    else
      var n := 1 + Skip(s[1..]);
      assert forall i :: 0 <= i < n ==> s[..n][i] == if i == 0 then s[0] else s[1..][..n - 1][i - 1];
      n
  }

  predicate IsRef(op: Operand) {
    var n := Skip(op.constraint);
    n < |op.constraint| && ('0' <= op.constraint[n] <= '9' || op.constraint[n] == '[')
  }

  /** The priority of the whole constraint is that of its least urgent letter. */
  ghost predicate IsPriority(cpu: Cpu, s: string, pr: int) {
    pr >= 0 && (forall i :: 0 <= i < |s| ==> LetterPriority(cpu, s[i]) <= pr) &&
    (pr == 0 || exists i :: 0 <= i < |s| && LetterPriority(cpu, s[i]) == pr)
  }

  method ConstraintPriority(cpu: Cpu, s: string) returns (pr: int)
    ensures pr == -1 <==> !Letters(cpu, s)
    ensures pr != -1 ==> IsPriority(cpu, s, pr)
  {
    pr := 0;
    for i := 0 to |s|
      invariant Letters(cpu, s[..i]) && IsPriority(cpu, s[..i], pr)
    {
      var p := LetterPriority(cpu, s[i]);
      if p < 0 { return -1; }
      assert s[..i + 1] == s[..i] + [s[i]];
      ghost var before := pr;
      if p > pr { pr := p; }
      PriorityGrows(cpu, s[..i], s[i], before, pr);
    }
    assert s[..|s|] == s;
  }

  lemma PriorityGrows(cpu: Cpu, s: string, c: char, before: int, pr: int)
    requires IsPriority(cpu, s, before) && LetterPriority(cpu, c) >= 0
    requires pr == if LetterPriority(cpu, c) > before then LetterPriority(cpu, c) else before
    ensures IsPriority(cpu, s + [c], pr)
  {
    var t := s + [c];
    if pr != 0 {
      if pr == before {
        var i :| 0 <= i < |s| && LetterPriority(cpu, s[i]) == pr;
        assert t[i] == s[i];
      } else {
        assert t[|s|] == c;
      }
    }
  }

  // ---- References and priorities ----

  /** No field of the outcome set yet. */
  predicate Fresh(op: Operand) {
    op.inputIndex == -1 && op.refIndex == -1 && op.reg == -1 && !op.isMemory && !op.isRw
  }

  /** The operand's own part of what the first loop establishes. */
  ghost predicate PreparedOne(cpu: Cpu, ops: seq<Operand>, nbOutputs: int, i: int)
    requires 0 <= i < |ops|
  {
    var op := ops[i];
    !op.isMemory && !op.isRw &&
    (if IsRef(op) then
       op.refIndex == op.target && 0 <= op.target < i && nbOutputs <= i && op.priority == 5 && op.reg == -1
     else
       op.refIndex == -1 &&
       (if op.value.RegisterVariable? then op.priority == 1 && op.reg == op.value.reg
        else op.reg == -1 && Letters(cpu, op.constraint[Skip(op.constraint)..]) &&
             IsPriority(cpu, op.constraint[Skip(op.constraint)..], op.priority)))
  }

  /** References and back references among the first n operands correspond. */
  ghost predicate Linked(ops: seq<Operand>, n: int)
    requires 0 <= n <= |ops|
  {
    (forall i :: 0 <= i < n && ops[i].refIndex >= 0 ==>
      ops[i].refIndex < |ops| && ops[ops[i].refIndex].inputIndex == i) &&
    (forall k :: 0 <= k < |ops| && ops[k].inputIndex >= 0 ==>
      ops[k].inputIndex < n && ops[ops[k].inputIndex].refIndex == k)
  }

  ghost predicate Prepared(cpu: Cpu, ops: seq<Operand>, nbOutputs: int) {
    (forall i :: 0 <= i < |ops| ==> PreparedOne(cpu, ops, nbOutputs, i)) && Linked(ops, |ops|)
  }

  /** The parts of an operand that are given. */
  predicate SameInput(a: Operand, b: Operand) {
    a.constraint == b.constraint && a.target == b.target && a.value == b.value
  }

  predicate SameInputs(a: seq<Operand>, b: seq<Operand>) {
    |a| == |b| && forall i :: 0 <= i < |a| ==> SameInput(a[i], b[i])
  }

  /** When an operand by itself is acceptable. */
  predicate GoodOne(cpu: Cpu, op: Operand, nbOutputs: int, i: int) {
    if IsRef(op) then 0 <= op.target < i && nbOutputs <= i
    else op.value.RegisterVariable? || Letters(cpu, op.constraint[Skip(op.constraint)..])
  }

  /** Every operand is acceptable and no operand is referenced twice. */
  ghost predicate Good(cpu: Cpu, ops: seq<Operand>, nbOutputs: int) {
    (forall i :: 0 <= i < |ops| ==> GoodOne(cpu, ops[i], nbOutputs, i)) &&
    (forall i, j :: 0 <= i < j < |ops| && IsRef(ops[i]) && IsRef(ops[j]) ==> ops[i].target != ops[j].target)
  }

  method ClearFields(ops: array<Operand>)
    modifies ops
    ensures SameInputs(ops[..], old(ops[..])) && forall i :: 0 <= i < ops.Length ==> Fresh(ops[i])
  {
    for i := 0 to ops.Length
      invariant forall j :: 0 <= j < i ==> Fresh(ops[j])
      invariant forall j :: 0 <= j < ops.Length ==> SameInput(ops[j], old(ops[j]))
    {
      ops[i] := ops[i].(inputIndex := -1, refIndex := -1, reg := -1, isMemory := false, isRw := false);
    }
  }

  ghost predicate PreparedUpTo(cpu: Cpu, ops: seq<Operand>, nbOutputs: int, n: int)
    requires 0 <= n <= |ops|
  {
    (forall i :: 0 <= i < n ==> PreparedOne(cpu, ops, nbOutputs, i)) &&
    (forall i :: n <= i < |ops| ==> Fresh(ops[i])) && Linked(ops, n)
  }

  lemma RefPrepared(cpu: Cpu, ops: seq<Operand>, nbOutputs: int, i: int, k: int)
    requires 0 <= k < i < |ops| && nbOutputs <= i && PreparedUpTo(cpu, ops, nbOutputs, i)
    requires IsRef(ops[i]) && ops[i].target == k && ops[k].inputIndex < 0
    ensures var ops1 := ops[i := ops[i].(refIndex := k, priority := 5)];
            PreparedUpTo(cpu, ops1[k := ops1[k].(inputIndex := i)], nbOutputs, i + 1)
  {
    var ops1 := ops[i := ops[i].(refIndex := k, priority := 5)];
    var ops2 := ops1[k := ops1[k].(inputIndex := i)];
    forall j | 0 <= j < i + 1 ensures PreparedOne(cpu, ops2, nbOutputs, j) {
      if j < i { assert PreparedOne(cpu, ops, nbOutputs, j); }
    }
  }

  lemma OtherPrepared(cpu: Cpu, ops: seq<Operand>, nbOutputs: int, i: int, op: Operand)
    requires 0 <= i < |ops| && PreparedUpTo(cpu, ops, nbOutputs, i)
    requires !IsRef(op) && SameInput(op, ops[i]) && op.inputIndex == -1 && op.refIndex == -1
    requires PreparedOne(cpu, ops[i := op], nbOutputs, i)
    ensures PreparedUpTo(cpu, ops[i := op], nbOutputs, i + 1)
  {
    var ops1 := ops[i := op];
    forall j | 0 <= j < i + 1 ensures PreparedOne(cpu, ops1, nbOutputs, j) {
      if j < i { assert PreparedOne(cpu, ops, nbOutputs, j); }
    }
  }

  method PrepareOne(cpu: Cpu, ops: array<Operand>, i: int, nbOutputs: int) returns (ok: bool)
    requires 0 <= i < ops.Length && PreparedUpTo(cpu, ops[..], nbOutputs, i)
    modifies ops
    ensures SameInputs(ops[..], old(ops[..]))
    ensures ok ==> PreparedUpTo(cpu, ops[..], nbOutputs, i + 1)
    ensures ok <==> GoodOne(cpu, old(ops[i]), nbOutputs, i) &&
                    (IsRef(old(ops[i])) ==> old(ops[ops[i].target].inputIndex) < 0)
  {
    var op := ops[i];
    ghost var before := ops[..];
    var str := op.constraint[Skip(op.constraint)..];
    if IsRef(op) {
      var k := op.target;
      if !(0 <= k < i) || i < nbOutputs { return false; }
      if ops[k].inputIndex >= 0 { return false; }
      RefPrepared(cpu, before, nbOutputs, i, k);
      ops[i] := op.(refIndex := k, priority := 5);
      ops[k] := ops[k].(inputIndex := i);
      assert ops[..] == before[i := op.(refIndex := k, priority := 5)][k := before[k].(inputIndex := i)];
      ok := true;
    } else if op.value.RegisterVariable? {
      ops[i] := op.(priority := 1, reg := op.value.reg);
      OtherPrepared(cpu, before, nbOutputs, i, ops[i]);
      assert ops[..] == before[i := ops[i]];
      ok := true;
    } else {
      var pr := ConstraintPriority(cpu, str);
      if pr == -1 { return false; }
      ops[i] := op.(priority := pr);
      OtherPrepared(cpu, before, nbOutputs, i, ops[i]);
      assert ops[..] == before[i := ops[i]];
      ok := true;
    }
  }

  lemma TwiceReferenced(cpu: Cpu, ops: seq<Operand>, nbOutputs: int, i: int)
    requires 0 <= i < |ops| && PreparedUpTo(cpu, ops, nbOutputs, i) && IsRef(ops[i])
    requires 0 <= ops[i].target < i && ops[ops[i].target].inputIndex >= 0
    ensures !Good(cpu, ops, nbOutputs)
  {
    var j := ops[ops[i].target].inputIndex;
    assert PreparedOne(cpu, ops, nbOutputs, j);
    assert ops[j].target == ops[i].target;
  }

  lemma PreparedGood(cpu: Cpu, ops: seq<Operand>, nbOutputs: int)
    requires Prepared(cpu, ops, nbOutputs)
    ensures Good(cpu, ops, nbOutputs)
  {
    forall i | 0 <= i < |ops| ensures GoodOne(cpu, ops[i], nbOutputs, i) { assert PreparedOne(cpu, ops, nbOutputs, i); }
    forall i, j | 0 <= i < j < |ops| && IsRef(ops[i]) && IsRef(ops[j]) ensures ops[i].target != ops[j].target {
      assert PreparedOne(cpu, ops, nbOutputs, i) && PreparedOne(cpu, ops, nbOutputs, j);
    }
  }

  lemma GoodOfInputs(cpu: Cpu, a: seq<Operand>, b: seq<Operand>, nbOutputs: int)
    requires SameInputs(a, b)
    ensures Good(cpu, a, nbOutputs) <==> Good(cpu, b, nbOutputs)
  {
    forall i | 0 <= i < |a| ensures IsRef(a[i]) == IsRef(b[i]) &&
      GoodOne(cpu, a[i], nbOutputs, i) == GoodOne(cpu, b[i], nbOutputs, i) { }
  }

  lemma NotGood(cpu: Cpu, before: seq<Operand>, ops: seq<Operand>, nbOutputs: int, i: nat)
    requires i < |before| && PreparedUpTo(cpu, before, nbOutputs, i) && SameInputs(before, ops)
    requires GoodOne(cpu, before[i], nbOutputs, i) && IsRef(before[i]) ==>
               before[before[i].target].inputIndex >= 0
    requires !(GoodOne(cpu, before[i], nbOutputs, i) && !IsRef(before[i]))
    ensures !Good(cpu, ops, nbOutputs)
  {
    if GoodOne(cpu, before[i], nbOutputs, i) { TwiceReferenced(cpu, before, nbOutputs, i); }
    GoodOfInputs(cpu, before, ops, nbOutputs);
  }

  lemma InputsGood(cpu: Cpu, after: seq<Operand>, ops: seq<Operand>, nbOutputs: int)
    requires PreparedUpTo(cpu, after, nbOutputs, |after|) && SameInputs(after, ops)
    ensures Prepared(cpu, after, nbOutputs) && Good(cpu, ops, nbOutputs)
  {
    PreparedGood(cpu, after, nbOutputs);
    GoodOfInputs(cpu, after, ops, nbOutputs);
  }

  /** The first loop: resolve references and find priorities; it fails exactly on operands that are not acceptable. */
  method Prepare(cpu: Cpu, ops: array<Operand>, nbOutputs: int) returns (ok: bool)
    modifies ops
    ensures SameInputs(ops[..], old(ops[..]))
    ensures ok <==> Good(cpu, old(ops[..]), nbOutputs)
    ensures ok ==> Prepared(cpu, ops[..], nbOutputs)
  {
    ClearFields(ops);
    var i := 0;
    while i < ops.Length
      invariant 0 <= i <= ops.Length && PreparedUpTo(cpu, ops[..], nbOutputs, i)
      invariant SameInputs(ops[..], old(ops[..]))
    {
      ghost var before := ops[..];
      ok := PrepareOne(cpu, ops, i, nbOutputs);
      if !ok {
        NotGood(cpu, before, old(ops[..]), nbOutputs, i);
        return;
      }
      i := i + 1;
    }
    ok := true;
    InputsGood(cpu, ops[..], old(ops[..]), nbOutputs);
  }

  // ---- Order ----

  /** `pos` is the inverse of `sorted`: every operand comes exactly once. */
  ghost predicate Inverse(sorted: seq<int>, pos: seq<int>) {
    |pos| == |sorted| &&
    (forall a :: 0 <= a < |sorted| ==> 0 <= sorted[a] < |sorted| && pos[sorted[a]] == a) &&
    (forall v :: 0 <= v < |pos| ==> 0 <= pos[v] < |sorted| && sorted[pos[v]] == v)
  }

  predicate InRange(sorted: seq<int>, n: int) { forall a :: 0 <= a < |sorted| ==> 0 <= sorted[a] < n }

  ghost predicate SortedBy(ops: seq<Operand>, sorted: seq<int>)
    requires InRange(sorted, |ops|)
  {
    forall a, b :: 0 <= a < b < |sorted| ==> ops[sorted[a]].priority <= ops[sorted[b]].priority
  }

  /** No operand at a place from `from` up to `to` should come before the one at place a. */
  ghost predicate LeastUpTo(ops: seq<Operand>, sorted: seq<int>, a: int, from: int, to: int)
    requires InRange(sorted, |ops|) && 0 <= a < |sorted| && 0 <= from && to <= |sorted|
  {
    forall b :: from <= b < to ==> ops[sorted[a]].priority <= ops[sorted[b]].priority
  }

  ghost predicate LeastAt(ops: seq<Operand>, sorted: seq<int>, a: int)
    requires InRange(sorted, |ops|) && 0 <= a < |sorted|
  {
    LeastUpTo(ops, sorted, a, a + 1, |sorted|)
  }

  /** The first i places are final. */
  ghost predicate SortedPrefix(ops: seq<Operand>, sorted: seq<int>, i: int)
    requires InRange(sorted, |ops|) && i <= |sorted|
  {
    forall a :: 0 <= a < i ==> LeastAt(ops, sorted, a)
  }

  lemma SwapInverse(s: seq<int>, pos: seq<int>, i: int, j: int)
    requires Inverse(s, pos) && 0 <= i < j < |s|
    ensures Inverse(s[i := s[j]][j := s[i]], pos[s[i] := j][s[j] := i])
  {
  }

  lemma SwapPrefix(ops: seq<Operand>, s: seq<int>, i: int, j: int)
    requires InRange(s, |ops|) && 0 <= i < j < |s| && SortedPrefix(ops, s, i)
    requires LeastUpTo(ops, s, i, i + 1, j) && ops[s[j]].priority < ops[s[i]].priority
    ensures var t := s[i := s[j]][j := s[i]];
            InRange(t, |ops|) && SortedPrefix(ops, t, i) && LeastUpTo(ops, t, i, i + 1, j + 1)
  {
    var t := s[i := s[j]][j := s[i]];
    forall a | 0 <= a < i ensures LeastAt(ops, t, a) {
      assert LeastAt(ops, s, a);
    }
  }

  method PlaceLeast(ops: seq<Operand>, sorted: array<int>, ghost pos0: seq<int>, i: int) returns (ghost pos: seq<int>)
    requires 0 <= i < sorted.Length == |ops| && Inverse(sorted[..], pos0) && SortedPrefix(ops, sorted[..], i)
    modifies sorted
    ensures Inverse(sorted[..], pos) && SortedPrefix(ops, sorted[..], i + 1)
  {
    var n := |ops|;
    pos := pos0;
    var j := i + 1;
    while j < n
      invariant i < j <= n && Inverse(sorted[..], pos)
      invariant SortedPrefix(ops, sorted[..], i) && LeastUpTo(ops, sorted[..], i, i + 1, j)
    {
      if ops[sorted[j]].priority < ops[sorted[i]].priority {
        ghost var before := sorted[..];
        SwapInverse(before, pos, i, j);
        SwapPrefix(ops, before, i, j);
        sorted[i], sorted[j] := sorted[j], sorted[i];
        pos := pos[before[i] := j][before[j] := i];
        assert sorted[..] == before[i := before[j]][j := before[i]];
      }
      j := j + 1;
    }
  }

  /** The exchange sort: every operand once, the most urgent first. */
  method SortOperands(ops: seq<Operand>) returns (sorted: array<int>, ghost pos: seq<int>)
    ensures fresh(sorted) && sorted.Length == |ops|
    ensures Inverse(sorted[..], pos) && SortedBy(ops, sorted[..])
  {
    var n := |ops|;
    sorted := new int[n](k => k);
    pos := seq(n, k => k);
    var i := 0;
    while i < n - 1
      invariant 0 <= i <= n && Inverse(sorted[..], pos)
      invariant SortedPrefix(ops, sorted[..], i) && (n > 0 ==> i < n)
    {
      pos := PlaceLeast(ops, sorted, pos, i);
      i := i + 1;
    }
    PrefixSorted(ops, sorted[..], i);
  }

  lemma PrefixSorted(ops: seq<Operand>, sorted: seq<int>, i: int)
    requires InRange(sorted, |ops|) && 0 <= i <= |sorted| <= i + 1 && SortedPrefix(ops, sorted, i)
    ensures SortedBy(ops, sorted)
  {
    forall a, b | 0 <= a < b < |sorted| ensures ops[sorted[a]].priority <= ops[sorted[b]].priority {
      assert LeastAt(ops, sorted, a);
    }
  }

  // ---- One operand ----

  /** Which roles of each register are taken. */
  type Taken = t: seq<set<Role>> | |t| == REGS witness seq(REGS, _ => {})

  /** What a constraint letter settles on: a register, eax with edx, a register for the address of a memory operand,
      or no register at all. */
  datatype Choice = Register(reg: nat) | Pair | Address(reg: nat) | Plain

  predicate Free(taken: Taken, reg: int, mask: set<Role>)
    requires 0 <= reg < REGS
  {
    taken[reg] * mask == {}
  }

  /** The lowest register from `reg` up to `end` whose roles in `mask` are free; `end` if there is none. */
  function FirstFree(taken: Taken, mask: set<Role>, reg: nat, end: nat): (r: nat)
    requires reg <= end <= REGS
    ensures reg <= r <= end && (r < end ==> Free(taken, r, mask)) && forall q :: reg <= q < r ==> !Free(taken, q, mask)
    decreases end - reg
  {
    if reg == end || Free(taken, reg, mask) then reg else FirstFree(taken, mask, reg + 1, end)
  }

  function InClass(taken: Taken, mask: set<Role>, end: nat): Option<Choice>
    requires end <= REGS
  {
    var r := FirstFree(taken, mask, 0, end);
    if r < end then Some(Register(r)) else None
  }

  function Fixed(taken: Taken, mask: set<Role>, reg: nat): Option<Choice>
    requires reg < REGS
  {
    if Free(taken, reg, mask) then Some(Register(reg)) else None
  }

  /** Letters for any general register. */
  predicate General(cpu: Cpu, c: char) { c == 'r' || c == 'p' || c == if cpu == I386 then 'R' else 'l' }

  /** Letters for constants, with a symbol or without, and for constants without one. */
  predicate AnyConstant(cpu: Cpu, c: char) { c == 'i' || if cpu == I386 then c == 'e' else c == 'I' || c == 'J' }

  predicate PlainConstant(cpu: Cpu, c: char) { c == 'M' || (cpu == I386 && (c == 'I' || c == 'N')) }

  /** What a letter allows now, if anything. */
  function Allows(cpu: Cpu, c: char, taken: Taken, mask: set<Role>, v: Value, output: bool): Option<Choice> {
    if General(cpu, c) then InClass(taken, mask, Last(cpu))
    else if AnyConstant(cpu, c) then if v.Constant? then Some(Plain) else None
    else if PlainConstant(cpu, c) then if v.Constant? && !v.hasSym then Some(Plain) else None
    else if c == 'm' || c == 'g' then
      if (output || c == 'm') && v.LocalPointer? then
        var r := FirstFree(taken, {In}, 0, Last(cpu));
        if r < Last(cpu) then Some(Address(r)) else None
      else Some(Plain)
    else if cpu == Arm then None
    else if c == 'A' then if Free(taken, 0, mask) && Free(taken, 2, mask) then Some(Pair) else None
    else if c == 'a' then Fixed(taken, mask, 0)
    else if c == 'b' then Fixed(taken, mask, 3)
    else if c == 'c' then Fixed(taken, mask, 1)
    else if c == 'd' then Fixed(taken, mask, 2)
    else if c == 'S' then Fixed(taken, mask, 6)
    else if c == 'D' then Fixed(taken, mask, 7)
    else if c == 'q' then InClass(taken, mask, 4)
    else None
  }

  /** First fit over the letters from p on; '+' and '&' ask for both roles. None is one of the two fatal errors. */
  function Scan(cpu: Cpu, s: string, p: nat, taken: Taken, mask: set<Role>, v: Value,
        output: bool): (r: Option<(Choice, set<Role>)>)
    requires p <= |s|
    ensures r.Some? ==> Fits(taken, r.value.0, r.value.1)
    decreases |s| - p
  {
    if p == |s| || s[p] == '%' then None
    else if s[p] == '=' then Scan(cpu, s, p + 1, taken, mask, v, output)
    else if s[p] == '+' || s[p] == '&' then if output then Scan(cpu, s, p + 1, taken, BOTH, v, output) else None
    else if LetterPriority(cpu, s[p]) < 0 then None
    else
      match Allows(cpu, s[p], taken, mask, v, output)
      case Some(choice) => Some((choice, mask))
      case None => Scan(cpu, s, p + 1, taken, mask, v, output)
  }

  /** The roles of the registers taken by a choice. */
  function Cells(choice: Choice, mask: set<Role>): set<(nat, Role)> {
    match choice
    case Register(r) => set m | m in mask :: (r, m)
    case Pair => (set m | m in mask :: (0 as nat, m)) + (set m | m in mask :: (2 as nat, m))
    case Address(r) => {(r, In)}
    case Plain => {}
  }

  function Take(taken: Taken, choice: Choice, mask: set<Role>): Taken
    requires (choice.Register? || choice.Address?) ==> choice.reg < REGS
  {
    match choice
    case Register(r) => taken[r := taken[r] + mask]
    case Pair => taken[0 := taken[0] + mask][2 := taken[2] + mask]
    case Address(r) => taken[r := taken[r] + {In}]
    case Plain => taken
  }

  predicate Fits(taken: Taken, choice: Choice, mask: set<Role>) {
    match choice
    case Register(r) => r < REGS && Free(taken, r, mask)
    case Pair => Free(taken, 0, mask) && Free(taken, 2, mask)
    case Address(r) => r < REGS && Free(taken, r, {In})
    case Plain => true
  }

  lemma AllowsFits(cpu: Cpu, c: char, taken: Taken, mask: set<Role>, v: Value, output: bool)
    ensures Allows(cpu, c, taken, mask, v, output).Some? ==>
              Fits(taken, Allows(cpu, c, taken, mask, v, output).value, mask)
  {
  }

  /** The roles asked for by the modifiers up to p. */
  function Asked(s: string, p: nat, base: set<Role>): set<Role>
    requires p <= |s|
  {
    if exists i :: 0 <= i < p && (s[i] == '+' || s[i] == '&') then BOTH else base
  }

  /** A successful scan found the first letter that allows anything, with the roles asked for so far. */
  lemma {:induction false} ScanFirst(cpu: Cpu, s: string, p: nat, taken: Taken, base: set<Role>, v: Value, output: bool)
    requires p <= |s| && Scan(cpu, s, p, taken, Asked(s, p, base), v, output).Some?
    ensures var (choice, mask) := Scan(cpu, s, p, taken, Asked(s, p, base), v, output).value;
            Fits(taken, choice, mask) &&
            exists q :: p <= q < |s| && mask == Asked(s, q, base) &&
              Allows(cpu, s[q], taken, mask, v, output) == Some(choice) &&
                        LetterPriority(cpu, s[q]) >= 0
    decreases |s| - p
  {
    var mask := Asked(s, p, base);
    if s[p] == '=' {
      assert Asked(s, p + 1, base) == mask;
      ScanFirst(cpu, s, p + 1, taken, base, v, output);
    } else if s[p] == '+' || s[p] == '&' {
      assert Asked(s, p + 1, base) == BOTH;
      ScanFirst(cpu, s, p + 1, taken, base, v, output);
    } else {
      AllowsFits(cpu, s[p], taken, mask, v, output);
      if Allows(cpu, s[p], taken, mask, v, output).None? {
        assert Asked(s, p + 1, base) == mask;
        ScanFirst(cpu, s, p + 1, taken, base, v, output);
      }
    }
  }

  /** The scan stops with an error of its own at p: at '%', at '+' or '&' on an input, or at no letter at all. */
  predicate BadAt(cpu: Cpu, s: string, p: nat, output: bool)
    requires p < |s|
  {
    if s[p] == '+' || s[p] == '&' then !output else s[p] != '=' && LetterPriority(cpu, s[p]) < 0
  }

  ghost predicate Reached(cpu: Cpu, s: string, p: nat, q: nat, output: bool)
    requires q <= |s|
  {
    forall i :: p <= i < q ==> !BadAt(cpu, s, i, output)
  }

  /** No letter from p on allows anything, up to the first error. */
  ghost predicate NoneAllowed(cpu: Cpu, s: string, p: nat, taken: Taken, base: set<Role>, v: Value, output: bool) {
    forall q :: p <= q < |s| && Reached(cpu, s, p, q, output) && LetterPriority(cpu, s[q]) >= 0 ==>
      Allows(cpu, s[q], taken, Asked(s, q, base), v, output).None?
  }

  lemma NoneAllowedNext(cpu: Cpu, s: string, p: nat, taken: Taken, base: set<Role>, v: Value, output: bool)
    requires p < |s| && !BadAt(cpu, s, p, output)
    ensures NoneAllowed(cpu, s, p, taken, base, v, output) <==>
              NoneAllowed(cpu, s, p + 1, taken, base, v, output) &&
              (LetterPriority(cpu, s[p]) >= 0 ==> Allows(cpu, s[p], taken, Asked(s, p, base), v, output).None?)
  {
    var after := p + 1;
    forall q | after <= q < |s| ensures Reached(cpu, s, p, q, output) == Reached(cpu, s, after, q, output) {
      if Reached(cpu, s, after, q, output) {
        forall i | p <= i < q ensures !BadAt(cpu, s, i, output) { if i > p { assert after <= i; } }
      }
    }
  }

  /** A scan fails only when it meets an error, or when no letter allows anything with the roles asked for before it. */
  lemma {:induction false} ScanFails(cpu: Cpu, s: string, p: nat, taken: Taken, base: set<Role>, v: Value, output: bool)
    requires p <= |s|
    ensures Scan(cpu, s, p, taken, Asked(s, p, base), v, output).None? <==>
              NoneAllowed(cpu, s, p, taken, base, v, output)
    decreases |s| - p
  {
    if p < |s| {
      if BadAt(cpu, s, p, output) {
        assert LetterPriority(cpu, s[p]) < 0;
      } else {
        ScanFails(cpu, s, p + 1, taken, base, v, output);
        AskedNext(s, p, base);
        NoneAllowedNext(cpu, s, p, taken, base, v, output);
      }
    }
  }

  lemma AskedNext(s: string, p: nat, base: set<Role>)
    requires p < |s|
    ensures Asked(s, p + 1, base) == if s[p] == '+' || s[p] == '&' then BOTH else Asked(s, p, base)
  {
  }

  /** Whether a '+' is met by a scan that finds something. */
  function Plus(cpu: Cpu, s: string, p: nat, taken: Taken, mask: set<Role>, v: Value, output: bool): bool
    requires p <= |s|
    decreases |s| - p
  {
    if p == |s| then false
    else if s[p] == '+' || s[p] == '&' then s[p] == '+' || Plus(cpu, s, p + 1, taken, BOTH, v, output)
    else if s[p] == '=' || (LetterPriority(cpu, s[p]) >= 0 && Allows(cpu, s[p], taken, mask, v, output).None?) then
      Plus(cpu, s, p + 1, taken, mask, v, output)
    else false
  }

  predicate HasPlus(s: string) { exists i :: 0 <= i < |s| && s[i] == '+' }

  ghost predicate PlusFrom(s: string, p: nat) { exists i :: p <= i < |s| && s[i] == '+' }

  /** A scan that finds something has met every '+', since the modifiers come first. */
  lemma {:induction false} PlusMet(cpu: Cpu, s: string, p: nat, taken: Taken, mask: set<Role>, v: Value, output: bool)
    requires p <= |s| && Scan(cpu, s, p, taken, mask, v, output).Some? && Letters(cpu, s[Skip(s)..])
    ensures Plus(cpu, s, p, taken, mask, v, output) <==> PlusFrom(s, p)
    decreases |s| - p
  {
    if LetterPriority(cpu, s[p]) >= 0 {
      ModifiersFirst(cpu, s, p);
      NoPlusAfter(cpu, s, p);
      if Allows(cpu, s[p], taken, mask, v, output).None? { PlusMet(cpu, s, p + 1, taken, mask, v, output); }
    } else if s[p] != '+' {
      PlusMet(cpu, s, p + 1, taken, if s[p] == '&' then BOTH else mask, v, output);
    }
  }

  lemma NoPlusAfter(cpu: Cpu, s: string, p: nat)
    requires Skip(s) <= p && Letters(cpu, s[Skip(s)..])
    ensures !PlusFrom(s, p)
  {
    forall i | p <= i < |s| ensures s[i] != '+' {
      LettersAfter(cpu, s, Skip(s), i);
      ModifierOrLetter(cpu, s[i]);
    }
  }

  // ---- Who holds what ----

  /** esp and ebp, sp and fp are never given out, nor is a clobbered register. */
  predicate Reserved(cpu: Cpu, clobbered: seq<bool>, r: int)
    requires |clobbered| == REGS
  {
    (if cpu == I386 then r == 4 || r == 5 || r >= 8 else r == 13 || r == 11) || (0 <= r < REGS && clobbered[r])
  }

  type Cell = (nat, Role)

  ghost predicate Owner(claims: seq<set<Cell>>, c: Cell) {
    exists k :: 0 <= k < |claims| && c in claims[k]
  }

  /** A role of a register is taken exactly when it is reserved or some operand claims it. */
  ghost predicate Owned(cpu: Cpu, taken: Taken, clobbered: seq<bool>, claims: seq<set<Cell>>)
    requires |clobbered| == REGS
  {
    forall r: nat, m :: r < REGS ==> (m in taken[r] <==> Reserved(cpu, clobbered, r) || Owner(claims, (r, m)))
  }

  /** No role of a register is claimed twice, and none that is reserved. */
  ghost predicate Exclusive(cpu: Cpu, clobbered: seq<bool>, claims: seq<set<Cell>>)
    requires |clobbered| == REGS
  {
    (forall k, l, c :: 0 <= k < |claims| && 0 <= l < |claims| && k != l && c in claims[k] ==> c !in claims[l]) &&
    (forall k, c :: 0 <= k < |claims| && c in claims[k] ==> c.0 < REGS && !Reserved(cpu, clobbered, c.0))
  }

  lemma FreeRole(taken: Taken, r: int, mask: set<Role>, m: Role)
    requires 0 <= r < REGS && Free(taken, r, mask) && m in mask
    ensures m !in taken[r]
  {
    assert m !in taken[r] * mask;
  }

  predicate IsFree(taken: Taken, c: Cell) { c.0 < REGS && c.1 !in taken[c.0] }

  lemma CellsFree(taken: Taken, choice: Choice, mask: set<Role>, c: Cell)
    requires !choice.Plain? && Fits(taken, choice, mask) && c in Cells(choice, mask)
    ensures IsFree(taken, c)
  {
    if choice.Address? { FreeRole(taken, c.0, {In}, c.1); } else { FreeRole(taken, c.0, mask, c.1); }
  }

  lemma TakeCells(taken: Taken, choice: Choice, mask: set<Role>, r: nat, m: Role)
    requires Fits(taken, choice, mask) && r < REGS
    ensures m in Take(taken, choice, mask)[r] <==> m in taken[r] || (r, m) in Cells(choice, mask)
  {
  }

  lemma OwnerNext(claims: seq<set<Cell>>, j: int, cells: set<Cell>, c: Cell)
    requires 0 <= j < |claims| && claims[j] == {}
    ensures Owner(claims[j := cells], c) <==> Owner(claims, c) || c in cells
  {
    var claims1 := claims[j := cells];
    if Owner(claims, c) {
      var k :| 0 <= k < |claims| && c in claims[k];
      assert c in claims1[k];
    }
    if c in cells { assert c in claims1[j]; }
  }

  /** Taking what is free keeps the books. */
  lemma TakeKeeps(cpu: Cpu, taken: Taken, clobbered: seq<bool>, claims: seq<set<Cell>>, j: int, choice: Choice,
        mask: set<Role>)
    requires |clobbered| == REGS && Owned(cpu, taken, clobbered, claims) && Exclusive(cpu, clobbered, claims)
    requires 0 <= j < |claims| && claims[j] == {} && Fits(taken, choice, mask)
    ensures Owned(cpu, Take(taken, choice, mask), clobbered, claims[j := Cells(choice, mask)])
    ensures Exclusive(cpu, clobbered, claims[j := Cells(choice, mask)])
  {
    var cells := Cells(choice, mask);
    var claims1 := claims[j := cells];
    forall r: nat, m | r < REGS
      ensures m in Take(taken, choice, mask)[r] <==> Reserved(cpu, clobbered, r) || Owner(claims1, (r, m))
    {
      TakeCells(taken, choice, mask, r, m);
      OwnerNext(claims, j, cells, (r, m));
    }
    forall c | c in cells ensures c.0 < REGS && !Reserved(cpu, clobbered, c.0) && !Owner(claims, c) {
      CellsFree(taken, choice, mask, c);
    }
    forall k, l, c | 0 <= k < |claims1| && 0 <= l < |claims1| && k != l && c in claims1[k] ensures c !in claims1[l] {
      if k == j {
        assert !Owner(claims, c);
      } else if l == j {
        assert Owner(claims, c);
      }
    }
  }

  // ---- What an operand holds in the end ----

  predicate Asks(s: string) { exists i :: 0 <= i < |s| && (s[i] == '+' || s[i] == '&') }

  function BaseRoles(op: Operand, j: int, nbOutputs: int): set<Role> {
    if op.inputIndex >= 0 then BOTH else if j < nbOutputs then {Out} else {In}
  }

  /** The roles allocated; the modifiers of a register variable are not looked at. */
  function Roles(op: Operand, j: int, nbOutputs: int): set<Role> {
    if !op.value.RegisterVariable? && Asks(op.constraint) then BOTH else BaseRoles(op, j, nbOutputs)
  }

  /** The cells that the fields of a non-reference operand stand for. */
  function Claims(op: Operand, j: int, nbOutputs: int): set<Cell> {
    if op.reg < 0 then {}
    else if op.isMemory then {(op.reg as nat, In)}
    else Cells(if op.isLlong then Pair else Register(op.reg), Roles(op, j, nbOutputs))
  }

  function Settle(op: Operand, choice: Choice): Operand {
    match choice
    case Register(r) => op.(isLlong := false, reg := r)
    case Pair => op.(isLlong := true, reg := 0)
    case Address(r) => op.(isMemory := true, reg := r)
    case Plain => op
  }

  /** The fields are what the letter stands for. */
  predicate Suits(cpu: Cpu, c: char, op: Operand, output: bool) {
    if General(cpu, c) then 0 <= op.reg < Last(cpu) && !op.isLlong && !op.isMemory
    else if AnyConstant(cpu, c) then op.reg == -1 && op.value.Constant?
    else if PlainConstant(cpu, c) then op.reg == -1 && op.value.Constant? && !op.value.hasSym
    else if c == 'm' || c == 'g' then
      if (output || c == 'm') && op.value.LocalPointer? then 0 <= op.reg < Last(cpu) && op.isMemory
      else op.reg == -1 && !op.isMemory
    else if cpu == Arm then false
    else if c == 'A' then op.reg == 0 && op.isLlong && !op.isMemory
    else if c == 'a' then op.reg == 0 && !op.isLlong && !op.isMemory
    else if c == 'b' then op.reg == 3 && !op.isLlong && !op.isMemory
    else if c == 'c' then op.reg == 1 && !op.isLlong && !op.isMemory
    else if c == 'd' then op.reg == 2 && !op.isLlong && !op.isMemory
    else if c == 'S' then op.reg == 6 && !op.isLlong && !op.isMemory
    else if c == 'D' then op.reg == 7 && !op.isLlong && !op.isMemory
    else if c == 'q' then 0 <= op.reg < 4 && !op.isLlong && !op.isMemory
    else false
  }

  lemma AllowsSuits(cpu: Cpu, c: char, taken: Taken, mask: set<Role>, op: Operand, output: bool)
    requires Allows(cpu, c, taken, mask, op.value, output).Some? && op.reg == -1 && !op.isMemory
    ensures Suits(cpu, c, Settle(op, Allows(cpu, c, taken, mask, op.value, output).value), output)
  {
  }

  /** Whoever gets through the scan satisfies one of its letters. */
  ghost predicate Satisfied(cpu: Cpu, op: Operand, output: bool) {
    if op.value.RegisterVariable? then op.reg == op.value.reg && !op.isMemory && !op.isLlong
    else exists q :: 0 <= q < |op.constraint| && Suits(cpu, op.constraint[q], op, output)
  }

  lemma ModifierOrLetter(cpu: Cpu, c: char)
    ensures Modifier(c) ==> LetterPriority(cpu, c) < 0
  {
  }

  lemma ModifiersFirst(cpu: Cpu, s: string, q: nat)
    requires q < |s| && LetterPriority(cpu, s[q]) >= 0
    ensures Skip(s) <= q
  {
    var n := Skip(s);
    forall i | 0 <= i < n ensures LetterPriority(cpu, s[i]) < 0 {
      assert Modifier(s[..n][i]);
      ModifierOrLetter(cpu, s[i]);
    }
  }

  lemma LettersAfter(cpu: Cpu, s: string, n: nat, i: nat)
    requires n <= i < |s| && Letters(cpu, s[n..])
    ensures LetterPriority(cpu, s[i]) >= 0
  {
    var j := i - n;
    assert s[n..][j] == s[i];
  }

  lemma AskedAll(cpu: Cpu, s: string, q: nat, base: set<Role>)
    requires q < |s| && LetterPriority(cpu, s[q]) >= 0 && Letters(cpu, s[Skip(s)..])
    ensures Asked(s, q, base) == if Asks(s) then BOTH else base
  {
    ModifiersFirst(cpu, s, q);
    forall i | q <= i < |s| ensures !Modifier(s[i]) {
      LettersAfter(cpu, s, Skip(s), i);
      ModifierOrLetter(cpu, s[i]);
    }
    AsksBefore(s, q);
  }

  lemma AsksBefore(s: string, q: nat)
    requires q <= |s| && forall i :: q <= i < |s| ==> !Modifier(s[i])
    ensures (exists i :: 0 <= i < q && (s[i] == '+' || s[i] == '&')) <==> Asks(s)
  {
    if Asks(s) {
      var i :| 0 <= i < |s| && (s[i] == '+' || s[i] == '&');
      assert Modifier(s[i]);
    }
  }

  /** What a scan gives an operand: free cells, which are its claims, and a letter it suits. */
  lemma ScanGives(cpu: Cpu, op: Operand, j: int, nbOutputs: int, taken: Taken)
    requires !op.value.RegisterVariable? && op.reg == -1 && !op.isMemory &&
             Letters(cpu, op.constraint[Skip(op.constraint)..])
    requires Scan(cpu, op.constraint, 0, taken, BaseRoles(op, j, nbOutputs), op.value, j < nbOutputs).Some?
    ensures var (choice, mask) := Scan(cpu, op.constraint, 0, taken, BaseRoles(op, j, nbOutputs), op.value,
            j < nbOutputs).value;
            Fits(taken, choice, mask) && Claims(Settle(op, choice), j, nbOutputs) == Cells(choice, mask) &&
            Satisfied(cpu, Settle(op, choice), j < nbOutputs)
  {
    var base := BaseRoles(op, j, nbOutputs);
    assert Asked(op.constraint, 0, base) == base;
    ScanFirst(cpu, op.constraint, 0, taken, base, op.value, j < nbOutputs);
    var (choice, mask) := Scan(cpu, op.constraint, 0, taken, base, op.value, j < nbOutputs).value;
    var q :| 0 <= q < |op.constraint| && mask == Asked(op.constraint, q, base) &&
      LetterPriority(cpu, op.constraint[q]) >= 0 &&
             Allows(cpu, op.constraint[q], taken, mask, op.value, j < nbOutputs) == Some(choice);
    AskedAll(cpu, op.constraint, q, base);
    AllowsSuits(cpu, op.constraint[q], taken, mask, op, j < nbOutputs);
    var after := Settle(op, choice);
    assert after.constraint[q] == op.constraint[q];
    assert Satisfied(cpu, after, j < nbOutputs);
  }

  // ---- The allocation loop ----

  method FindFree(taken: array<set<Role>>, mask: set<Role>, end: nat) returns (reg: nat)
    requires taken.Length == REGS && end <= REGS
    ensures reg == FirstFree(taken[..], mask, 0, end)
  {
    reg := 0;
    while reg < end
      invariant reg <= end && FirstFree(taken[..], mask, 0, end) == FirstFree(taken[..], mask, reg, end)
    {
      if taken[reg] * mask == {} { return; }
      reg := reg + 1;
    }
  }

  /** The branches of the switch. */
  method TryLetter(cpu: Cpu, c: char, taken: array<set<Role>>, mask: set<Role>, v: Value,
        output: bool) returns (choice: Option<Choice>)
    requires taken.Length == REGS && LetterPriority(cpu, c) >= 0
    ensures choice == Allows(cpu, c, taken[..], mask, v, output)
  {
    var reg := REGS;
    if c == 'A' {
      return if taken[0] * mask == {} && taken[2] * mask == {} then Some(Pair) else None;
    } else if c == 'q' || General(cpu, c) {
      var end := if c == 'q' then 4 else Last(cpu);
      reg := FindFree(taken, mask, end);
      return if reg < end then Some(Register(reg)) else None;
    } else if AnyConstant(cpu, c) {
      return if v.Constant? then Some(Plain) else None;
    } else if PlainConstant(cpu, c) {
      return if v.Constant? && !v.hasSym then Some(Plain) else None;
    } else if c == 'm' || c == 'g' {
      if (output || c == 'm') && v.LocalPointer? {
        reg := FindFree(taken, {In}, Last(cpu));
        return if reg < Last(cpu) then Some(Address(reg)) else None;
      }
      return Some(Plain);
    }
    reg := if c == 'a' then 0 else if c == 'b' then 3 else if c == 'c' then 1 else if c == 'd' then 2
           else if c == 'S' then 6 else 7;
    choice := if taken[reg] * mask == {} then Some(Register(reg)) else None;
  }

  /** try_next: from letter to letter. `rw` tells of a '+' on the way. */
  method ScanConstraint(cpu: Cpu, s: string, taken: array<set<Role>>, base: set<Role>, v: Value, output: bool)
    returns (found: Option<(Choice, set<Role>)>, rw: bool)
    requires taken.Length == REGS
    ensures found == Scan(cpu, s, 0, taken[..], base, v, output)
    ensures found.Some? ==> rw == Plus(cpu, s, 0, taken[..], base, v, output)
  {
    var p, mask := 0, base;
    rw := false;
    while p < |s|
      invariant p <= |s| && Scan(cpu, s, 0, taken[..], base, v, output) == Scan(cpu, s, p, taken[..], mask, v, output)
      invariant Plus(cpu, s, 0, taken[..], base, v, output) == (rw || Plus(cpu, s, p, taken[..], mask, v, output))
    {
      var c := s[p];
      p := p + 1;
      if c == '+' || c == '&' {
        rw := rw || c == '+';
        if !output { return None, rw; }
        mask := BOTH;
      } else if c != '=' {
        if LetterPriority(cpu, c) < 0 { return None, rw; }
        var choice := TryLetter(cpu, c, taken, mask, v, output);
        if choice.Some? { return Some((choice.value, mask)), rw; }
      }
    }
    found := None;
  }

  method Record(taken: array<set<Role>>, choice: Choice, mask: set<Role>)
    requires taken.Length == REGS && ((choice.Register? || choice.Address?) ==> choice.reg < REGS)
    modifies taken
    ensures taken[..] == Take(old(taken[..]), choice, mask)
  {
    match choice
    case Register(r) => taken[r] := taken[r] + mask;
    case Pair =>
      taken[0] := taken[0] + mask;
      taken[2] := taken[2] + mask;
    case Address(r) => taken[r] := taken[r] + {In};
    case Plain =>
  }

  /** is_rw tells of a '+', but for register variables. */
  predicate Flagged(op: Operand) { op.isRw <==> !op.value.RegisterVariable? && HasPlus(op.constraint) }

  /** A finished operand: its claims, and the letter it suits. */
  ghost predicate Finished(cpu: Cpu, op: Operand, j: int, nbOutputs: int, cells: set<Cell>) {
    cells == Claims(op, j, nbOutputs) && Satisfied(cpu, op, j < nbOutputs) && Flagged(op)
  }

  /** What no step changes. */
  predicate SameLinks(a: Operand, b: Operand) {
    SameInput(a, b) && a.inputIndex == b.inputIndex && a.refIndex == b.refIndex && a.priority == b.priority
  }

  /** Where an operand that is not a reference goes, with its roles and whether a '+' was met: its own register for a
      register variable, else by first fit. None is a fatal error. */
  function Place(cpu: Cpu, op: Operand, j: int, nbOutputs: int, taken: Taken): (r: Option<(Choice, set<Role>, bool)>)
    ensures r.Some? ==> Fits(taken, r.value.0, r.value.1)
  {
    var base, output := BaseRoles(op, j, nbOutputs), j < nbOutputs;
    if op.reg >= 0 then
      if op.reg < REGS && Free(taken, op.reg, base) then Some((Register(op.reg), base, op.isRw)) else None
    else
      match Scan(cpu, op.constraint, 0, taken, base, op.value, output)
      case Some((choice, mask)) => Some((choice, mask, Plus(cpu, op.constraint, 0, taken, base, op.value, output)))
      case None => None
  }

  /** One operand that is not a reference. */
  method Settled(cpu: Cpu, op: Operand, j: int, nbOutputs: int, taken: array<set<Role>>, ghost clobbered: seq<bool>,
        ghost claims: seq<set<Cell>>)
    returns (ok: bool, after: Operand, ghost cells: set<Cell>)
    requires taken.Length == REGS && |clobbered| == REGS && 0 <= j < |claims| && claims[j] == {}
    requires Owned(cpu, taken[..], clobbered, claims) && Exclusive(cpu, clobbered, claims)
    requires !op.isMemory && !op.isRw
    requires if op.value.RegisterVariable? then op.reg == op.value.reg < REGS
             else op.reg == -1 && Letters(cpu, op.constraint[Skip(op.constraint)..])
    modifies taken
    ensures ok <==> Place(cpu, op, j, nbOutputs, old(taken[..])).Some?
    ensures ok ==> var p := Place(cpu, op, j, nbOutputs, old(taken[..])).value;
                   after == Settle(op, p.0).(isRw := p.2) && taken[..] == Take(old(taken[..]), p.0, p.1)
    ensures ok ==> SameLinks(op, after) && Finished(cpu, after, j, nbOutputs, cells)
    ensures ok ==> Owned(cpu, taken[..], clobbered, claims[j := cells]) && Exclusive(cpu, clobbered, claims[j := cells])
  {
    ok, after, cells := false, op, {};
    var mask := BaseRoles(op, j, nbOutputs);
    var choice := Plain;
    if op.reg >= 0 {
      if taken[op.reg] * mask != {} { return; }
      choice := Register(op.reg);
      after := Settle(op, choice);
    } else {
      ScanGivesIf(cpu, op, j, nbOutputs, taken[..]);
      var found, rw := ScanConstraint(cpu, op.constraint, taken, mask, op.value, j < nbOutputs);
      if found.None? { return; }
      choice, mask := found.value.0, found.value.1;
      after := Settle(op, choice).(isRw := rw);
    }
    TakeKeeps(cpu, taken[..], clobbered, claims, j, choice, mask);
    Record(taken, choice, mask);
    ok, cells := true, Cells(choice, mask);
  }

  lemma ScanGivesIf(cpu: Cpu, op: Operand, j: int, nbOutputs: int, taken: Taken)
    requires !op.value.RegisterVariable? && op.reg == -1 && !op.isMemory &&
             Letters(cpu, op.constraint[Skip(op.constraint)..])
    ensures var r := Scan(cpu, op.constraint, 0, taken, BaseRoles(op, j, nbOutputs), op.value, j < nbOutputs);
            r.Some? ==>
              Fits(taken, r.value.0, r.value.1) &&
              var rw := Plus(cpu, op.constraint, 0, taken, BaseRoles(op, j, nbOutputs), op.value, j < nbOutputs);
              Finished(cpu, Settle(op, r.value.0).(isRw := rw), j, nbOutputs, Cells(r.value.0, r.value.1))
  {
    var base := BaseRoles(op, j, nbOutputs);
    var r := Scan(cpu, op.constraint, 0, taken, base, op.value, j < nbOutputs);
    if r.Some? {
      ScanGives(cpu, op, j, nbOutputs, taken);
      PlusMet(cpu, op.constraint, 0, taken, base, op.value, j < nbOutputs);
      var rw := Plus(cpu, op.constraint, 0, taken, base, op.value, j < nbOutputs);
      assert rw <==> HasPlus(op.constraint);
      FinishedFlag(cpu, Settle(op, r.value.0), j, nbOutputs, Cells(r.value.0, r.value.1), rw);
    }
  }

  lemma FinishedFlag(cpu: Cpu, a: Operand, j: int, nbOutputs: int, cells: set<Cell>, rw: bool)
    requires cells == Claims(a, j, nbOutputs) && Satisfied(cpu, a, j < nbOutputs)
    requires !a.value.RegisterVariable? && (rw <==> HasPlus(a.constraint))
    ensures Finished(cpu, a.(isRw := rw), j, nbOutputs, cells)
  {
    var b := a.(isRw := rw);
    var q :| 0 <= q < |a.constraint| && Suits(cpu, a.constraint[q], a, j < nbOutputs);
    assert Suits(cpu, b.constraint[q], b, j < nbOutputs);
    assert Roles(b, j, nbOutputs) == Roles(a, j, nbOutputs);
  }

  ghost predicate AllLinksSame(a: seq<Operand>, b: seq<Operand>) {
    |a| == |b| && forall k :: 0 <= k < |a| ==> SameLinks(a[k], b[k])
  }

  /** A reference has its target's register once that is allocated; a reference to a reference never gets one. */
  ghost predicate Tied(ops: seq<Operand>, k: int, done: bool)
    requires 0 <= k < |ops| && 0 <= ops[k].refIndex < |ops|
  {
    var t := ops[ops[k].refIndex];
    if t.refIndex < 0 && done then ops[k].reg == t.reg && ops[k].isLlong == t.isLlong else ops[k].reg == -1
  }

  ghost predicate ProgressOne(cpu: Cpu, ops0: seq<Operand>, ops: seq<Operand>, pos: seq<int>, n: int, nbOutputs: int,
        claims: seq<set<Cell>>, k: int)
    requires 0 <= k < |ops| == |ops0| == |pos| == |claims|
  {
    SameLinks(ops0[k], ops[k]) &&
    (if ops[k].refIndex >= 0 then
       claims[k] == {} && ops[k].refIndex < |ops| && Tied(ops, k, pos[ops[k].refIndex] < n)
     else if pos[k] < n then Finished(cpu, ops[k], k, nbOutputs, claims[k])
     else ops[k] == ops0[k] && claims[k] == {})
  }

  /** The operands at the first n places are allocated. */
  ghost predicate Progress(cpu: Cpu, ops0: seq<Operand>, ops: seq<Operand>, pos: seq<int>, n: int, nbOutputs: int,
        claims: seq<set<Cell>>) {
    |ops| == |ops0| == |pos| == |claims| &&
    forall k :: 0 <= k < |ops| ==> ProgressOne(cpu, ops0, ops, pos, n, nbOutputs, claims, k)
  }

  lemma SkipReference(cpu: Cpu, ops0: seq<Operand>, ops: seq<Operand>, sorted: seq<int>, pos: seq<int>, n: int,
        nbOutputs: int, claims: seq<set<Cell>>)
    requires Progress(cpu, ops0, ops, pos, n, nbOutputs, claims) && Inverse(sorted, pos) && 0 <= n < |sorted| == |ops|
    requires ops[sorted[n]].refIndex >= 0
    ensures Progress(cpu, ops0, ops, pos, n + 1, nbOutputs, claims)
  {
    var m := n + 1;
    forall k | 0 <= k < |ops| ensures ProgressOne(cpu, ops0, ops, pos, m, nbOutputs, claims, k) {
      assert ProgressOne(cpu, ops0, ops, pos, n, nbOutputs, claims, k);
    }
  }

  /** The operand allocated, and the reference to it if there is one. */
  function Assigned(ops: seq<Operand>, j: int, after: Operand): seq<Operand>
    requires 0 <= j < |ops|
  {
    if after.inputIndex < 0 || after.inputIndex >= |ops| then ops[j := after]
    else
      var x := after.inputIndex;
      ops[j := after][x := ops[j := after][x].(reg := after.reg, isLlong := after.isLlong)]
  }

  lemma AssignOne(cpu: Cpu, ops0: seq<Operand>, ops: seq<Operand>, sorted: seq<int>, pos: seq<int>, n: int,
        nbOutputs: int, claims: seq<set<Cell>>, after: Operand, cells: set<Cell>)
    requires Progress(cpu, ops0, ops, pos, n, nbOutputs, claims) && Inverse(sorted, pos) && 0 <= n < |sorted| == |ops|
    requires Linked(ops0, |ops0|)
    requires ops[sorted[n]].refIndex < 0 && SameLinks(ops[sorted[n]], after)
    requires Finished(cpu, after, sorted[n], nbOutputs, cells)
    ensures ops0[sorted[n]].inputIndex == after.inputIndex < |ops|
    ensures Progress(cpu, ops0, Assigned(ops, sorted[n], after), pos, n + 1, nbOutputs, claims[sorted[n] := cells])
  {
    var j, m := sorted[n], n + 1;
    assert ProgressOne(cpu, ops0, ops, pos, n, nbOutputs, claims, j);
    var ops1, claims1 := Assigned(ops, j, after), claims[j := cells];
    forall k | 0 <= k < |ops| ensures ProgressOne(cpu, ops0, ops1, pos, m, nbOutputs, claims1, k) {
      assert ProgressOne(cpu, ops0, ops, pos, n, nbOutputs, claims, k);
      if ops[k].refIndex >= 0 {
        assert ProgressOne(cpu, ops0, ops, pos, n, nbOutputs, claims, ops[k].refIndex);
      }
    }
  }

  /** Operand after operand in the given order, from place n on: each takes what it finds free. */
  function AllocateFrom(cpu: Cpu, ops: seq<Operand>, sorted: seq<int>, n: nat, nbOutputs: int, taken: Taken)
    : (r: Option<(seq<Operand>, Taken)>)
    requires n <= |sorted| && InRange(sorted, |ops|)
    ensures r.Some? ==> |r.value.0| == |ops|
    decreases |sorted| - n
  {
    if n == |sorted| then Some((ops, taken))
    else
      var j := sorted[n];
      if ops[j].refIndex >= 0 then AllocateFrom(cpu, ops, sorted, n + 1, nbOutputs, taken)
      else
        match Place(cpu, ops[j], j, nbOutputs, taken)
        case Some((choice, mask, rw)) =>
          AllocateFrom(cpu, Assigned(ops, j, Settle(ops[j], choice).(isRw := rw)), sorted, n + 1, nbOutputs,
            Take(taken, choice, mask))
        case None => None
  }

  lemma AllocateSkips(cpu: Cpu, ops: seq<Operand>, sorted: seq<int>, n: nat, nbOutputs: int, taken: Taken)
    requires n < |sorted| && InRange(sorted, |ops|) && ops[sorted[n]].refIndex >= 0
    ensures AllocateFrom(cpu, ops, sorted, n, nbOutputs, taken) ==
            AllocateFrom(cpu, ops, sorted, n + 1, nbOutputs, taken)
  {
  }

  lemma AllocatePlaces(cpu: Cpu, ops: seq<Operand>, sorted: seq<int>, n: nat, nbOutputs: int, taken: Taken,
        after: Operand, taken': Taken)
    requires n < |sorted| && InRange(sorted, |ops|) && ops[sorted[n]].refIndex < 0
    requires var p := Place(cpu, ops[sorted[n]], sorted[n], nbOutputs, taken);
             p.Some? && after == Settle(ops[sorted[n]], p.value.0).(isRw := p.value.2) &&
             taken' == Take(taken, p.value.0, p.value.1)
    ensures AllocateFrom(cpu, ops, sorted, n, nbOutputs, taken) ==
            AllocateFrom(cpu, Assigned(ops, sorted[n], after), sorted, n + 1, nbOutputs, taken')
  {
  }

  lemma AllocateFails(cpu: Cpu, ops: seq<Operand>, sorted: seq<int>, n: nat, nbOutputs: int, taken: Taken)
    requires n < |sorted| && InRange(sorted, |ops|) && ops[sorted[n]].refIndex < 0
    requires Place(cpu, ops[sorted[n]], sorted[n], nbOutputs, taken).None?
    ensures AllocateFrom(cpu, ops, sorted, n, nbOutputs, taken).None?
  {
  }

  /** One round of the loop, for an operand that is not a reference. */
  method AllocateOne(cpu: Cpu, ops: array<Operand>, nbOutputs: int, i: nat, taken: array<set<Role>>,
        ghost ops0: seq<Operand>, sorted: array<int>, ghost pos: seq<int>, ghost clobbered: seq<bool>,
        ghost claims0: seq<set<Cell>>)
    returns (ok: bool, ghost claims: seq<set<Cell>>)
    requires i < ops.Length == sorted.Length && Inverse(sorted[..], pos) && Prepared(cpu, ops0, nbOutputs) &&
             RegistersExist(ops0)
    requires taken.Length == REGS == |clobbered| && Owned(cpu, taken[..], clobbered, claims0) &&
             Exclusive(cpu, clobbered, claims0)
    requires Progress(cpu, ops0, ops[..], pos, i, nbOutputs, claims0) && ops[sorted[i]].refIndex < 0
    modifies ops, taken
    ensures ok <==> Place(cpu, old(ops[sorted[i]]), sorted[i], nbOutputs, old(taken[..])).Some?
    ensures ok ==> Progress(cpu, ops0, ops[..], pos, i + 1, nbOutputs, claims)
    ensures ok ==> Owned(cpu, taken[..], clobbered, claims) && Exclusive(cpu, clobbered, claims)
    ensures ok ==> AllocateFrom(cpu, old(ops[..]), sorted[..], i, nbOutputs, old(taken[..])) ==
                   AllocateFrom(cpu, ops[..], sorted[..], i + 1, nbOutputs, taken[..])
  {
    var j := sorted[i];
    claims := claims0;
    ghost var before, takenBefore, order := ops[..], taken[..], sorted[..];
    Unallocated(cpu, ops0, before, order, pos, i, nbOutputs, claims);
    var after;
    ghost var cells;
    ok, after, cells := Settled(cpu, ops[j], j, nbOutputs, taken, clobbered, claims);
    if !ok { return; }
    AssignOne(cpu, ops0, before, order, pos, i, nbOutputs, claims, after, cells);
    AllocatePlaces(cpu, before, order, i, nbOutputs, takenBefore, after, taken[..]);
    ops[j] := after;
    if after.inputIndex >= 0 {
      ops[after.inputIndex] := ops[after.inputIndex].(reg := after.reg, isLlong := after.isLlong);
    }
    assert ops[..] == Assigned(before, j, after);
    claims := claims[j := cells];
  }

  /** The state of the loop: i operands of the order are done, and first fit goes on from here. */
  ghost predicate Allocating(cpu: Cpu, ops0: seq<Operand>, taken0: Taken, ops: seq<Operand>, taken: Taken,
        order: seq<int>, pos: seq<int>, i: nat, nbOutputs: int, clobbered: seq<bool>, claims: seq<set<Cell>>)
    requires |clobbered| == REGS
  {
    i <= |order| == |ops| == |ops0| && Inverse(order, pos) && Progress(cpu, ops0, ops, pos, i, nbOutputs, claims) &&
    Owned(cpu, taken, clobbered, claims) && Exclusive(cpu, clobbered, claims) &&
    AllocateFrom(cpu, ops0, order, 0, nbOutputs, taken0) == AllocateFrom(cpu, ops, order, i, nbOutputs, taken)
  }

  method AllocateRound(cpu: Cpu, ops: array<Operand>, nbOutputs: int, i: nat, taken: array<set<Role>>,
        ghost ops0: seq<Operand>, ghost taken0: Taken, sorted: array<int>, ghost pos: seq<int>,
        ghost clobbered: seq<bool>, ghost claims0: seq<set<Cell>>)
    returns (ok: bool, ghost claims: seq<set<Cell>>)
    requires i < ops.Length == sorted.Length && taken.Length == REGS == |clobbered|
    requires Prepared(cpu, ops0, nbOutputs) && RegistersExist(ops0)
    requires Allocating(cpu, ops0, taken0, ops[..], taken[..], sorted[..], pos, i, nbOutputs, clobbered, claims0)
    modifies ops, taken
    ensures ok ==>
              Allocating(cpu, ops0, taken0, ops[..], taken[..], sorted[..], pos, i + 1, nbOutputs, clobbered, claims)
    ensures !ok ==> |ops0| == |sorted[..]| && InRange(sorted[..], |ops0|) &&
                    AllocateFrom(cpu, ops0, sorted[..], 0, nbOutputs, taken0).None?
  {
    ghost var before, takenBefore := ops[..], taken[..];
    if ops[sorted[i]].refIndex >= 0 {
      SkipReference(cpu, ops0, before, sorted[..], pos, i, nbOutputs, claims0);
      AllocateSkips(cpu, before, sorted[..], i, nbOutputs, takenBefore);
      ok, claims := true, claims0;
    } else {
      ok, claims := AllocateOne(cpu, ops, nbOutputs, i, taken, ops0, sorted, pos, clobbered, claims0);
      if !ok { AllocateFails(cpu, before, sorted[..], i, nbOutputs, takenBefore); }
    }
  }

  method AllocateAll(cpu: Cpu, ops: array<Operand>, nbOutputs: int, sorted: array<int>, ghost pos: seq<int>,
        taken: array<set<Role>>, ghost clobbered: seq<bool>, ghost empty: seq<set<Cell>>)
    returns (ok: bool, ghost claims: seq<set<Cell>>)
    requires ops.Length == sorted.Length == |empty| && Inverse(sorted[..], pos) && Prepared(cpu, ops[..], nbOutputs)
    requires taken.Length == REGS == |clobbered| && Owned(cpu, taken[..], clobbered, empty) &&
             Exclusive(cpu, clobbered, empty)
    requires (forall k :: 0 <= k < |empty| ==> empty[k] == {}) && RegistersExist(ops[..])
    modifies ops, taken
    ensures ok <==> AllocateFrom(cpu, old(ops[..]), sorted[..], 0, nbOutputs, old(taken[..])).Some?
    ensures ok ==>
              AllocateFrom(cpu, old(ops[..]), sorted[..], 0, nbOutputs, old(taken[..])) == Some((ops[..], taken[..]))
    ensures ok ==> Progress(cpu, old(ops[..]), ops[..], pos, ops.Length, nbOutputs, claims)
    ensures ok ==> Owned(cpu, taken[..], clobbered, claims) && Exclusive(cpu, clobbered, claims)
  {
    ghost var ops0, taken0 := ops[..], taken[..];
    claims := empty;
    StartProgress(cpu, ops0, pos, nbOutputs, claims);
    var i := 0;
    while i < ops.Length
      invariant 0 <= i <= ops.Length
      invariant Allocating(cpu, ops0, taken0, ops[..], taken[..], sorted[..], pos, i, nbOutputs, clobbered, claims)
    {
      ok, claims := AllocateRound(cpu, ops, nbOutputs, i, taken, ops0, taken0, sorted, pos, clobbered, claims);
      if !ok { return; }
      i := i + 1;
    }
    ok := true;
  }

  predicate RegistersExist(ops: seq<Operand>) {
    forall i :: 0 <= i < |ops| && ops[i].value.RegisterVariable? ==> ops[i].value.reg < REGS
  }

  lemma StartProgress(cpu: Cpu, ops: seq<Operand>, pos: seq<int>, nbOutputs: int, claims: seq<set<Cell>>)
    requires Prepared(cpu, ops, nbOutputs) && |pos| == |ops| == |claims| && forall k :: 0 <= k < |claims| ==>
               claims[k] == {}
    requires forall k :: 0 <= k < |pos| ==> pos[k] >= 0
    ensures Progress(cpu, ops, ops, pos, 0, nbOutputs, claims)
  {
    forall k | 0 <= k < |ops| ensures ProgressOne(cpu, ops, ops, pos, 0, nbOutputs, claims, k) {
      assert PreparedOne(cpu, ops, nbOutputs, k);
    }
  }

  lemma Unallocated(cpu: Cpu, ops0: seq<Operand>, ops: seq<Operand>, sorted: seq<int>, pos: seq<int>, n: int,
        nbOutputs: int, claims: seq<set<Cell>>)
    requires Progress(cpu, ops0, ops, pos, n, nbOutputs, claims) && Inverse(sorted, pos) && 0 <= n < |sorted| == |ops|
    requires Prepared(cpu, ops0, nbOutputs) && RegistersExist(ops0) && ops[sorted[n]].refIndex < 0
    ensures var op := ops[sorted[n]];
            claims[sorted[n]] == {} && !op.isMemory && !op.isRw &&
            if op.value.RegisterVariable? then op.reg == op.value.reg < REGS
            else op.reg == -1 && Letters(cpu, op.constraint[Skip(op.constraint)..])
  {
    assert ProgressOne(cpu, ops0, ops, pos, n, nbOutputs, claims, sorted[n]);
    assert PreparedOne(cpu, ops0, nbOutputs, sorted[n]);
  }

  // ---- The register for storing outputs through pointers ----

  predicate NeedsOutReg(op: Operand) { op.reg >= 0 && op.value.LocalPointer? && !op.isMemory }

  ghost predicate SomeNeedsOutReg(ops: seq<Operand>) { exists i :: 0 <= i < |ops| && NeedsOutReg(ops[i]) }

  /** The lowest register that is free for output, when an output goes through a pointer that must be loaded. */
  method PickOutReg(cpu: Cpu, ops: array<Operand>, taken: array<set<Role>>) returns (ok: bool, outReg: int)
    requires taken.Length == REGS
    ensures ok <==> !SomeNeedsOutReg(ops[..]) || FirstFree(taken[..], {Out}, 0, Last(cpu)) < Last(cpu)
    ensures ok ==> outReg == if SomeNeedsOutReg(ops[..]) then FirstFree(taken[..], {Out}, 0, Last(cpu)) else -1
  {
    ok, outReg := true, -1;
    var i := 0;
    while i < ops.Length
      invariant 0 <= i <= ops.Length && forall k :: 0 <= k < i ==> !NeedsOutReg(ops[k])
    {
      if NeedsOutReg(ops[i]) {
        var reg := FindFree(taken, {Out}, Last(cpu));
        if reg < Last(cpu) { return true, reg; }
        return false, -1;
      }
      i := i + 1;
    }
  }

  // ---- The whole ----

  /** What the rest of the compiler relies on. */
  ghost predicate Allocation(cpu: Cpu, ops: seq<Operand>, nbOutputs: int, clobbered: seq<bool>, outReg: int)
    requires |clobbered| == REGS
  {
    // no two operands but tied ones hold the same register in the same role
    (forall k, l, c ::
      (0 <= k < |ops| && 0 <= l < |ops| && k != l && ops[k].refIndex < 0 && ops[l].refIndex < 0 &&
       c in Claims(ops[k], k, nbOutputs)) ==> c !in Claims(ops[l], l, nbOutputs)) &&
    // no clobbered or reserved register is used
    (forall k, c ::
      0 <= k < |ops| && ops[k].refIndex < 0 && c in Claims(ops[k], k, nbOutputs) ==>
      c.0 < REGS && !Reserved(cpu, clobbered, c.0)) &&
    // every operand is placed as one of its letters says
    (forall k :: 0 <= k < |ops| && ops[k].refIndex < 0 ==> Satisfied(cpu, ops[k], k < nbOutputs)) &&
    // is_rw tells of every '+' but those of register variables
    (forall k :: 0 <= k < |ops| && ops[k].refIndex < 0 ==> Flagged(ops[k])) &&
    // a tied operand is an input, and is where the operand it names is, unless that is another tied input
    Linked(ops, |ops|) &&
    (forall k :: 0 <= k < |ops| && ops[k].refIndex >= 0 ==>
      ops[k].refIndex < k && nbOutputs <= k && Tied(ops, k, true)) &&
    // the register for outputs is free for output, and there is one when needed
    (outReg >= 0 <==> SomeNeedsOutReg(ops)) &&
    (outReg >= 0 ==>
      outReg < REGS && !Reserved(cpu, clobbered, outReg) &&
      forall k :: 0 <= k < |ops| && ops[k].refIndex < 0 ==> (outReg as nat, Out) !in Claims(ops[k], k, nbOutputs))
  }

  lemma FinishedClaims(cpu: Cpu, ops0: seq<Operand>, ops: seq<Operand>, sorted: seq<int>, pos: seq<int>, nbOutputs: int,
                       claims: seq<set<Cell>>, k: int)
    requires Progress(cpu, ops0, ops, pos, |ops|, nbOutputs, claims) && Inverse(sorted, pos) &&
             Prepared(cpu, ops0, nbOutputs)
    requires 0 <= k < |ops|
    ensures ops[k].refIndex < 0 ==> claims[k] == Claims(ops[k], k, nbOutputs) && Satisfied(cpu, ops[k], k < nbOutputs)
    ensures ops[k].refIndex < 0 ==> Flagged(ops[k])
    ensures ops[k].refIndex >= 0 ==> ops[k].refIndex < k && nbOutputs <= k && Tied(ops, k, true)
  {
    assert ProgressOne(cpu, ops0, ops, pos, |ops|, nbOutputs, claims, k);
    assert PreparedOne(cpu, ops0, nbOutputs, k);
  }

  lemma OutRegFree(cpu: Cpu, taken: Taken, clobbered: seq<bool>, claims: seq<set<Cell>>, outReg: nat)
    requires |clobbered| == REGS && Owned(cpu, taken, clobbered, claims) && outReg < REGS && Out !in taken[outReg]
    ensures !Reserved(cpu, clobbered, outReg) && forall k :: 0 <= k < |claims| ==> (outReg, Out) !in claims[k]
  {
    assert !Owner(claims, (outReg, Out));
  }

  lemma AllocationHolds(cpu: Cpu, ops0: seq<Operand>, ops: seq<Operand>, sorted: seq<int>, pos: seq<int>,
        nbOutputs: int, taken: Taken, clobbered: seq<bool>, claims: seq<set<Cell>>, outReg: int)
    requires Progress(cpu, ops0, ops, pos, |ops|, nbOutputs, claims) && Inverse(sorted, pos) &&
             Prepared(cpu, ops0, nbOutputs)
    requires |clobbered| == REGS && Owned(cpu, taken, clobbered, claims) && Exclusive(cpu, clobbered, claims)
    requires outReg == -1 || (0 <= outReg < REGS && Free(taken, outReg, {Out}))
    requires outReg >= 0 <==> SomeNeedsOutReg(ops)
    ensures Allocation(cpu, ops, nbOutputs, clobbered, outReg)
  {
    forall k | 0 <= k < |ops|
      ensures ops[k].refIndex < 0 ==> claims[k] == Claims(ops[k], k, nbOutputs) && Satisfied(cpu, ops[k], k < nbOutputs)
      ensures ops[k].refIndex < 0 ==> Flagged(ops[k])
      ensures ops[k].refIndex >= 0 ==> ops[k].refIndex < k && nbOutputs <= k && Tied(ops, k, true)
    {
      FinishedClaims(cpu, ops0, ops, sorted, pos, nbOutputs, claims, k);
    }
    LinksKept(cpu, ops0, ops, pos, nbOutputs, claims);
    StillLinked(ops0, ops);
    if outReg >= 0 {
      FreeRole(taken, outReg, {Out}, Out);
      OutRegFree(cpu, taken, clobbered, claims, outReg);
    }
  }

  /** Before any operand is placed. */
  function Unclaimed(cpu: Cpu, clobbered: seq<bool>): Taken
    requires |clobbered| == REGS
  {
    seq(REGS, r requires 0 <= r < REGS => if Reserved(cpu, clobbered, r) then BOTH else {})
  }

  method InitTaken(cpu: Cpu, clobbered: seq<bool>) returns (taken: array<set<Role>>)
    requires |clobbered| == REGS
    ensures fresh(taken) && taken.Length == REGS && taken[..] == Unclaimed(cpu, clobbered)
  {
    taken := new set<Role>[REGS];
    for i := 0 to REGS
      invariant forall r :: 0 <= r < i ==> taken[r] == if clobbered[r] || (cpu == I386 && r >= 8) then BOTH else {}
    {
      taken[i] := if clobbered[i] || (cpu == I386 && i >= 8) then BOTH else {};
    }
    if cpu == I386 { taken[4], taken[5] := BOTH, BOTH; } else { taken[13], taken[11] := BOTH, BOTH; }
  }

  lemma UnclaimedOwned(cpu: Cpu, clobbered: seq<bool>, none: seq<set<Cell>>)
    requires |clobbered| == REGS && forall k :: 0 <= k < |none| ==> none[k] == {}
    ensures Owned(cpu, Unclaimed(cpu, clobbered), clobbered, none) && Exclusive(cpu, clobbered, none)
  {
    forall m: Role ensures m in BOTH { if m == In { } }
  }

  /** Every operand once, sorted by priority. */
  ghost predicate Ordered(ops: seq<Operand>, sorted: seq<int>, pos: seq<int>) {
    |sorted| == |ops| && Inverse(sorted, pos) && SortedBy(ops, sorted)
  }

  /** First fit in this order finds a place for every operand, and a register to store outputs when one is needed. */
  ghost predicate Allocatable(cpu: Cpu, ops: seq<Operand>, sorted: seq<int>, nbOutputs: int, clobbered: seq<bool>)
    requires |clobbered| == REGS && InRange(sorted, |ops|)
  {
    var r := AllocateFrom(cpu, ops, sorted, 0, nbOutputs, Unclaimed(cpu, clobbered));
    r.Some? && (SomeNeedsOutReg(r.value.0) ==> FirstFree(r.value.1, {Out}, 0, Last(cpu)) < Last(cpu))
  }

  /** The part after sorting. */
  method AllocateSorted(cpu: Cpu, ops: array<Operand>, nbOutputs: int, clobbered: seq<bool>, order: array<int>,
        ghost pos: seq<int>)
    returns (ok: bool, outReg: int)
    requires |clobbered| == REGS && RegistersExist(ops[..]) && Prepared(cpu, ops[..], nbOutputs)
    requires ops.Length == order.Length && Ordered(ops[..], order[..], pos)
    modifies ops
    ensures ok <==> Allocatable(cpu, old(ops[..]), order[..], nbOutputs, clobbered)
    ensures ok ==>
              AllocateFrom(cpu, old(ops[..]), order[..], 0, nbOutputs, Unclaimed(cpu, clobbered)).value.0 == ops[..]
    ensures ok ==> AllLinksSame(old(ops[..]), ops[..])
    ensures ok ==> Allocation(cpu, ops[..], nbOutputs, clobbered, outReg)
  {
    ghost var ops0 := ops[..];
    ghost var none: seq<set<Cell>> := seq(ops.Length, _ => {});
    var taken := InitTaken(cpu, clobbered);
    UnclaimedOwned(cpu, clobbered, none);
    ghost var claims;
    outReg := -1;
    ok, claims := AllocateAll(cpu, ops, nbOutputs, order, pos, taken, clobbered, none);
    if !ok { return; }
    ok, outReg := PickOutReg(cpu, ops, taken);
    if !ok { return; }
    LinksKept(cpu, ops0, ops[..], pos, nbOutputs, claims);
    AllocationHolds(cpu, ops0, ops[..], order[..], pos, nbOutputs, taken[..], clobbered, claims, outReg);
  }

  lemma StillLinked(ops0: seq<Operand>, ops: seq<Operand>)
    requires AllLinksSame(ops0, ops) && Linked(ops0, |ops0|)
    ensures Linked(ops, |ops|)
  {
    forall k | 0 <= k < |ops| ensures SameLinks(ops0[k], ops[k]) { }
  }

  lemma LinksKept(cpu: Cpu, ops0: seq<Operand>, ops: seq<Operand>, pos: seq<int>, nbOutputs: int,
        claims: seq<set<Cell>>)
    requires Progress(cpu, ops0, ops, pos, |ops|, nbOutputs, claims)
    ensures AllLinksSame(ops0, ops)
  {
    forall k | 0 <= k < |ops| ensures SameLinks(ops0[k], ops[k]) {
      assert ProgressOne(cpu, ops0, ops, pos, |ops|, nbOutputs, claims, k);
    }
  }

  /** References are to the operands their constraints name. */
  ghost predicate Resolved(ops: seq<Operand>) {
    forall k :: 0 <= k < |ops| ==> ops[k].refIndex == if IsRef(ops[k]) then ops[k].target else -1
  }

  lemma StillResolved(cpu: Cpu, ops0: seq<Operand>, ops: seq<Operand>, sorted: seq<int>, pos: seq<int>, nbOutputs: int)
    requires Prepared(cpu, ops0, nbOutputs) && Ordered(ops0, sorted, pos)
    requires AllLinksSame(ops0, ops)
    ensures Resolved(ops) && SameInputs(ops0, ops) && Ordered(ops, sorted, pos)
  {
    forall k | 0 <= k < |ops| ensures ops[k].refIndex == if IsRef(ops[k]) then ops[k].target else -1 {
      assert PreparedOne(cpu, ops0, nbOutputs, k) && SameLinks(ops0[k], ops[k]);
    }
    forall a, b | 0 <= a < b < |sorted| ensures ops[sorted[a]].priority <= ops[sorted[b]].priority {
      assert SameLinks(ops0[sorted[a]], ops[sorted[a]]) && SameLinks(ops0[sorted[b]], ops[sorted[b]]);
    }
  }

  /** asm_compute_constraints. It succeeds exactly when every operand is acceptable and first fit, in the order of
      priorities, finds a place for all of them. */
  method AsmComputeConstraints(cpu: Cpu, ops: array<Operand>, nbOutputs: int, clobbered: seq<bool>)
    returns (ok: bool, outReg: int, sorted: seq<int>, ghost pos: seq<int>, ghost prepared: seq<Operand>)
    requires |clobbered| == REGS && RegistersExist(ops[..])
    modifies ops
    ensures Good(cpu, old(ops[..]), nbOutputs) ==>
              SameInputs(prepared, old(ops[..])) && Prepared(cpu, prepared, nbOutputs) && Ordered(prepared, sorted, pos)
    ensures ok <==> Good(cpu, old(ops[..]), nbOutputs) && Allocatable(cpu, prepared, sorted, nbOutputs, clobbered)
    ensures ok ==> AllocateFrom(cpu, prepared, sorted, 0, nbOutputs, Unclaimed(cpu, clobbered)).value.0 == ops[..]
    ensures ok ==> SameInputs(old(ops[..]), ops[..]) && Resolved(ops[..]) && Ordered(ops[..], sorted, pos)
    ensures ok ==> Allocation(cpu, ops[..], nbOutputs, clobbered, outReg)
  {
    outReg, sorted, pos, prepared := -1, [], [], [];
    ok := Prepare(cpu, ops, nbOutputs);
    if !ok { return; }
    prepared := ops[..];
    var order;
    order, pos := SortOperands(ops[..]);
    sorted := order[..];
    ok, outReg := AllocateSorted(cpu, ops, nbOutputs, clobbered, order, pos);
    if ok { StillResolved(cpu, prepared, ops[..], sorted, pos, nbOutputs); }
  }

  // ---- Where the allocation falls short of what the modifiers ask ----

  /** The roles an operand needs. */
  function Needed(op: Operand, j: int, nbOutputs: int): set<Role> {
    if Asks(op.constraint) then BOTH else BaseRoles(op, j, nbOutputs)
  }

  /** A register variable whose '+' or '&' nobody looks at. */
  predicate Ignored(op: Operand) { op.value.RegisterVariable? && Asks(op.constraint) && op.inputIndex < 0 }

  /** Every other operand is allocated the roles it needs. */
  lemma RolesNeeded(op: Operand, j: int, nbOutputs: int)
    ensures Roles(op, j, nbOutputs) == Needed(op, j, nbOutputs) <==> !Ignored(op)
  {
    assert In in BOTH && Out in BOTH;
    assert {In} != BOTH && {Out} != BOTH by { assert Out !in {In} && In !in {Out}; }
  }

  /** The cells that an operand ought to have for itself. */
  function NeededCells(op: Operand, j: int, nbOutputs: int): set<Cell> {
    if op.reg < 0 then {}
    else if op.isMemory then {(op.reg as nat, In)}
    else Cells(if op.isLlong then Pair else Register(op.reg), Needed(op, j, nbOutputs))
  }

  /** The cell that an ignored modifier asked for and that the operand does not have. */
  function MissedCells(op: Operand, j: int, nbOutputs: int): set<Cell> {
    if !Ignored(op) || op.reg < 0 then {}
    else {(op.reg as nat, if j < nbOutputs then In else Out)}
  }

  lemma NeededSplit(cpu: Cpu, op: Operand, j: int, nbOutputs: int)
    requires Satisfied(cpu, op, j < nbOutputs)
    ensures NeededCells(op, j, nbOutputs) == Claims(op, j, nbOutputs) + MissedCells(op, j, nbOutputs)
  {
    RolesNeeded(op, j, nbOutputs);
    if Ignored(op) && op.reg >= 0 {
      var r := op.reg as nat;
      assert NeededCells(op, j, nbOutputs) == {(r, In), (r, Out)};
      assert Claims(op, j, nbOutputs) == {(r, if j < nbOutputs then Out else In)};
    }
  }

  /** Two operands that miss the same cell would hold the same other one. */
  lemma MissedApart(cpu: Cpu, a: Operand, k: int, b: Operand, l: int, nbOutputs: int)
    requires Satisfied(cpu, a, k < nbOutputs) && Satisfied(cpu, b, l < nbOutputs)
    requires Claims(a, k, nbOutputs) !! Claims(b, l, nbOutputs)
    ensures MissedCells(a, k, nbOutputs) !! MissedCells(b, l, nbOutputs)
  {
    MissedBeside(cpu, a, k, nbOutputs);
    MissedBeside(cpu, b, l, nbOutputs);
  }

  lemma MissedBeside(cpu: Cpu, op: Operand, j: int, nbOutputs: int)
    requires Satisfied(cpu, op, j < nbOutputs)
    ensures Ignored(op) && op.reg >= 0 ==>
              (op.reg as nat, if j < nbOutputs then Out else In) in Claims(op, j, nbOutputs)
  {
  }

  /** Over every successful allocation: two operands have what they need to themselves exactly when neither holds what
      the ignored modifier of the other asked for. */
  lemma NeededApart(cpu: Cpu, ops: seq<Operand>, nbOutputs: int, clobbered: seq<bool>, outReg: int, k: int, l: int)
    requires |clobbered| == REGS && Allocation(cpu, ops, nbOutputs, clobbered, outReg)
    requires 0 <= k < |ops| && 0 <= l < |ops| && k != l && ops[k].refIndex < 0 && ops[l].refIndex < 0
    ensures NeededCells(ops[k], k, nbOutputs) !! NeededCells(ops[l], l, nbOutputs) <==>
            MissedCells(ops[k], k, nbOutputs) !! Claims(ops[l], l, nbOutputs) &&
            MissedCells(ops[l], l, nbOutputs) !! Claims(ops[k], k, nbOutputs)
  {
    NeededSplit(cpu, ops[k], k, nbOutputs);
    NeededSplit(cpu, ops[l], l, nbOutputs);
    MissedApart(cpu, ops[k], k, ops[l], l, nbOutputs);
  }

  /** All operands but tied inputs have what they need to themselves. */
  ghost predicate AllNeededApart(ops: seq<Operand>, nbOutputs: int) {
    forall k, l :: 0 <= k < |ops| && 0 <= l < |ops| && k != l && ops[k].refIndex < 0 && ops[l].refIndex < 0 ==>
      NeededCells(ops[k], k, nbOutputs) !! NeededCells(ops[l], l, nbOutputs)
  }

  /** Nobody holds what an ignored modifier asked for. */
  ghost predicate NoneMissed(ops: seq<Operand>, nbOutputs: int) {
    forall k, l :: 0 <= k < |ops| && 0 <= l < |ops| && k != l && ops[k].refIndex < 0 && ops[l].refIndex < 0 ==>
      MissedCells(ops[k], k, nbOutputs) !! Claims(ops[l], l, nbOutputs)
  }

  /** The same over the whole list, so always without an ignored modifier. */
  lemma AllApartExact(cpu: Cpu, ops: seq<Operand>, nbOutputs: int, clobbered: seq<bool>, outReg: int)
    requires |clobbered| == REGS && Allocation(cpu, ops, nbOutputs, clobbered, outReg)
    ensures AllNeededApart(ops, nbOutputs) <==> NoneMissed(ops, nbOutputs)
    ensures (forall k :: 0 <= k < |ops| ==> !Ignored(ops[k])) ==> AllNeededApart(ops, nbOutputs)
  {
    forall k, l | 0 <= k < |ops| && 0 <= l < |ops| && k != l && ops[k].refIndex < 0 && ops[l].refIndex < 0
      ensures NeededCells(ops[k], k, nbOutputs) !! NeededCells(ops[l], l, nbOutputs) <==>
              MissedCells(ops[k], k, nbOutputs) !! Claims(ops[l], l, nbOutputs) &&
              MissedCells(ops[l], l, nbOutputs) !! Claims(ops[k], k, nbOutputs)
    {
      NeededApart(cpu, ops, nbOutputs, clobbered, outReg, k, l);
    }
  }

  // ---- What the statement reads when it begins ----

  /** The registers that asm_gen_code loads: with an address, with an input, or with the old value of an output. */
  function Loads(op: Operand, j: int, nbOutputs: int): set<int> {
    if op.reg < 0 then {}
    else if op.isMemory then {op.reg}
    else if nbOutputs <= j || op.isRw then if op.isLlong then {op.reg, 2} else {op.reg}
    else {}
  }

  /** The statement also reads the register of a register variable with a '+', which need not be loaded. */
  function Reads(op: Operand, j: int, nbOutputs: int): set<int> {
    Loads(op, j, nbOutputs) +
    if op.reg >= 0 && op.value.RegisterVariable? && HasPlus(op.constraint) then {op.reg} else {}
  }

  /** No two operands, tied or not, are read from one register. */
  ghost predicate AllReadsApart(ops: seq<Operand>, nbOutputs: int) {
    forall k, l :: 0 <= k < |ops| && 0 <= l < |ops| && k != l ==>
      Reads(ops[k], k, nbOutputs) !! Reads(ops[l], l, nbOutputs)
  }

  /** The operand that a tied input names is an output that only writes its register, if it has one at all. */
  predicate GoodTie(ops: seq<Operand>, nbOutputs: int, k: int)
    requires 0 <= k < |ops| && 0 <= ops[k].refIndex < |ops|
  {
    var t := ops[ops[k].refIndex];
    t.refIndex >= 0 || t.reg < 0 || (ops[k].refIndex < nbOutputs && !t.isMemory && !HasPlus(t.constraint))
  }

  ghost predicate GoodTies(ops: seq<Operand>, nbOutputs: int) {
    forall k :: 0 <= k < |ops| && 0 <= ops[k].refIndex < |ops| ==> GoodTie(ops, nbOutputs, k)
  }

  /** An output in a register variable whose '+' nobody looked at. */
  predicate PlusIgnored(op: Operand, j: int, nbOutputs: int) {
    op.value.RegisterVariable? && HasPlus(op.constraint) && op.inputIndex < 0 && j < nbOutputs
  }

  /** No other operand is read from its register. */
  ghost predicate VariablesKept(ops: seq<Operand>, nbOutputs: int) {
    forall k, l ::
      (0 <= k < |ops| && 0 <= l < |ops| && k != l && ops[k].refIndex < 0 && ops[l].refIndex < 0 &&
       PlusIgnored(ops[k], k, nbOutputs)) ==> ops[k].reg !in Reads(ops[l], l, nbOutputs)
  }

  lemma PlusNeedsBoth(op: Operand)
    requires HasPlus(op.constraint)
    ensures Asks(op.constraint)
  {
    var i :| 0 <= i < |op.constraint| && op.constraint[i] == '+';
    assert op.constraint[i] == '+';
  }

  /** An operand that is not tied reads registers that it holds for input, or the one of an ignored '+'. */
  lemma ReadsHeld(cpu: Cpu, op: Operand, j: int, nbOutputs: int, r: int)
    requires Satisfied(cpu, op, j < nbOutputs) && Flagged(op)
    ensures r in Reads(op, j, nbOutputs) ==>
              r >= 0 && if PlusIgnored(op, j, nbOutputs) then r == op.reg && (r as nat, Out) in Claims(op, j, nbOutputs)
                        else (r as nat, In) in Claims(op, j, nbOutputs)
  {
    if HasPlus(op.constraint) { PlusNeedsBoth(op); }
    PlaceShape(cpu, op, j < nbOutputs);
    assert In in BOTH;
  }

  /** Pairs start at register 0, and only letters make them. */
  lemma PlaceShape(cpu: Cpu, op: Operand, output: bool)
    requires Satisfied(cpu, op, output)
    ensures op.reg >= 0 && !op.isMemory && op.isLlong ==> op.reg == 0
  {
    if !op.value.RegisterVariable? {
      var q :| 0 <= q < |op.constraint| && Suits(cpu, op.constraint[q], op, output);
    }
  }

  /** A tied input reads registers that the operand it names holds in both roles. */
  lemma TiedHeld(cpu: Cpu, ops: seq<Operand>, nbOutputs: int, clobbered: seq<bool>, outReg: int, k: int, r: int)
    requires |clobbered| == REGS && Allocation(cpu, ops, nbOutputs, clobbered, outReg)
    requires 0 <= k < |ops| && ops[k].refIndex >= 0 && GoodTie(ops, nbOutputs, k)
    ensures r in Reads(ops[k], k, nbOutputs) ==>
              var t := ops[k].refIndex;
              ops[t].refIndex < 0 && r >= 0 &&
              (r as nat, In) in Claims(ops[t], t, nbOutputs) && (r as nat, Out) in Claims(ops[t], t, nbOutputs)
  {
    var t := ops[k].refIndex;
    assert Tied(ops, k, true) && ops[t].inputIndex == k;
    if ops[t].refIndex < 0 {
      PlaceShape(cpu, ops[t], t < nbOutputs);
      assert Roles(ops[t], t, nbOutputs) == BOTH && In in BOTH && Out in BOTH;
    }
  }

  /** Over every successful allocation: a tied input and the operand it names are read from different registers exactly
      when that is an output, was given no address, and has no '+'. */
  lemma TiedApart(cpu: Cpu, ops: seq<Operand>, nbOutputs: int, clobbered: seq<bool>, outReg: int, k: int)
    requires |clobbered| == REGS && Allocation(cpu, ops, nbOutputs, clobbered, outReg)
    requires 0 <= k < |ops| && ops[k].refIndex >= 0
    ensures Reads(ops[k], k, nbOutputs) !! Reads(ops[ops[k].refIndex], ops[k].refIndex, nbOutputs) <==>
            GoodTie(ops, nbOutputs, k)
  {
    var t := ops[k].refIndex;
    assert Tied(ops, k, true) && nbOutputs <= k;
    if ops[t].refIndex >= 0 {
      assert Reads(ops[k], k, nbOutputs) == {};
    } else {
      assert Flagged(ops[t]);
      if ops[t].reg >= 0 {
        assert ops[t].reg in Reads(ops[k], k, nbOutputs);
        if !GoodTie(ops, nbOutputs, k) { assert ops[t].reg in Reads(ops[t], t, nbOutputs); }
      }
    }
  }

  /** Two operands neither of which names the other. */
  lemma StrangersApart(cpu: Cpu, ops: seq<Operand>, nbOutputs: int, clobbered: seq<bool>, outReg: int, k: int, l: int)
    requires |clobbered| == REGS && Allocation(cpu, ops, nbOutputs, clobbered, outReg)
    requires GoodTies(ops, nbOutputs) && VariablesKept(ops, nbOutputs)
    requires 0 <= k < |ops| && 0 <= l < |ops| && k != l && ops[k].refIndex != l && ops[l].refIndex != k
    ensures Reads(ops[k], k, nbOutputs) !! Reads(ops[l], l, nbOutputs)
  {
    forall r | r in Reads(ops[k], k, nbOutputs) ensures r !in Reads(ops[l], l, nbOutputs) {
      Held(cpu, ops, nbOutputs, clobbered, outReg, k, r);
      Held(cpu, ops, nbOutputs, clobbered, outReg, l, r);
    }
  }

  /** The operand that holds the registers that k reads. */
  function Holder(ops: seq<Operand>, k: int): int
    requires 0 <= k < |ops|
  {
    if ops[k].refIndex >= 0 then ops[k].refIndex else k
  }

  lemma Held(cpu: Cpu, ops: seq<Operand>, nbOutputs: int, clobbered: seq<bool>, outReg: int, k: int, r: int)
    requires |clobbered| == REGS && Allocation(cpu, ops, nbOutputs, clobbered, outReg)
    requires GoodTies(ops, nbOutputs) && 0 <= k < |ops|
    ensures r in Reads(ops[k], k, nbOutputs) ==>
              var o := Holder(ops, k);
              0 <= o < |ops| && ops[o].refIndex < 0 && r >= 0 &&
              if ops[k].refIndex < 0 && PlusIgnored(ops[k], k, nbOutputs) then
                r == ops[k].reg && (r as nat, Out) in Claims(ops[o], o, nbOutputs)
              else
                (r as nat, In) in Claims(ops[o], o, nbOutputs) &&
                (ops[k].refIndex >= 0 ==> (r as nat, Out) in Claims(ops[o], o, nbOutputs))
  {
    if ops[k].refIndex < 0 {
      ReadsHeld(cpu, ops[k], k, nbOutputs, r);
    } else {
      TiedHeld(cpu, ops, nbOutputs, clobbered, outReg, k, r);
    }
  }

  /** Over every successful allocation, tied operands included: no two are read from one register exactly when every tie
      is to an output that is only written, and nobody else is read from a register variable whose '+' was ignored. */
  lemma ReadsApartExact(cpu: Cpu, ops: seq<Operand>, nbOutputs: int, clobbered: seq<bool>, outReg: int)
    requires |clobbered| == REGS && Allocation(cpu, ops, nbOutputs, clobbered, outReg)
    ensures AllReadsApart(ops, nbOutputs) <==> GoodTies(ops, nbOutputs) && VariablesKept(ops, nbOutputs)
  {
    if AllReadsApart(ops, nbOutputs) {
      ApartNeeds(cpu, ops, nbOutputs, clobbered, outReg);
    } else if GoodTies(ops, nbOutputs) && VariablesKept(ops, nbOutputs) {
      ApartFollows(cpu, ops, nbOutputs, clobbered, outReg);
    }
  }

  lemma ApartNeeds(cpu: Cpu, ops: seq<Operand>, nbOutputs: int, clobbered: seq<bool>, outReg: int)
    requires |clobbered| == REGS && Allocation(cpu, ops, nbOutputs, clobbered, outReg) && AllReadsApart(ops, nbOutputs)
    ensures GoodTies(ops, nbOutputs) && VariablesKept(ops, nbOutputs)
  {
    forall k | 0 <= k < |ops| && 0 <= ops[k].refIndex < |ops| ensures GoodTie(ops, nbOutputs, k) {
      TiedApart(cpu, ops, nbOutputs, clobbered, outReg, k);
    }
    forall k, l | 0 <= k < |ops| && 0 <= l < |ops| && k != l && ops[k].refIndex < 0 && ops[l].refIndex < 0 &&
                  PlusIgnored(ops[k], k, nbOutputs)
      ensures ops[k].reg !in Reads(ops[l], l, nbOutputs)
    {
      ReadsHeld(cpu, ops[l], l, nbOutputs, ops[k].reg);
      assert ops[k].reg >= 0 ==> ops[k].reg in Reads(ops[k], k, nbOutputs);
    }
  }

  lemma ApartFollows(cpu: Cpu, ops: seq<Operand>, nbOutputs: int, clobbered: seq<bool>, outReg: int)
    requires |clobbered| == REGS && Allocation(cpu, ops, nbOutputs, clobbered, outReg)
    requires GoodTies(ops, nbOutputs) && VariablesKept(ops, nbOutputs)
    ensures AllReadsApart(ops, nbOutputs)
  {
    forall k, l | 0 <= k < |ops| && 0 <= l < |ops| && k != l
      ensures Reads(ops[k], k, nbOutputs) !! Reads(ops[l], l, nbOutputs)
    {
      if ops[k].refIndex == l {
        TiedApart(cpu, ops, nbOutputs, clobbered, outReg, k);
      } else if ops[l].refIndex == k {
        TiedApart(cpu, ops, nbOutputs, clobbered, outReg, l);
      } else {
        StrangersApart(cpu, ops, nbOutputs, clobbered, outReg, k, l);
      }
    }
  }

  // ---- Two allocations ----

  predicate NothingClobbered(clobbered: seq<bool>) {
    |clobbered| == REGS && forall r :: 0 <= r < REGS ==> !clobbered[r]
  }

  lemma FirstRegister(cpu: Cpu, taken: Taken, mask: set<Role>)
    requires taken[0] * mask == {}
    ensures InClass(taken, mask, Last(cpu)) == Some(Register(0))
  {
  }

  /** "r" and "=r" take the first register if it is free. */
  lemma ScanRegister(cpu: Cpu, s: string, taken: Taken, mask: set<Role>, output: bool)
    requires (s == "r" || s == "=r") && taken[0] * mask == {}
    ensures Scan(cpu, s, 0, taken, mask, Elsewhere, output) == Some((Register(0), mask))
    ensures !Plus(cpu, s, 0, taken, mask, Elsewhere, output)
  {
    var p := |s| - 1;
    FirstRegister(cpu, taken, mask);
    assert s[p] == 'r' && Allows(cpu, 'r', taken, mask, Elsewhere, output) == Some(Register(0));
    assert Scan(cpu, s, p, taken, mask, Elsewhere, output) == Some((Register(0), mask));
    assert !Plus(cpu, s, p, taken, mask, Elsewhere, output);
  }

  /** The least priority is served first. */
  lemma FirstServed(ops: seq<Operand>, sorted: seq<int>, pos: seq<int>)
    requires Ordered(ops, sorted, pos) && |ops| > 0 && forall k :: 0 < k < |ops| ==> ops[0].priority < ops[k].priority
    ensures sorted[0] == 0
  {
    assert sorted[pos[0]] == 0;
    assert 0 < pos[0] ==> ops[sorted[0]].priority <= ops[sorted[pos[0]]].priority;
  }

  /** A register variable in eax or r0 for "+r", and a plain input "r". */
  predicate SharingInput(ops: seq<Operand>) {
    |ops| == 2 && ops[0].constraint == "+r" && ops[0].value == RegisterVariable(0) &&
    ops[1].constraint == "r" && ops[1].value == Elsewhere
  }

  /** The constraints of the two lists below, without modifiers. */
  lemma Stripped(c: string)
    ensures c == "+r" || c == "=r" ==> Skip(c) == 1 && c[1..] == "r"
    ensures c == "r" || c == "0" || c == "1" ==> Skip(c) == 0 && c[0..] == c
  {
    if c == "+r" || c == "=r" {
      var d := c[1..];
      assert |c| == 2 && d == "r" && |d| == 1 && !Modifier(d[0]) && Skip(d) == 0;
      assert c[0] == '+' || c[0] == '=';
    } else if c == "r" || c == "0" || c == "1" {
      assert |c| == 1 && !Modifier(c[0]);
    }
  }

  lemma SharingPrepared(cpu: Cpu, ops: seq<Operand>)
    requires SharingInput(ops) && Prepared(cpu, ops, 1)
    ensures ops[0].priority == 1 && ops[0].reg == 0 && ops[1].priority == 3 && ops[1].reg == -1 && !ops[0].isRw
    ensures forall k :: 0 <= k < 2 ==> ops[k].refIndex == -1 && ops[k].inputIndex < 0
  {
    assert PreparedOne(cpu, ops, 1, 0) && PreparedOne(cpu, ops, 1, 1);
    Stripped(ops[0].constraint);
    Stripped(ops[1].constraint);
    var r := "r";
    assert |r| == 1 && r[0] == 'r';
  }

  lemma PlusAsks(op: Operand, j: int, nbOutputs: int)
    requires op.constraint == "+r"
    ensures Needed(op, j, nbOutputs) == BOTH
  {
    assert op.constraint[0] == '+';
  }

  /** The first step: the register variable gets its register, for output only. */
  lemma VariableServed(cpu: Cpu, ops: seq<Operand>, sorted: seq<int>, pos: seq<int>, t0: Taken, a: Operand, t1: Taken)
    requires SharingInput(ops) && Prepared(cpu, ops, 1) && Ordered(ops, sorted, pos) && t0[0] == {}
    requires a == ops[0].(reg := 0, isLlong := false) && t1 == t0[0 := {Out}]
    ensures sorted == [0, 1] && ops[1].refIndex == -1 && ops[1].inputIndex < 0 && ops[1].reg == -1
    ensures AllocateFrom(cpu, ops, sorted, 0, 1, t0) == AllocateFrom(cpu, ops[0 := a], sorted, 1, 1, t1)
  {
    SharingPrepared(cpu, ops);
    FirstServed(ops, sorted, pos);
    assert sorted[1] == 1;
    assert t0[0] * {Out} == {} && BaseRoles(ops[0], 0, 1) == {Out};
    assert {} + {Out} == {Out};
    AllocatePlaces(cpu, ops, sorted, 0, 1, t0, a, t1);
  }

  /** The second step: an input "r" finds the register free for input. */
  lemma InputServed(cpu: Cpu, ops: seq<Operand>, sorted: seq<int>, t: Taken)
    requires |ops| == 2 && sorted == [0, 1] && t[0] == {Out}
    requires ops[1].constraint == "r" && ops[1].value == Elsewhere
    requires ops[1].refIndex == -1 && ops[1].inputIndex < 0 && ops[1].reg == -1
    ensures AllocateFrom(cpu, ops, sorted, 1, 1, t) ==
            Some((ops[1 := ops[1].(reg := 0, isLlong := false, isRw := false)], t[0 := BOTH]))
  {
    var b := ops[1].(reg := 0, isLlong := false, isRw := false);
    assert t[0] * {In} == {} && BaseRoles(ops[1], 1, 1) == {In};
    ScanRegister(cpu, "r", t, {In}, false);
    assert {Out} + {In} == BOTH;
    AllocatePlaces(cpu, ops, sorted, 1, 1, t, b, t[0 := BOTH]);
  }

  /** The allocation succeeds and gives the input the register that is read and written. */
  lemma ReadWriteRegvarShared(cpu: Cpu, ops: seq<Operand>, sorted: seq<int>, pos: seq<int>, clobbered: seq<bool>)
    requires SharingInput(ops) && Prepared(cpu, ops, 1) && Ordered(ops, sorted, pos) && NothingClobbered(clobbered)
    ensures Allocatable(cpu, ops, sorted, 1, clobbered)
    ensures var r := AllocateFrom(cpu, ops, sorted, 0, 1, Unclaimed(cpu, clobbered)).value.0;
            r[0].reg == 0 && r[1].reg == 0 && In in Needed(r[0], 0, 1) && In in Needed(r[1], 1, 1)
  {
    var t0 := Unclaimed(cpu, clobbered);
    var a, t1 := ops[0].(reg := 0, isLlong := false), t0[0 := {Out}];
    VariableServed(cpu, ops, sorted, pos, t0, a, t1);
    InputServed(cpu, ops[0 := a], sorted, t1);
    PlusAsks(a, 0, 1);
  }

  /** An output "=r", an input "0" tied to it, and an input "1" tied to that. */
  predicate TyingInput(ops: seq<Operand>) {
    |ops| == 3 && ops[0].constraint == "=r" && ops[1].constraint == "0" && ops[2].constraint == "1" &&
    ops[1].target == 0 && ops[2].target == 1 && forall k :: 0 <= k < 3 ==> ops[k].value == Elsewhere
  }

  lemma TyingPrepared(cpu: Cpu, ops: seq<Operand>)
    requires TyingInput(ops) && Prepared(cpu, ops, 1)
    ensures ops[0].priority == 3 && ops[0].refIndex == -1 && ops[0].inputIndex == 1
    ensures ops[1].priority == 5 && ops[1].refIndex == 0
    ensures ops[2].priority == 5 && ops[2].refIndex == 1
    ensures forall k :: 0 <= k < 3 ==> ops[k].reg == -1
  {
    assert PreparedOne(cpu, ops, 1, 0) && PreparedOne(cpu, ops, 1, 1) && PreparedOne(cpu, ops, 1, 2);
    Stripped(ops[0].constraint);
    Stripped(ops[1].constraint);
    Stripped(ops[2].constraint);
    var r := "r";
    assert |r| == 1 && r[0] == 'r';
  }

  lemma OutputServed(cpu: Cpu, ops: seq<Operand>, sorted: seq<int>, pos: seq<int>, t0: Taken, a: Operand, t1: Taken)
    requires TyingInput(ops) && Prepared(cpu, ops, 1) && Ordered(ops, sorted, pos) && t0[0] == {}
    requires a == ops[0].(reg := 0, isLlong := false, isRw := false) && t1 == t0[0 := BOTH]
    ensures sorted == [0, 1, 2] || sorted == [0, 2, 1]
    ensures ops[1].refIndex == 0 && ops[2].refIndex == 1 && ops[2].reg == -1
    ensures AllocateFrom(cpu, ops, sorted, 0, 1, t0) ==
            AllocateFrom(cpu, ops[0 := a][1 := ops[1].(reg := 0, isLlong := false)], sorted, 1, 1, t1)
  {
    TyingPrepared(cpu, ops);
    FirstServed(ops, sorted, pos);
    assert sorted[1] == 1 || sorted[1] == 2;
    assert sorted[2] == 1 || sorted[2] == 2;
    assert t0[0] * BOTH == {} && BaseRoles(ops[0], 0, 1) == BOTH;
    ScanRegister(cpu, "=r", t0, BOTH, true);
    assert {} + BOTH == BOTH;
    AllocatePlaces(cpu, ops, sorted, 0, 1, t0, a, t1);
  }

  /** The allocation succeeds; the first tied input has its output's register, the second has none. */
  lemma TiedToTied(cpu: Cpu, ops: seq<Operand>, sorted: seq<int>, pos: seq<int>, clobbered: seq<bool>)
    requires TyingInput(ops) && Prepared(cpu, ops, 1) && Ordered(ops, sorted, pos) && NothingClobbered(clobbered)
    ensures Allocatable(cpu, ops, sorted, 1, clobbered)
    ensures var r := AllocateFrom(cpu, ops, sorted, 0, 1, Unclaimed(cpu, clobbered)).value.0;
            r[0].reg == 0 && r[1].reg == 0 && r[2].reg == -1
  {
    var t0 := Unclaimed(cpu, clobbered);
    var a, t1 := ops[0].(reg := 0, isLlong := false, isRw := false), t0[0 := BOTH];
    OutputServed(cpu, ops, sorted, pos, t0, a, t1);
    var ops1 := ops[0 := a][1 := ops[1].(reg := 0, isLlong := false)];
    AllocateSkips(cpu, ops1, sorted, 1, 1, t1);
    AllocateSkips(cpu, ops1, sorted, 2, 1, t1);
    assert AllocateFrom(cpu, ops1, sorted, 3, 1, t1) == Some((ops1, t1));
  }

  /** An operand, and an input "0" tied to it. */
  predicate PairInput(ops: seq<Operand>, c: string, v: Value) {
    |ops| == 2 && ops[0].constraint == c && ops[0].value == v &&
    ops[1].constraint == "0" && ops[1].target == 0 && ops[1].value == Elsewhere
  }

  lemma PairPrepared(cpu: Cpu, ops: seq<Operand>, c: string, v: Value, nbOutputs: int)
    requires PairInput(ops, c, v) && Prepared(cpu, ops, nbOutputs) && !v.RegisterVariable?
    requires c == "r" || c == "+r" || c == "=m"
    ensures ops[0].priority < 5 && ops[0].refIndex == -1 && ops[0].inputIndex == 1 && ops[0].reg == -1
    ensures ops[1].priority == 5 && ops[1].refIndex == 0
  {
    assert PreparedOne(cpu, ops, nbOutputs, 0) && PreparedOne(cpu, ops, nbOutputs, 1);
    Stripped(c);
    Stripped("0");
    LastLetter(c);
    var d := c[Skip(c)..];
    assert |d| == 1 && LetterPriority(cpu, d[0]) < 5;
  }

  lemma LastLetter(c: string)
    requires c == "r" || c == "+r" || c == "=m"
    ensures Skip(c) == |c| - 1 && |c[Skip(c)..]| == 1 && c[Skip(c)..][0] == if c == "=m" then 'm' else 'r'
  {
    Stripped(c);
    if c == "=m" {
      var d := c[1..];
      assert |c| == 2 && d == "m" && |d| == 1 && !Modifier(d[0]) && Skip(d) == 0;
      assert c[0] == '=';
    }
  }

  /** The named operand is served first, and the other one gets its register. */
  lemma PairServed(cpu: Cpu, ops: seq<Operand>, sorted: seq<int>, pos: seq<int>, c: string, v: Value, nbOutputs: int,
        t0: Taken, a: Operand, t1: Taken)
    requires PairInput(ops, c, v) && Prepared(cpu, ops, nbOutputs) && Ordered(ops, sorted, pos)
    requires !v.RegisterVariable? && (c == "r" || c == "+r" || c == "=m")
    requires var p := Place(cpu, ops[0], 0, nbOutputs, t0);
             p.Some? && a == Settle(ops[0], p.value.0).(isRw := p.value.2) && t1 == Take(t0, p.value.0, p.value.1)
    ensures ops[0].inputIndex == 1
    ensures AllocateFrom(cpu, ops, sorted, 0, nbOutputs, t0) ==
            Some(([a, ops[1].(reg := a.reg, isLlong := a.isLlong)], t1))
  {
    PairPrepared(cpu, ops, c, v, nbOutputs);
    FirstServed(ops, sorted, pos);
    assert sorted[1] == 1;
    AllocatePlaces(cpu, ops, sorted, 0, nbOutputs, t0, a, t1);
    var after := [a, ops[1].(reg := a.reg, isLlong := a.isLlong)];
    assert Assigned(ops, 0, a) == after;
    AllocateSkips(cpu, after, sorted, 1, nbOutputs, t1);
    assert AllocateFrom(cpu, after, sorted, 2, nbOutputs, t1) == Some((after, t1));
  }

  /** Both operands of the allocation are read from register 0. */
  ghost predicate BothReadFirst(cpu: Cpu, ops: seq<Operand>, sorted: seq<int>, nbOutputs: int, clobbered: seq<bool>)
    requires |clobbered| == REGS && InRange(sorted, |ops|) && |ops| == 2
  {
    Allocatable(cpu, ops, sorted, nbOutputs, clobbered) &&
    var r := AllocateFrom(cpu, ops, sorted, 0, nbOutputs, Unclaimed(cpu, clobbered)).value.0;
    0 in Reads(r[0], 0, nbOutputs) && 0 in Reads(r[1], 1, nbOutputs)
  }

  /** asm("" :: "r"(x), "0"(y)): x and y are loaded into one register. */
  lemma InputTiedToInput(cpu: Cpu, ops: seq<Operand>, sorted: seq<int>, pos: seq<int>, clobbered: seq<bool>)
    requires PairInput(ops, "r", Elsewhere) && Prepared(cpu, ops, 0) && Ordered(ops, sorted, pos)
    requires NothingClobbered(clobbered)
    ensures BothReadFirst(cpu, ops, sorted, 0, clobbered)
  {
    var t0 := Unclaimed(cpu, clobbered);
    PairPrepared(cpu, ops, "r", Elsewhere, 0);
    assert t0[0] * BOTH == {} && BaseRoles(ops[0], 0, 0) == BOTH;
    ScanRegister(cpu, "r", t0, BOTH, false);
    var a := ops[0].(reg := 0, isLlong := false, isRw := false);
    PairServed(cpu, ops, sorted, pos, "r", Elsewhere, 0, t0, a, Take(t0, Register(0), BOTH));
  }

  /** asm("" : "+r"(x) : "0"(y)): the old value of x and y are. */
  lemma InputTiedToReadWrite(cpu: Cpu, ops: seq<Operand>, sorted: seq<int>, pos: seq<int>, clobbered: seq<bool>)
    requires PairInput(ops, "+r", Elsewhere) && Prepared(cpu, ops, 1) && Ordered(ops, sorted, pos)
    requires NothingClobbered(clobbered)
    ensures BothReadFirst(cpu, ops, sorted, 1, clobbered)
  {
    var t0 := Unclaimed(cpu, clobbered);
    PairPrepared(cpu, ops, "+r", Elsewhere, 1);
    assert t0[0] * BOTH == {} && BaseRoles(ops[0], 0, 1) == BOTH;
    ScanReadWrite(cpu, t0);
    var a := ops[0].(reg := 0, isLlong := false, isRw := true);
    PairServed(cpu, ops, sorted, pos, "+r", Elsewhere, 1, t0, a, Take(t0, Register(0), BOTH));
  }

  lemma ScanReadWrite(cpu: Cpu, taken: Taken)
    requires taken[0] * BOTH == {}
    ensures Scan(cpu, "+r", 0, taken, BOTH, Elsewhere, true) == Some((Register(0), BOTH))
    ensures Plus(cpu, "+r", 0, taken, BOTH, Elsewhere, true)
  {
    var s, p := "+r", 1;
    FirstRegister(cpu, taken, BOTH);
    assert s[p] == 'r' && Allows(cpu, 'r', taken, BOTH, Elsewhere, true) == Some(Register(0));
    assert Scan(cpu, s, p, taken, BOTH, Elsewhere, true) == Some((Register(0), BOTH));
  }

  /** asm("" : "=m"(*p) : "0"(x)), p a local pointer: the address of *p and x are. */
  lemma InputTiedToAddress(cpu: Cpu, ops: seq<Operand>, sorted: seq<int>, pos: seq<int>, clobbered: seq<bool>)
    requires PairInput(ops, "=m", LocalPointer) && Prepared(cpu, ops, 1) && Ordered(ops, sorted, pos)
    requires NothingClobbered(clobbered)
    ensures BothReadFirst(cpu, ops, sorted, 1, clobbered)
    ensures AllocateFrom(cpu, ops, sorted, 0, 1, Unclaimed(cpu, clobbered)).value.0[0].isMemory
  {
    var t0 := Unclaimed(cpu, clobbered);
    PairPrepared(cpu, ops, "=m", LocalPointer, 1);
    ScanAddress(cpu, t0, BaseRoles(ops[0], 0, 1));
    var a := ops[0].(reg := 0, isMemory := true, isRw := false);
    PairServed(cpu, ops, sorted, pos, "=m", LocalPointer, 1, t0, a, Take(t0, Address(0), BOTH));
  }

  lemma ScanAddress(cpu: Cpu, taken: Taken, mask: set<Role>)
    requires taken[0] == {}
    ensures Scan(cpu, "=m", 0, taken, mask, LocalPointer, true) == Some((Address(0), mask))
    ensures !Plus(cpu, "=m", 0, taken, mask, LocalPointer, true)
  {
    var s, p := "=m", 1;
    assert FirstFree(taken, {In}, 0, Last(cpu)) == 0;
    assert s[p] == 'm' && Allows(cpu, 'm', taken, mask, LocalPointer, true) == Some(Address(0));
    assert Scan(cpu, s, p, taken, mask, LocalPointer, true) == Some((Address(0), mask));
    assert !Plus(cpu, s, p, taken, mask, LocalPointer, true);
  }
}
