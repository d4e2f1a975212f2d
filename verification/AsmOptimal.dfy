/** The order of the priorities is the right one: where the operands ask for one register each and all for the same
    roles, first fit fails only when nothing else would have succeeded. */
module AsmOptimal {
  import opened AsmConstraints
  import opened Base

  // ---- The registers of a letter ----

  function InRegister(r: nat): Operand {
    Operand("", -1, Elsewhere, -1, -1, 0, r, false, false, false)
  }

  predicate Serves(cpu: Cpu, c: char, r: nat) { r < REGS && Suits(cpu, c, InRegister(r), false) }

  /** Every register that suits the letter; none for a constant, for memory, or for "A", which takes a pair. */
  ghost function LetterRegs(cpu: Cpu, c: char): set<nat> { set r: nat | r < REGS && Serves(cpu, c, r) }

  /** The registers of i386 in the order of their numbers. */
  const NAMES: seq<string> := ["eax", "ecx", "edx", "ebx", "esp", "ebp", "esi", "edi"]

  /** A letter for one register is in its name; "q" stands for those that have a low byte of their own, eax to ebx, and
      the general letters for all. Reserved are esp and ebp. */
  lemma NamedLetters(c: char, r: nat, clobbered: seq<bool>)
    requires r < |NAMES|
    ensures c == 'a' || c == 'b' || c == 'c' || c == 'd' ==> (Serves(I386, c, r) <==> NAMES[r] == ['e', c, 'x'])
    ensures Serves(I386, 'S', r) <==> NAMES[r] == "esi"
    ensures Serves(I386, 'D', r) <==> NAMES[r] == "edi"
    ensures Serves(I386, 'q', r) <==> NAMES[r][2] == 'x'
    ensures General(I386, c) ==> Serves(I386, c, r)
    ensures |clobbered| == REGS ==>
              (Reserved(I386, clobbered, r) <==> NAMES[r] == "esp" || NAMES[r] == "ebp" || clobbered[r])
  {
    NameLetters(r);
    NamedFixed(c, r);
    NamedReserved(r);
  }

  lemma NameLetters(r: nat)
    requires r < |NAMES|
    ensures |NAMES[r]| == 3 && NAMES[r][0] == 'e'
    ensures NAMES[r][1] == (if r == 0 then 'a' else if r == 1 then 'c' else if r == 2 || r == 7 then 'd'
                            else if r == 3 || r == 5 then 'b' else 's')
    ensures NAMES[r][2] == (if r < 4 then 'x' else if r < 6 then 'p' else 'i')
  {
  }

  lemma NamedFixed(c: char, r: nat)
    requires r < |NAMES|
    ensures NAMES[r] == ['e', c, 'x'] <==>
              (r == 0 && c == 'a') || (r == 1 && c == 'c') || (r == 2 && c == 'd') || (r == 3 && c == 'b')
    ensures (NAMES[r] == "esi" <==> r == 6) && (NAMES[r] == "edi" <==> r == 7)
  {
    NameLetters(r);
    var name, fixed := NAMES[r], ['e', c, 'x'];
    assert name[1] == fixed[1] && name[2] == fixed[2] ==> name == fixed;
    var si, di := "esi", "edi";
    assert name[1] == si[1] && name[2] == si[2] ==> name == si;
    assert name[1] == di[1] && name[2] == di[2] ==> name == di;
  }

  lemma NamedReserved(r: nat)
    requires r < |NAMES|
    ensures (NAMES[r] == "esp" <==> r == 4) && (NAMES[r] == "ebp" <==> r == 5)
  {
    NameLetters(r);
    var name, sp, bp := NAMES[r], "esp", "ebp";
    assert name[1] == sp[1] && name[2] == sp[2] ==> name == sp;
    assert name[1] == bp[1] && name[2] == bp[2] ==> name == bp;
  }

  /** The narrower letter is served first. */
  lemma NarrowFirst(cpu: Cpu, c: char, d: char)
    requires {} < LetterRegs(cpu, c) < LetterRegs(cpu, d)
    ensures 0 <= LetterPriority(cpu, c) < LetterPriority(cpu, d)
  {
    var r :| r in LetterRegs(cpu, c);
    var q :| q in LetterRegs(cpu, d) && q !in LetterRegs(cpu, c);
    assert Serves(cpu, c, r) && Serves(cpu, d, q) && Serves(cpu, d, r) && !Serves(cpu, c, q);
  }

  /** The pair of "A" is served before whoever could take one of its registers. */
  lemma PairFirst(c: char)
    requires Serves(I386, c, 0) || Serves(I386, c, 2)
    ensures 0 <= LetterPriority(I386, 'A') < LetterPriority(I386, c)
  {
  }

  /** A letter served no later than another has its registers among the other's, or none of them. */
  lemma Nested(cpu: Cpu, c: char, d: char, r: nat, q: nat)
    requires LetterPriority(cpu, c) <= LetterPriority(cpu, d)
    requires Serves(cpu, c, r) && Serves(cpu, d, r) && Serves(cpu, c, q)
    ensures Serves(cpu, d, q)
  {
  }

  /** What such a letter allows is one of its registers, and nothing only when none of them is free. */
  lemma LetterAllows(cpu: Cpu, c: char, taken: Taken, mask: set<Role>, v: Value, output: bool, r: nat)
    requires Serves(cpu, c, r)
    ensures var choice := Allows(cpu, c, taken, mask, v, output);
            if choice.Some? then
              choice.value.Register? && Serves(cpu, c, choice.value.reg) && Free(taken, choice.value.reg, mask)
            else !Free(taken, r, mask)
  {
  }

  // ---- Operands that ask for one register ----

  function Letter(op: Operand): char
    requires op.constraint != ""
  {
    op.constraint[|op.constraint| - 1]
  }

  /** Modifiers, and one letter for registers. */
  ghost predicate OneRegister(cpu: Cpu, op: Operand) {
    op.constraint != "" && Skip(op.constraint) == |op.constraint| - 1 && '%' !in op.constraint &&
    (exists r: nat :: Serves(cpu, Letter(op), r)) && !op.value.RegisterVariable?
  }

  /** Each asks for one register, and for the same roles of it; the modifiers '+' and '&' are for outputs. */
  ghost predicate OneRole(cpu: Cpu, ops: seq<Operand>, nbOutputs: int, mask: set<Role>) {
    forall k :: 0 <= k < |ops| ==> Asking(cpu, ops[k], k, nbOutputs, mask)
  }

  ghost predicate Asking(cpu: Cpu, op: Operand, k: int, nbOutputs: int, mask: set<Role>) {
    OneRegister(cpu, op) && Roles(op, k, nbOutputs) == mask && (k < nbOutputs || !Asks(op.constraint))
  }

  /** Not served yet. */
  ghost predicate Waits(cpu: Cpu, op: Operand, k: int, nbOutputs: int, mask: set<Role>) {
    Asking(cpu, op, k, nbOutputs, mask) && op.reg == -1 && op.refIndex < 0 && op.inputIndex < 0
  }

  /** The modifiers only gather roles; the letter decides. */
  lemma {:induction false} ScanLetter(cpu: Cpu, s: string, p: nat, taken: Taken, base: set<Role>, v: Value,
        output: bool)
    requires p < |s| && Skip(s) == |s| - 1 && '%' !in s && LetterPriority(cpu, s[|s| - 1]) >= 0
    requires output || !Asks(s)
    ensures var mask := Asked(s, |s| - 1, base);
            Scan(cpu, s, p, taken, Asked(s, p, base), v, output) ==
            match Allows(cpu, s[|s| - 1], taken, mask, v, output)
            case Some(choice) => Some((choice, mask))
            case None => None
    decreases |s| - p
  {
    if p == |s| - 1 {
      ModifierOrLetter(cpu, s[p]);
    } else {
      assert Modifier(s[..Skip(s)][p]);
      AskedNext(s, p, base);
      ScanLetter(cpu, s, p + 1, taken, base, v, output);
    }
  }

  /** Such an operand gets one of the registers of its letter, unless none is free. */
  lemma PlaceLetter(cpu: Cpu, op: Operand, k: int, nbOutputs: int, taken: Taken, mask: set<Role>, r: nat)
    requires Waits(cpu, op, k, nbOutputs, mask) && Serves(cpu, Letter(op), r)
    ensures var place := Place(cpu, op, k, nbOutputs, taken);
            if place.Some? then
              place.value.0.Register? && Serves(cpu, Letter(op), place.value.0.reg) &&
              Free(taken, place.value.0.reg, mask) && place.value.1 == mask
            else !Free(taken, r, mask)
  {
    var s, base, output := op.constraint, BaseRoles(op, k, nbOutputs), k < nbOutputs;
    LetterAllows(cpu, Letter(op), taken, mask, op.value, output, r);
    assert s[Skip(s)..] == [Letter(op)];
    AskedAll(cpu, s, |s| - 1, base);
    ScanLetter(cpu, s, 0, taken, base, op.value, output);
  }

  // ---- Exchanging registers ----

  ghost predicate Distinct(sorted: seq<int>) { forall a, b :: 0 <= a < b < |sorted| ==> sorted[a] != sorted[b] }

  /** The operands from place n on are still to be served. */
  ghost predicate Waiting(cpu: Cpu, ops: seq<Operand>, sorted: seq<int>, n: nat, nbOutputs: int, mask: set<Role>) {
    InRange(sorted, |ops|) && Distinct(sorted) && n <= |sorted| &&
    forall a :: n <= a < |sorted| ==> Waits(cpu, ops[sorted[a]], sorted[a], nbOutputs, mask)
  }

  /** f gives each of them a register of its own. */
  ghost predicate Serving(cpu: Cpu, ops: seq<Operand>, sorted: seq<int>, n: nat, taken: Taken, mask: set<Role>,
        f: seq<nat>)
    requires InRange(sorted, |ops|)
  {
    |f| == |sorted| &&
    (forall a :: n <= a < |f| ==> ServedBy(cpu, ops[sorted[a]], taken, mask, f[a])) &&
    forall a, b :: n <= a < b < |f| ==> f[a] != f[b]
  }

  ghost predicate ServedBy(cpu: Cpu, op: Operand, taken: Taken, mask: set<Role>, r: nat) {
    op.constraint != "" && Serves(cpu, Letter(op), r) && Free(taken, r, mask)
  }

  /** An operand served earlier has its registers among those of a later one, or none of them. */
  ghost predicate Laminar(cpu: Cpu, ops: seq<Operand>, sorted: seq<int>, n: nat)
    requires InRange(sorted, |ops|)
  {
    forall a, b :: n <= a < b < |sorted| ==> Within(cpu, ops[sorted[a]], ops[sorted[b]])
  }

  ghost predicate Within(cpu: Cpu, x: Operand, y: Operand) {
    x.constraint != "" && y.constraint != "" &&
    forall r: nat, q: nat :: Serves(cpu, Letter(x), r) && Serves(cpu, Letter(y), r) && Serves(cpu, Letter(x), q) ==>
      Serves(cpu, Letter(y), q)
  }

  lemma TakenFree(taken: Taken, r: nat, mask: set<Role>, q: nat)
    requires r < REGS && q < REGS && mask != {}
    ensures Free(Take(taken, Register(r), mask), q, mask) <==> Free(taken, q, mask) && q != r
  {
    if q == r {
      var m :| m in mask;
      assert m in Take(taken, Register(r), mask)[q] * mask;
    }
  }

  /** If the operand at place n takes register r instead of its own in f, whoever had r can have that one. */
  lemma Exchange(cpu: Cpu, ops: seq<Operand>, sorted: seq<int>, n: nat, taken: Taken, mask: set<Role>, f: seq<nat>,
        r: nat)
    returns (g: seq<nat>)
    requires InRange(sorted, |ops|) && n < |sorted| && mask != {} && Laminar(cpu, ops, sorted, n)
    requires Serving(cpu, ops, sorted, n, taken, mask, f) && ServedBy(cpu, ops[sorted[n]], taken, mask, r)
    ensures Serving(cpu, ops, sorted, n + 1, Take(taken, Register(r), mask), mask, g)
  {
    g := f;
    if b :| n < b < |f| && f[b] == r {
      g := f[b := f[n]];
      assert Within(cpu, ops[sorted[n]], ops[sorted[b]]);
      assert ServedBy(cpu, ops[sorted[n]], taken, mask, f[n]) && ServedBy(cpu, ops[sorted[b]], taken, mask, f[b]);
    }
    forall a | n < a < |g| ensures ServedBy(cpu, ops[sorted[a]], Take(taken, Register(r), mask), mask, g[a]) {
      assert ServedBy(cpu, ops[sorted[a]], taken, mask, f[a]);
      TakenFree(taken, r, mask, g[a]);
    }
  }

  /** The remaining operands do not notice. */
  lemma RestWaits(cpu: Cpu, ops: seq<Operand>, sorted: seq<int>, n: nat, nbOutputs: int, mask: set<Role>, x: Operand)
    requires Waiting(cpu, ops, sorted, n, nbOutputs, mask) && n < |sorted|
    ensures Waiting(cpu, ops[sorted[n] := x], sorted, n + 1, nbOutputs, mask)
    ensures forall a :: n < a < |sorted| ==> ops[sorted[n] := x][sorted[a]] == ops[sorted[a]]
  {
  }

  /** First fit succeeds if anything does. */
  lemma {:induction false} Succeeds(cpu: Cpu, ops: seq<Operand>, sorted: seq<int>, n: nat, nbOutputs: int,
        taken: Taken, mask: set<Role>, f: seq<nat>)
    requires Waiting(cpu, ops, sorted, n, nbOutputs, mask) && Laminar(cpu, ops, sorted, n) && mask != {}
    requires Serving(cpu, ops, sorted, n, taken, mask, f)
    ensures AllocateFrom(cpu, ops, sorted, n, nbOutputs, taken).Some?
    decreases |sorted| - n
  {
    if n < |sorted| {
      var j := sorted[n];
      assert ServedBy(cpu, ops[j], taken, mask, f[n]);
      PlaceLetter(cpu, ops[j], j, nbOutputs, taken, mask, f[n]);
      var place := Place(cpu, ops[j], j, nbOutputs, taken).value;
      var after, taken' := Settle(ops[j], place.0).(isRw := place.2), Take(taken, place.0, mask);
      var g := Exchange(cpu, ops, sorted, n, taken, mask, f, place.0.reg);
      AllocatePlaces(cpu, ops, sorted, n, nbOutputs, taken, after, taken');
      RestWaits(cpu, ops, sorted, n, nbOutputs, mask, after);
      Succeeds(cpu, ops[j := after], sorted, n + 1, nbOutputs, taken', mask, g);
    }
  }

  /** What first fit finds is such an assignment. */
  lemma {:induction false} Finds(cpu: Cpu, ops: seq<Operand>, sorted: seq<int>, n: nat, nbOutputs: int, taken: Taken,
        mask: set<Role>)
    returns (f: seq<nat>)
    requires Waiting(cpu, ops, sorted, n, nbOutputs, mask) && mask != {}
    requires AllocateFrom(cpu, ops, sorted, n, nbOutputs, taken).Some?
    ensures Serving(cpu, ops, sorted, n, taken, mask, f)
    decreases |sorted| - n
  {
    if n == |sorted| {
      f := seq(|sorted|, _ => 0);
    } else {
      var j := sorted[n];
      var r: nat :| Serves(cpu, Letter(ops[j]), r);
      PlaceLetter(cpu, ops[j], j, nbOutputs, taken, mask, r);
      if Place(cpu, ops[j], j, nbOutputs, taken).None? { AllocateFails(cpu, ops, sorted, n, nbOutputs, taken); }
      var place := Place(cpu, ops[j], j, nbOutputs, taken).value;
      var after, taken' := Settle(ops[j], place.0).(isRw := place.2), Take(taken, place.0, mask);
      AllocatePlaces(cpu, ops, sorted, n, nbOutputs, taken, after, taken');
      RestWaits(cpu, ops, sorted, n, nbOutputs, mask, after);
      f := Finds(cpu, ops[j := after], sorted, n + 1, nbOutputs, taken', mask);
      f := Extended(cpu, ops, sorted, n, taken, mask, after, place.0.reg, f);
    }
  }

  lemma Extended(cpu: Cpu, ops: seq<Operand>, sorted: seq<int>, n: nat, taken: Taken, mask: set<Role>, x: Operand,
        r: nat, f: seq<nat>)
    returns (g: seq<nat>)
    requires InRange(sorted, |ops|) && Distinct(sorted) && n < |sorted| && mask != {}
    requires ServedBy(cpu, ops[sorted[n]], taken, mask, r)
    requires Serving(cpu, ops[sorted[n] := x], sorted, n + 1, Take(taken, Register(r), mask), mask, f)
    ensures Serving(cpu, ops, sorted, n, taken, mask, g)
  {
    g := f[n := r];
    forall a | n < a < |g| ensures g[a] != r && ServedBy(cpu, ops[sorted[a]], taken, mask, g[a]) {
      assert ServedBy(cpu, ops[sorted[n] := x][sorted[a]], Take(taken, Register(r), mask), mask, f[a]);
      TakenFree(taken, r, mask, f[a]);
    }
  }

  // ---- Optimality ----

  /** Registers, one for each operand, that suit the letters and are neither reserved nor given twice. */
  ghost predicate Assignment(cpu: Cpu, ops: seq<Operand>, clobbered: seq<bool>, f: seq<nat>)
    requires |clobbered| == REGS
  {
    |f| == |ops| &&
    (forall k :: 0 <= k < |f| ==>
      ops[k].constraint != "" && Serves(cpu, Letter(ops[k]), f[k]) && !Reserved(cpu, clobbered, f[k])) &&
    forall k, l :: 0 <= k < l < |f| ==> f[k] != f[l]
  }

  lemma UnclaimedFree(cpu: Cpu, clobbered: seq<bool>, r: nat, mask: set<Role>)
    requires |clobbered| == REGS && r < REGS && mask != {}
    ensures Free(Unclaimed(cpu, clobbered), r, mask) <==> !Reserved(cpu, clobbered, r)
  {
    var m :| m in mask;
    assert m in BOTH by { if m == In { } }
    assert m in BOTH * mask;
  }

  /** In the order of the operands, and in the order of service. */
  lemma InOrder(cpu: Cpu, ops: seq<Operand>, sorted: seq<int>, pos: seq<int>, clobbered: seq<bool>, mask: set<Role>,
        f: seq<nat>)
    returns (g: seq<nat>)
    requires |clobbered| == REGS && |sorted| == |ops| && Inverse(sorted, pos) && mask != {}
    requires Assignment(cpu, ops, clobbered, f)
    ensures Serving(cpu, ops, sorted, 0, Unclaimed(cpu, clobbered), mask, g)
  {
    g := seq(|sorted|, a requires 0 <= a < |sorted| => f[sorted[a]]);
    forall a | 0 <= a < |g| ensures ServedBy(cpu, ops[sorted[a]], Unclaimed(cpu, clobbered), mask, g[a]) {
      UnclaimedFree(cpu, clobbered, g[a], mask);
    }
    forall a, b | 0 <= a < b < |g| ensures g[a] != g[b] {
      assert pos[sorted[a]] == a && pos[sorted[b]] == b;
    }
  }

  lemma OutOfOrder(cpu: Cpu, ops: seq<Operand>, sorted: seq<int>, pos: seq<int>, clobbered: seq<bool>,
        mask: set<Role>, g: seq<nat>)
    returns (f: seq<nat>)
    requires |clobbered| == REGS && |sorted| == |ops| && Inverse(sorted, pos) && mask != {}
    requires Serving(cpu, ops, sorted, 0, Unclaimed(cpu, clobbered), mask, g)
    ensures Assignment(cpu, ops, clobbered, f)
  {
    f := seq(|ops|, k requires 0 <= k < |ops| => g[pos[k]]);
    forall k | 0 <= k < |f|
      ensures ops[k].constraint != "" && Serves(cpu, Letter(ops[k]), f[k]) && !Reserved(cpu, clobbered, f[k])
    {
      assert sorted[pos[k]] == k;
      assert ServedBy(cpu, ops[sorted[pos[k]]], Unclaimed(cpu, clobbered), mask, g[pos[k]]);
      UnclaimedFree(cpu, clobbered, f[k], mask);
    }
    forall k, l | 0 <= k < l < |f| ensures f[k] != f[l] {
      assert sorted[pos[k]] == k && sorted[pos[l]] == l;
    }
  }

  /** The preparation leaves such operands untied, and with the priority of their letter. */
  lemma AskingWaits(cpu: Cpu, ops: seq<Operand>, nbOutputs: int, mask: set<Role>, k: int)
    requires Prepared(cpu, ops, nbOutputs) && OneRole(cpu, ops, nbOutputs, mask) && 0 <= k < |ops|
    ensures Waits(cpu, ops[k], k, nbOutputs, mask) && ops[k].priority == LetterPriority(cpu, Letter(ops[k]))
  {
    var op := ops[k];
    assert PreparedOne(cpu, ops, nbOutputs, k) && Asking(cpu, op, k, nbOutputs, mask);
    LetterFirst(cpu, op);
    assert op.constraint[Skip(op.constraint)..] == [Letter(op)];
    var x := op.inputIndex;
    if x >= 0 {
      assert PreparedOne(cpu, ops, nbOutputs, x) && Asking(cpu, ops[x], x, nbOutputs, mask);
      LetterFirst(cpu, ops[x]);
    }
    assert [Letter(op)][0] == Letter(op);
  }

  lemma LetterFirst(cpu: Cpu, op: Operand)
    requires OneRegister(cpu, op)
    ensures !IsRef(op) && LetterPriority(cpu, Letter(op)) >= 0
  {
  }

  lemma OrderLaminar(cpu: Cpu, ops: seq<Operand>, sorted: seq<int>, pos: seq<int>, nbOutputs: int, mask: set<Role>)
    requires Prepared(cpu, ops, nbOutputs) && Ordered(ops, sorted, pos) && OneRole(cpu, ops, nbOutputs, mask)
    ensures Waiting(cpu, ops, sorted, 0, nbOutputs, mask) && Laminar(cpu, ops, sorted, 0)
  {
    forall a | 0 <= a < |sorted| ensures Waits(cpu, ops[sorted[a]], sorted[a], nbOutputs, mask) {
      AskingWaits(cpu, ops, nbOutputs, mask, sorted[a]);
    }
    forall a, b | 0 <= a < b < |sorted| ensures sorted[a] != sorted[b] {
      assert pos[sorted[a]] == a && pos[sorted[b]] == b;
    }
    forall a, b | 0 <= a < b < |sorted| ensures Within(cpu, ops[sorted[a]], ops[sorted[b]]) {
      AskingWaits(cpu, ops, nbOutputs, mask, sorted[a]);
      AskingWaits(cpu, ops, nbOutputs, mask, sorted[b]);
      PriorityWithin(cpu, ops[sorted[a]], ops[sorted[b]]);
    }
  }

  lemma PriorityWithin(cpu: Cpu, x: Operand, y: Operand)
    requires x.constraint != "" && y.constraint != ""
    requires LetterPriority(cpu, Letter(x)) <= LetterPriority(cpu, Letter(y))
    ensures Within(cpu, x, y)
  {
    forall r: nat, q: nat | Serves(cpu, Letter(x), r) && Serves(cpu, Letter(y), r) && Serves(cpu, Letter(x), q)
      ensures Serves(cpu, Letter(y), q)
    {
      Nested(cpu, Letter(x), Letter(y), r, q);
    }
  }

  /** Some way to give each operand a register of its own. */
  ghost predicate Assignable(cpu: Cpu, ops: seq<Operand>, clobbered: seq<bool>)
    requires |clobbered| == REGS
  {
    exists f :: Assignment(cpu, ops, clobbered, f)
  }

  /** First fit in this order finds a place for every operand. */
  ghost predicate Fitted(cpu: Cpu, ops: seq<Operand>, sorted: seq<int>, nbOutputs: int, clobbered: seq<bool>)
    requires |clobbered| == REGS && InRange(sorted, |ops|)
  {
    AllocateFrom(cpu, ops, sorted, 0, nbOutputs, Unclaimed(cpu, clobbered)).Some?
  }

  lemma SomeRole(cpu: Cpu, ops: seq<Operand>, nbOutputs: int, mask: set<Role>)
    requires OneRole(cpu, ops, nbOutputs, mask) && ops != []
    ensures mask != {}
  {
    assert Asking(cpu, ops[0], 0, nbOutputs, mask);
    assert In in BOTH;
  }

  lemma FittedAssignable(cpu: Cpu, ops: seq<Operand>, sorted: seq<int>, pos: seq<int>, nbOutputs: int,
        clobbered: seq<bool>, mask: set<Role>)
    requires |clobbered| == REGS && |sorted| == |ops| && Inverse(sorted, pos) && mask != {}
    requires Waiting(cpu, ops, sorted, 0, nbOutputs, mask) && Fitted(cpu, ops, sorted, nbOutputs, clobbered)
    ensures Assignable(cpu, ops, clobbered)
  {
    var g := Finds(cpu, ops, sorted, 0, nbOutputs, Unclaimed(cpu, clobbered), mask);
    var f := OutOfOrder(cpu, ops, sorted, pos, clobbered, mask, g);
  }

  lemma AssignableFitted(cpu: Cpu, ops: seq<Operand>, sorted: seq<int>, pos: seq<int>, nbOutputs: int,
        clobbered: seq<bool>, mask: set<Role>)
    requires |clobbered| == REGS && |sorted| == |ops| && Inverse(sorted, pos) && mask != {}
    requires Waiting(cpu, ops, sorted, 0, nbOutputs, mask) && Laminar(cpu, ops, sorted, 0)
    requires Assignable(cpu, ops, clobbered)
    ensures Fitted(cpu, ops, sorted, nbOutputs, clobbered)
  {
    var f :| Assignment(cpu, ops, clobbered, f);
    var g := InOrder(cpu, ops, sorted, pos, clobbered, mask, f);
    Succeeds(cpu, ops, sorted, 0, nbOutputs, Unclaimed(cpu, clobbered), mask, g);
  }

  /** Registers are found for all operands exactly when there is some way to give each one of its own. */
  lemma FirstFitOptimal(cpu: Cpu, ops: seq<Operand>, sorted: seq<int>, pos: seq<int>, nbOutputs: int,
        clobbered: seq<bool>, mask: set<Role>)
    requires |clobbered| == REGS && Prepared(cpu, ops, nbOutputs) && Ordered(ops, sorted, pos)
    requires OneRole(cpu, ops, nbOutputs, mask)
    ensures Fitted(cpu, ops, sorted, nbOutputs, clobbered) <==> Assignable(cpu, ops, clobbered)
  {
    if ops == [] {
      NothingToFit(cpu, ops, sorted, nbOutputs, clobbered);
    } else {
      SomeRole(cpu, ops, nbOutputs, mask);
      OrderLaminar(cpu, ops, sorted, pos, nbOutputs, mask);
      if Fitted(cpu, ops, sorted, nbOutputs, clobbered) {
        FittedAssignable(cpu, ops, sorted, pos, nbOutputs, clobbered, mask);
      } else if Assignable(cpu, ops, clobbered) {
        AssignableFitted(cpu, ops, sorted, pos, nbOutputs, clobbered, mask);
      }
    }
  }

  lemma NothingToFit(cpu: Cpu, ops: seq<Operand>, sorted: seq<int>, nbOutputs: int, clobbered: seq<bool>)
    requires |clobbered| == REGS && ops == [] && sorted == []
    ensures Fitted(cpu, ops, sorted, nbOutputs, clobbered) && Assignable(cpu, ops, clobbered)
  {
    assert Assignment(cpu, ops, clobbered, []);
  }

  lemma {:induction false} ValuesKept(cpu: Cpu, ops: seq<Operand>, sorted: seq<int>, n: nat, nbOutputs: int,
        taken: Taken)
    requires n <= |sorted| && InRange(sorted, |ops|) && AllocateFrom(cpu, ops, sorted, n, nbOutputs, taken).Some?
    ensures var r := AllocateFrom(cpu, ops, sorted, n, nbOutputs, taken).value.0;
            forall k :: 0 <= k < |ops| ==> r[k].value == ops[k].value
    decreases |sorted| - n
  {
    if n < |sorted| {
      var j := sorted[n];
      if ops[j].refIndex >= 0 {
        ValuesKept(cpu, ops, sorted, n + 1, nbOutputs, taken);
      } else if Place(cpu, ops[j], j, nbOutputs, taken).Some? {
        var (choice, mask, rw) := Place(cpu, ops[j], j, nbOutputs, taken).value;
        var after, taken' := Settle(ops[j], choice).(isRw := rw), Take(taken, choice, mask);
        AllocatePlaces(cpu, ops, sorted, n, nbOutputs, taken, after, taken');
        ValuesKept(cpu, Assigned(ops, j, after), sorted, n + 1, nbOutputs, taken');
      }
    }
  }

  /** The whole allocation, if no register is needed to store outputs through pointers. */
  lemma AllocationOptimal(cpu: Cpu, ops: seq<Operand>, sorted: seq<int>, pos: seq<int>, nbOutputs: int,
        clobbered: seq<bool>, mask: set<Role>)
    requires |clobbered| == REGS && Prepared(cpu, ops, nbOutputs) && Ordered(ops, sorted, pos)
    requires OneRole(cpu, ops, nbOutputs, mask) && forall k :: 0 <= k < |ops| ==> !ops[k].value.LocalPointer?
    ensures Allocatable(cpu, ops, sorted, nbOutputs, clobbered) <==> Assignable(cpu, ops, clobbered)
  {
    FirstFitOptimal(cpu, ops, sorted, pos, nbOutputs, clobbered, mask);
    var r := AllocateFrom(cpu, ops, sorted, 0, nbOutputs, Unclaimed(cpu, clobbered));
    if r.Some? {
      ValuesKept(cpu, ops, sorted, 0, nbOutputs, Unclaimed(cpu, clobbered));
      forall k | 0 <= k < |ops| ensures !NeedsOutReg(r.value.0[k]) {
        assert r.value.0[k].value == ops[k].value;
      }
    }
  }

  lemma OneLetter(op: Operand, r: nat)
    requires op.constraint == "r" || op.constraint == "a"
    requires !op.value.RegisterVariable? && r < 8 && (op.constraint == "a" ==> r == 0)
    ensures OneRegister(I386, op) && Serves(I386, Letter(op), r) && !Asks(op.constraint) && !IsRef(op)
  {
    var c := op.constraint;
    assert c[0] == 'r' || c[0] == 'a';
    assert |c| == 1 && Letter(op) == c[0] && Skip(c) == 0;
    assert Serves(I386, Letter(op), r);
  }

  /** An "r" and an "a", both inputs. */
  predicate GeneralThenFixed(ops: seq<Operand>) {
    |ops| == 2 && ops[0].constraint == "r" && ops[1].constraint == "a" && ops[0].value == ops[1].value == Elsewhere
  }

  lemma BothAsk(ops: seq<Operand>)
    requires GeneralThenFixed(ops) && Prepared(I386, ops, 0)
    ensures OneRole(I386, ops, 0, {In})
  {
    OneLetter(ops[0], 1);
    OneLetter(ops[1], 0);
    assert PreparedOne(I386, ops, 0, 0) && PreparedOne(I386, ops, 0, 1);
    forall k | 0 <= k < 2 ensures Asking(I386, ops[k], k, 0, {In}) {
      assert ops[k].inputIndex < 0;
    }
  }

  /** asm("" :: "r"(x), "a"(y)): "a" gets eax although it comes second. */
  lemma FixedAfterGeneral(ops: seq<Operand>, sorted: seq<int>, pos: seq<int>, clobbered: seq<bool>)
    requires GeneralThenFixed(ops) && Prepared(I386, ops, 0) && Ordered(ops, sorted, pos)
    requires NothingClobbered(clobbered)
    ensures Allocatable(I386, ops, sorted, 0, clobbered)
  {
    BothAsk(ops);
    OneLetter(ops[0], 1);
    OneLetter(ops[1], 0);
    AllocationOptimal(I386, ops, sorted, pos, 0, clobbered, {In});
    assert Assignment(I386, ops, clobbered, [1, 0]);
  }
}
