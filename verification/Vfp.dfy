/** The allocator of VFP registers s0-s15 for floating-point arguments. */
module Vfp {

  /** A floating-point value or homogeneous aggregate, as type_size reports it. */
  datatype Request = Request(align: nat, size: nat)

  predicate WellFormed(q: Request) {
    q.size > 0 && q.size % 4 == 0 && (q.align >= 8 ==> q.size >= 8)
  }

  /** struct avail_regs: `avail` the holes recorded so far, of which the first `firstHole` are refilled;
      `free` the next register in sequence, or -1. */
  datatype Avail = Avail(avail: seq<int>, firstHole: nat, free: int)

  const ZEROED := Avail([], 0, 0)

  function Take(a: Avail, r: int, n: int): (int, Avail) {
    if r + n <= 16 then (r, a.(free := r + n)) else (-1, a.(free := -1))
  }

  function Assign(a: Avail, q: Request): (r: (int, Avail))
    requires a.firstHole <= |a.avail|
    ensures r.1.firstHole <= |r.1.avail|
  {
    if a.free == -1 then (-1, a)
    else if q.align >= 8 then
      if a.free % 2 == 1 then Take(a.(avail := a.avail + [a.free]), a.free + 1, q.size / 4)
      else Take(a, a.free, q.size / 4)
    else if q.size == 4 && a.firstHole != |a.avail| then (a.avail[a.firstHole], a.(firstHole := a.firstHole + 1))
    else Take(a, a.free, q.size / 4)
  }

  /** The record kept in place; four holes can be recorded, one more than the source's array holds. */
  class AvailRegs {
    var avail: array<int>
    var firstHole: nat
    var lastHole: nat
    var firstFreeReg: int

    ghost predicate Valid()
      reads this, avail
    {
      avail.Length == 4 && firstHole <= lastHole <= 4 && Inv(State())
    }

    ghost function State(): Avail
      requires lastHole <= avail.Length
      reads this, avail
    {
      Avail(avail[..lastHole], firstHole, firstFreeReg)
    }

    constructor ()
      ensures Valid() && State() == ZEROED && fresh(avail)
    {
      avail := new int[4];
      firstHole, lastHole, firstFreeReg := 0, 0, 0;
    }

    method RecordHole(r: int)
      requires avail.Length == 4 && lastHole < 4
      modifies `lastHole, avail
      ensures lastHole == old(lastHole) + 1 && State() == old(State()).(avail := old(State()).avail + [r])
    {
      avail[lastHole] := r;
      lastHole := lastHole + 1;
      assert avail[..lastHole] == old(avail[..lastHole]) + [r];
    }

    method AssignVfpreg(align: nat, size: nat) returns (r: int)
      requires Valid() && WellFormed(Request(align, size))
      modifies this, avail
      ensures Valid() && avail == old(avail)
      ensures (r, State()) == Assign(old(State()), Request(align, size))
    {
      AssignKeepsInv(State(), Request(align, size));
      if firstFreeReg == -1 {
        return -1;
      }
      if align < 8 && size == 4 && firstHole != lastHole {
        firstHole := firstHole + 1;
        return avail[firstHole - 1];
      }
      r := firstFreeReg;
      if align >= 8 && r % 2 == 1 {
        RecordHole(r);
        r := r + 1;
      }
      r := TakeRun(r, size / 4);
    }

    method TakeRun(first: int, n: nat) returns (r: int)
      requires lastHole <= avail.Length
      modifies `firstFreeReg
      ensures (r, State()) == Take(old(State()), first, n)
    {
      r := first;
      if first + n <= 16 {
        firstFreeReg := first + n;
        return;
      }
      firstFreeReg := -1;
      return -1;
    }
  }

  // ---- The rule of section 6.1.2 of AAPCS: the lowest-numbered registers that are free and fit ----

  predicate IsHole(a: Avail, k: int) {
    exists i :: a.firstHole <= i < |a.avail| && a.avail[i] == k
  }

  predicate InUse(a: Avail, k: int) { 0 <= k < a.free && !IsHole(a, k) }

  ghost predicate Fits(a: Avail, r: int, n: int, even: bool) {
    0 <= r && r + n <= 16 && (even ==> r % 2 == 0) && forall k :: r <= k < r + n ==> !InUse(a, k)
  }

  /** What the standard asks of one allocation. */
  ghost predicate Rule(a: Avail, n: int, even: bool, r: int, after: Avail) {
    if r >= 0 then
      Fits(a, r, n, even) && (forall lower :: 0 <= lower < r ==> !Fits(a, lower, n, even)) &&
      after.free != -1 && (forall k :: InUse(after, k) <==> InUse(a, k) || r <= k < r + n)
    else
      r == -1 && after.free == -1 && forall any :: !Fits(a, any, n, even)
  }

  /** Holes are odd registers between registers in use, in increasing order; there is room for four. */
  ghost predicate Inv(a: Avail) {
    a.firstHole <= |a.avail| <= 4 &&
    (a.free == -1 ||
      (0 <= a.free <= 16 && 4 * |a.avail| <= a.free &&
       (forall i :: 0 <= i < |a.avail| ==> a.avail[i] % 2 == 1 && 0 < a.avail[i] < a.free - 2) &&
       (forall i, j :: 0 <= i < j < |a.avail| ==> a.avail[i] < a.avail[j])))
  }

  lemma AssignKeepsInv(a: Avail, q: Request)
    requires Inv(a) && WellFormed(q)
    ensures Inv(Assign(a, q).1)
  {
  }

  lemma HoleNeighbour(a: Avail, k: int)
    requires Inv(a) && 0 <= k < a.free && !InUse(a, k)
    ensures k % 2 == 1 && InUse(a, k + 1)
  {
    var i :| a.firstHole <= i < |a.avail| && a.avail[i] == k;
  }

  /** Below the next register in sequence only a single float finds room. */
  lemma NoRoomBelow(a: Avail, r: int, n: int, even: bool)
    requires Inv(a) && a.free != -1 && r < a.free && n >= 1
    requires even || n >= 2 || a.firstHole == |a.avail|
    requires even ==> n >= 2
    ensures !Fits(a, r, n, even)
  {
    if 0 <= r {
      if !InUse(a, r) { HoleNeighbour(a, r); }
    }
  }

  lemma TakeFollowsRule(a: Avail, b: Avail, n: int, even: bool)
    requires Inv(a) && a.free != -1 && n >= 1 && (even ==> n >= 2)
    requires even || n >= 2 || a.firstHole == |a.avail|
    requires b == if even && a.free % 2 == 1 then a.(avail := a.avail + [a.free]) else a
    ensures var start := if even && a.free % 2 == 1 then a.free + 1 else a.free;
            var (r, after) := Take(b, start, n);
            Rule(a, n, even, r, after)
  {
    var start := if even && a.free % 2 == 1 then a.free + 1 else a.free;
    var after := Take(b, start, n).1;
    forall lower | lower < start ensures !Fits(a, lower, n, even) {
      if lower < a.free { NoRoomBelow(a, lower, n, even); }
    }
    if start + n <= 16 {
      forall k ensures InUse(after, k) <==> InUse(a, k) || start <= k < start + n {
        TakenUse(a, b, start, n, k);
      }
    }
  }

  lemma TakenUse(a: Avail, b: Avail, start: int, n: int, k: int)
    requires Inv(a) && 0 <= a.free && n >= 0
    requires (start == a.free && b == a) || (start == a.free + 1 && b == a.(avail := a.avail + [a.free]))
    ensures InUse(b.(free := start + n), k) <==> InUse(a, k) || start <= k < start + n
  {
    var after := b.(free := start + n);
    if IsHole(a, k) {
      var i :| a.firstHole <= i < |a.avail| && a.avail[i] == k;
      assert after.avail[i] == k;
    }
    if b != a { assert b.avail[|a.avail|] == a.free; }
  }

  lemma RefillFollowsRule(a: Avail)
    requires Inv(a) && a.free != -1 && a.firstHole < |a.avail|
    ensures Rule(a, 1, false, a.avail[a.firstHole], a.(firstHole := a.firstHole + 1))
  {
    var r, after := a.avail[a.firstHole], a.(firstHole := a.firstHole + 1);
    assert IsHole(a, r);
    forall lower | 0 <= lower < r ensures !Fits(a, lower, 1, false) {
      assert InUse(a, lower);
    }
    forall k ensures InUse(after, k) <==> InUse(a, k) || r <= k < r + 1 {
      if IsHole(a, k) && k != r {
        var i :| a.firstHole <= i < |a.avail| && a.avail[i] == k;
        assert after.firstHole <= i;
      }
    }
  }

  /** Holes and a counter are enough: every allocation is the one the standard's search over all registers makes. */
  lemma AssignFollowsRule(a: Avail, q: Request)
    requires Inv(a) && a.free != -1 && WellFormed(q)
    ensures Rule(a, q.size / 4, q.align >= 8, Assign(a, q).0, Assign(a, q).1)
  {
    if q.align < 8 && q.size == 4 && a.firstHole != |a.avail| {
      RefillFollowsRule(a);
    } else {
      TakeFollowsRule(a, if q.align >= 8 && a.free % 2 == 1 then a.(avail := a.avail + [a.free]) else a,
                      q.size / 4, q.align >= 8);
    }
  }

  // ---- Whole argument lists ----

  ghost predicate AllWellFormed(qs: seq<Request>) { forall i :: 0 <= i < |qs| ==> WellFormed(qs[i]) }

  function After(qs: seq<Request>): (a: Avail)
    requires AllWellFormed(qs)
    ensures Inv(a)
    decreases |qs|
  {
    if qs == [] then ZEROED
    else
      var front, q := qs[..|qs| - 1], qs[|qs| - 1];
      AssignKeepsInv(After(front), q);
      Assign(After(front), q).1
  }

  /** The i-th result, a register or -1. */
  function Granted(qs: seq<Request>, i: nat): int
    requires AllWellFormed(qs) && i < |qs|
  {
    Assign(After(qs[..i]), qs[i]).0
  }

  lemma AfterNext(qs: seq<Request>, i: nat)
    requires AllWellFormed(qs) && i < |qs|
    ensures After(qs[..i + 1]) == Assign(After(qs[..i]), qs[i]).1
  {
    assert qs[..i + 1][..i] == qs[..i];
  }

  /** Registers stay in use and a refusal is final. */
  lemma UseStep(a: Avail, q: Request)
    requires Inv(a) && WellFormed(q)
    ensures a.free == -1 ==> Assign(a, q).1.free == -1
    ensures a.free != -1 && Assign(a, q).1.free != -1 ==> forall k :: InUse(a, k) ==> InUse(Assign(a, q).1, k)
  {
    if a.free != -1 { AssignFollowsRule(a, q); }
  }

  lemma {:induction false} UseGrows(qs: seq<Request>, i: nat, j: nat)
    requires AllWellFormed(qs) && i <= j <= |qs|
    ensures After(qs[..i]).free == -1 ==> After(qs[..j]).free == -1
    ensures After(qs[..j]).free != -1 ==> forall k :: InUse(After(qs[..i]), k) ==> InUse(After(qs[..j]), k)
    decreases j
  {
    if i < j {
      var m := j - 1;
      UseGrows(qs, i, m);
      AfterNext(qs, m);
      UseStep(After(qs[..m]), qs[m]);
    }
  }

  /** Over every argument list: a granted run lies in s0-s15, starts even when 8-aligned, and shares no register
      with a later one; once one argument is refused all later ones are. */
  lemma GrantsDisjoint(qs: seq<Request>, i: nat, j: nat)
    requires AllWellFormed(qs) && i < j < |qs|
    ensures var r, n := Granted(qs, i), qs[i].size / 4;
            r == -1 || (0 <= r && r + n <= 16 && (qs[i].align >= 8 ==> r % 2 == 0))
    ensures Granted(qs, i) == -1 ==> Granted(qs, j) == -1
    ensures Granted(qs, j) != -1 ==>
              Granted(qs, i) + qs[i].size / 4 <= Granted(qs, j) || Granted(qs, j) + qs[j].size / 4 <= Granted(qs, i)
  {
    var a, b := After(qs[..i]), After(qs[..j]);
    AfterNext(qs, i);
    UseGrows(qs, i + 1, j);
    if a.free != -1 {
      AssignFollowsRule(a, qs[i]);
      if b.free != -1 {
        AssignFollowsRule(b, qs[j]);
        ApartRuns(a, b, qs[i], qs[j]);
      }
    }
  }

  lemma ApartRuns(a: Avail, b: Avail, p: Request, q: Request)
    requires Inv(a) && Inv(b) && WellFormed(p) && WellFormed(q) && a.free != -1 && b.free != -1
    requires Assign(a, p).1.free != -1 && forall k :: InUse(Assign(a, p).1, k) ==> InUse(b, k)
    requires Rule(a, p.size / 4, p.align >= 8, Assign(a, p).0, Assign(a, p).1)
    requires Rule(b, q.size / 4, q.align >= 8, Assign(b, q).0, Assign(b, q).1)
    ensures Assign(b, q).0 != -1 ==>
              Assign(a, p).0 + p.size / 4 <= Assign(b, q).0 || Assign(b, q).0 + q.size / 4 <= Assign(a, p).0
  {
    var r, s, n, m := Assign(a, p).0, Assign(b, q).0, p.size / 4, q.size / 4;
    forall k | r <= k < r + n ensures InUse(b, k) {
      assert InUse(Assign(a, p).1, k);
    }
    assert r <= s < r + n ==> InUse(b, s);
    assert s <= r < s + m ==> InUse(b, r);
  }

  // ---- When three holes are enough ----

  /** The branch that records a hole is taken with three of them recorded. */
  predicate OneHoleMore(a: Avail, q: Request) {
    |a.avail| == 3 && q.align >= 8 && a.free != -1 && a.free % 2 == 1
  }

  lemma FourthHole(a: Avail, q: Request)
    requires Inv(a) && WellFormed(q)
    ensures |Assign(a, q).1.avail| <= 3 <==> |a.avail| <= 3 && !OneHoleMore(a, q)
  {
  }

  predicate OneHoleMoreAt(qs: seq<Request>, i: nat)
    requires AllWellFormed(qs) && i < |qs|
  {
    OneHoleMore(After(qs[..i]), qs[i])
  }

  ghost predicate NoFourthHole(qs: seq<Request>, n: nat)
    requires AllWellFormed(qs) && n <= |qs|
  {
    forall i: nat :: i < n ==> !OneHoleMoreAt(qs, i)
  }

  lemma NoFourthHoleNext(qs: seq<Request>, n: nat)
    requires AllWellFormed(qs) && n < |qs|
    ensures NoFourthHole(qs, n + 1) <==> NoFourthHole(qs, n) && !OneHoleMoreAt(qs, n)
  {
    var m := n + 1;
    if NoFourthHole(qs, n) && !OneHoleMoreAt(qs, n) {
      forall i: nat | i < m ensures !OneHoleMoreAt(qs, i) { }
    }
  }

  lemma {:induction false} HolesUpTo(qs: seq<Request>, n: nat)
    requires AllWellFormed(qs) && n <= |qs|
    ensures |After(qs[..n]).avail| <= 3 <==> NoFourthHole(qs, n)
    decreases n
  {
    if n > 0 {
      var m := n - 1;
      HolesUpTo(qs, m);
      NoFourthHoleNext(qs, m);
      AfterNext(qs, m);
      FourthHole(After(qs[..m]), qs[m]);
    } else {
      assert qs[..0] == [];
    }
  }

  /** Over every argument list: the three elements that the source declares are enough exactly when no 8-aligned
      argument comes with three holes recorded and an odd register next. */
  lemma HolesExact(qs: seq<Request>)
    requires AllWellFormed(qs)
    ensures |After(qs).avail| <= 3 <==> NoFourthHole(qs, |qs|)
  {
    HolesUpTo(qs, |qs|);
    assert qs[..|qs|] == qs;
  }

  /** The fourth hole is s13 or s15, and only a double after s13 still finds room behind it. */
  lemma FourthHoleLate(a: Avail, q: Request)
    requires Inv(a) && WellFormed(q) && OneHoleMore(a, q)
    ensures a.free == 13 || a.free == 15
    ensures Assign(a, q).1.avail == a.avail + [a.free]
    ensures Assign(a, q).0 == if a.free == 13 && q.size == 8 then 14 else -1
  {
  }

  /** Alternating floats and doubles record a fourth hole, past the three elements the source declares. */
  lemma FourHoles(f: Request, d: Request)
    requires f == Request(4, 4) && d == Request(8, 8)
    ensures var two := Assign(Assign(ZEROED, f).1, d).1;
            var four := Assign(Assign(Assign(two, f).1, f).1, d).1;
            var six := Assign(Assign(Assign(four, f).1, f).1, d).1;
            var eight := Assign(Assign(Assign(six, f).1, f).1, d);
            eight.0 == 14 && eight.1.avail == [1, 5, 9, 13]
  {
    var two := Assign(Assign(ZEROED, f).1, d).1;
    assert two == Avail([1], 0, 4);
    var four := Assign(Assign(Assign(two, f).1, f).1, d).1;
    assert four == Avail([1, 5], 1, 8);
    var six := Assign(Assign(Assign(four, f).1, f).1, d).1;
    assert six == Avail([1, 5, 9], 2, 12);
  }
}
