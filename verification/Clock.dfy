/** Clock domains: a common period divided by every frequency, and the schedule of
    the domains' ticks within it. */
module Clock {
  import opened Arith

  // ----- greatest common divisor and least common multiple

  ghost predicate Divides(d: nat, a: nat) {
    exists k: nat :: a == Mul(d, k)
  }

  lemma DividesSum(d: nat, a: nat, b: nat, q: nat)
    requires Divides(d, a) && Divides(d, b)
    ensures Divides(d, Mul(a, q) + b)
  {
    var i: nat :| a == Mul(d, i);
    var j: nat :| b == Mul(d, j);
    Regroup(d, i, q);
    Spread(d, Mul(i, q), j);
    Smaller(1, i);
    assert Mul(i, q) >= 0;
    assert Mul(a, q) + b == Mul(d, Mul(i, q) + j);
  }

  lemma DividesRest(d: nat, a: nat, b: nat, q: nat, r: nat)
    requires Divides(d, a) && Divides(d, b) && a == Mul(b, q) + r && b > 0
    ensures Divides(d, r)
  {
    var i: nat :| a == Mul(d, i);
    var j: nat :| b == Mul(d, j);
    Regroup(d, j, q);
    Spread(d, i, Mul(j, q));
    var k := i - Mul(j, q);
    assert r == Mul(d, k);
    assert Mul(0, j) == 0;
    Smaller(d, k);
  }

  /** Euclid's algorithm. */
  function GcdOf(a: nat, b: nat): nat
    decreases b
  {
    if b == 0 then a else GcdOf(b, a % b)
  }

  /** The greatest common divisor: it divides both, and every common divisor divides it. */
  lemma {:induction false} GcdIsGreatest(a: nat, b: nat, d: nat)
    ensures Divides(GcdOf(a, b), a) && Divides(GcdOf(a, b), b)
    ensures Divides(d, a) && Divides(d, b) ==> Divides(d, GcdOf(a, b))
    decreases b
  {
    hide Divides, Mul;
    if b == 0 {
      SelfAndZero(a);
    } else {
      GcdIsGreatest(b, a % b, d);
      DivMod(a, b);
      var g := GcdOf(b, a % b);
      DividesSum(g, b, a % b, a / b);
      if Divides(d, a) && Divides(d, b) {
        DividesRest(d, a, b, a / b, a % b);
      }
    }
  }

  lemma SelfAndZero(a: nat)
    ensures Divides(a, a) && Divides(a, 0)
  {
    assert a == Mul(a, 1) && 0 == Mul(a, 0);
  }

  lemma {:induction false} GcdPositive(a: nat, b: nat)
    requires a > 0 || b > 0
    ensures GcdOf(a, b) > 0
    decreases b
  {
    if b > 0 {
      GcdPositive(b, a % b);
    }
  }

  /** The greatest common divisor is a combination of its arguments. */
  lemma {:induction false} Combination(a: nat, b: nat) returns (x: int, y: int)
    ensures Mul(a, x) + Mul(b, y) == GcdOf(a, b)
    decreases b
  {
    if b == 0 {
      x, y := 1, 0;
    } else {
      var u, v := Combination(b, a % b);
      DivMod(a, b);
      x, y := v, u - Mul(a / b, v);
      Spread(b, u, Mul(a / b, v));
      Regroup(b, a / b, v);
      var q := Mul(b, a / b);
      Spread(v, q, a % b);
      Regroup(v, q, 0);
      Regroup(v, a % b, 0);
      Regroup(v, a, 0);
      assert Mul(a, v) == Mul(q, v) + Mul(a % b, v);
    }
  }

  /** The gcd member: the do-while loop. */
  method Gcd(a0: nat, b0: nat) returns (g: nat)
    requires b0 > 0
    ensures g == GcdOf(a0, b0)
  {
    var a: nat, b: nat := b0, a0 % b0;
    while b != 0
      invariant GcdOf(a, b) == GcdOf(a0, b0)
      decreases b
    {
      a, b := b, a % b;
    }
    g := a;
  }

  function LcmOf(a: nat, b: nat): nat
    requires b > 0
  {
    GcdPositive(a, b);
    Mul(a / GcdOf(a, b), b)
  }

  method Lcm(a: nat, b: nat) returns (m: nat)
    requires b > 0
    ensures m == LcmOf(a, b)
  {
    m := a;
    var g := Gcd(a, b);
    GcdPositive(a, b);
    m := m / g;
    m := m * b;
  }

  lemma ExactQuotient(g: nat, a: nat)
    requires g > 0 && Divides(g, a)
    ensures a == Mul(g, a / g)
  {
    var k: nat :| a == Mul(g, k);
    Exactly(g, k, a);
  }

  /** The least common multiple: both divide it, and it divides every common multiple. */
  lemma {:induction false} LcmIsLeast(a: nat, b: nat, m: nat)
    requires a > 0 && b > 0
    ensures LcmOf(a, b) > 0 && Divides(a, LcmOf(a, b)) && Divides(b, LcmOf(a, b))
    ensures Divides(a, m) && Divides(b, m) ==> Divides(LcmOf(a, b), m)
  {
    var g := GcdOf(a, b);
    GcdPositive(a, b);
    GcdIsGreatest(a, b, 1);
    ExactQuotient(g, a);
    ExactQuotient(g, b);
    LcmMultiples(a, b, g, a / g, b / g);
    if Divides(a, m) && Divides(b, m) {
      var p: nat :| m == Mul(a, p);
      var q: nat :| m == Mul(b, q);
      var x, y := Combination(a, b);
      LcmDivides(a, b, m, g, a / g, p, q, x, y);
    }
  }

  lemma LcmMultiples(a: nat, b: nat, g: nat, i: nat, j: nat)
    requires a > 0 && b > 0 && g > 0 && a == Mul(g, i) && b == Mul(g, j)
    ensures Mul(i, b) > 0 && Divides(a, Mul(i, b)) && Divides(b, Mul(i, b))
  {
    Smaller(g, i);
    Smaller(i, b);
    Regroup(i, b, 0);
    assert Mul(i, b) == Mul(b, i);
    Regroup(i, g, j);
    Regroup(g, i, 0);
    assert Mul(i, b) == Mul(a, j);
  }

  /** m g = m a x + m b y = a b (q x + p y), and g cancels. */
  lemma LcmDivides(a: nat, b: nat, m: nat, g: nat, i: nat, p: nat, q: nat, x: int, y: int)
    requires a > 0 && b > 0 && g > 0 && a == Mul(g, i) && m == Mul(a, p) == Mul(b, q) && Mul(a, x) + Mul(b, y) == g
    ensures Divides(Mul(i, b), m)
  {
    hide Mul;
    var l, k := Mul(i, b), Mul(q, x) + Mul(p, y);
    Spread(m, Mul(a, x), Mul(b, y));
    FourFactors(b, q, a, x);
    FourFactors(a, p, b, y);
    Regroup(a, b, 0);
    Spread(Mul(a, b), Mul(q, x), Mul(p, y));
    assert Mul(m, g) == Mul(Mul(a, b), k);
    Regroup(g, i, b);
    Regroup(g, l, k);
    Regroup(m, g, 0);
    Cancel(g, m, Mul(l, k));
    Smaller(g, i);
    Smaller(i, b);
    Smaller(l, k);
  }

  lemma FourFactors(a: int, b: int, c: int, d: int)
    ensures Mul(Mul(a, b), Mul(c, d)) == Mul(Mul(a, c), Mul(b, d))
  {
    hide Mul;
    Regroup(a, b, Mul(c, d));
    Regroup(b, c, d);
    Regroup(c, b, d);
    Regroup(b, c, 0);
    Regroup(a, c, Mul(b, d));
  }

  // ----- the common period

  predicate AllPositive(freqs: seq<nat>) {
    forall i :: 0 <= i < |freqs| ==> freqs[i] > 0
  }

  function FoldTo(freqs: seq<nat>, n: nat): nat
    requires 1 <= n <= |freqs| && AllPositive(freqs)
  {
    if n == 1 then freqs[0] else LcmOf(FoldTo(freqs, n - 1), freqs[n - 1])
  }

  lemma DividesTrans(a: nat, b: nat, c: nat)
    requires Divides(a, b) && Divides(b, c)
    ensures Divides(a, c)
  {
    var i: nat :| b == Mul(a, i);
    var j: nat :| c == Mul(b, j);
    Regroup(a, i, j);
    assert Mul(i, j) >= 0;
  }

  /** The folded value is the least common multiple of all frequencies. */
  lemma {:induction false} FoldIsLeast(freqs: seq<nat>, n: nat, m: nat)
    requires 1 <= n <= |freqs| && AllPositive(freqs)
    ensures FoldTo(freqs, n) > 0 && forall i :: 0 <= i < n ==> Divides(freqs[i], FoldTo(freqs, n))
    ensures (forall i :: 0 <= i < n ==> Divides(freqs[i], m)) ==> Divides(FoldTo(freqs, n), m)
  {
    hide Divides, LcmOf;
    if n == 1 {
      SelfAndZero(freqs[0]);
    } else {
      var l, f := FoldTo(freqs, n - 1), freqs[n - 1];
      FoldIsLeast(freqs, n - 1, m);
      LcmIsLeast(l, f, m);
      forall i | 0 <= i < n - 1
        ensures Divides(freqs[i], LcmOf(l, f))
      {
        DividesTrans(freqs[i], l, LcmOf(l, f));
      }
    }
  }

  // ----- the schedule

  /** The internal clock, and each domain's ticks so far and next tick. */
  datatype Sched = Sched(internal: nat, count: seq<nat>, next: seq<nat>)

  /** GET_NEXT_CYCLE's quotient. */
  function NextCycle(lcm: nat, count: nat, freq: nat): nat
    requires freq > 0
  {
    Mul(lcm, count) / freq
  }

  predicate Ticks(s: Sched, d: nat) {
    d < |s.next| && s.internal == s.next[d]
  }

  function Start(n: nat): Sched {
    Sched(0, seq(n, _ => 0), seq(n, _ => 0))
  }

  predicate Sized(s: Sched, freqs: seq<nat>) {
    |s.count| == |s.next| == |freqs|
  }

  /** One internal cycle. */
  function After(s: Sched, lcm: nat, freqs: seq<nat>): (r: Sched)
    requires Sized(s, freqs) && AllPositive(freqs)
    ensures Sized(r, freqs)
  {
    if s.internal + 1 == lcm then Start(|freqs|)
    else Sched(s.internal + 1,
               seq(|freqs|, d requires 0 <= d < |freqs| => if Ticks(s, d) then s.count[d] + 1 else s.count[d]),
               seq(|freqs|, d requires 0 <= d < |freqs| =>
                     if Ticks(s, d) then NextCycle(lcm, s.count[d] + 1, freqs[d]) else s.next[d]))
  }

  function RunTo(lcm: nat, freqs: seq<nat>, n: nat): (s: Sched)
    requires AllPositive(freqs)
    ensures Sized(s, freqs)
  {
    if n == 0 then Start(|freqs|) else After(RunTo(lcm, freqs, n - 1), lcm, freqs)
  }

  /** How often the domain has ticked in the first n cycles. */
  function TickCount(lcm: nat, freqs: seq<nat>, d: nat, n: nat): nat
    requires AllPositive(freqs)
  {
    if n == 0 then 0
    else TickCount(lcm, freqs, d, n - 1) + if Ticks(RunTo(lcm, freqs, n - 1), d) then 1 else 0
  }

  /** c is the number of multiples of p below n. */
  predicate Covers(p: nat, n: nat, c: nat) {
    Mul(p, c) - p < n <= Mul(p, c)
  }

  lemma NotAbove(p: nat, n: nat, c: nat, e: nat)
    requires p > 0 && Covers(p, n, c) && Covers(p, n, e)
    ensures c <= e
  {
    hide Mul;
    Spread(p, c, e);
    Spread(p, c - e, 1);
    Unit(p);
    Smaller(p, c - e - 1);
  }

  lemma CoversOnce(p: nat, n: nat, c: nat, e: nat)
    requires p > 0 && Covers(p, n, c) && Covers(p, n, e)
    ensures c == e
  {
    NotAbove(p, n, c, e);
    NotAbove(p, n, e, c);
  }

  /** The domain with period p is on time. */
  predicate OnTime(s: Sched, lcm: nat, d: nat, p: nat) {
    && d < |s.count| && d < |s.next| && s.internal < lcm
    && s.next[d] == Mul(p, s.count[d]) && Covers(p, s.internal, s.count[d])
  }

  lemma NextIsMultiple(lcm: nat, p: nat, freq: nat, c: nat)
    requires freq > 0 && lcm == Mul(p, freq)
    ensures NextCycle(lcm, c, freq) == Mul(p, c)
  {
    hide Mul;
    Regroup(p, freq, c);
    Regroup(freq, c, 0);
    Regroup(p, c, freq);
    Regroup(Mul(p, c), freq, 0);
    assert Mul(lcm, c) == Mul(freq, Mul(p, c));
    Exactly(freq, Mul(p, c), Mul(lcm, c));
  }

  lemma OneCycle(s: Sched, lcm: nat, freqs: seq<nat>, d: nat, p: nat)
    requires Sized(s, freqs) && AllPositive(freqs) && d < |freqs| && p > 0 && lcm == Mul(p, freqs[d])
    requires OnTime(s, lcm, d, p)
    ensures OnTime(After(s, lcm, freqs), lcm, d, p)
    ensures var ticked := if Ticks(s, d) then 1 else 0;
      var s' := After(s, lcm, freqs);
      if s.internal + 1 == lcm then s'.internal == 0 == s'.count[d] && s.count[d] + ticked == freqs[d]
      else s'.internal == s.internal + 1 && s'.count[d] == s.count[d] + ticked
  {
    hide Mul, NextCycle;
    var c := s.count[d];
    NextIsMultiple(lcm, p, freqs[d], c + 1);
    Spread(p, c, 1);
    Unit(p);
    if s.internal + 1 == lcm {
      CoversOnce(p, lcm, c + if Ticks(s, d) then 1 else 0, freqs[d]);
    }
  }

  /** After n cycles: k whole periods and the part of the current one. */
  lemma {:induction false} RunInvariant(lcm: nat, freqs: seq<nat>, d: nat, p: nat, n: nat) returns (k: nat)
    requires AllPositive(freqs) && d < |freqs| && p > 0 && lcm == Mul(p, freqs[d])
    ensures var s := RunTo(lcm, freqs, n);
      && OnTime(s, lcm, d, p) && n == Mul(lcm, k) + s.internal
      && TickCount(lcm, freqs, d, n) == Mul(freqs[d], k) + s.count[d]
  {
    hide Mul, After, NextCycle;
    if n == 0 {
      k := 0;
      Smaller(p, freqs[d]);
      Unit(p);
      Unit(lcm);
      Unit(freqs[d]);
    } else {
      k := RunInvariant(lcm, freqs, d, p, n - 1);
      var s := RunTo(lcm, freqs, n - 1);
      OneCycle(s, lcm, freqs, d, p);
      if s.internal + 1 == lcm {
        Spread(lcm, k, 1);
        Spread(freqs[d], k, 1);
        Unit(lcm);
        Unit(freqs[d]);
        k := k + 1;
      }
    }
  }

  /** The ticks so far are the multiples of the domain's period so far. */
  lemma TicksCover(lcm: nat, freqs: seq<nat>, d: nat, p: nat, n: nat)
    requires AllPositive(freqs) && d < |freqs| && p > 0 && lcm == Mul(p, freqs[d])
    ensures Covers(p, n, TickCount(lcm, freqs, d, n))
    ensures Ticks(RunTo(lcm, freqs, n), d) <==> n == Mul(p, TickCount(lcm, freqs, d, n))
  {
    hide Mul, RunTo, TickCount;
    var k := RunInvariant(lcm, freqs, d, p, n);
    var s := RunTo(lcm, freqs, n);
    Spread(p, Mul(freqs[d], k), s.count[d]);
    Regroup(p, freqs[d], k);
  }

  /** A domain ticks exactly at the multiples of its period, the common period divided
      by its frequency. */
  lemma TicksAtMultiples(lcm: nat, freqs: seq<nat>, d: nat, p: nat, n: nat)
    requires AllPositive(freqs) && d < |freqs| && p > 0 && lcm == Mul(p, freqs[d])
    ensures Ticks(RunTo(lcm, freqs, n), d) <==> Divides(p, n)
  {
    hide Mul;
    TicksCover(lcm, freqs, d, p, n);
    if Divides(p, n) {
      var k: nat :| n == Mul(p, k);
      CoversOnce(p, n, k, TickCount(lcm, freqs, d, n));
    }
  }

  /** In every stretch of lcm cycles, wherever it begins, each domain ticks as often as
      its frequency says. */
  lemma {:induction false} TicksPerPeriod(freqs: seq<nat>, d: nat, n: nat)
    requires freqs != [] && AllPositive(freqs) && d < |freqs|
    ensures var lcm := FoldTo(freqs, |freqs|);
      TickCount(lcm, freqs, d, n + lcm) == TickCount(lcm, freqs, d, n) + freqs[d]
  {
    hide Mul, FoldTo, TickCount;
    var lcm, f := FoldTo(freqs, |freqs|), freqs[d];
    var p := Period(freqs, d);
    TicksCover(lcm, freqs, d, p, n);
    TicksCover(lcm, freqs, d, p, n + lcm);
    var t := TickCount(lcm, freqs, d, n);
    Spread(p, t, f);
    CoversOnce(p, n + lcm, t + f, TickCount(lcm, freqs, d, n + lcm));
  }

  /** The period of a domain in internal cycles. */
  lemma Period(freqs: seq<nat>, d: nat) returns (p: nat)
    requires freqs != [] && AllPositive(freqs) && d < |freqs|
    ensures p > 0 && FoldTo(freqs, |freqs|) == Mul(p, freqs[d]) && p == FoldTo(freqs, |freqs|) / freqs[d]
  {
    FoldIsLeast(freqs, |freqs|, 0);
    var lcm := FoldTo(freqs, |freqs|);
    ExactQuotient(freqs[d], lcm);
    p := lcm / freqs[d];
    Regroup(freqs[d], p, 0);
    Smaller(freqs[d], p);
  }

  /** With the folded period, the schedule of every domain over every run. */
  lemma {:induction false} EvenlySpaced(freqs: seq<nat>, d: nat, n: nat)
    requires freqs != [] && AllPositive(freqs) && d < |freqs|
    ensures var lcm := FoldTo(freqs, |freqs|); Ticks(RunTo(lcm, freqs, n), d) <==> Divides(lcm / freqs[d], n)
  {
    var p := Period(freqs, d);
    TicksAtMultiples(FoldTo(freqs, |freqs|), freqs, d, p, n);
  }

  // ----- the order in which the cores take their turns

  /** The core whose turn is k-th when core x is first. */
  function Turn(x: nat, k: nat, n: nat): int {
    if x + k < n then x + k else x + k - n
  }

  /** When a core has its turn. */
  function TurnOf(x: nat, d: nat, n: nat): int {
    if d >= x then d - x else d + n - x
  }

  function Rotated(pivot: nat, k: nat, n: nat): (d: nat)
    requires n > 0
  {
    (k + pivot) % n
  }

  lemma TurnIs(pivot: nat, k: nat, n: nat)
    requires k < n
    ensures Rotated(pivot, k, n) == Turn(pivot % n, k, n) && pivot % n < n
  {
    hide Mul;
    DivMod(pivot, n);
    var q, x := pivot / n, pivot % n;
    if x + k < n {
      RemainderIs(k + pivot, n, q, x + k);
    } else {
      Spread(n, q, 1);
      Unit(n);
      RemainderIs(k + pivot, n, q + 1, x + k - n);
    }
  }

  class Domains {
    const cores: nat
    const freqs: seq<nat>     // the cores, then LLC, NOC, MC and IO
    const lcm: nat
    const count: array<nat>
    const next: array<nat>
    var internal: nat

    ghost predicate Valid()
      reads this
    {
      && |freqs| == cores + 4 && AllPositive(freqs) && lcm == FoldTo(freqs, |freqs|)
      && count != next && count.Length == next.Length == |freqs|
    }

    ghost function View(): Sched
      reads this, count, next
    {
      Sched(internal, count[..], next[..])
    }

    /** init_clock_domain, from the integer frequencies on. */
    constructor (coreFreqs: seq<nat>, llc: nat, noc: nat, mc: nat, io: nat)
      requires AllPositive(coreFreqs + [llc, noc, mc, io])
      ensures Valid() && freqs == coreFreqs + [llc, noc, mc, io] && View() == Start(|freqs|)
      ensures fresh(count) && fresh(next)
    {
      var fs := coreFreqs + [llc, noc, mc, io];
      var m := fs[0];
      var i := 1;
      while i < |fs|
        invariant 1 <= i <= |fs| && m == FoldTo(fs, i)
      {
        m := Lcm(m, fs[i]);
        i := i + 1;
      }
      cores, freqs, lcm, internal := |coreFreqs|, fs, m, 0;
      count := new nat[|fs|](_ => 0);
      next := new nat[|fs|](_ => 0);
    }

    /** The schedule with only the domains of `done` having had their turn. */
    ghost predicate Reached(s: Sched, done: set<nat>)
      requires Valid() && Sized(s, freqs)
      reads this, count, next
    {
      && internal == s.internal
      && forall d :: 0 <= d < |freqs| ==>
           if d in done && Ticks(s, d)
           then count[d] == s.count[d] + 1 && next[d] == NextCycle(lcm, s.count[d] + 1, freqs[d])
           else count[d] == s.count[d] && next[d] == s.next[d]
    }

    /** One domain's turn: it runs, and GET_NEXT_CYCLE, if its next cycle is this one. */
    method TakeTurn(d: nat, ghost s: Sched, ghost done: set<nat>) returns (ticked: bool)
      requires Valid() && Sized(s, freqs) && d < |freqs| && Reached(s, done) && d !in done
      modifies count, next
      ensures Reached(s, done + {d}) && ticked == Ticks(s, d)
    {
      hide NextCycle, FoldTo;
      ticked := internal == next[d];
      if ticked {
        count[d] := count[d] + 1;
        next[d] := NextCycle(lcm, count[d], freqs[d]);
      }
    }

    /** The turns of the shared domains: IO, NOC, LLC and MC. */
    method TickShared(ghost s: Sched) returns (ticked: set<nat>, ghost done: set<nat>)
      requires Valid() && Sized(s, freqs) && Reached(s, {})
      modifies count, next
      ensures Reached(s, done) && forall d :: d in ticked <==> d in done && Ticks(s, d)
      ensures forall d: nat :: d in done <==> cores <= d < cores + 4
    {
      hide NextCycle, FoldTo;
      done, ticked := {}, {};
      var shared := [cores + 3, cores + 1, cores, cores + 2];
      for i := 0 to 4
        invariant Reached(s, done)
        invariant forall d: nat :: d in done <==> exists k :: 0 <= k < i && shared[k] == d
        invariant forall d :: d in ticked <==> d in done && Ticks(s, d)
      {
        var t := TakeTurn(shared[i], s, done);
        done := done + {shared[i]};
        if t {
          ticked := ticked + {shared[i]};
        }
      }
      assert shared[0] == cores + 3 && shared[1] == cores + 1 && shared[2] == cores && shared[3] == cores + 2;
    }

    /** The turns of the cores, from the pivot on. */
    method TickCores(pivot: nat, ghost s: Sched, shared: set<nat>, ghost before: set<nat>)
      returns (ticked: set<nat>, ghost done: set<nat>)
      requires Valid() && Sized(s, freqs) && Reached(s, before)
      requires forall d: nat :: d in before <==> cores <= d < cores + 4
      requires forall d :: d in shared <==> d in before && Ticks(s, d)
      modifies count, next
      ensures Reached(s, done) && forall d :: d in ticked <==> d in done && Ticks(s, d)
      ensures forall d: nat :: d in done <==> d < cores + 4
    {
      hide NextCycle, FoldTo, Rotated;
      done, ticked := before, shared;
      ghost var x := if cores == 0 then 0 else pivot % cores;
      for k := 0 to cores
        invariant Reached(s, done)
        invariant forall d: nat :: d in done <==> cores <= d < cores + 4 || (d < cores && TurnOf(x, d, cores) < k)
        invariant forall d :: d in ticked <==> d in done && Ticks(s, d)
      {
        var d := Rotated(pivot, k, cores);
        TurnIs(pivot, k, cores);
        var t := TakeTurn(d, s, done);
        done := done + {d};
        if t {
          ticked := ticked + {d};
        }
      }
    }

    /** The step of the internal clock and the reset at the end of a period. */
    method StepClock(ghost s: Sched, ghost done: set<nat>)
      requires Valid() && Sized(s, freqs) && Reached(s, done) && forall d: nat :: d in done <==> d < |freqs|
      modifies this`internal, count, next
      ensures View() == After(s, lcm, freqs)
    {
      hide NextCycle, FoldTo;
      internal := internal + 1;
      if internal == lcm {
        internal := 0;
        for d := 0 to |freqs|
          invariant internal == 0
          invariant forall e :: 0 <= e < d ==> count[e] == 0 && next[e] == 0
        {
          count[d], next[d] := 0, 0;
        }
      }
      assert count[..] == After(s, lcm, freqs).count;
      assert next[..] == After(s, lcm, freqs).next;
    }

    /** The ticking of run_a_cycle. */
    method RunACycle(pivot: nat) returns (ticked: set<nat>)
      requires Valid()
      modifies this`internal, count, next
      ensures Valid() && View() == After(old(View()), lcm, freqs)
      ensures forall d: nat :: d < |freqs| ==> (d in ticked <==> Ticks(old(View()), d))
    {
      hide NextCycle, FoldTo, After;
      ghost var s := View();
      ghost var done;
      ticked, done := TickShared(s);
      ticked, done := TickCores(pivot, s, ticked, done);
      StepClock(s, done);
    }
  }
}