/** The static partition of a set between CPU and GPU lines. */
module CachePartition {
  import opened Lists
  import opened CacheModel

  /** cache_set_c: the ways and the two line counters. */
  datatype CacheSet = CacheSet(lines: seq<Line>, cpu: int, gpu: int)

  /** The number of valid lines of one type among the first n ways. */
  function Count(lines: seq<Line>, gpu: bool, n: nat): nat
    requires n <= |lines|
  {
    if n == 0 then 0
    else Count(lines, gpu, n - 1) + if lines[n - 1].valid && lines[n - 1].gpu == gpu then 1 else 0
  }

  function Quota(assoc: nat, cpuQuota: int, gpu: bool): int {
    if gpu then assoc - cpuQuota else cpuQuota
  }

  function Counter(s: CacheSet, gpu: bool): int {
    if gpu then s.gpu else s.cpu
  }

  /** The scan for the least recently used line of the type among the first n ways. */
  function OldestOfType(lines: seq<Line>, gpu: bool, n: nat): (r: (Option<nat>, nat))
    requires n <= |lines|
    ensures r.1 <= FOREVER
    ensures r.0.Some? ==>
      r.0.value < n && lines[r.0.value].valid && lines[r.0.value].gpu == gpu && lines[r.0.value].time == r.1
    ensures r.0.None? ==> r.1 == FOREVER
    ensures forall j :: 0 <= j < n && lines[j].valid && lines[j].gpu == gpu ==> r.1 <= lines[j].time
  {
    if n == 0 then (None, FOREVER)
    else
      var (w, t) := OldestOfType(lines, gpu, n - 1);
      var l := lines[n - 1];
      if l.valid && l.gpu == gpu && l.time < t then (Some(n - 1), l.time) else (w, t)
  }

  /** find_replacement_line_from_same_type; None where it gives up with index -1. */
  function SameTypeWay(s: CacheSet, cpuQuota: int, gpu: bool): (w: Option<nat>)
    ensures w.Some? ==> w.value < |s.lines|
  {
    var free := FreeFrom(s.lines, 0);
    if free < |s.lines| && Counter(s, gpu) < Quota(|s.lines|, cpuQuota, gpu) then Some(free)
    else OldestOfType(s.lines, gpu, |s.lines|).0
  }

  /** The way insert_cache takes in this set, with or without a partition. */
  function Choice(partition: bool, cpuQuota: int, s: CacheSet, gpu: bool): (w: Option<nat>)
    requires s.lines != []
    ensures w.Some? ==> w.value < |s.lines|
  {
    if partition then SameTypeWay(s, cpuQuota, gpu) else Some(ReplacementWay(s.lines))
  }

  /** insert_cache into way w: the victim leaves its counter, the new line joins its own. */
  function Replaced(s: CacheSet, w: nat, tag: nat, base: nat, gpu: bool, now: nat): CacheSet
    requires w < |s.lines|
  {
    var gone := s.lines[w];
    var cpu := s.cpu - (if gone.valid && !gone.gpu then 1 else 0) + (if gpu then 0 else 1);
    var gpus := s.gpu - (if gone.valid && gone.gpu then 1 else 0) + (if gpu then 1 else 0);
    CacheSet(Inserted(s.lines, w, tag, base, gpu, now), cpu, gpus)
  }

  /** The counters say how many lines of each type there are. */
  predicate Counted(s: CacheSet) {
    s.cpu == Count(s.lines, false, |s.lines|) && s.gpu == Count(s.lines, true, |s.lines|)
  }

  predicate WithinQuota(s: CacheSet, cpuQuota: int) {
    s.cpu <= cpuQuota && s.gpu <= |s.lines| - cpuQuota
  }

  ghost predicate InTime(s: CacheSet) {
    forall w :: 0 <= w < |s.lines| ==> s.lines[w].time < FOREVER
  }

  ghost predicate Partitioned(s: CacheSet, cpuQuota: int) {
    Counted(s) && WithinQuota(s, cpuQuota) && InTime(s)
  }

  lemma {:induction false} CountUpdate(lines: seq<Line>, w: nat, l: Line, gpu: bool, n: nat)
    requires w < |lines| && n <= |lines|
    ensures n <= w ==> Count(lines[w := l], gpu, n) == Count(lines, gpu, n)
    ensures w < n ==> Count(lines[w := l], gpu, n) + (if lines[w].valid && lines[w].gpu == gpu then 1 else 0)
                      == Count(lines, gpu, n) + (if l.valid && l.gpu == gpu then 1 else 0)
  {
    if n > 0 {
      CountUpdate(lines, w, l, gpu, n - 1);
    }
  }

  /** The two types share the ways; they fill them when there is no free one. */
  lemma {:induction false} CountsShareTheWays(lines: seq<Line>, n: nat)
    requires n <= |lines|
    ensures Count(lines, false, n) + Count(lines, true, n) <= n
    ensures Count(lines, false, n) + Count(lines, true, n) == n <==> forall w :: 0 <= w < n ==> lines[w].valid
  {
    if n > 0 {
      CountsShareTheWays(lines, n - 1);
    }
  }

  lemma {:induction false} CountPositive(lines: seq<Line>, gpu: bool, n: nat)
    requires n <= |lines|
    ensures Count(lines, gpu, n) > 0 <==> exists w :: 0 <= w < n && lines[w].valid && lines[w].gpu == gpu
  {
    if n > 0 {
      CountPositive(lines, gpu, n - 1);
    }
  }

  /** A set within its quotas always has a way for a line of a type, except for a type
      whose quota is nothing: then the search gives up. */
  lemma {:induction false} StuckOnlyWithoutQuota(s: CacheSet, cpuQuota: int, gpu: bool)
    requires Partitioned(s, cpuQuota)
    ensures SameTypeWay(s, cpuQuota, gpu).None? <==> Quota(|s.lines|, cpuQuota, gpu) == 0
  {
    var n, max := |s.lines|, Quota(|s.lines|, cpuQuota, gpu);
    CountsShareTheWays(s.lines, n);
    CountPositive(s.lines, gpu, n);
    var free := FreeFrom(s.lines, 0);
    var (w, t) := OldestOfType(s.lines, gpu, n);
    if Counter(s, gpu) < max {
      assert free < n;
    } else if max > 0 {
      var j :| 0 <= j < n && s.lines[j].valid && s.lines[j].gpu == gpu;
      assert t <= s.lines[j].time < FOREVER;
    }
  }

  /** What is replaced is a free way, while the type has room, or the least recently
      used line of the same type: never a line of the other type. */
  lemma {:induction false} VictimIsOfSameType(s: CacheSet, cpuQuota: int, gpu: bool)
    requires Partitioned(s, cpuQuota) && SameTypeWay(s, cpuQuota, gpu).Some?
    ensures var v := s.lines[SameTypeWay(s, cpuQuota, gpu).value];
      if v.valid then
        && v.gpu == gpu && Counter(s, gpu) == Quota(|s.lines|, cpuQuota, gpu)
        && forall j :: 0 <= j < |s.lines| && s.lines[j].valid && s.lines[j].gpu == gpu ==> v.time <= s.lines[j].time
      else Counter(s, gpu) < Quota(|s.lines|, cpuQuota, gpu)
  {
    CountsShareTheWays(s.lines, |s.lines|);
  }

  lemma ReplacedCounts(s: CacheSet, w: nat, tag: nat, base: nat, gpu: bool, now: nat)
    requires w < |s.lines| && Counted(s)
    ensures Counted(Replaced(s, w, tag, base, gpu, now))
  {
    var l := Line(true, tag, base, now, gpu, s.lines[w].dirty);
    CountUpdate(s.lines, w, l, false, |s.lines|);
    CountUpdate(s.lines, w, l, true, |s.lines|);
  }

  lemma InsertKeepsPartition(s: CacheSet, cpuQuota: int, tag: nat, base: nat, gpu: bool, now: nat)
    requires Partitioned(s, cpuQuota) && now < FOREVER && SameTypeWay(s, cpuQuota, gpu).Some?
    ensures Partitioned(Replaced(s, SameTypeWay(s, cpuQuota, gpu).value, tag, base, gpu, now), cpuQuota)
  {
    hide SameTypeWay, Counted;
    VictimIsOfSameType(s, cpuQuota, gpu);
    ReplacedCounts(s, SameTypeWay(s, cpuQuota, gpu).value, tag, base, gpu, now);
  }

  lemma UseKeepsPartition(s: CacheSet, cpuQuota: int, w: nat, now: nat)
    requires Partitioned(s, cpuQuota) && w < |s.lines| && now < FOREVER
    ensures Partitioned(s.(lines := Used(s.lines, w, now)), cpuQuota)
  {
    var l := s.lines[w].(time := now);
    CountUpdate(s.lines, w, l, false, |s.lines|);
    CountUpdate(s.lines, w, l, true, |s.lines|);
  }

  // ----- runs of accesses and insertions

  datatype Op = Access(tag: nat, now: nat) | Insert(tag: nat, base: nat, gpu: bool, now: nat)

  function Step(s: CacheSet, cpuQuota: int, op: Op): Option<CacheSet> {
    match op
    case Access(tag, now) =>
      var w := Lookup(s.lines, tag);
      Some(if w < |s.lines| then s.(lines := Used(s.lines, w, now)) else s)
    case Insert(tag, base, gpu, now) =>
      var w := SameTypeWay(s, cpuQuota, gpu);
      if w.None? then None else Some(Replaced(s, w.value, tag, base, gpu, now))
  }

  /** An empty set whose counters have the given values. */
  function EmptySet(assoc: nat, cpu: int, gpu: int): CacheSet {
    CacheSet(seq(assoc, _ => EMPTY), cpu, gpu)
  }

  /** The set after a run; None once an insertion has given up. */
  function RunOps(start: CacheSet, cpuQuota: int, ops: seq<Op>): Option<CacheSet> {
    if ops == [] then Some(start)
    else
      var n := |ops| - 1;
      var s := RunOps(start, cpuQuota, ops[..n]);
      if s.None? then None else Step(s.value, cpuQuota, ops[n])
  }

  lemma {:induction false} EmptyCounts(assoc: nat, gpu: bool, n: nat)
    requires n <= assoc
    ensures Count(seq(assoc, _ => EMPTY), gpu, n) == 0
  {
    if n > 0 {
      EmptyCounts(assoc, gpu, n - 1);
    }
  }

  lemma StepKeepsPartition(s: CacheSet, cpuQuota: int, op: Op)
    requires Partitioned(s, cpuQuota) && 0 < cpuQuota < |s.lines| && op.now < FOREVER
    ensures var r := Step(s, cpuQuota, op); r.Some? && Partitioned(r.value, cpuQuota) && |r.value.lines| == |s.lines|
  {
    hide SameTypeWay, Partitioned;
    match op
    case Access(tag, now) =>
      var w := Lookup(s.lines, tag);
      if w < |s.lines| {
        UseKeepsPartition(s, cpuQuota, w, now);
      }
    case Insert(tag, base, gpu, now) =>
      StuckOnlyWithoutQuota(s, cpuQuota, gpu);
      InsertKeepsPartition(s, cpuQuota, tag, base, gpu, now);
  }

  /** With 0 < CPU quota < ways and counters that start at zero, no run ever gives up,
      both types stay within their quotas and the counters stay exact. */
  lemma {:induction false} RunKeepsPartition(assoc: nat, cpuQuota: int, ops: seq<Op>)
    requires 0 < cpuQuota < assoc && forall i :: 0 <= i < |ops| ==> ops[i].now < FOREVER
    ensures var r := RunOps(EmptySet(assoc, 0, 0), cpuQuota, ops);
      r.Some? && Partitioned(r.value, cpuQuota) && |r.value.lines| == assoc
  {
    var start := EmptySet(assoc, 0, 0);
    if ops == [] {
      EmptyCounts(assoc, false, assoc);
      EmptyCounts(assoc, true, assoc);
    } else {
      var n := |ops| - 1;
      RunKeepsPartition(assoc, cpuQuota, ops[..n]);
      StepKeepsPartition(RunOps(start, cpuQuota, ops[..n]).value, cpuQuota, ops[n]);
    }
  }

  /** By how much a counter is off. */
  function Off(s: CacheSet, gpu: bool): int {
    Counter(s, gpu) - Count(s.lines, gpu, |s.lines|)
  }

  lemma StepKeepsOff(s: CacheSet, cpuQuota: int, op: Op, gpu: bool)
    ensures var r := Step(s, cpuQuota, op); r.Some? ==> Off(r.value, gpu) == Off(s, gpu)
  {
    hide SameTypeWay;
    match op
    case Access(tag, now) =>
      var w := Lookup(s.lines, tag);
      if w < |s.lines| {
        CountUpdate(s.lines, w, s.lines[w].(time := now), gpu, |s.lines|);
      }
    case Insert(tag, base, kind, now) =>
      var w := SameTypeWay(s, cpuQuota, kind);
      if w.Some? {
        CountUpdate(s.lines, w.value, Line(true, tag, base, now, kind, s.lines[w.value].dirty), gpu, |s.lines|);
      }
  }

  /** The set's constructor leaves the counters as they are in memory. Whatever they
      are, every run keeps the error: the counters are exact after a run if and only if
      both were zero when the set was empty. */
  lemma {:induction false} CountersStayOff(assoc: nat, cpu: int, gpu: int, cpuQuota: int, ops: seq<Op>)
    ensures var r := RunOps(EmptySet(assoc, cpu, gpu), cpuQuota, ops);
      r.Some? ==> Off(r.value, false) == cpu && Off(r.value, true) == gpu && (Counted(r.value) <==> cpu == 0 == gpu)
  {
    var start := EmptySet(assoc, cpu, gpu);
    if ops == [] {
      EmptyCounts(assoc, false, assoc);
      EmptyCounts(assoc, true, assoc);
    } else {
      var n := |ops| - 1;
      CountersStayOff(assoc, cpu, gpu, cpuQuota, ops[..n]);
      var s := RunOps(start, cpuQuota, ops[..n]);
      if s.Some? {
        StepKeepsOff(s.value, cpuQuota, ops[n], false);
        StepKeepsOff(s.value, cpuQuota, ops[n], true);
      }
    }
  }

  // ----- invalidation

  /** invalidate_cache_line: the line is cleared, the counters stay. */
  function Invalidated(s: CacheSet, tag: nat): CacheSet {
    var w := Lookup(s.lines, tag);
    if w < |s.lines| then
      var cleared := s.lines[w].(valid := false, tag := 0, base := 0, dirty := false);
      s.(lines := s.lines[w := cleared])
    else s
  }

  /** An invalidation keeps the counters exact only when it finds nothing. */
  lemma {:induction false} InvalidationMiscounts(s: CacheSet, tag: nat)
    requires Counted(s)
    ensures Counted(Invalidated(s, tag)) <==> !Hit(s.lines, tag)
  {
    var w := Lookup(s.lines, tag);
    if w < |s.lines| {
      var l := s.lines[w].(valid := false, tag := 0, base := 0, dirty := false);
      CountUpdate(s.lines, w, l, false, |s.lines|);
      CountUpdate(s.lines, w, l, true, |s.lines|);
    }
  }
}
