/** Runs of references, each an access followed by an insertion on a miss: a set holds
    exactly the most recently referenced lines that map to it. */
module CacheRecency {
  import opened Lists
  import opened Bits
  import opened CacheModel

  // ----- the lines referenced, most recent first

  /** The distinct elements of refs, most recently referenced first. */
  function Stack(refs: seq<nat>): seq<nat> {
    if refs == [] then []
    else
      var x := refs[|refs| - 1];
      [x] + Without(Stack(refs[..|refs| - 1]), [x])
  }

  /** A reference to a line uses that line. */
  predicate Same(ref: nat, x: nat) {
    ref == x
  }

  function LastRef(refs: seq<nat>, x: nat): nat {
    LastUse(Same, refs, x)
  }

  /** The stack lists each referenced line, by decreasing last reference. */
  lemma {:induction false} StackIsByLastRef(refs: seq<nat>)
    ensures ByLastUse(Same, refs, Stack(refs))
    ensures forall x :: x in Stack(refs) <==> x in refs
  {
    hide LastUse;
    if refs != [] {
      var n := |refs| - 1;
      var x, st := refs[n], Stack(refs[..n]);
      StackIsByLastRef(refs[..n]);
      assert refs == refs[..n] + [x];
      WithoutByLastUse(Same, refs[..n], st, x);
      UseFront(Same, refs[..n], x, x, Without(st, [x]));
    }
  }

  lemma StackNoDup(refs: seq<nat>)
    ensures NoDup(Stack(refs))
  {
    StackIsByLastRef(refs);
    ByLastUseNoDup(Same, refs, Stack(refs));
  }

  /** The position of x, the length if it is not listed. */
  function IndexOf(st: seq<nat>, x: nat): (i: nat)
    ensures i <= |st|
    ensures i < |st| ==> st[i] == x
    ensures forall j :: 0 <= j < i ==> st[j] != x
    ensures i < |st| <==> x in st
  {
    if st == [] then 0
    else if st[0] == x then 0
    else
      assert st == [st[0]] + st[1..];
      1 + IndexOf(st[1..], x)
  }

  /** Moving x to the front shifts what was before it by one. */
  lemma FrontShifts(st: seq<nat>, x: nat)
    requires NoDup(st)
    ensures var r, i := [x] + Without(st, [x]), IndexOf(st, x);
      && |r| == (if i < |st| then |st| else |st| + 1)
      && (forall j :: 1 <= j <= i && j < |r| ==> r[j] == st[j - 1])
      && (forall j :: i < j < |st| ==> r[j] == st[j])
  {
    hide NoDup;
    var i := IndexOf(st, x);
    if i == |st| {
      WithoutAbsent(st, [x]);
    } else {
      WithoutAt(st, i);
      assert [x] + (st[..i] + st[i + 1..]) == [x] + st[..i] + st[i + 1..];
    }
  }

  lemma {:induction false} WithoutAt(st: seq<nat>, i: nat)
    requires NoDup(st) && i < |st|
    ensures Without(st, [st[i]]) == st[..i] + st[i + 1..]
  {
    var front, last := st[..|st| - 1], st[|st| - 1];
    if i == |st| - 1 {
      WithoutAbsent(front, [last]);
    } else {
      WithoutAt(front, i);
      assert st[i + 1..] == front[i + 1..] + [last];
    }
  }

  // ----- one set

  function Depth(ways: nat, st: seq<nat>): nat {
    if ways < |st| then ways else |st|
  }

  function TimeOf(lines: seq<Line>, x: nat): nat
    requires Hit(lines, x)
  {
    lines[Lookup(lines, x)].time
  }

  /** The set holds exactly the first lines of the stack, as many as it has ways,
      and their times decrease along the stack. */
  ghost predicate Mirrors(lines: seq<Line>, st: seq<nat>, bound: nat) {
    && Unique(lines) && NoDup(st)
    && (forall w :: 0 <= w < |lines| && lines[w].valid ==>
          lines[w].time < bound && IndexOf(st, lines[w].tag) < Depth(|lines|, st))
    && (forall j :: 0 <= j < Depth(|lines|, st) ==> Hit(lines, st[j]))
    && (forall i, j :: 0 <= i < j < Depth(|lines|, st) ==> TimeOf(lines, st[i]) > TimeOf(lines, st[j]))
  }

  /** A duplicate-free list of numbers below n has at most n of them. */
  lemma {:induction false} Pigeonhole(p: seq<nat>, n: nat)
    requires NoDup(p) && forall x :: x in p ==> x < n
    ensures |p| <= n
    decreases n
  {
    assert p != [] ==> p[0] in p && p[0] < n;
    if n > 0 {
      var top: nat := n - 1;
      if top in p {
        WithoutOne(p, top);
        assert |multiset(p)| == |multiset(Without(p, [top]))| + 1;
        Pigeonhole(Without(p, [top]), top);
      } else {
        Pigeonhole(p, top);
      }
    }
  }

  /** A set that mirrors as many lines as it has ways has no free way. */
  lemma FullSet(lines: seq<Line>, st: seq<nat>, bound: nat, w: nat)
    requires Mirrors(lines, st, bound) && w < |lines| <= |st|
    ensures lines[w].valid
  {
    var n := |lines|;
    var p := seq(n, j requires 0 <= j < n => Lookup(lines, st[j]));
    forall i, j | 0 <= i < j < n
      ensures p[i] != p[j]
    {
      assert Hit(lines, st[i]) && Hit(lines, st[j]);
    }
    if !lines[w].valid {
      assert forall j :: 0 <= j < n ==> Hit(lines, st[j]) && p[j] != w;
      NoDupAppend(p, [w]);
      Pigeonhole(p + [w], n);
    }
  }

  /** A set without a free way mirrors as many lines as it has ways. */
  lemma NoFreeWay(lines: seq<Line>, st: seq<nat>, bound: nat)
    requires Mirrors(lines, st, bound) && forall w :: 0 <= w < |lines| ==> lines[w].valid
    ensures |lines| <= |st|
  {
    var n := |lines|;
    var q := seq(n, w requires 0 <= w < n => IndexOf(st, lines[w].tag));
    forall w, v | 0 <= w < v < n
      ensures q[w] != q[v]
    {
      assert lines[w].tag != lines[v].tag;
      assert st[q[w]] == lines[w].tag && st[q[v]] == lines[v].tag;
    }
    Pigeonhole(q, Depth(n, st));
  }

  /** One reference to the line x: access_cache, then insert_cache on a miss. */
  function Referenced(lines: seq<Line>, x: nat, base: nat, gpu: bool, now: nat): (r: seq<Line>)
    requires lines != []
    ensures |r| == |lines|
  {
    var w := Lookup(lines, x);
    if w < |lines| then Used(lines, w, now)
    else Inserted(lines, ReplacementWay(lines), x, base, gpu, now)
  }

  // ----- one reference keeps the mirror

  /** The place, before x moved from place i to the front, of what is now in place j. */
  function Before(i: nat, j: nat): (o: int)
  {
    if j <= i then j - 1 else j
  }

  ghost predicate Kept(lines: seq<Line>, lines': seq<Line>, y: nat) {
    Hit(lines, y) && Hit(lines', y) && TimeOf(lines', y) == TimeOf(lines, y)
  }

  lemma Assemble(lines: seq<Line>, st: seq<nat>, bound: nat, lines': seq<Line>, st': seq<nat>, x: nat, now: nat, i: nat)
    requires Mirrors(lines, st, bound) && bound <= now && Unique(lines') && NoDup(st')
    requires st' != [] && st'[0] == x && Hit(lines', x) && TimeOf(lines', x) == now
    requires forall j :: 1 <= j < Depth(|lines'|, st') ==>
      0 <= Before(i, j) < Depth(|lines|, st) && st'[j] == st[Before(i, j)]
    requires forall j :: 1 <= j < Depth(|lines'|, st') ==> Kept(lines, lines', st'[j])
    requires forall w :: 0 <= w < |lines'| && lines'[w].valid ==>
      lines'[w].time <= now && IndexOf(st', lines'[w].tag) < Depth(|lines'|, st')
    ensures Mirrors(lines', st', now + 1)
  {
    hide Unique, NoDup, TimeOf;
    var k := Depth(|lines'|, st');
    forall a, b | 0 <= a < b < k
      ensures Hit(lines', st'[a]) && Hit(lines', st'[b]) && TimeOf(lines', st'[a]) > TimeOf(lines', st'[b])
    {
      assert Kept(lines, lines', st'[b]) && st'[b] == st[Before(i, b)];
      TimesBelow(lines, st, bound, Before(i, b));
      if a > 0 {
        assert Kept(lines, lines', st'[a]) && st'[a] == st[Before(i, a)];
      }
    }
    forall j | 0 <= j < k
      ensures Hit(lines', st'[j])
    {
      if j > 0 {
        assert Kept(lines, lines', st'[j]);
      }
    }
  }

  lemma TimesBelow(lines: seq<Line>, st: seq<nat>, bound: nat, j: nat)
    requires Mirrors(lines, st, bound) && j < Depth(|lines|, st)
    ensures Hit(lines, st[j]) && TimeOf(lines, st[j]) < bound
  {
    assert Hit(lines, st[j]);
  }

  lemma UsedKeepsLookup(lines: seq<Line>, w: nat, now: nat, y: nat)
    requires w < |lines|
    ensures Lookup(Used(lines, w, now), y) == Lookup(lines, y)
  {
    var lines' := Used(lines, w, now);
    assert forall j :: 0 <= j < |lines| ==> (Holds(lines', y, j) <==> Holds(lines, y, j));
    var a, b := Lookup(lines, y), Lookup(lines', y);
    assert a < |lines| ==> Holds(lines, y, a);
    assert b < |lines| ==> Holds(lines', y, b);
  }

  lemma HitStep(lines: seq<Line>, st: seq<nat>, bound: nat, x: nat, now: nat)
    requires Mirrors(lines, st, bound) && Hit(lines, x) && bound <= now
    ensures Mirrors(Used(lines, Lookup(lines, x), now), [x] + Without(st, [x]), now + 1)
  {
    var w := Lookup(lines, x);
    var lines', st', i := Used(lines, w, now), [x] + Without(st, [x]), IndexOf(st, x);
    assert i < Depth(|lines|, st) by {
      assert lines[w].valid;
    }
    MoveToFront(st, x);
    UsedKeepsLookup(lines, w, now, x);
    var k := Depth(|lines|, st);
    forall j | 1 <= j < k
      ensures 0 <= Before(i, j) < k && st'[j] == st[Before(i, j)] && Kept(lines, lines', st'[j])
    {
      var y := st[Before(i, j)];
      UsedKeepsLookup(lines, w, now, y);
      assert Hit(lines, y) && y != x;
    }
    forall v | 0 <= v < |lines'| && lines'[v].valid
      ensures lines'[v].time <= now && IndexOf(st', lines'[v].tag) < k
    {
      assert lines[v].valid;
      FrontIndex(st, x, lines[v].tag);
    }
    Assemble(lines, st, bound, lines', st', x, now, i);
  }

  lemma MoveToFront(st: seq<nat>, x: nat)
    requires NoDup(st)
    ensures var r, i := [x] + Without(st, [x]), IndexOf(st, x);
      && NoDup(r) && r[0] == x && |r| == (if i < |st| then |st| else |st| + 1)
      && (forall j :: 1 <= j < |r| ==> 0 <= Before(i, j) < |st| && r[j] == st[Before(i, j)])
  {
    FrontShifts(st, x);
    var w := Without(st, [x]);
    if x in st {
      WithoutOne(st, x);
    } else {
      WithoutAbsent(st, [x]);
    }
    NoDupAppend([x], w);
  }

  /** Where a listed element y is after x has moved to the front. */
  lemma FrontIndex(st: seq<nat>, x: nat, y: nat)
    requires NoDup(st) && y in st
    ensures var r, i, p := [x] + Without(st, [x]), IndexOf(st, x), IndexOf(st, y);
      IndexOf(r, y) == if y == x then 0 else if p < i then p + 1 else p
  {
    hide Without, NoDup;
    MoveToFront(st, x);
    var r, i, p := [x] + Without(st, [x]), IndexOf(st, x), IndexOf(st, y);
    assert i == p <==> x == y;
    var q := if y == x then 0 else if p < i then p + 1 else p;
    assert r[q] == y;
    IndexAt(r, q);
  }

  lemma IndexAt(r: seq<nat>, q: nat)
    requires NoDup(r) && q < |r|
    ensures IndexOf(r, r[q]) == q
  {
  }

  lemma MissIsUnlisted(lines: seq<Line>, st: seq<nat>, bound: nat, x: nat)
    requires Mirrors(lines, st, bound) && !Hit(lines, x)
    ensures IndexOf(st, x) >= Depth(|lines|, st)
    ensures forall w :: 0 <= w < |lines| && lines[w].valid ==> lines[w].tag != x
  {
    assert forall j :: 0 <= j < Depth(|lines|, st) ==> Hit(lines, st[j]) && st[j] != x;
    forall w | 0 <= w < |lines| && lines[w].valid
      ensures lines[w].tag != x
    {
      assert !Holds(lines, x, w);
    }
  }

  /** With times below MAX_INT the victim of a full set is the last line mirrored. */
  lemma {:induction false} VictimIsLast(lines: seq<Line>, st: seq<nat>, bound: nat)
    requires Mirrors(lines, st, bound) && bound <= MAX_INT && lines != []
    requires forall w :: 0 <= w < |lines| ==> lines[w].valid
    ensures |lines| <= |st| && lines[ReplacementWay(lines)].tag == st[|lines| - 1]
  {
    hide ReplacementWay, NoDup, IsLeastRecent;
    NoFreeWay(lines, st, bound);
    var n := |lines|;
    var v := ReplacementWay(lines);
    var p := IndexOf(st, lines[v].tag);
    assert lines[0].time < MAX_INT;
    VictimIsLeastRecent(lines);
    LookupIs(lines, lines[v].tag, v);
    assert Hit(lines, st[n - 1]);
    LeastTime(lines, v, Lookup(lines, st[n - 1]));
    assert p < n - 1 ==> TimeOf(lines, st[p]) > TimeOf(lines, st[n - 1]);
  }

  lemma LeastTime(lines: seq<Line>, v: nat, w: nat)
    requires IsLeastRecent(lines, v) && w < |lines|
    ensures lines[v].time <= lines[w].time
  {
  }

  lemma InsertedKeeps(lines: seq<Line>, v: nat, x: nat, base: nat, gpu: bool, now: nat)
    requires Unique(lines) && v < |lines| && forall w :: 0 <= w < |lines| && lines[w].valid ==> lines[w].tag != x
    ensures var lines' := Inserted(lines, v, x, base, gpu, now);
      && Unique(lines') && Hit(lines', x) && TimeOf(lines', x) == now
      && forall y: nat :: y != x && Hit(lines, y) && !Holds(lines, y, v) ==> Kept(lines, lines', y)
  {
    var lines' := Inserted(lines, v, x, base, gpu, now);
    assert Unique(lines');
    assert Holds(lines', x, v);
    LookupIs(lines', x, v);
    forall y: nat | y != x && Hit(lines, y) && !Holds(lines, y, v)
      ensures Kept(lines, lines', y)
    {
      var u := Lookup(lines, y);
      assert Holds(lines, y, u);
      assert Holds(lines', y, u);
      LookupIs(lines', y, u);
    }
  }

  lemma MissStep(lines: seq<Line>, st: seq<nat>, bound: nat, x: nat, base: nat, gpu: bool, now: nat)
    requires Mirrors(lines, st, bound) && !Hit(lines, x) && bound <= now && bound <= MAX_INT && lines != []
    ensures Mirrors(Inserted(lines, ReplacementWay(lines), x, base, gpu, now), [x] + Without(st, [x]), now + 1)
  {
    hide Without;
    var n, k := |lines|, Depth(|lines|, st);
    var v := ReplacementWay(lines);
    var lines', st', i := Inserted(lines, v, x, base, gpu, now), [x] + Without(st, [x]), IndexOf(st, x);
    MissIsUnlisted(lines, st, bound, x);
    InsertedKeeps(lines, v, x, base, gpu, now);
    MoveToFront(st, x);
    VictimGoes(lines, st, bound);
    var k' := Depth(n, st');
    forall j | 1 <= j < k'
      ensures 0 <= Before(i, j) < k && st'[j] == st[Before(i, j)] && Kept(lines, lines', st'[j])
    {
      var y := st[Before(i, j)];
      assert Hit(lines, y) && y != x && !Holds(lines, y, v);
    }
    forall w | 0 <= w < n && lines'[w].valid
      ensures lines'[w].time <= now && IndexOf(st', lines'[w].tag) < k'
    {
      if w != v {
        assert lines[w].valid && lines[w].tag != x;
        FrontIndex(st, x, lines[w].tag);
      }
    }
    Assemble(lines, st, bound, lines', st', x, now, i);
  }

  /** The way replaced holds none of the lines mirrored, or the last one of a full set. */
  lemma VictimGoes(lines: seq<Line>, st: seq<nat>, bound: nat)
    requires Mirrors(lines, st, bound) && bound <= MAX_INT && lines != []
    ensures var v := ReplacementWay(lines);
      if lines[v].valid then
        |lines| <= |st| && lines[v].tag == st[|lines| - 1]
        && forall w :: 0 <= w < |lines| && lines[w].valid && w != v ==> IndexOf(st, lines[w].tag) < |lines| - 1
      else |st| < |lines|
  {
    hide ReplacementWay, Lookup, TimeOf, Hit, NoDup;
    FreeWayFirst(lines);
    var v := ReplacementWay(lines);
    if lines[v].valid {
      VictimIsLast(lines, st, bound);
      forall w | 0 <= w < |lines| && lines[w].valid && w != v
        ensures IndexOf(st, lines[w].tag) < |lines| - 1
      {
        assert lines[w].tag != lines[v].tag;
        assert st[IndexOf(st, lines[w].tag)] == lines[w].tag;
      }
    } else if |lines| <= |st| {
      FullSet(lines, st, bound, v);
    }
  }

  // ----- whole runs

  datatype Ref = Ref(addr: nat, gpu: bool, now: nat)

  function EmptyCache(g: Geometry): seq<seq<Line>> {
    seq(Pow2(g.setBits), _ => seq(g.assoc, _ => EMPTY))
  }

  /** The sets after a run of references. */
  function RunRefs(g: Geometry, refs: seq<Ref>): (sets: seq<seq<Line>>)
    requires g.assoc > 0
    ensures |sets| == Pow2(g.setBits) && forall s :: 0 <= s < |sets| ==> |sets[s]| == g.assoc
  {
    if refs == [] then EmptyCache(g)
    else
      var n := |refs| - 1;
      var sets, e := RunRefs(g, refs[..n]), refs[n];
      var s := SetOf(g, e.addr);
      sets[s := Referenced(sets[s], TagOf(g, e.addr), BaseOf(g, e.addr), e.gpu, e.now)]
  }

  /** The tags referenced in set s, in order. */
  function TagsTo(g: Geometry, refs: seq<Ref>, s: nat): seq<nat> {
    if refs == [] then []
    else
      var n := |refs| - 1;
      var tags := TagsTo(g, refs[..n], s);
      if SetOf(g, refs[n].addr) == s then tags + [TagOf(g, refs[n].addr)] else tags
  }

  /** One reference per cycle, before cycle MAX_INT. */
  ghost predicate Increasing(refs: seq<Ref>) {
    && (forall i :: 0 <= i < |refs| ==> refs[i].now < MAX_INT)
    && (forall i, j :: 0 <= i < j < |refs| ==> refs[i].now < refs[j].now)
  }

  function Bound(refs: seq<Ref>): nat {
    if refs == [] then 0 else refs[|refs| - 1].now + 1
  }

  lemma LaterBound(lines: seq<Line>, st: seq<nat>, bound: nat, later: nat)
    requires Mirrors(lines, st, bound) && bound <= later
    ensures Mirrors(lines, st, later)
  {
  }

  lemma EmptyMirrors(assoc: nat)
    ensures Mirrors(seq(assoc, _ => EMPTY), [], 0)
  {
  }

  lemma ReferenceStep(lines: seq<Line>, tags: seq<nat>, bound: nat, x: nat, base: nat, gpu: bool, now: nat)
    requires Mirrors(lines, Stack(tags), bound) && bound <= now && bound <= MAX_INT && lines != []
    ensures Mirrors(Referenced(lines, x, base, gpu, now), Stack(tags + [x]), now + 1)
  {
    hide Mirrors, ReplacementWay, Used, Inserted;
    assert (tags + [x])[..|tags|] == tags;
    if Hit(lines, x) {
      HitStep(lines, Stack(tags), bound, x, now);
    } else {
      MissStep(lines, Stack(tags), bound, x, base, gpu, now);
    }
  }

  /** After every run each set holds exactly the most recently referenced lines that
      map to it, as many as it has ways, none twice. */
  lemma {:induction false} SetsMirrorStacks(g: Geometry, refs: seq<Ref>, s: nat)
    requires g.assoc > 0 && Increasing(refs) && s < Pow2(g.setBits)
    ensures Mirrors(RunRefs(g, refs)[s], Stack(TagsTo(g, refs, s)), Bound(refs))
  {
    hide Mirrors, Referenced, Stack, SetOf, TagOf, BaseOf;
    if refs == [] {
      EmptyMirrors(g.assoc);
      assert Stack([]) == [] by {
        StackOfNone();
      }
    } else {
      var n := |refs| - 1;
      var e := refs[n];
      SetsMirrorStacks(g, refs[..n], s);
      var lines, tags := RunRefs(g, refs[..n])[s], TagsTo(g, refs[..n], s);
      var bound := Bound(refs[..n]);
      if SetOf(g, e.addr) == s {
        ReferenceStep(lines, tags, bound, TagOf(g, e.addr), BaseOf(g, e.addr), e.gpu, e.now);
      } else {
        LaterBound(lines, Stack(tags), bound, Bound(refs));
      }
    }
  }

  lemma StackOfNone()
    ensures Stack([]) == []
  {
  }

  // ----- hits

  /** The distinct tags referenced after the last reference to x. */
  ghost function Newer(tags: seq<nat>, x: nat): set<nat> {
    set y | y in tags && LastRef(tags, y) > LastRef(tags, x)
  }

  lemma {:induction false} DistinctCount(s: seq<nat>, m: set<nat>)
    requires NoDup(s) && forall x :: x in m <==> x in s
    ensures |m| == |s|
  {
    if s == [] {
      assert m == {};
    } else {
      var n := |s| - 1;
      assert s == s[..n] + [s[n]];
      assert s[n] !in s[..n];
      DistinctCount(s[..n], m - {s[n]});
    }
  }

  lemma PlaceIsDistance(tags: seq<nat>, st: seq<nat>, x: nat)
    requires ByLastUse(Same, tags, st) && NoDup(st) && x in tags && forall y :: y in st <==> y in tags
    ensures IndexOf(st, x) == |Newer(tags, x)|
  {
    hide NoDup, LastUse;
    var p := IndexOf(st, x);
    assert x in st;
    forall y | y in tags
      ensures y in st[..p] <==> y in Newer(tags, x)
    {
      assert y in st;
      var j := IndexOf(st, y);
      if j < p {
        assert st[..p][j] == y;
        assert LastRef(tags, st[j]) > LastRef(tags, st[p]);
      } else if p < j {
        assert LastRef(tags, st[p]) > LastRef(tags, st[j]);
      }
    }
    assert forall y :: y in st[..p] ==> y in st;
    PrefixNoDup(st, p);
    DistinctCount(st[..p], Newer(tags, x));
  }

  lemma PrefixNoDup(st: seq<nat>, p: nat)
    requires NoDup(st) && p <= |st|
    ensures NoDup(st[..p])
  {
  }

  /** An address hits exactly when its line has been referenced and fewer other lines
      of its set than there are ways have been referenced since. */
  lemma {:induction false} HitsWhenRecent(g: Geometry, refs: seq<Ref>, addr: nat)
    requires g.assoc > 0 && Increasing(refs)
    ensures var tags, x := TagsTo(g, refs, SetOf(g, addr)), TagOf(g, addr);
      Hit(RunRefs(g, refs)[SetOf(g, addr)], x) <==> x in tags && |Newer(tags, x)| < g.assoc
  {
    var s, x := SetOf(g, addr), TagOf(g, addr);
    hide SetOf, TagOf, RunRefs, Newer;
    var tags := TagsTo(g, refs, s);
    SetsMirrorStacks(g, refs, s);
    StackIsByLastRef(tags);
    HitsInDepth(RunRefs(g, refs)[s], Stack(tags), Bound(refs), x);
    if x in tags {
      StackNoDup(tags);
      PlaceIsDistance(tags, Stack(tags), x);
    }
  }

  lemma HitsInDepth(lines: seq<Line>, st: seq<nat>, bound: nat, x: nat)
    requires Mirrors(lines, st, bound)
    ensures Hit(lines, x) <==> IndexOf(st, x) < Depth(|lines|, st)
  {
    if Hit(lines, x) {
      assert lines[Lookup(lines, x)].valid;
    } else {
      MissIsUnlisted(lines, st, bound, x);
    }
  }

  /** On the same run a cache with more ways hits whenever one with fewer ways does. */
  lemma {:induction false} MoreWaysHitMore(g: Geometry, more: nat, refs: seq<Ref>, addr: nat)
    requires 0 < g.assoc <= more && Increasing(refs)
    requires Hit(RunRefs(g, refs)[SetOf(g, addr)], TagOf(g, addr))
    ensures Hit(RunRefs(g.(assoc := more), refs)[SetOf(g, addr)], TagOf(g, addr))
  {
    var wide := g.(assoc := more);
    HitsWhenRecent(g, refs, addr);
    HitsWhenRecent(wide, refs, addr);
    SameTags(g, more, refs, SetOf(g, addr));
  }

  lemma {:induction false} SameTags(g: Geometry, more: nat, refs: seq<Ref>, s: nat)
    ensures TagsTo(g, refs, s) == TagsTo(g.(assoc := more), refs, s)
  {
    if refs != [] {
      SameTags(g, more, refs[..|refs| - 1], s);
    }
  }
}
