/** Filling lines and writing back dirty victims: no dirty line is lost on the way. */
module CacheFill {
  import opened Lists
  import opened Bits
  import opened CacheModel
  import opened CachePartition
  import opened CachePass
  import opened CacheUnit

  // ----- the dirty lines of a cache

  /** The bases of the dirty lines among the first n ways. */
  ghost function DirtyTo(lines: seq<Line>, n: nat): multiset<nat>
    requires n <= |lines|
  {
    if n == 0 then multiset{} else DirtyTo(lines, n - 1) + DirtyIn(lines[n - 1])
  }

  ghost function DirtyIn(l: Line): multiset<nat> {
    if l.valid && l.dirty then multiset{l.base} else multiset{}
  }

  ghost function DirtySets(sets: seq<CacheSet>): seq<multiset<nat>> {
    seq(|sets|, s requires 0 <= s < |sets| => DirtyTo(sets[s].lines, |sets[s].lines|))
  }

  ghost function Dirty(sets: seq<CacheSet>): multiset<nat> {
    SumTo(DirtySets(sets), |sets|)
  }

  lemma {:induction false} DirtyUpdate(lines: seq<Line>, w: nat, l: Line, n: nat)
    requires w < |lines| && n <= |lines|
    ensures n <= w ==> DirtyTo(lines[w := l], n) == DirtyTo(lines, n)
    ensures w < n ==> DirtyTo(lines[w := l], n) + DirtyIn(lines[w]) == DirtyTo(lines, n) + DirtyIn(l)
  {
    hide DirtyIn;
    if n > 0 {
      DirtyUpdate(lines, w, l, n - 1);
      if w < n - 1 {
        Swap(DirtyTo(lines[w := l], n - 1), DirtyTo(lines, n - 1), DirtyIn(lines[w]), DirtyIn(l),
             DirtyIn(lines[n - 1]));
      }
    }
  }

  /** Changing one line changes the dirty lines by that line. */
  lemma DirtyChange(sets: seq<CacheSet>, s: nat, w: nat, l: Line, t: CacheSet)
    requires s < |sets| && w < |sets[s].lines| && t.lines == sets[s].lines[w := l]
    ensures Dirty(sets[s := t]) + DirtyIn(sets[s].lines[w]) == Dirty(sets) + DirtyIn(l)
  {
    hide DirtyIn, DirtyTo;
    var lines, n := sets[s].lines, |sets[s].lines|;
    DirtyUpdate(lines, w, l, n);
    var ms := DirtySets(sets);
    assert DirtySets(sets[s := t]) == ms[s := DirtyTo(t.lines, n)];
    SumToUpdate(ms, s, DirtyTo(t.lines, n), |sets|);
    Exchange(Dirty(sets[s := t]), Dirty(sets), DirtyTo(t.lines, n), DirtyTo(lines, n), DirtyIn(lines[w]), DirtyIn(l));
  }

  lemma Exchange(x: multiset<nat>, y: multiset<nat>, p: multiset<nat>, q: multiset<nat>, a: multiset<nat>,
                 b: multiset<nat>)
    requires x + q == y + p && p + a == q + b
    ensures x + a == y + b
  {
    forall k: nat
      ensures (x + a)[k] == (y + b)[k]
    {
      assert (x + q)[k] == (y + p)[k] && (p + a)[k] == (q + b)[k];
    }
  }

  // ----- lines know where they are

  /** The base kept in a line leads back to its set and tag. */
  ghost predicate Placed(g: Geometry, sets: seq<CacheSet>) {
    forall s, w :: 0 <= s < |sets| && 0 <= w < |sets[s].lines| && sets[s].lines[w].valid ==> At(g, s, sets[s].lines[w])
  }

  predicate At(g: Geometry, s: nat, l: Line) {
    SetOf(g, l.base) == s && TagOf(g, l.base) == l.tag && BaseOf(g, l.base) == l.base
  }

  lemma {:induction false} ClearedLow(a: nat, k: nat)
    requires Low(a, k) <= a
    ensures Low(a - Low(a, k), k) == 0
  {
    if k > 0 {
      LowAtMost(a / 2, k - 1);
      ClearedLow(a / 2, k - 1);
      var h := a / 2 - Low(a / 2, k - 1);
      assert a - Low(a, k) == 2 * h;
      assert (2 * h) / 2 == h && (2 * h) % 2 == 0;
    }
  }

  lemma BaseIsPlaced(g: Geometry, addr: nat)
    ensures SetOf(g, BaseOf(g, addr)) == SetOf(g, addr) && TagOf(g, BaseOf(g, addr)) == TagOf(g, addr)
    ensures BaseOf(g, BaseOf(g, addr)) == BaseOf(g, addr)
  {
    LowAtMost(addr, g.shift);
    ClearedLow(addr, g.shift);
    TagAndSetNameTheLine(g, BaseOf(g, addr), addr);
  }

  /** A line found under an address is the line of that address. */
  lemma FoundLine(g: Geometry, sets: seq<CacheSet>, addr: nat, w: nat)
    requires Placed(g, sets) && SetOf(g, addr) < |sets| && Holds(sets[SetOf(g, addr)].lines, TagOf(g, addr), w)
    ensures sets[SetOf(g, addr)].lines[w].base == BaseOf(g, addr)
  {
    hide SetOf, TagOf, BaseOf;
    var l := sets[SetOf(g, addr)].lines[w];
    assert At(g, SetOf(g, addr), l);
    TagAndSetNameTheLine(g, l.base, addr);
  }

  // ----- one fill

  /** What the fill adds: the line, if it comes dirty and is not dirty already. */
  ghost function Brought(base: nat, dirty: bool, already: bool): multiset<nat> {
    if dirty && !already then multiset{base} else multiset{}
  }

  /** Dirty lines in the cache and queued write-backs. */
  ghost function Dirt(sets: seq<CacheSet>, wb: seq<nat>): multiset<nat> {
    Dirty(sets) + multiset(wb)
  }

  /** A hit: the line becomes dirty if the data is. */
  lemma {:induction false} HitConserves(g: Geometry, sets: seq<CacheSet>, wb: seq<nat>, addr: nat, w: nat, dirty: bool,
                                        t: CacheSet)
    requires Placed(g, sets) && SetOf(g, addr) < |sets| && Holds(sets[SetOf(g, addr)].lines, TagOf(g, addr), w)
    requires
      var lines := sets[SetOf(g, addr)].lines;
      t.lines == lines[w := lines[w].(dirty := lines[w].dirty || dirty)]
    ensures Dirt(sets[SetOf(g, addr) := t], wb) ==
      Dirt(sets, wb) + Brought(BaseOf(g, addr), dirty, sets[SetOf(g, addr)].lines[w].dirty)
  {
    hide SetOf, TagOf, BaseOf, Dirty, Placed;
    FoundLine(g, sets, addr, w);
    var s := SetOf(g, addr);
    var l := sets[s].lines[w];
    DirtyChange(sets, s, w, l.(dirty := l.dirty || dirty), t);
    Cancel(Dirty(sets[s := t]), Dirty(sets), DirtyIn(l), DirtyIn(l.(dirty := l.dirty || dirty)),
           Brought(BaseOf(g, addr), dirty, l.dirty), multiset(wb));
  }

  lemma Cancel(x: multiset<nat>, y: multiset<nat>, a: multiset<nat>, b: multiset<nat>, c: multiset<nat>,
               q: multiset<nat>)
    requires x + a == y + b && b == a + c
    ensures x + q == y + q + c
  {
    forall k: nat
      ensures (x + q)[k] == (y + q + c)[k]
    {
      assert (x + a)[k] == (y + b)[k] && b[k] == (a + c)[k];
    }
  }

  /** The victim leaves the cache and enters the queue, unless it is not seen. */
  ghost predicate Unseen(l: Line) {
    l.valid && l.dirty && l.base == 0
  }

  lemma {:induction false} MissConserves(sets: seq<CacheSet>, wb: seq<nat>, s: nat, w: nat, line: Line, t: CacheSet,
                                         wb': seq<nat>)
    requires s < |sets| && w < |sets[s].lines| && t.lines == sets[s].lines[w := line] && line.valid
    requires var l := sets[s].lines[w]; wb' == if l.valid && l.base != 0 && l.dirty then wb + [l.base] else wb
    ensures var after, due := Dirt(sets[s := t], wb'), Dirt(sets, wb) + Brought(line.base, line.dirty, false);
      && (after == due <==> !Unseen(sets[s].lines[w]))
      && (Unseen(sets[s].lines[w]) ==> after + multiset{0} == due)
  {
    var l := sets[s].lines[w];
    DirtyChange(sets, s, w, line, t);
    hide Dirty;
    assert multiset(wb') == multiset(wb) + if l.valid && l.base != 0 && l.dirty then DirtyIn(l) else multiset{};
    var x, y := Dirty(sets[s := t]), Dirty(sets);
    Swap(x, y, DirtyIn(l), DirtyIn(line), multiset(wb));
    if Unseen(l) {
      assert (x + multiset(wb)) + multiset{0} == x + multiset(wb) + DirtyIn(l);
      assert ((x + multiset(wb)) + multiset{0})[0] == (x + multiset(wb))[0] + 1;
    } else if l.valid && l.dirty {
      assert x + (multiset(wb) + DirtyIn(l)) == x + multiset(wb) + DirtyIn(l);
    }
  }

  // ----- a cache level

  const WB_SIZE: nat := 2048  // m_wb_queue

  /** No valid line is at base 0. */
  ghost predicate NoLineZero(sets: seq<CacheSet>) {
    forall s, w :: 0 <= s < |sets| && 0 <= w < |sets[s].lines| && sets[s].lines[w].valid ==> sets[s].lines[w].base != 0
  }

  function Ids(q: seq<FillReq>): seq<nat> {
    Map((r: FillReq) => r.id, q)
  }

  /** The bases of the dirty requests among those with the given ids. */
  ghost function DirtyBases(g: Geometry, q: seq<FillReq>, ids: set<nat>): set<nat> {
    set r | r in q && r.dirty && r.id in ids :: BaseOf(g, r.addr)
  }

  lemma FoundAt(g: Geometry, sets: seq<CacheSet>, s: nat, w: nat)
    requires Placed(g, sets) && s < |sets| && w < |sets[s].lines| && sets[s].lines[w].valid
    ensures At(g, s, sets[s].lines[w])
  {
  }

  /** A line put where its base belongs keeps the lines placed and off base 0. */
  lemma ChangeKeepsPlaced(g: Geometry, sets: seq<CacheSet>, s: nat, w: nat, l: Line, t: CacheSet)
    requires Placed(g, sets) && s < |sets| && w < |sets[s].lines| && t.lines == sets[s].lines[w := l] && At(g, s, l)
    ensures Placed(g, sets[s := t])
    ensures NoLineZero(sets) && l.base != 0 ==> NoLineZero(sets[s := t])
  {
    hide At;
    var sets' := sets[s := t];
    forall x, y | 0 <= x < |sets'| && 0 <= y < |sets'[x].lines| && sets'[x].lines[y].valid
      ensures At(g, x, sets'[x].lines[y])
      ensures NoLineZero(sets) && l.base != 0 ==> sets'[x].lines[y].base != 0
    {
      if x != s || y != w {
        assert sets'[x].lines[y] == sets[x].lines[y];
      }
    }
  }

  /** A request filled in a pass, and whether its line was dirty already. */
  datatype Fill = Fill(req: FillReq, already: bool)

  ghost function FilledIds(fills: seq<Fill>): set<nat> {
    set f | f in fills :: f.req.id
  }

  /** What the fills of a pass brought, all together. */
  ghost function BroughtBy(g: Geometry, fills: seq<Fill>): multiset<nat> {
    if fills == [] then multiset{}
    else
      var f := fills[|fills| - 1];
      BroughtBy(g, fills[..|fills| - 1]) + Brought(BaseOf(g, f.req.addr), f.req.dirty, f.already)
  }

  predicate NoBaseZero(g: Geometry, q: seq<FillReq>) {
    forall k :: 0 <= k < |q| ==> BaseOf(g, q[k].addr) != 0
  }

  /** From the dirty data x to y, `brought` has come in and `lost` lines at base 0 have
      been lost. */
  ghost predicate Balance(x: multiset<nat>, brought: multiset<nat>, y: multiset<nat>, lost: nat) {
    forall b: nat :: y[b] + (if b == 0 then lost else 0) == x[b] + brought[b]
  }

  lemma Balanced(x: multiset<nat>, base: nat, dirty: bool, already: bool)
    ensures Balance(x, Brought(base, false && dirty, already), x, 0)
  {
  }

  lemma BalancedAfter(x: multiset<nat>, brought: multiset<nat>, y: multiset<nat>, lost: bool)
    requires if lost then y + multiset{0} == x + brought else y == x + brought
    ensures Balance(x, brought, y, if lost then 1 else 0)
  {
    forall b: nat
      ensures y[b] + (if b == 0 then if lost then 1 else 0 else 0) == x[b] + brought[b]
    {
      assert (y + multiset{0})[b] == y[b] + if b == 0 then 1 else 0;
      assert (x + brought)[b] == x[b] + brought[b];
    }
  }

  lemma BalanceStep(x: multiset<nat>, brought: multiset<nat>, y: multiset<nat>, lost: nat,
                    more: multiset<nat>, z: multiset<nat>, lostNow: nat)
    requires Balance(x, brought, y, lost) && Balance(y, more, z, lostNow)
    ensures Balance(x, brought + more, z, lost + lostNow)
  {
  }

  lemma NothingYet(x: multiset<nat>, g: Geometry)
    ensures Balance(x, BroughtBy(g, []), x, 0) && FilledIds([]) == {} && Reaches(x, x, {})
  {
  }

  lemma NoneBrought(m: multiset<nat>, base: nat, already: bool, bases: set<nat>)
    ensures m + Brought(base, false, already) == m && bases + {} == bases
  {
  }

  lemma FillsGrow(g: Geometry, fills: seq<Fill>, f: Fill)
    ensures BroughtBy(g, fills + [f]) == BroughtBy(g, fills) + Brought(BaseOf(g, f.req.addr), f.req.dirty, f.already)
    ensures FilledIds(fills + [f]) == FilledIds(fills) + {f.req.id}
  {
    assert (fills + [f])[..|fills|] == fills;
    assert forall x :: x in fills + [f] <==> x in fills || x == f;
  }

  /** The bases dirty in y are those dirty in x and the given ones. */
  ghost predicate Reaches(x: multiset<nat>, y: multiset<nat>, bases: set<nat>) {
    forall b :: b in y <==> b in x || b in bases
  }

  lemma MembersAfter(x: multiset<nat>, bases: set<nat>, y: multiset<nat>, base: nat, dirty: bool, already: bool,
                     z: multiset<nat>, miss: bool)
    requires Balance(y, Brought(base, dirty, already), z, if miss then 1 else 0) && (already ==> base in y)
    ensures Reaches(x, y, bases) && !miss ==> Reaches(x, z, bases + if dirty then {base} else {})
  {
  }

  /** What a pass has done with the first i requests of the queue: the rest that stays,
      the ids filled and the ids gone. */
  ghost predicate Pass(start: seq<FillReq>, i: nat, rest: seq<FillReq>, filled: set<nat>, gone: seq<nat>) {
    && i <= |start|
    && multiset(Ids(start[..i])) == multiset(Ids(rest)) + multiset(gone)
    && (forall x :: x in filled ==> NewIn(start[..i], x))
    && StillNew(start, rest, filled)
  }

  /** What is left as new was so at the start and has not been filled. */
  ghost predicate StillNew(start: seq<FillReq>, rest: seq<FillReq>, filled: set<nat>) {
    forall k :: 0 <= k < |rest| && rest[k].isNew ==> rest[k] in start && rest[k].id !in filled
  }

  ghost predicate NewIn(q: seq<FillReq>, id: nat) {
    exists k :: 0 <= k < |q| && q[k].id == id && q[k].isNew
  }

  lemma PassStart(g: Geometry, start: seq<FillReq>)
    ensures Pass(start, 0, [], {}, []) && DirtyBases(g, start, {}) == {}
  {
    assert start[..0] == [];
  }

  lemma PassStep(start: seq<FillReq>, i: nat, rest: seq<FillReq>, filled: set<nat>, gone: seq<nat>, r: FillReq,
                 did: bool, leaves: bool)
    requires Pass(start, i, rest, filled, gone) && NoDup(Ids(start)) && i < |start|
    requires r == (if did then start[i].(isNew := false) else start[i]) && (did ==> start[i].isNew)
    ensures Pass(start, i + 1, if leaves then rest else rest + [r], if did then filled + {r.id} else filled,
                 if leaves then gone + [r.id] else gone)
  {
    hide NoDup, StillNew, NewIn, Ids;
    var q, id := start[..i], start[i].id;
    IdsGrow(start, i);
    RestGrows(rest, r);
    EarlierIds(start, i);
    NewGrows(start, i, filled, did);
    RestAvoids(start, i, rest, gone);
    assert multiset(Ids(q) + [id]) == multiset(Ids(q)) + multiset{id};
    assert multiset(Ids(rest) + [id]) == multiset(Ids(rest)) + multiset{id};
    assert multiset(gone + [id]) == multiset(gone) + multiset{id};
    NotYetFilled(start, i, filled);
    NewStep(start, rest, filled, start[i], r, did, leaves);
  }

  lemma IdsGrow(start: seq<FillReq>, i: nat)
    requires i < |start|
    ensures Ids(start[..i + 1]) == Ids(start[..i]) + [start[i].id]
  {
    assert start[..i + 1] == start[..i] + [start[i]];
  }

  lemma RestGrows(rest: seq<FillReq>, r: FillReq)
    ensures Ids(rest + [r]) == Ids(rest) + [r.id]
  {
  }

  lemma NewGrows(start: seq<FillReq>, i: nat, filled: set<nat>, did: bool)
    requires i < |start| && (did ==> start[i].isNew) && forall x :: x in filled ==> NewIn(start[..i], x)
    ensures forall x :: x in filled || (did && x == start[i].id) ==> NewIn(start[..i + 1], x)
  {
    var q, q' := start[..i], start[..i + 1];
    forall x | x in filled || (did && x == start[i].id)
      ensures NewIn(q', x)
    {
      if x in filled {
        var k :| 0 <= k < |q| && q[k].id == x && q[k].isNew;
        assert q'[k] == q[k];
      } else {
        assert q'[i].id == x;
      }
    }
  }

  lemma NotYetFilled(start: seq<FillReq>, i: nat, filled: set<nat>)
    requires i < |start| && start[i].id !in Ids(start[..i]) && forall x :: x in filled ==> NewIn(start[..i], x)
    ensures start[i].id !in filled
  {
    var q := start[..i];
    assert forall k :: 0 <= k < |q| ==> Ids(q)[k] == q[k].id;
  }

  lemma RestAvoids(start: seq<FillReq>, i: nat, rest: seq<FillReq>, gone: seq<nat>)
    requires i < |start| && start[i].id !in Ids(start[..i])
    requires multiset(Ids(start[..i])) == multiset(Ids(rest)) + multiset(gone)
    ensures forall k :: 0 <= k < |rest| ==> rest[k].id != start[i].id
  {
    forall k | 0 <= k < |rest|
      ensures rest[k].id != start[i].id
    {
      assert Ids(rest)[k] == rest[k].id;
      assert rest[k].id in multiset(Ids(rest));
      assert rest[k].id in multiset(Ids(start[..i]));
    }
  }

  lemma NewStep(start: seq<FillReq>, rest: seq<FillReq>, filled: set<nat>, r0: FillReq, r: FillReq, did: bool,
                leaves: bool)
    requires StillNew(start, rest, filled) && r0 in start && r0.id !in filled
    requires forall k :: 0 <= k < |rest| ==> rest[k].id != r0.id
    requires r == if did then r0.(isNew := false) else r0
    ensures StillNew(start, if leaves then rest else rest + [r], if did then filled + {r0.id} else filled)
  {
  }

  lemma EarlierIds(start: seq<FillReq>, i: nat)
    requires NoDup(Ids(start)) && i < |start|
    ensures forall k :: 0 <= k < i ==> start[k].id != start[i].id
    ensures start[i].id !in Ids(start[..i])
  {
    forall k | 0 <= k < i
      ensures start[k].id != start[i].id
    {
      assert Ids(start)[k] != Ids(start)[i];
    }
  }

  lemma PassEnd(start: seq<FillReq>, i: nat, rest: seq<FillReq>, filled: set<nat>, gone: seq<nat>)
    requires Pass(start, i, rest, filled, gone) && NoDup(Ids(start))
    ensures Pass(start, |start|, rest + start[i..], filled, gone)
  {
    hide NoDup, NewIn, Ids;
    var q, tail := start[..i], start[i..];
    assert start[..|start|] == start && start == q + tail;
    IdsJoin(q, tail);
    IdsJoin(rest, tail);
    assert multiset(Ids(q) + Ids(tail)) == multiset(Ids(q)) + multiset(Ids(tail));
    assert multiset(Ids(rest) + Ids(tail)) == multiset(Ids(rest)) + multiset(Ids(tail));
    forall x | x in filled
      ensures NewIn(start, x) && forall j :: i <= j < |start| ==> start[j].id != x
    {
      FilledBefore(start, i, x);
    }
    TailIsNew(start, i, rest, filled);
  }

  lemma TailIsNew(start: seq<FillReq>, i: nat, rest: seq<FillReq>, filled: set<nat>)
    requires i <= |start| && StillNew(start, rest, filled)
    requires forall x, j :: x in filled && i <= j < |start| ==> start[j].id != x
    ensures StillNew(start, rest + start[i..], filled)
  {
    var all := rest + start[i..];
    forall k | 0 <= k < |all| && all[k].isNew
      ensures all[k] in start && all[k].id !in filled
    {
      if k >= |rest| {
        assert all[k] == start[i + k - |rest|];
      } else {
        assert all[k] == rest[k];
      }
    }
  }

  lemma IdsJoin(a: seq<FillReq>, b: seq<FillReq>)
    ensures Ids(a + b) == Ids(a) + Ids(b)
  {
  }

  lemma FilledBefore(start: seq<FillReq>, i: nat, x: nat)
    requires i <= |start| && NoDup(Ids(start)) && NewIn(start[..i], x)
    ensures NewIn(start, x) && forall j :: i <= j < |start| ==> start[j].id != x
  {
    var q := start[..i];
    var k :| 0 <= k < |q| && q[k].id == x && q[k].isNew;
    assert start[k] == q[k];
    forall j | i <= j < |start|
      ensures start[j].id != x
    {
      EarlierIds(start, j);
    }
  }

  lemma MoreBases(g: Geometry, start: seq<FillReq>, i: nat, filled: set<nat>)
    requires i < |start| && NoDup(Ids(start))
    ensures DirtyBases(g, start, filled + {start[i].id}) ==
      DirtyBases(g, start, filled) + if start[i].dirty then {BaseOf(g, start[i].addr)} else {}
  {
    forall r | r in start && r.id == start[i].id
      ensures r == start[i]
    {
      var k :| 0 <= k < |start| && start[k] == r;
      assert Ids(start)[k] == Ids(start)[i];
    }
    assert start[i] in start;
  }

  /** The account of a pass: where the requests are, how the dirty data x has become y, and
      which bases are dirty if nothing was lost. */
  ghost predicate Account(g: Geometry, start: seq<FillReq>, i: nat, rest: seq<FillReq>, fills: seq<Fill>,
                          gone: seq<nat>, x: multiset<nat>, y: multiset<nat>, lost: nat) {
    && Pass(start, i, rest, FilledIds(fills), gone)
    && Balance(x, BroughtBy(g, fills), y, lost)
    && (lost == 0 ==> Reaches(x, y, DirtyBases(g, start, FilledIds(fills))))
  }

  lemma AccountStart(g: Geometry, start: seq<FillReq>, x: multiset<nat>)
    ensures Account(g, start, 0, [], [], [], x, x, 0)
  {
    hide Pass, Balance, Reaches, BroughtBy, FilledIds, DirtyBases;
    PassStart(g, start);
    NothingYet(x, g);
  }

  lemma AccountStep(g: Geometry, start: seq<FillReq>, i: nat, rest: seq<FillReq>, fills: seq<Fill>, gone: seq<nat>,
                    x: multiset<nat>, y: multiset<nat>, lost: nat, r: FillReq, did: bool, leaves: bool, already: bool,
                    z: multiset<nat>, miss: bool)
    requires Account(g, start, i, rest, fills, gone, x, y, lost) && NoDup(Ids(start)) && i < |start|
    requires r == (if did then start[i].(isNew := false) else start[i]) && (did ==> start[i].isNew)
    requires Balance(y, Brought(BaseOf(g, r.addr), did && r.dirty, already), z, if miss then 1 else 0)
    requires already ==> BaseOf(g, r.addr) in y
    ensures Account(g, start, i + 1, if leaves then rest else rest + [r],
                    if did then fills + [Fill(r, already)] else fills,
                    if leaves then gone + [r.id] else gone, x, z, if miss then lost + 1 else lost)
  {
    hide Pass, Balance, Reaches, BroughtBy, FilledIds, DirtyBases, NoDup, Ids, BaseOf, Brought;
    var base, ids, bases := BaseOf(g, r.addr), FilledIds(fills), DirtyBases(g, start, FilledIds(fills));
    PassStep(start, i, rest, ids, gone, r, did, leaves);
    BalanceStep(x, BroughtBy(g, fills), y, lost, Brought(base, did && r.dirty, already), z, if miss then 1 else 0);
    MembersAfter(x, bases, y, base, did && r.dirty, already, z, miss);
    FillsGrow(g, fills, Fill(r, already));
    if did {
      MoreBases(g, start, i, ids);
    } else {
      NoneBrought(BroughtBy(g, fills), base, already, bases);
    }
  }

  lemma AccountEnd(g: Geometry, start: seq<FillReq>, i: nat, rest: seq<FillReq>, fills: seq<Fill>, gone: seq<nat>,
                   x: multiset<nat>, y: multiset<nat>, lost: nat)
    requires Account(g, start, i, rest, fills, gone, x, y, lost) && NoDup(Ids(start)) && i <= |start|
    ensures Account(g, start, |start|, rest + start[i..], fills, gone, x, y, lost)
  {
    hide Pass, Balance, Reaches, BroughtBy, FilledIds, DirtyBases, NoDup, Ids;
    PassEnd(start, i, rest, FilledIds(fills), gone);
  }

  /** Before each try there was room for a write-back, and fewer than four had left. */
  ghost predicate WentOn(env: Env, q: seq<FillReq>, views: seq<View>, dids: seq<bool>) {
    && |views| == |q| + 1 && |dids| == |q|
    && (forall k :: 0 <= k < |q| ==> |views[k].wb| < WB_SIZE)
    && (q != [] ==> |Going(env, q[..|q| - 1], dids[..|q| - 1])| < 4)
  }

  class Level {
    const cache: Cache
    var wb: seq<nat>         // bases of the queued write-backs
    var fill: seq<FillReq>

    ghost predicate Valid()
      reads this, cache
    {
      cache.Valid() && Placed(cache.g, cache.sets) && |wb| <= WB_SIZE
    }

    ghost function AllDirt(): multiset<nat>
      reads this, cache
    {
      Dirt(cache.sets, wb)
    }

    ghost function Now(): View
      reads this, cache
    {
      View(cache.sets, wb)
    }

    function Form(): Shape {
      Shape(cache.g, cache.partition, cache.cpuQuota)
    }

    constructor (cache: Cache)
      requires cache.Valid() && Placed(cache.g, cache.sets)
      ensures Valid() && this.cache == cache && wb == [] && fill == []
    {
      this.cache := cache;
      wb, fill := [], [];
    }

    /** Where the line is or will be put. */
    ghost function Way(addr: nat, gpu: bool): (w: Option<nat>)
      requires cache.Valid()
      reads this, cache
      ensures w.Some? ==> w.value < cache.g.assoc
    {
      WayFor(Form(), Now(), addr, gpu)
    }

    /** The fill would replace a dirty line at base 0, which the cache reports as none. */
    ghost predicate Overlooks(addr: nat, gpu: bool)
      requires Valid()
      reads this, cache
    {
      var lines, way := cache.sets[SetOf(cache.g, addr)].lines, cache.Chosen(addr, gpu);
      !Hit(lines, TagOf(cache.g, addr)) && way.Some? && Unseen(lines[way.value])
    }

    ghost predicate DirtyHit(addr: nat)
      requires Valid()
      reads this, cache
    {
      var lines, tag := cache.sets[SetOf(cache.g, addr)].lines, TagOf(cache.g, addr);
      Hit(lines, tag) && lines[Lookup(lines, tag)].dirty
    }

    /** The line of a request comes in: it is found, or inserted with its victim
        written back. With room in the write-back queue the push cannot fail. */
    method StoreLine(addr: nat, dirty: bool, gpu: bool, now: nat) returns (stuck: bool)
      requires Valid() && |wb| < WB_SIZE
      modifies this`wb, cache
      ensures Valid()
      ensures Fits(cache.g, old(Now()), addr) && stuck == old(Way(addr, gpu)).None?
      ensures stuck ==> Now() == old(Now())
      ensures !stuck ==> Now() == Stored(cache.g, old(Now()), old(Way(addr, gpu)).value, addr, dirty, gpu, now)
      ensures !stuck ==>
        (AllDirt() == old(AllDirt()) + Brought(BaseOf(cache.g, addr), dirty, old(DirtyHit(addr))) <==>
           !old(Overlooks(addr, gpu)))
      ensures !stuck && old(Overlooks(addr, gpu)) ==>
        AllDirt() + multiset{0} == old(AllDirt()) + Brought(BaseOf(cache.g, addr), dirty, false)
      ensures old(NoLineZero(cache.sets)) && BaseOf(cache.g, addr) != 0 ==>
        NoLineZero(cache.sets) && !old(Overlooks(addr, gpu))
    {
      hide Dirt, SetOf, TagOf, BaseOf, SameTypeWay, ReplacementWay, LookupFrom, Placed, NoLineZero, Replaced, Unseen;
      var g := cache.g;
      var way := cache.Access(addr, false, now);
      ZeroIsOverlooked(addr, gpu);
      if way < g.assoc {
        StoreHit(addr, way, dirty);
        return false;
      }
      var chosen, victim := cache.Insert(addr, gpu, now);
      if chosen.None? {
        return true;
      }
      StoreMiss(old(cache.sets), addr, chosen.value, victim, dirty, gpu, now);
      return false;
    }

    lemma ZeroIsOverlooked(addr: nat, gpu: bool)
      requires Valid()
      ensures NoLineZero(cache.sets) ==> !Overlooks(addr, gpu)
    {
    }

    method StoreHit(addr: nat, way: nat, dirty: bool)
      requires Valid() && Holds(cache.sets[SetOf(cache.g, addr)].lines, TagOf(cache.g, addr), way)
      modifies cache
      ensures Valid()
      ensures var s := SetOf(cache.g, addr);
        cache.sets ==
          old(cache.sets)[s := StoredSet(old(cache.sets)[s], true, way, TagOf(cache.g, addr), 0, dirty, false, 0)]
      ensures AllDirt() ==
        old(AllDirt()) + Brought(BaseOf(cache.g, addr), dirty, old(cache.sets)[SetOf(cache.g, addr)].lines[way].dirty)
      ensures old(NoLineZero(cache.sets)) && BaseOf(cache.g, addr) != 0 ==> NoLineZero(cache.sets)
    {
      hide Dirt, SetOf, TagOf, BaseOf, Placed, NoLineZero;
      var g, s := cache.g, SetOf(cache.g, addr);
      var line := cache.sets[s].lines[way];
      ghost var before := cache.sets;
      cache.SetDirty(s, way, line.dirty || dirty);
      HitConserves(g, before, wb, addr, way, dirty, cache.sets[s]);
      FoundLine(g, before, addr, way);
      FoundAt(g, before, s, way);
      ChangeKeepsPlaced(g, before, s, way, line.(dirty := line.dirty || dirty), cache.sets[s]);
      assert cache.sets == before[s := cache.sets[s]];
    }

    /** After insert_cache in a state `before`: the write-back of the victim and the
        new line's dirty bit. */
    method StoreMiss(ghost before: seq<CacheSet>, addr: nat, way: nat, victim: nat, dirty: bool, gpu: bool, now: nat)
      requires cache.Valid() && way < cache.g.assoc && |wb| < WB_SIZE && |before| == |cache.sets|
      requires Placed(cache.g, before)
      requires var s := SetOf(cache.g, addr);
        && |before[s].lines| == cache.g.assoc
        && cache.sets == before[s := Replaced(before[s], way, TagOf(cache.g, addr), BaseOf(cache.g, addr), gpu, now)]
        && victim == if before[s].lines[way].valid then before[s].lines[way].base else 0
      modifies this`wb, cache
      ensures Valid()
      ensures var s := SetOf(cache.g, addr);
        && cache.sets == before[s := StoredSet(before[s], false, way, TagOf(cache.g, addr), BaseOf(cache.g, addr),
                                               dirty, gpu, now)]
        && wb == old(wb) + WrittenBack(before[s].lines[way])
      ensures
        var l := before[SetOf(cache.g, addr)].lines[way];
        var due := Dirt(before, old(wb)) + Brought(BaseOf(cache.g, addr), dirty, false);
        && (AllDirt() == due <==> !Unseen(l)) && (Unseen(l) ==> AllDirt() + multiset{0} == due)
      ensures NoLineZero(before) && BaseOf(cache.g, addr) != 0 ==> NoLineZero(cache.sets)
    {
      hide Dirt, SetOf, TagOf, BaseOf, Placed, NoLineZero, Unseen;
      var g, s := cache.g, SetOf(cache.g, addr);
      ghost var queue := wb;
      if victim != 0 && cache.sets[s].lines[way].dirty {
        wb := wb + [victim];
      }
      ghost var line := Line(true, TagOf(g, addr), BaseOf(g, addr), now, gpu, dirty);
      cache.SetDirty(s, way, dirty);
      assert cache.sets[s].lines == before[s].lines[way := line];
      assert cache.sets == before[s := cache.sets[s]];
      MissConserves(before, queue, s, way, line, cache.sets[s], wb);
      BaseIsPlaced(g, addr);
      ChangeKeepsPlaced(g, before, s, way, line, cache.sets[s]);
    }

    /** dcu_c::done up to the waking of the uop: refused while the write-back queue is
        full or the port is taken. */
    method Done(addr: nat, dirty: bool, gpu: bool, now: nat, port: bool) returns (ok: bool, stuck: bool)
      requires Valid()
      modifies this`wb, cache
      ensures Valid()
      ensures ok ==>
        (AllDirt() == old(AllDirt()) + Brought(BaseOf(cache.g, addr), dirty, old(DirtyHit(addr))) <==>
           !old(Overlooks(addr, gpu)))
      ensures ok && old(Overlooks(addr, gpu)) ==>
        AllDirt() + multiset{0} == old(AllDirt()) + Brought(BaseOf(cache.g, addr), dirty, false)
      ensures Fits(cache.g, old(Now()), addr)
      ensures ok <==> |old(wb)| < WB_SIZE && port && old(Way(addr, gpu)).Some?
      ensures stuck <==> |old(wb)| < WB_SIZE && port && old(Way(addr, gpu)).None?
      ensures Now() == if ok then Stored(cache.g, old(Now()), old(Way(addr, gpu)).value, addr, dirty, gpu, now)
                       else old(Now())
    {
      if |wb| == WB_SIZE {
        return false, false;
      }
      if !port {
        return false, false;
      }
      stuck := StoreLine(addr, dirty, gpu, now);
      ok := !stuck;
    }

    /** One request of the fill queue: waiting for its cycle, for a port on a miss, or
        for being passed on. A fill that overlooks its victim loses a line at base 0. */
    method FillOne(r: FillReq, env: Env)
      returns (after: FillReq, did: bool, leaves: bool, stuck: bool, ghost already: bool, ghost lost: bool)
      requires Valid() && |wb| < WB_SIZE && env.shape == Form()
      modifies this`wb, cache
      ensures Valid()
      ensures TryOk(env, r, old(Now()), Now(), did) && after == Filled(r, did) && leaves == Goes(env, r, did)
      ensures stuck == Stops(env, old(Now()), r)
      ensures already == old(DirtyHit(r.addr)) && lost == (did && old(Overlooks(r.addr, r.gpu)))
      ensures already ==> BaseOf(cache.g, r.addr) in old(AllDirt())
      ensures Balance(old(AllDirt()), Brought(BaseOf(cache.g, r.addr), did && r.dirty, already), AllDirt(),
                      if lost then 1 else 0)
      ensures old(NoLineZero(cache.sets)) && BaseOf(cache.g, r.addr) != 0 ==> NoLineZero(cache.sets) && !lost
    {
      hide Dirt, SetOf, TagOf, BaseOf, Placed, NoLineZero, Lookup, Balance, Unseen, Choice, Stored;
      after, did, leaves, stuck := r, false, false, false;
      already, lost := DirtyHit(r.addr), false;
      AlreadyDirty(r.addr);
      Balanced(AllDirt(), BaseOf(cache.g, r.addr), r.dirty, already);
      if !env.ready(r.id) {
        return;
      }
      if r.isNew {
        var way := cache.Access(r.addr, false, env.now);
        if way >= cache.g.assoc && !env.port(r.id) {
          return;
        }
        ghost var before := AllDirt();
        lost := Overlooks(r.addr, r.gpu);
        OverlookedIsMiss(r.addr, r.gpu);
        stuck := StoreLine(r.addr, r.dirty, r.gpu, env.now);
        if stuck {
          lost := false;
          return;
        }
        BalancedAfter(before, Brought(BaseOf(cache.g, r.addr), r.dirty, already), AllDirt(), lost);
        did, after := true, r.(isNew := false);
      }
      leaves := env.forward(r.id);
    }

    lemma OverlookedIsMiss(addr: nat, gpu: bool)
      requires Valid()
      ensures Overlooks(addr, gpu) ==> !DirtyHit(addr)
    {
    }

    lemma AlreadyDirty(addr: nat)
      requires Valid()
      ensures DirtyHit(addr) ==> BaseOf(cache.g, addr) in AllDirt()
    {
      if DirtyHit(addr) {
        var s, w := SetOf(cache.g, addr), Lookup(cache.sets[SetOf(cache.g, addr)].lines, TagOf(cache.g, addr));
        FoundLine(cache.g, cache.sets, addr, w);
        var t := cache.sets[s].(lines := cache.sets[s].lines[w := EMPTY]);
        DirtyChange(cache.sets, s, w, EMPTY, t);
        var b := BaseOf(cache.g, addr);
        assert (Dirty(cache.sets[s := t]) + DirtyIn(cache.sets[s].lines[w]))[b] ==
          (Dirty(cache.sets) + DirtyIn(EMPTY))[b];
      }
    }

    /** process_fill_queue. The first n requests are tried in order, from views[0] to
        views[n]; n is short of the queue only because four have left, the write-back
        queue is full or the partition is stuck. What is not taken of those stays, then
        comes the rest of the queue. The dirty data after the pass is that before it plus
        what each fill brought, less the overlooked victims at base 0; without a line at
        base 0 nothing is lost. */
    method ProcessFill(env: Env)
      returns (ghost n: nat, ghost views: seq<View>, ghost dids: seq<bool>, ghost fills: seq<Fill>, ghost lost: nat,
               gone: seq<nat>, stuck: bool)
      requires Valid() && NoDup(Ids(fill)) && env.shape == Form()
      modifies this, cache
      ensures Valid() && |gone| <= 4
      ensures n <= |old(fill)| && Tried(env, old(fill)[..n], views, dids) && views[0] == old(Now()) && views[n] == Now()
      ensures fill == Staying(env, old(fill)[..n], dids) + old(fill)[n..] && gone == Going(env, old(fill)[..n], dids)
      ensures n < |old(fill)| ==> |gone| == 4 || |wb| == WB_SIZE || stuck
      ensures WentOn(env, old(fill)[..n], views, dids)
      ensures stuck <==> n > 0 && Stops(env, views[n - 1], old(fill)[n - 1])
      ensures Account(cache.g, old(fill), |old(fill)|, fill, fills, gone, old(AllDirt()), AllDirt(), lost)
      ensures old(NoLineZero(cache.sets)) && NoBaseZero(cache.g, old(fill)) ==> NoLineZero(cache.sets) && lost == 0
    {
      hide Dirt, SetOf, TagOf, BaseOf, Placed, NoLineZero, NoDup, Ids, Account, DirtyHit, Overlooks, Lookup, Brought,
           TryOk, Tried, WentOn, Staying, Going, Goes, Stops, WayFor, Balance;
      n, views, dids, fills, lost, gone, stuck := 0, [Now()], [], [], 0, [], false;
      var rest: seq<FillReq> := [];
      var i := 0;
      ghost var start := fill;
      AccountStart(cache.g, start, AllDirt());
      NoneTried(env, start, Now());
      while i < |fill| && |gone| < 4 && |wb| < WB_SIZE && !stuck
        invariant 0 <= i <= |fill| && fill == start
        invariant Valid() && |gone| <= 4
        invariant |views| == i + 1 && |dids| == i && views[0] == old(Now()) && views[i] == Now()
        invariant Tried(env, start[..i], views, dids)
        invariant rest == Staying(env, start[..i], dids) && gone == Going(env, start[..i], dids)
        invariant WentOn(env, start[..i], views, dids)
        invariant stuck <==> i > 0 && Stops(env, views[i - 1], start[i - 1])
        invariant Account(cache.g, start, i, rest, fills, gone, old(AllDirt()), AllDirt(), lost)
        invariant old(NoLineZero(cache.sets)) && NoBaseZero(cache.g, start) ==> NoLineZero(cache.sets) && lost == 0
      {
        ghost var before := AllDirt();
        var r, did, leaves;
        ghost var already, miss;
        r, did, leaves, stuck, already, miss := FillOne(fill[i], env);
        NextTried(env, start, i, views, dids, Now(), did);
        AccountStep(cache.g, start, i, rest, fills, gone, old(AllDirt()), before, lost, r, did, leaves, already,
                    AllDirt(), miss);
        views, dids := views + [Now()], dids + [did];
        if did {
          fills := fills + [Fill(r, already)];
        }
        if miss {
          lost := lost + 1;
        }
        if leaves {
          gone := gone + [r.id];
        } else {
          rest := rest + [r];
        }
        i := i + 1;
      }
      AccountEnd(cache.g, start, i, rest, fills, gone, old(AllDirt()), AllDirt(), lost);
      n := i;
      fill := rest + fill[i..];
    }
  }

  lemma NoneTried(env: Env, start: seq<FillReq>, v: View)
    ensures Tried(env, start[..0], [v], []) && WentOn(env, start[..0], [v], [])
    ensures Staying(env, start[..0], []) == [] && Going(env, start[..0], []) == []
  {
  }

  lemma NextTried(env: Env, start: seq<FillReq>, i: nat, views: seq<View>, dids: seq<bool>, v': View, did: bool)
    requires i < |start| && Tried(env, start[..i], views, dids) && TryOk(env, start[i], views[i], v', did)
    ensures Tried(env, start[..i + 1], views + [v'], dids + [did]) && (did ==> start[i].isNew)
    ensures |dids| == i
    ensures WentOn(env, start[..i], views, dids) && |views[i].wb| < WB_SIZE && |Going(env, start[..i], dids)| < 4 ==>
      WentOn(env, start[..i + 1], views + [v'], dids + [did])
    ensures Staying(env, start[..i + 1], dids + [did]) ==
      Staying(env, start[..i], dids) + if Goes(env, start[i], did) then [] else [Filled(start[i], did)]
    ensures Going(env, start[..i + 1], dids + [did]) ==
      Going(env, start[..i], dids) + if Goes(env, start[i], did) then [start[i].id] else []
  {
    hide Goes, Staying, Going, WayFor, Stored;
    assert start[..i + 1] == start[..i] + [start[i]];
    assert start[..i + 1][..i] == start[..i] && (dids + [did])[..i] == dids;
    TriedSnoc(env, start[..i], views, dids, start[i], v', did);
    PassSnoc(env, start[..i], dids, start[i], did);
  }
}
