/** The page swapped out is the one whose last use, by a walk or by its fault, is the
    longest ago. */
module MmuRecent {
  import opened Lists
  import opened Recency
  import opened MmuModel
  import opened MmuMemory
  import opened MmuQueues
  import opened MmuWalks
  import opened MmuRun

  predicate Is(used: Page, p: Page) { used == p }

  /** The recency list is in the order of last use. */
  ghost predicate Ranked(r: seq<Page>, uses: seq<Page>) {
    ByLastUse(Is, uses, r)
  }

  // ----- one walk

  /** p is listed as more recent than q. */
  ghost predicate Ahead(r: seq<Page>, p: Page, q: Page) {
    exists i, k :: 0 <= i < k < |r| && r[i] == p && r[k] == q
  }

  lemma AheadSnoc(r: seq<Page>, last: Page, p: Page, q: Page)
    ensures Ahead(r + [last], p, q) <==> Ahead(r, p, q) || (q == last && p in r)
  {
    var s := r + [last];
    if Ahead(s, p, q) {
      var i, k :| 0 <= i < k < |s| && s[i] == p && s[k] == q;
      assert r[i] == p && (k < |r| ==> r[k] == q);
    }
    if Ahead(r, p, q) {
      var i, k :| 0 <= i < k < |r| && r[i] == p && r[k] == q;
      assert s[i] == p && s[k] == q;
    }
    if q == last && p in r {
      var i :| 0 <= i < |r| && r[i] == p;
      assert s[i] == p && s[|r|] == q;
    }
  }

  lemma {:induction false} WithoutAhead(r: seq<Page>, x: Page, p: Page, q: Page)
    requires p != x && q != x
    ensures Ahead(Without(r, [x]), p, q) <==> Ahead(r, p, q)
    ensures p in Without(r, [x]) <==> p in r
  {
    hide Ahead;
    if r == [] {
      NoneAhead(p, q);
    } else {
      var front, last := r[..|r| - 1], r[|r| - 1];
      assert r == front + [last];
      WithoutAhead(front, x, p, q);
      AheadSnoc(front, last, p, q);
      AheadSnoc(Without(front, [x]), last, p, q);
    }
  }

  lemma NoneAhead(p: Page, q: Page)
    ensures !Ahead([], p, q)
  {
  }

  /** A walk that finds its page mapped makes it the most recent one, and the other mapped
      pages keep their order. */
  lemma {:induction false} WalkLeads(cfg: Config, s: State, u: Uop, o: Oracle, p: Page, q: Page)
    requires MemInv(cfg, s.mem) && !cfg.nonswap && u.page in s.mem.table
    requires p in s.mem.table && p != u.page && q != u.page
    ensures var r, r' := s.mem.recency, WalkOne(cfg, s, u, o).mem.recency;
      Ahead(r', u.page, p) && (Ahead(r', p, q) <==> Ahead(r, p, q))
  {
    hide FramesInv, Coherent, NoDup;
    var r := s.mem.recency;
    var rest := Without(r, [u.page]);
    WithoutAhead(r, u.page, p, q);
    Leads(u.page, rest, p, q);
  }

  lemma Leads(x: Page, rest: seq<Page>, p: Page, q: Page)
    requires p in rest && p != x && q != x
    ensures Ahead([x] + rest, x, p) && (Ahead([x] + rest, p, q) <==> Ahead(rest, p, q))
  {
    var r := [x] + rest;
    var k :| 0 <= k < |rest| && rest[k] == p;
    assert r[0] == x && r[k + 1] == p;
    if Ahead(r, p, q) {
      var i, j :| 0 <= i < j < |r| && r[i] == p && r[j] == q;
      assert rest[i - 1] == p && rest[j - 1] == q;
    }
    if Ahead(rest, p, q) {
      var i, j :| 0 <= i < j < |rest| && rest[i] == p && rest[j] == q;
      assert r[i + 1] == p && r[j + 1] == q;
    }
  }

  lemma TouchRanks(r: seq<Page>, uses: seq<Page>, p: Page)
    requires Ranked(r, uses)
    ensures Ranked(Touched(r, p), uses + [p])
  {
    hide ByLastUse, LastUse;
    WithoutByLastUse(Is, uses, r, p);
    UseFront(Is, uses, p, p, Without(r, [p]));
  }

  lemma WalkOneRanks(cfg: Config, s: State, u: Uop, o: Oracle, uses: seq<Page>)
    requires !cfg.nonswap && Ranked(s.mem.recency, uses)
    ensures Ranked(WalkOne(cfg, s, u, o).mem.recency, uses + if u.page in s.mem.table then [u.page] else [])
  {
    hide Ranked, Dispatch;
    TouchRanks(s.mem.recency, uses, u.page);
    assert uses + [] == uses;
  }

  lemma {:induction false} WalkAllRanks(cfg: Config, s: State, us: seq<Uop>, o: Oracle, uses: seq<Page>)
    requires !cfg.nonswap && Ranked(s.mem.recency, uses)
    ensures Ranked(WalkAll(cfg, s, us, o).mem.recency, uses + HitPages(s.mem.table, us))
  {
    hide Ranked, WalkOne;
    if us == [] {
      assert uses + [] == uses;
    } else {
      var n, u := |us| - 1, us[|us| - 1];
      WalkAllRanks(cfg, s, us[..n], o, uses);
      WalkAllKeepsQueue(cfg, s, us[..n], o);
      var hits, more := HitPages(s.mem.table, us[..n]), if u.page in s.mem.table then [u.page] else [];
      WalkOneRanks(cfg, WalkAll(cfg, s, us[..n], o), u, o, uses + hits);
      assert uses + hits + more == uses + (hits + more);
    }
  }

  lemma {:induction false} AfterWalksRanks(cfg: Config, s: State, o: Oracle, uses: seq<Page>)
    requires !cfg.nonswap && Ranked(s.mem.recency, uses)
    ensures Ranked(AfterWalks(cfg, s, o).mem.recency,
                   uses + HitPages(s.mem.table, DueUops(s.q.walkQueue, s.q.walks, s.cycle)))
    decreases |s.q.walkQueue|
  {
    hide Ranked, WalkAll;
    if WalkDue(s) {
      var popped, us := s.(q := PopWalk(s.q)), Listed(s.q.walks, s.q.walkQueue[0].page);
      WalkAllKeepsQueue(cfg, popped, us, o);
      WalkAllRanks(cfg, popped, us, o, uses);
      var t, table := WalkHead(cfg, s, o), s.mem.table;
      AfterWalksRanks(cfg, t, o, uses + HitPages(table, us));
      var due := DueUops(t.q.walkQueue, t.q.walks, t.cycle);
      HitPagesAppend(table, us, due);
      assert uses + HitPages(table, us) + HitPages(table, due) == uses + HitPages(table, us + due);
    } else {
      assert uses + [] == uses;
    }
  }

  lemma {:induction false} CycleRanks(cfg: Config, s: State, locked: bool, o: Oracle, uses: seq<Page>)
    requires !cfg.nonswap && Ranked(s.mem.recency, uses)
    ensures Ranked(RunCycle(cfg, s, locked, o).mem.recency, uses + CycleUses(cfg, s, locked, o))
  {
    hide Ranked, WalkAll, AfterWalks, AfterRetry, DueUops;
    if locked {
      assert uses + [] == uses;
    } else {
      var a := AfterRetry(cfg, s, o);
      RetryKeepsFaults(cfg, s, o);
      var again, table := a.(q := a.q.(faultRetry := [])), s.mem.table;
      var waiting := if s.q.faults == {} then s.q.faultRetry else [];
      WalkAllRanks(cfg, again, a.q.faultRetry, o, uses);
      WalkAllKeepsQueue(cfg, again, a.q.faultRetry, o);
      assert uses + [] == uses;
      var b := AfterFaultRetry(cfg, a, o);
      assert Ranked(b.mem.recency, uses + HitPages(table, waiting));
      AfterWalksRanks(cfg, b, o, uses + HitPages(table, waiting));
      var due := DueUops(a.q.walkQueue, a.q.walks, s.cycle);
      HitPagesAppend(table, waiting, due);
      assert uses + HitPages(table, waiting) + HitPages(table, due) == uses + HitPages(table, waiting + due);
    }
  }

  // ----- batches

  lemma PrefixRanks(r: seq<Page>, n: nat, uses: seq<Page>)
    requires Ranked(r, uses) && n <= |r|
    ensures Ranked(r[..n], uses)
  {
    hide LastUse;
  }

  lemma MapRanks(r: seq<Page>, uses: seq<Page>, p: Page)
    requires Ranked(r, uses) && p !in r
    ensures Ranked([p] + r, uses + [p])
  {
    hide ByLastUse, LastUse;
    UseFront(Is, uses, p, p, r);
  }

  /** The recency list with the page served, before any page is given up. */
  ghost function Listing(s: State, t: State): seq<Page> {
    Served(s, t) + s.mem.recency
  }

  /** What handling faults does to the list: the page served comes in front, and a page is
      given up only when no frame is left, and then the last one. */
  ghost predicate ListStep(cfg: Config, s: State, t: State) {
    var r := Listing(s, t);
    t.mem.recency == r || (r != [] && t.mem.recency == r[..|r| - 1] && |r| == cfg.frames)
  }

  lemma PrepareList(cfg: Config, s: State)
    requires ListInv(cfg, s.mem) && FramesInv(cfg, s.mem) && (s.mem.remaining > 0 || CanEvict(s.mem))
    ensures var r, r' := s.mem.recency, Prepare(cfg, s).mem.recency;
      if s.mem.remaining > 0 then r' == r else r != [] && r' == r[..|r| - 1] && |r| == cfg.frames
  {
    hide CountFree;
  }

  lemma ResolveList(cfg: Config, s: State)
    requires !cfg.nonswap && Inv(cfg, s) && s.batch && s.started && Insertable(cfg, s.mem, s.q.current[0])
    ensures Steppable(cfg, s) && MemInv(cfg, Resolve(cfg, s).mem)
    ensures Resolve(cfg, s).mem.recency == [s.q.current[0]] + s.mem.recency && s.q.current[0] !in s.mem.recency
  {
    hide QueuesInv, Coherent, Release, Search;
    ResolveKeeps(cfg, s);
    assert s.q.current[0] in s.q.current;
    MapList(cfg, s.mem, s.q.current[0]);
  }

  lemma BatchList(cfg: Config, s: State)
    requires !cfg.nonswap && Inv(cfg, s) && s.batch && Steppable(cfg, s) && BatchStep(cfg, s).Some?
    ensures var r, t := (if Serving(s) then [s.q.current[0]] else []) + s.mem.recency, BatchStep(cfg, s).value;
      t.mem.recency == r || (r != [] && t.mem.recency == r[..|r| - 1] && |r| == cfg.frames)
  {
    hide QueuesInv, Coherent, FramesInv, ListInv, Resolve, Prepare, Insertable, CanEvict;
    InvIsSteppable(cfg, s);
    PrepareList(cfg, s);
    if Serving(s) && Insertable(cfg, s.mem, s.q.current[0]) {
      ResolveList(cfg, s);
      var r := Resolve(cfg, s);
      FullMeansEvictable(cfg, r.mem);
      PrepareList(cfg, r);
    } else {
      assert [] + s.mem.recency == s.mem.recency;
    }
  }

  /** A page is served exactly when the fault being handled is due. */
  lemma ServedIffServing(cfg: Config, s: State, order: seq<Page>)
    requires Inv(cfg, s) && (s.batch ==> Steppable(cfg, s)) && OrderFits(cfg, s, order)
    requires HandleFaults(cfg, s, order).Some?
    ensures Served(s, HandleFaults(cfg, s, order).value) == if s.batch && Serving(s) then [s.q.current[0]] else []
  {
    hide MemInv, MapPage, EvictPage, CanEvict, Insertable, Keyed, WalksInv;
    if s.batch && Serving(s) {
      ReleaseKeeps(s.q);
    }
  }

  lemma HandleList(cfg: Config, s: State, order: seq<Page>)
    requires !cfg.nonswap && Inv(cfg, s) && (s.batch ==> Steppable(cfg, s)) && OrderFits(cfg, s, order)
    requires HandleFaults(cfg, s, order).Some?
    ensures ListStep(cfg, s, HandleFaults(cfg, s, order).value)
  {
    hide Inv, BatchStep, Served, BatchOrder;
    ServedIffServing(cfg, s, order);
    if s.batch {
      BatchList(cfg, s);
    } else {
      assert [] + s.mem.recency == s.mem.recency;
    }
  }

  lemma HandleRanks(cfg: Config, s: State, order: seq<Page>, uses: seq<Page>)
    requires !cfg.nonswap && Inv(cfg, s) && (s.batch ==> Steppable(cfg, s)) && OrderFits(cfg, s, order)
    requires HandleFaults(cfg, s, order).Some? && Ranked(s.mem.recency, uses)
    ensures var t := HandleFaults(cfg, s, order).value; Ranked(t.mem.recency, uses + Served(s, t))
  {
    hide HandleFaults, OrderFits, Ranked, MemInv, QueuesInv;
    var t := HandleFaults(cfg, s, order).value;
    HandleList(cfg, s, order);
    var r := Listing(s, t);
    if Served(s, t) == [] {
      assert r == s.mem.recency && uses + [] == uses;
    } else {
      NotListed(cfg, s);
      MapRanks(s.mem.recency, uses, s.q.current[0]);
    }
    PrefixRanks(r, |r|, uses + Served(s, t));
    if r != [] {
      PrefixRanks(r, |r| - 1, uses + Served(s, t));
    }
  }

  lemma NotListed(cfg: Config, s: State)
    requires !cfg.nonswap && Inv(cfg, s) && s.q.current != []
    ensures s.q.current[0] !in s.mem.recency
  {
    hide QueuesInv, FramesInv, Coherent;
    assert s.q.current[0] in s.q.current;
  }

  // ----- runs

  lemma StepRanks(cfg: Config, m: Log, e: Event, l: Log)
    requires !cfg.nonswap && Inv(cfg, m.state) && StepTo(cfg, m, e, l) && Ranked(m.state.mem.recency, m.uses)
    ensures Ranked(l.state.mem.recency, l.uses)
  {
    hide Inv, Ranked, HandleFaults, RunCycle, Places, OrderFits, CycleUses, Served, LeavingCycle;
    match e
    case Access(u) =>
    case Clock(locked, o) => CycleRanks(cfg, m.state, locked, o, m.uses);
    case Faults(order) => HandleRanks(cfg, m.state, order, m.uses);
  }

  lemma {:induction false} RunRanks(cfg: Config, events: seq<Event>, l: Log)
    requires !cfg.nonswap && cfg.frames > 0 && Runs(cfg, events, l)
    ensures Ranked(l.state.mem.recency, l.uses)
  {
    hide Inv, StepTo, Accounted;
    if events != [] {
      hide Ranked;
      var n := |events| - 1;
      var m :| Runs(cfg, events[..n], m) && StepTo(cfg, m, events[n], l);
      RunRanks(cfg, events[..n], m);
      RunConserves(cfg, events[..n], m, Uop(0, Page(0, 0), 0));
      StepRanks(cfg, m, events[n], l);
    }
  }

  lemma RankOf(r: seq<Page>, uses: seq<Page>, p: Page)
    requires Ranked(r, uses) && p in r && p != r[|r| - 1]
    ensures LastUse(Is, uses, r[|r| - 1]) < LastUse(Is, uses, p)
  {
    hide LastUse;
    var i :| 0 <= i < |r| && r[i] == p;
    assert i < |r| - 1;
  }

  /** In every run, whenever an event takes a page out of the page table, every other page
      mapped then had been used later, by a walk that found it mapped or by its own fault,
      and stays mapped; and the frame given up is the only free one. */
  lemma {:induction false} RunEvictsLeastRecentlyUsed(cfg: Config, events: seq<Event>, m: Log, e: Event, l: Log,
                                                      v: Page, p: Page)
    requires !cfg.nonswap && cfg.frames > 0 && Runs(cfg, events, m) && StepTo(cfg, m, e, l)
    requires v in m.state.mem.table && v !in l.state.mem.table && p in m.state.mem.table && p != v
    ensures LastUse(Is, m.uses, v) < LastUse(Is, m.uses, p)
    ensures p in l.state.mem.table && l.state.mem.remaining == 1
  {
    hide Runs, Ranked, LastUse, HandleFaults, RunCycle, Places, OrderFits, QueuesInv, Served, FramesInv, Coherent, Inv;
    RunConserves(cfg, events, m, Uop(0, p, 0));
    RunRanks(cfg, events, m);
    StepInv(cfg, m, e, l);
    match e {
      case Access(u) => assert false;
      case Clock(locked, o) =>
        CycleKeepsTable(cfg, m.state, locked, o);
        assert false;
      case Faults(order) =>
        HandleList(cfg, m.state, order);
        LastGoes(cfg, m.state, l.state, v, p);
        RankOf(m.state.mem.recency, m.uses, p);
    }
  }

  /** A page that goes is the last one listed. */
  lemma LastGoes(cfg: Config, s: State, t: State, v: Page, p: Page)
    requires !cfg.nonswap && Inv(cfg, s) && Inv(cfg, t) && ListStep(cfg, s, t)
    requires v in s.mem.table && v !in t.mem.table && p in s.mem.table && p != v
    ensures var r := s.mem.recency; p in r && v == r[|r| - 1]
    ensures p in t.mem.table && t.mem.remaining == 1
  {
    hide QueuesInv, FramesInv, Coherent, Served;
    var r, a := Listing(s, t), s.mem.recency;
    assert v in a && v in r && p in a && p in r;
    assert r[|r| - 1] == a[|a| - 1];
    assert r == r[..|r| - 1] + [r[|r| - 1]];
  }

  lemma CycleKeepsTable(cfg: Config, s: State, locked: bool, o: Oracle)
    ensures var t := RunCycle(cfg, s, locked, o);
      t.mem.table == s.mem.table && t.cycle == s.cycle + 1 && SameBatch(s, t.(cycle := s.cycle))
  {
    hide AfterWalks, AfterRetry, WalkAll, Grows, Walked, Settled;
    var u := Uop(0, Page(0, 0), 0);
    if !locked {
      RetryKeepsFaults(cfg, s, o);
      var a := AfterRetry(cfg, s, o);
      WalkAllKeepsQueue(cfg, a.(q := a.q.(faultRetry := [])), a.q.faultRetry, o);
      var b := AfterFaultRetry(cfg, a, o);
      DueEach(cfg, b, o, u);
      GrowsTable(b, AfterWalks(cfg, b, o));
    }
  }

  lemma GrowsTable(s: State, t: State)
    requires Grows(s, t)
    ensures t.mem.table == s.mem.table && SameBatch(s, t)
  {
  }
}
