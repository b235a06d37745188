/** Which uops a cycle walks, and where each of them ends up. */
module MmuWalks {
  import opened Lists
  import opened Recency
  import opened MmuModel

  /** The uops of the walks at the head of the queue that are due, in order. */
  function DueUops(queue: seq<Walk>, walks: map<Page, seq<Uop>>, cycle: nat): seq<Uop> {
    if queue == [] || queue[0].due > cycle then []
    else Listed(walks, queue[0].page) + DueUops(queue[1..], walks - {queue[0].page}, cycle)
  }

  /** The uops that an unlocked cycle walks, in order: those whose faults found the buffer
      full, once it has drained, and then those whose walks are due. */
  function CycleWalks(cfg: Config, s: State, o: Oracle): seq<Uop> {
    var q := AfterRetry(cfg, s, o).q;
    (if s.q.faults == {} then s.q.faultRetry else []) + DueUops(q.walkQueue, q.walks, s.cycle)
  }

  /** The pages that these walks find mapped, in order. */
  function HitPages(table: map<Page, nat>, us: seq<Uop>): seq<Page> {
    if us == [] then []
    else
      var u := us[|us| - 1];
      HitPages(table, us[..|us| - 1]) + if u.page in table then [u.page] else []
  }

  lemma {:induction false} HitPagesAppend(table: map<Page, nat>, a: seq<Uop>, b: seq<Uop>)
    ensures HitPages(table, a + b) == HitPages(table, a) + HitPages(table, b)
  {
    if b == [] {
      assert a + b == a;
    } else {
      var n := |b| - 1;
      assert (a + b)[..|a + b| - 1] == a + b[..n];
      HitPagesAppend(table, a, b[..n]);
    }
  }

  // ----- the retry loop

  /** The retry loop leaves memory, faults and the batch alone. */
  predicate SameFaults(s: State, t: State) {
    && t.mem == s.mem && SameBatch(s, t)
    && t.q.(walkQueue := s.q.walkQueue, walks := s.q.walks, retry := s.q.retry) == s.q
  }

  lemma {:induction false} RetryAllKeepsFaults(cfg: Config, s: State, us: seq<Uop>, o: Oracle)
    ensures SameFaults(s, RetryAll(cfg, s, us, o))
  {
    if us != [] {
      RetryAllKeepsFaults(cfg, s, us[..|us| - 1], o);
    }
  }

  lemma RetryKeepsFaults(cfg: Config, s: State, o: Oracle)
    ensures SameFaults(s, AfterRetry(cfg, s, o))
  {
    RetryAllKeepsFaults(cfg, s.(q := s.q.(retry := [])), s.q.retry, o);
  }

  /** A retried uop either hits, and is taken by the data cache or waits for it with its
      frame, or is queued for a walk of its page. */
  predicate Retried(s: State, t: State, u: Uop, accepted: bool) {
    if Hits(s, u) then
      && u in t.translated && (u !in s.translated ==> t.translated[u] == s.mem.tlb[u.page])
      && (u in s.translated ==> t.translated[u] == s.translated[u])
      && (!accepted ==> u in t.q.retry)
    else u in Listed(t.q.walks, u.page)
  }

  lemma {:induction false} RetryAllHits(cfg: Config, s: State, us: seq<Uop>, o: Oracle, u: Uop)
    ensures var t := RetryAll(cfg, s, us, o);
      && t.mem == s.mem && (Hits(t, u) <==> Hits(s, u))
      && (u in s.translated ==> u in t.translated && t.translated[u] == s.translated[u])
      && (u in t.translated && u !in s.translated ==> u.page in s.mem.tlb && t.translated[u] == s.mem.tlb[u.page])
  {
    if us != [] {
      RetryAllHits(cfg, s, us[..|us| - 1], o, u);
      RetryAllHits(cfg, s, us[..|us| - 1], o, us[|us| - 1]);
    }
  }

  lemma {:induction false} RetryAllEach(cfg: Config, s: State, us: seq<Uop>, o: Oracle, u: Uop)
    requires u in us
    ensures Retried(s, RetryAll(cfg, s, us, o), u, o.accepts(u))
  {
    hide RetryOne, Retried;
    var n := |us| - 1;
    var m := RetryAll(cfg, s, us[..n], o);
    RetryAllHits(cfg, s, us[..n], o, u);
    if u in us[..n] {
      RetryAllEach(cfg, s, us[..n], o, u);
      RetryOther(cfg, s, m, us[n], o, u);
    } else {
      RetrySelf(cfg, s, m, o, u);
    }
  }

  lemma RetrySelf(cfg: Config, s: State, m: State, o: Oracle, u: Uop)
    requires m.mem == s.mem && (Hits(m, u) <==> Hits(s, u))
    requires u in s.translated ==> u in m.translated && m.translated[u] == s.translated[u]
    requires u in m.translated && u !in s.translated ==> u.page in s.mem.tlb && m.translated[u] == s.mem.tlb[u.page]
    ensures Retried(s, RetryOne(cfg, m, u, o), u, o.accepts(u))
  {
  }

  lemma RetryOther(cfg: Config, s: State, m: State, x: Uop, o: Oracle, u: Uop)
    requires Retried(s, m, u, o.accepts(u)) && m.mem == s.mem
    ensures Retried(s, RetryOne(cfg, m, x, o), u, o.accepts(u))
  {
  }

  /** Every uop of the retry queue is retried in every unlocked cycle. */
  lemma {:induction false} EachRetried(cfg: Config, s: State, o: Oracle, u: Uop)
    requires u in s.q.retry
    ensures Retried(s, AfterRetry(cfg, s, o), u, o.accepts(u))
  {
    RetryAllEach(cfg, s.(q := s.q.(retry := [])), s.q.retry, o, u);
  }

  // ----- the walks

  /** Translated with the frame of the page table and released, or in the fault buffer. */
  predicate Settled(table: map<Page, nat>, t: State, u: Uop) {
    if u.page in table then u in t.q.retry && u in t.translated && t.translated[u] == table[u.page]
    else u.page in t.q.faults && u in Listed(t.q.faultUops, u.page)
  }

  /** What a walk leads to, from the page table and the faults given. Only a full fault
      buffer without the page's fault makes a uop wait for another walk, and only if it is
      not exempt. */
  predicate Walked(cfg: Config, table: map<Page, nat>, faults: set<Page>, t: State, u: Uop, exempt: bool) {
    || Settled(table, t, u)
    || (&& u.page !in table && u.page !in faults && !exempt
        && u in t.q.faultRetry && |t.q.faults| >= cfg.bufferSize)
  }

  /** Walks only add to the queues of walked uops. */
  ghost predicate Grows(s: State, t: State) {
    && t.mem.table == s.mem.table && SameBatch(s, t)
    && s.q.retry <= t.q.retry && s.q.faultRetry <= t.q.faultRetry
    && s.q.faults <= t.q.faults && |s.q.faults| <= |t.q.faults|
    && (forall p :: p in s.q.faultUops ==> Listed(s.q.faultUops, p) <= Listed(t.q.faultUops, p))
    && (forall u :: u in s.translated ==> u in t.translated)
    && (forall u :: u in s.translated && t.translated[u] != s.translated[u] ==>
          u.page in s.mem.table && t.translated[u] == s.mem.table[u.page])
  }

  lemma GrowsTrans(a: State, b: State, c: State)
    requires Grows(a, b) && Grows(b, c)
    ensures Grows(a, c)
  {
    forall p | p in a.q.faultUops
      ensures Listed(a.q.faultUops, p) <= Listed(c.q.faultUops, p)
    {
      assert Listed(a.q.faultUops, p) <= Listed(b.q.faultUops, p);
      if p in b.q.faultUops {
        assert Listed(b.q.faultUops, p) <= Listed(c.q.faultUops, p);
      }
    }
  }

  lemma SettledGrows(table: map<Page, nat>, s: State, t: State, u: Uop)
    requires Grows(s, t) && table == s.mem.table
    ensures Settled(table, s, u) ==> Settled(table, t, u)
  {
    if Settled(table, s, u) && u.page !in table {
      assert Listed(s.q.faultUops, u.page) <= Listed(t.q.faultUops, u.page);
    }
  }

  lemma WalkedGrows(cfg: Config, table: map<Page, nat>, faults: set<Page>, s: State, t: State, u: Uop, exempt: bool)
    requires Grows(s, t) && table == s.mem.table
    ensures Walked(cfg, table, faults, s, u, exempt) ==> Walked(cfg, table, faults, t, u, exempt)
  {
    hide Settled;
    SettledGrows(table, s, t, u);
  }

  lemma WalkOneGrows(cfg: Config, s: State, u: Uop, o: Oracle)
    ensures Grows(s, WalkOne(cfg, s, u, o))
    ensures Walked(cfg, s.mem.table, s.q.faults, WalkOne(cfg, s, u, o), u, o.exempt(u))
    ensures s.q.faults == {} && cfg.bufferSize > 0 ==> Settled(s.mem.table, WalkOne(cfg, s, u, o), u)
  {
    hide Grows, Walked, WalkOne;
    WalkOneAdds(cfg, s, u, o);
    WalkOneSettles(cfg, s, u, o);
  }

  lemma WalkOneAdds(cfg: Config, s: State, u: Uop, o: Oracle)
    ensures Grows(s, WalkOne(cfg, s, u, o))
  {
    hide Touched;
    OneMore(s.q.faults, u.page);
  }

  lemma WalkOneSettles(cfg: Config, s: State, u: Uop, o: Oracle)
    ensures Walked(cfg, s.mem.table, s.q.faults, WalkOne(cfg, s, u, o), u, o.exempt(u))
    ensures s.q.faults == {} && cfg.bufferSize > 0 ==> Settled(s.mem.table, WalkOne(cfg, s, u, o), u)
  {
    hide TouchMemory;
  }

  lemma OneMore(pages: set<Page>, p: Page)
    ensures |pages + {p}| >= |pages|
  {
    if p in pages {
      assert pages + {p} == pages;
    } else {
      assert |pages + {p}| == |pages| + 1;
    }
  }

  lemma {:induction false} WalkAllEach(cfg: Config, s: State, us: seq<Uop>, o: Oracle, u: Uop)
    ensures Grows(s, WalkAll(cfg, s, us, o))
    ensures u in us ==> Walked(cfg, s.mem.table, s.q.faults, WalkAll(cfg, s, us, o), u, o.exempt(u))
    ensures us != [] && us[0] == u && s.q.faults == {} && cfg.bufferSize > 0 ==>
      Settled(s.mem.table, WalkAll(cfg, s, us, o), u)
  {
    hide WalkOne, Settled, Walked;
    if us == [] {
      Same(s);
    } else {
      var n := |us| - 1;
      var m := WalkAll(cfg, s, us[..n], o);
      WalkAllEach(cfg, s, us[..n], o, u);
      WalkOneGrows(cfg, m, us[n], o);
      GrowsTrans(s, m, WalkAll(cfg, s, us, o));
      WalkedGrows(cfg, s.mem.table, s.q.faults, m, WalkAll(cfg, s, us, o), u, o.exempt(u));
      FewerFaults(cfg, s, m, WalkAll(cfg, s, us, o), us[n], o.exempt(us[n]));
      SettledGrows(s.mem.table, m, WalkAll(cfg, s, us, o), u);
    }
  }

  /** What is not among the later faults is not among the earlier ones. */
  lemma FewerFaults(cfg: Config, s: State, m: State, t: State, u: Uop, exempt: bool)
    requires Grows(s, m)
    ensures Walked(cfg, s.mem.table, m.q.faults, t, u, exempt) ==> Walked(cfg, s.mem.table, s.q.faults, t, u, exempt)
  {
    hide Settled;
  }

  lemma PoppedGrows(s: State, t: State)
    requires s.q.walkQueue != [] && Grows(s.(q := PopWalk(s.q)), t)
    ensures Grows(s, t)
  {
  }

  lemma Same(s: State)
    ensures Grows(s, s)
  {
  }

  lemma {:induction false} DueEach(cfg: Config, s: State, o: Oracle, u: Uop)
    ensures Grows(s, AfterWalks(cfg, s, o))
    ensures u in DueUops(s.q.walkQueue, s.q.walks, s.cycle) ==>
      Walked(cfg, s.mem.table, s.q.faults, AfterWalks(cfg, s, o), u, o.exempt(u))
    decreases |s.q.walkQueue|
  {
    hide WalkAll, Walked, Grows;
    if WalkDue(s) {
      var popped, us := s.(q := PopWalk(s.q)), Listed(s.q.walks, s.q.walkQueue[0].page);
      WalkAllKeepsQueue(cfg, popped, us, o);
      WalkAllEach(cfg, popped, us, o, u);
      var t := WalkHead(cfg, s, o);
      DueEach(cfg, t, o, u);
      GrowsTrans(popped, t, AfterWalks(cfg, s, o));
      PoppedGrows(s, AfterWalks(cfg, s, o));
      WalkedGrows(cfg, s.mem.table, s.q.faults, t, AfterWalks(cfg, s, o), u, o.exempt(u));
      FewerFaults(cfg, popped, t, AfterWalks(cfg, s, o), u, o.exempt(u));
    } else {
      Same(s);
    }
  }

  /** In an unlocked cycle every uop whose walk is due and, when the fault buffer is empty,
      every uop that found it full is walked: translated and released when its page is
      mapped, and otherwise put in the fault buffer, or back in line when that is full and
      has no place for it. The first in line is never put back. */
  lemma {:induction false} EachWalked(cfg: Config, s: State, o: Oracle, u: Uop)
    requires u in CycleWalks(cfg, s, o)
    ensures Walked(cfg, s.mem.table, s.q.faults, RunCycle(cfg, s, false, o), u, o.exempt(u))
    ensures s.q.faults == {} && s.q.faultRetry != [] && u == s.q.faultRetry[0] && cfg.bufferSize > 0 ==>
      Settled(s.mem.table, RunCycle(cfg, s, false, o), u)
  {
    hide AfterRetry, WalkAll, AfterWalks, DueUops, Walked, Settled;
    var a := AfterRetry(cfg, s, o);
    RetryKeepsFaults(cfg, s, o);
    var b := AfterFaultRetry(cfg, a, o);
    var again := a.(q := a.q.(faultRetry := []));
    WalkAllEach(cfg, again, a.q.faultRetry, o, u);
    WalkAllKeepsQueue(cfg, again, a.q.faultRetry, o);
    DueEach(cfg, b, o, u);
    var c := AfterWalks(cfg, b, o);
    WalkedGrows(cfg, s.mem.table, s.q.faults, b, c, u, o.exempt(u));
    Same(a);
    FewerFaults(cfg, if s.q.faults == {} then again else a, b, c, u, o.exempt(u));
    SettledGrows(s.mem.table, b, c, u);
    Later(cfg, s.mem.table, s.q.faults, c, c.(cycle := c.cycle + 1), u, o.exempt(u));
  }

  lemma Later(cfg: Config, table: map<Page, nat>, faults: set<Page>, s: State, t: State, u: Uop, exempt: bool)
    requires t.q == s.q && t.translated == s.translated
    ensures Walked(cfg, table, faults, s, u, exempt) <==> Walked(cfg, table, faults, t, u, exempt)
    ensures Settled(table, s, u) <==> Settled(table, t, u)
  {
  }

  // ----- the size of the fault buffer

  /** No uop may exceed the fault buffer. */
  ghost predicate NoneExempt(o: Oracle) {
    forall u :: !o.exempt(u)
  }

  /** The buffer has not grown beyond its size. */
  predicate Bounded(cfg: Config, s: State, t: State) {
    |t.q.faults| <= if |s.q.faults| > cfg.bufferSize then |s.q.faults| else cfg.bufferSize
  }

  lemma WalkOneBounded(cfg: Config, s: State, u: Uop, o: Oracle)
    requires NoneExempt(o)
    ensures Bounded(cfg, s, WalkOne(cfg, s, u, o))
  {
    hide TouchMemory;
    assert u.page in s.q.faults ==> s.q.faults + {u.page} == s.q.faults;
  }

  lemma {:induction false} WalkAllBounded(cfg: Config, s: State, us: seq<Uop>, o: Oracle)
    requires NoneExempt(o)
    ensures Bounded(cfg, s, WalkAll(cfg, s, us, o))
  {
    hide WalkOne;
    if us != [] {
      WalkAllBounded(cfg, s, us[..|us| - 1], o);
      WalkOneBounded(cfg, WalkAll(cfg, s, us[..|us| - 1], o), us[|us| - 1], o);
    }
  }

  lemma {:induction false} AfterWalksBounded(cfg: Config, s: State, o: Oracle)
    requires NoneExempt(o)
    ensures Bounded(cfg, s, AfterWalks(cfg, s, o))
    decreases |s.q.walkQueue|
  {
    hide WalkAll;
    if WalkDue(s) {
      var popped, us := s.(q := PopWalk(s.q)), Listed(s.q.walks, s.q.walkQueue[0].page);
      WalkAllKeepsQueue(cfg, popped, us, o);
      WalkAllBounded(cfg, popped, us, o);
      AfterWalksBounded(cfg, WalkHead(cfg, s, o), o);
    }
  }

  /** Without exemptions a cycle never takes the fault buffer beyond its size. */
  lemma {:induction false} CycleBounded(cfg: Config, s: State, locked: bool, o: Oracle)
    requires NoneExempt(o)
    ensures Bounded(cfg, s, RunCycle(cfg, s, locked, o))
  {
    hide AfterRetry, WalkAll, AfterWalks;
    if !locked {
      var a := AfterRetry(cfg, s, o);
      RetryKeepsFaults(cfg, s, o);
      WalkAllBounded(cfg, a.(q := a.q.(faultRetry := [])), a.q.faultRetry, o);
      AfterWalksBounded(cfg, AfterFaultRetry(cfg, a, o), o);
    }
  }

  // ----- the TLB

  /** None of these walks displaces the page from the TLB. */
  ghost predicate Undisturbed(us: seq<Uop>, o: Oracle, p: Page) {
    forall v :: v in us ==> p !in o.displaced(v)
  }

  /** One of these walks finds the page mapped. */
  ghost predicate Found(table: map<Page, nat>, us: seq<Uop>, p: Page) {
    p in table && exists v :: v in us && v.page == p
  }

  lemma {:induction false} WalkAllCaches(cfg: Config, s: State, us: seq<Uop>, o: Oracle, p: Page)
    requires Undisturbed(us, o, p)
    ensures p in s.mem.tlb || Found(s.mem.table, us, p) ==> p in WalkAll(cfg, s, us, o).mem.tlb
  {
    hide Dispatch, Touched;
    if us != [] {
      var n := |us| - 1;
      WalkAllCaches(cfg, s, us[..n], o, p);
      WalkAllKeepsQueue(cfg, s, us[..n], o);
      assert us == us[..n] + [us[n]];
      if Found(s.mem.table, us, p) && us[n].page != p {
        var v :| v in us && v.page == p;
        assert v in us[..n];
      }
    }
  }

  lemma {:induction false} AfterWalksCaches(cfg: Config, s: State, o: Oracle, p: Page)
    requires Undisturbed(DueUops(s.q.walkQueue, s.q.walks, s.cycle), o, p)
    ensures p in s.mem.tlb || Found(s.mem.table, DueUops(s.q.walkQueue, s.q.walks, s.cycle), p) ==>
      p in AfterWalks(cfg, s, o).mem.tlb
    decreases |s.q.walkQueue|
  {
    hide WalkAll;
    if WalkDue(s) {
      var popped, us := s.(q := PopWalk(s.q)), Listed(s.q.walks, s.q.walkQueue[0].page);
      WalkAllKeepsQueue(cfg, popped, us, o);
      WalkAllCaches(cfg, popped, us, o, p);
      AfterWalksCaches(cfg, WalkHead(cfg, s, o), o, p);
    }
  }

  /** A page that was in the TLB, or that a walk of the cycle finds mapped, is in the TLB
      after the cycle unless one of its walks displaces it. */
  lemma {:induction false} CycleCaches(cfg: Config, s: State, o: Oracle, p: Page)
    requires Undisturbed(CycleWalks(cfg, s, o), o, p)
    ensures p in s.mem.tlb || Found(s.mem.table, CycleWalks(cfg, s, o), p) ==>
      p in RunCycle(cfg, s, false, o).mem.tlb
  {
    hide AfterRetry, WalkAll, AfterWalks, DueUops;
    var a := AfterRetry(cfg, s, o);
    RetryKeepsFaults(cfg, s, o);
    var waiting := if s.q.faults == {} then s.q.faultRetry else [];
    var due := DueUops(a.q.walkQueue, a.q.walks, s.cycle);
    assert forall v :: v in CycleWalks(cfg, s, o) <==> v in waiting || v in due;
    var again := a.(q := a.q.(faultRetry := []));
    WalkAllKeepsQueue(cfg, again, waiting, o);
    WalkAllCaches(cfg, again, waiting, o, p);
    AfterWalksCaches(cfg, AfterFaultRetry(cfg, a, o), o, p);
  }
}
