/** When walks are done, faults are served and uops leave. */
module MmuTiming {
  import opened Lists
  import opened Recency
  import opened MmuModel
  import opened MmuMemory
  import opened MmuQueues
  import opened MmuWalks
  import opened MmuRun
  import opened MmuRecent

  // ----- retries and walks

  lemma {:induction false} LeavingEach(cfg: Config, s: State, us: seq<Uop>, o: Oracle, u: Uop)
    ensures u in Leaving(cfg, s, us, o) <==> u in us && Hits(s, u) && o.accepts(u)
  {
    hide Hits, RetryOne;
    if us != [] {
      var n := |us| - 1;
      LeavingEach(cfg, s, us[..n], o, u);
      RetryAllHits(cfg, s, us[..n], o, us[n]);
      assert us == us[..n] + [us[n]];
    }
  }

  /** The uops that leave in an unlocked cycle are exactly those of the retry queue that are
      translated or hit in the TLB and that the data cache takes. */
  lemma {:induction false} LeavesIff(cfg: Config, s: State, o: Oracle, u: Uop)
    ensures u in LeavingCycle(cfg, s, false, o) <==> u in s.q.retry && Hits(s, u) && o.accepts(u)
  {
    LeavingEach(cfg, s.(q := s.q.(retry := [])), s.q.retry, o, u);
  }

  /** A uop that misses waits for the walk of its page, which is due one walk latency after
      the first miss. */
  lemma {:induction false} WalkLatency(cfg: Config, s: State, u: Uop)
    requires WalksInv(s.q.walkQueue, s.q.walks) && !Hits(s, u)
    ensures var q := Translate(cfg, s, u).q;
      && u in Listed(q.walks, u.page)
      && (u.page in s.q.walks ==> q.walkQueue == s.q.walkQueue && u.page in Map(PageOf, s.q.walkQueue))
      && (u.page !in s.q.walks ==> q.walkQueue == s.q.walkQueue + [Walk(s.cycle + cfg.walkLatency, u.page)])
  {
  }

  /** The walk of the uop is queued and due. */
  ghost predicate Due(queue: seq<Walk>, walks: map<Page, seq<Uop>>, cycle: nat, u: Uop) {
    exists w :: w in queue && w.due <= cycle && u in Listed(walks, w.page)
  }

  lemma {:induction false} DueIsWalked(queue: seq<Walk>, walks: map<Page, seq<Uop>>, cycle: nat, u: Uop)
    requires NoDup(Map(PageOf, queue))
    requires forall i, k :: 0 <= i < k < |queue| ==> queue[i].due <= queue[k].due
    ensures u in DueUops(queue, walks, cycle) <==> Due(queue, walks, cycle, u)
  {
    hide Due, NoDup, Map;
    if queue == [] {
      NoneDue(walks, cycle, u);
    } else {
      RestOfQueue(queue, walks);
      DueSplits(queue, walks, cycle, u);
      DueIsWalked(queue[1..], walks - {queue[0].page}, cycle, u);
    }
  }

  lemma NoneDue(walks: map<Page, seq<Uop>>, cycle: nat, u: Uop)
    ensures !Due([], walks, cycle, u)
  {
  }

  lemma RestOfQueue(queue: seq<Walk>, walks: map<Page, seq<Uop>>)
    requires queue != [] && NoDup(Map(PageOf, queue))
    ensures NoDup(Map(PageOf, queue[1..]))
    ensures forall w :: w in queue[1..] ==> Listed(walks - {queue[0].page}, w.page) == Listed(walks, w.page)
  {
    var rest, pages := queue[1..], Map(PageOf, queue);
    assert Map(PageOf, rest) == pages[1..];
    forall w | w in rest
      ensures w.page != queue[0].page
    {
      var k :| 0 <= k < |rest| && rest[k] == w;
      assert pages[k + 1] == w.page && pages[0] == queue[0].page;
    }
  }

  lemma DueSplits(queue: seq<Walk>, walks: map<Page, seq<Uop>>, cycle: nat, u: Uop)
    requires queue != [] && forall i, k :: 0 <= i < k < |queue| ==> queue[i].due <= queue[k].due
    requires forall w :: w in queue[1..] ==> Listed(walks - {queue[0].page}, w.page) == Listed(walks, w.page)
    ensures Due(queue, walks, cycle, u) <==>
      queue[0].due <= cycle &&
      (u in Listed(walks, queue[0].page) || Due(queue[1..], walks - {queue[0].page}, cycle, u))
  {
    hide Listed;
    var rest, less := queue[1..], walks - {queue[0].page};
    if Due(queue, walks, cycle, u) {
      var w :| w in queue && w.due <= cycle && u in Listed(walks, w.page);
      var k :| 0 <= k < |queue| && queue[k] == w;
      if k > 0 {
        assert rest[k - 1] == w && w in rest && u in Listed(less, w.page);
      }
    }
    if Due(rest, less, cycle, u) {
      var w :| w in rest && w.due <= cycle && u in Listed(less, w.page);
      assert w in queue && u in Listed(walks, w.page);
    }
  }

  /** What a cycle walks, in any order: with an empty fault buffer the uops that found it
      full, and the uops whose walks are due. */
  lemma {:induction false} WalksExactly(cfg: Config, s: State, o: Oracle, u: Uop)
    requires Inv(cfg, s) && WalksSorted(cfg, s.q, s.cycle)
    ensures var q := AfterRetry(cfg, s, o).q;
      u in CycleWalks(cfg, s, o) <==>
        (s.q.faults == {} && u in s.q.faultRetry) || Due(q.walkQueue, q.walks, s.cycle, u)
  {
    hide MemInv, DueUops, Due, RetryAll;
    var start := s.(q := s.q.(retry := []));
    SetRetryKeeps(cfg, s, []);
    RetryAllKeeps(cfg, start, s.q.retry, o);
    RetrySorted(cfg, start, s.q.retry, o);
    var q := AfterRetry(cfg, s, o).q;
    DueIsWalked(q.walkQueue, q.walks, s.cycle, u);
  }

  // ----- batches

  /** The cycle from which the page prepared last can be served. */
  function ReadyAt(cfg: Config, t: Times): nat {
    t.prepared + cfg.faultLatency + if t.evicted then cfg.evictLatency else 0
  }

  ghost predicate TimesInv(cfg: Config, s: State, t: Times) {
    s.batch ==>
      && s.transferStart == t.begun + cfg.overhead
      && (s.started ==> t.begun + cfg.overhead <= t.prepared && s.nextEvent == ReadyAt(cfg, t))
  }

  /** A page was given up exactly when there was no free frame. */
  lemma PrepareEvicts(cfg: Config, s: State)
    requires MemInv(cfg, s.mem) && (s.mem.remaining > 0 || CanEvict(s.mem))
    ensures var t := Prepare(cfg, s);
      && t.nextEvent == s.cycle + cfg.faultLatency + (if s.mem.remaining > 0 then 0 else cfg.evictLatency)
      && (s.mem.remaining > 0 <==> forall p :: p in s.mem.table ==> p in t.mem.table)
  {
    hide MemInv;
    if s.mem.remaining <= 0 {
      assert s.mem.recency[|s.mem.recency| - 1] !in Prepare(cfg, s).mem.table;
    }
  }

  lemma ResolveTable(cfg: Config, s: State)
    requires Inv(cfg, s) && s.batch && s.started && Insertable(cfg, s.mem, s.q.current[0])
    ensures Steppable(cfg, s)
    ensures var r := Resolve(cfg, s);
      && MemInv(cfg, r.mem) && r.mem.table.Keys == s.mem.table.Keys + {s.q.current[0]}
      && r.q.current == s.q.current[1..] && r.cycle == s.cycle && r.batch == s.batch && r.started == s.started
      && r.transferStart == s.transferStart
  {
    hide QueuesInv, Coherent, FramesInv, ListInv, MapPage;
    ResolveKeeps(cfg, s);
    assert s.q.current[0] in s.q.current;
    MapKeeps(cfg, s.mem, s.q.current[0]);
  }

  /** A page of these is not mapped in t. */
  ghost predicate Loses(pages: set<Page>, t: State) {
    exists p :: p in pages && p !in t.mem.table
  }

  /** t has prepared for its next page in this cycle. */
  ghost predicate PreparedNow(cfg: Config, s: State, t: State, pages: set<Page>) {
    && t.batch && t.started && t.transferStart == s.transferStart
    && t.nextEvent == s.cycle + cfg.faultLatency + if Loses(pages, t) then cfg.evictLatency else 0
  }

  lemma StartTimes(cfg: Config, s: State)
    requires MemInv(cfg, s.mem) && s.batch && (s.mem.remaining > 0 || CanEvict(s.mem))
    ensures PreparedNow(cfg, s, Prepare(cfg, s).(started := true), s.mem.table.Keys)
  {
    hide MemInv, EvictPage, CanEvict;
    PrepareEvicts(cfg, s);
  }

  lemma ServeTimes(cfg: Config, s: State)
    requires Inv(cfg, s) && s.batch && Serving(s) && Steppable(cfg, s) && BatchStep(cfg, s).Some?
    ensures var t := BatchStep(cfg, s).value;
      && (|s.q.current| == 1 ==> !t.batch)
      && (|s.q.current| > 1 ==>
            PreparedNow(cfg, s, t, s.mem.table.Keys + {s.q.current[0]}) && t.q.current == s.q.current[1..])
  {
    hide Inv, MemInv, Resolve, Prepare, CanEvict, Insertable, PreparedNow;
    ResolveTable(cfg, s);
    var r := Resolve(cfg, s);
    if |s.q.current| > 1 {
      StartTimes(cfg, r);
      PrepareRest(cfg, r);
      assert r.(started := true) == r;
      SamePrepared(cfg, r, s, Prepare(cfg, r), r.mem.table.Keys);
    }
  }

  lemma PrepareRest(cfg: Config, s: State)
    requires s.mem.remaining > 0 || CanEvict(s.mem)
    ensures Prepare(cfg, s).q == s.q && Prepare(cfg, s).started == s.started
    ensures Prepare(cfg, s).(started := s.started) == Prepare(cfg, s)
  {
  }

  lemma SamePrepared(cfg: Config, r: State, s: State, t: State, pages: set<Page>)
    requires PreparedNow(cfg, r, t, pages) && r.transferStart == s.transferStart && r.cycle == s.cycle
    ensures PreparedNow(cfg, s, t, pages)
  {
  }

  /** One step of a batch, by what it was waiting for. */
  lemma BatchTimes(cfg: Config, s: State)
    requires Inv(cfg, s) && s.batch && Steppable(cfg, s) && BatchStep(cfg, s).Some?
    ensures BatchStep(cfg, s).value.cycle == s.cycle
    ensures var t := BatchStep(cfg, s).value;
      if Serving(s) then
        if |s.q.current| == 1 then !t.batch else PreparedNow(cfg, s, t, s.mem.table.Keys + {s.q.current[0]})
      else if !s.started && s.transferStart <= s.cycle then
        PreparedNow(cfg, s, t, s.mem.table.Keys)
      else t == s
  {
    hide MemInv, QueuesInv, MapPage, EvictPage, Release, CanEvict, Insertable, PreparedNow;
    if Serving(s) {
      ServeTimes(cfg, s);
    } else {
      StartTimes(cfg, s);
    }
  }

  lemma LosesIsEvicts(s: State, t: State)
    ensures Evicts(s, t) <==> Loses(s.mem.table.Keys + (set p | p in Served(s, t)), t)
  {
    hide Served;
  }

  lemma PreparedTimes(cfg: Config, s: State, t: State, times: Times)
    requires s.batch && TimesInv(cfg, s, times) && s.transferStart <= s.cycle && Prepares(s, t)
    requires PreparedNow(cfg, s, t, s.mem.table.Keys + (set p | p in Served(s, t)))
    ensures TimesInv(cfg, t, TimesAfter(s, t, times))
  {
    hide Evicts, Loses, Served;
    LosesIsEvicts(s, t);
  }

  /** No fault waits while no batch is under way; the first page of a batch is prepared as
      soon as the overhead has passed; and the times are kept. */
  lemma {:induction false} HandleTimes(cfg: Config, s: State, order: seq<Page>, times: Times)
    requires Inv(cfg, s) && (s.batch ==> Steppable(cfg, s)) && OrderFits(cfg, s, order)
    requires HandleFaults(cfg, s, order).Some? && TimesInv(cfg, s, times)
    ensures var t := HandleFaults(cfg, s, order).value;
      && TimesInv(cfg, t, TimesAfter(s, t, times))
      && (!t.batch ==> t.q.faults == {})
      && (s.batch && !s.started ==> (t.started <==> s.cycle >= times.begun + cfg.overhead))
  {
    hide Inv, BatchStep, BatchOrder, Served, Evicts, Loses;
    var t := HandleFaults(cfg, s, order).value;
    ServedIffServing(cfg, s, order);
    Occupied(cfg, s);
    if s.batch {
      BatchTimes(cfg, s);
      BatchStepKeeps(cfg, s);
      if t.batch && Serving(s) && |s.q.current| > 1 {
        assert (set p | p in Served(s, t)) == {s.q.current[0]};
        PreparedTimes(cfg, s, t, times);
      } else if !s.started && s.transferStart <= s.cycle {
        assert s.mem.table.Keys + (set p | p in Served(s, t)) == s.mem.table.Keys;
        PreparedTimes(cfg, s, t, times);
      }
    }
  }

  lemma Occupied(cfg: Config, s: State)
    requires Inv(cfg, s)
    ensures s.batch <==> s.q.current != []
  {
  }

  // ----- runs

  lemma StepTimes(cfg: Config, m: Log, e: Event, l: Log)
    requires Inv(cfg, m.state) && StepTo(cfg, m, e, l) && TimesInv(cfg, m.state, m.times)
    ensures TimesInv(cfg, l.state, l.times)
  {
    hide Inv, HandleFaults, RunCycle, Places, OrderFits, CycleUses, Served, LeavingCycle, TimesAfter;
    match e
    case Access(u) =>
    case Clock(locked, o) => CycleKeepsTable(cfg, m.state, locked, o);
    case Faults(order) => HandleTimes(cfg, m.state, order, m.times);
  }

  lemma {:induction false} RunTimes(cfg: Config, events: seq<Event>, l: Log)
    requires (cfg.nonswap || cfg.frames > 0) && Runs(cfg, events, l)
    ensures Inv(cfg, l.state) && TimesInv(cfg, l.state, l.times)
  {
    hide Inv, StepTo, Accounted;
    RunConserves(cfg, events, l, Uop(0, Page(0, 0), 0));
    if events != [] {
      hide TimesInv;
      var n := |events| - 1;
      var m :| Runs(cfg, events[..n], m) && StepTo(cfg, m, events[n], l);
      RunTimes(cfg, events[..n], m);
      StepTimes(cfg, m, events[n], l);
    }
  }

  /** In every run, when faults are handled: the first page of a batch is prepared exactly
      when the overhead has passed since the batch began; the page at the head is served
      exactly when the fault latency, and after an eviction the eviction latency too, has
      passed since it was prepared; and no fault waits while no batch is under way. */
  lemma {:induction false} ServedExactlyOnTime(cfg: Config, events: seq<Event>, m: Log, order: seq<Page>, l: Log)
    requires (cfg.nonswap || cfg.frames > 0) && Runs(cfg, events, m) && StepTo(cfg, m, Faults(order), l)
    ensures m.state.batch && !m.state.started ==>
      (l.state.started <==> m.state.cycle >= m.times.begun + cfg.overhead)
    ensures Served(m.state, l.state) != [] <==>
      m.state.batch && m.state.started && m.state.cycle >= ReadyAt(cfg, m.times)
    ensures !l.state.batch ==> l.state.q.faults == {}
  {
    hide Runs, Inv, HandleFaults, OrderFits, Served, TimesAfter;
    RunTimes(cfg, events, m);
    HandleTimes(cfg, m.state, order, m.times);
    ServedIffServing(cfg, m.state, order);
  }

  /** Serving a page releases every uop that waits for it, and maps it: it still is mapped
      afterwards unless there is only one frame, which is given up for the next page. */
  lemma {:induction false} ServingReleases(cfg: Config, events: seq<Event>, m: Log, order: seq<Page>, l: Log, u: Uop)
    requires (cfg.nonswap || cfg.frames > 0) && Runs(cfg, events, m) && StepTo(cfg, m, Faults(order), l)
    requires u.page in Served(m.state, l.state)
    requires u in Listed(m.state.q.currentUops, u.page) || u in Listed(m.state.q.faultUops, u.page)
    ensures u in l.state.q.retry
    ensures cfg.nonswap || cfg.frames > 1 ==> u.page in l.state.mem.table
  {
    hide Runs, Inv, HandleFaults, OrderFits;
    RunTimes(cfg, events, m);
    ServedIffServing(cfg, m.state, order);
    ReleasedInto(cfg, m.state, order, u);
    if cfg.nonswap || cfg.frames > 1 {
      StaysMapped(cfg, m.state, order);
    }
  }

  lemma ReleasedInto(cfg: Config, s: State, order: seq<Page>, u: Uop)
    requires Inv(cfg, s) && (s.batch ==> Steppable(cfg, s)) && HandleFaults(cfg, s, order).Some?
    requires s.batch && Serving(s) && u.page == s.q.current[0]
    requires u in Listed(s.q.currentUops, u.page) || u in Listed(s.q.faultUops, u.page)
    ensures u in HandleFaults(cfg, s, order).value.q.retry
  {
    hide Inv, MapPage, EvictPage, CanEvict, Insertable, Listed;
  }

  lemma StaysMapped(cfg: Config, s: State, order: seq<Page>)
    requires Inv(cfg, s) && (s.batch ==> Steppable(cfg, s)) && OrderFits(cfg, s, order)
    requires HandleFaults(cfg, s, order).Some? && s.batch && Serving(s) && (cfg.nonswap || cfg.frames > 1)
    ensures s.q.current[0] in HandleFaults(cfg, s, order).value.mem.table
  {
    var t := HandleFaults(cfg, s, order).value;
    var p := s.q.current[0];
    BatchStepKeeps(cfg, s);
    var b := BatchStep(cfg, s).value;
    if cfg.nonswap {
      NoSwapMaps(cfg, s);
    } else {
      hide Inv, OrderFits, BatchStep, Serving;
      BatchList(cfg, s);
      var r := [p] + s.mem.recency;
      assert r[0] == p;
      assert b.mem.recency[0] == p;
      ListedIsMapped(cfg, b, p);
    }
  }

  lemma NoSwapMaps(cfg: Config, s: State)
    requires Inv(cfg, s) && s.batch && Serving(s) && cfg.nonswap && Steppable(cfg, s) && BatchStep(cfg, s).Some?
    ensures s.q.current[0] in BatchStep(cfg, s).value.mem.table
  {
    hide QueuesInv, Coherent, Release;
  }

  lemma ListedIsMapped(cfg: Config, s: State, p: Page)
    requires Inv(cfg, s) && !cfg.nonswap && p in s.mem.recency
    ensures p in s.mem.table
  {
    hide QueuesInv, Coherent, FramesInv;
  }

  // ----- the size of the fault buffer

  lemma BatchBounded(cfg: Config, s: State, order: seq<Page>)
    requires (s.batch ==> Steppable(cfg, s)) && HandleFaults(cfg, s, order).Some?
    ensures |HandleFaults(cfg, s, order).value.q.faults| <= |s.q.faults|
  {
    hide MapPage, EvictPage, CanEvict, Insertable;
    if s.batch {
      var p := s.q.current[0];
      assert p in s.q.faults ==> |s.q.faults - {p}| == |s.q.faults| - 1;
      assert p !in s.q.faults ==> s.q.faults - {p} == s.q.faults;
    }
  }

  /** In every run without exemptions the fault buffer stays within its size. */
  lemma {:induction false} FaultBufferBounded(cfg: Config, events: seq<Event>, l: Log)
    requires Runs(cfg, events, l) && forall e :: e in events && e.Clock? ==> NoneExempt(e.o)
    ensures |l.state.q.faults| <= cfg.bufferSize
  {
    hide HandleFaults, RunCycle, Places, OrderFits, CycleUses, Served, LeavingCycle, TimesAfter, NoneExempt;
    if events != [] {
      var n := |events| - 1;
      var m :| Runs(cfg, events[..n], m) && StepTo(cfg, m, events[n], l);
      FaultBufferBounded(cfg, events[..n], m);
      assert events[n] in events;
      match events[n] {
        case Access(u) =>
        case Clock(locked, o) => CycleBounded(cfg, m.state, locked, o);
        case Faults(order) => BatchBounded(cfg, m.state, order);
      }
    }
  }
}
