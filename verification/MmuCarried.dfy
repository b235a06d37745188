/** The frames that uops carry once they are translated, which nothing revalidates. */
module MmuCarried {
  import opened Lists
  import opened Recency
  import opened MmuModel
  import opened MmuMemory
  import opened MmuQueues
  import opened MmuRun

  /** The frame the uop carries is the one its page is mapped to. */
  predicate IsCurrent(s: State, u: Uop) {
    u in s.translated && u.page in s.mem.table && s.translated[u] == s.mem.table[u.page]
  }

  /** A carried frame is current exactly as long as no eviction has left the page's key
      behind; without swapping there is none, and every carried frame is current. */
  ghost predicate Carried(s: State) {
    forall u :: u in s.translated ==> (IsCurrent(s, u) <==> u.page !in s.mem.stale)
  }

  // ----- translations and walks

  /** From s to t mappings stayed and uops kept their frames or got current ones. */
  ghost predicate Renewed(s: State, t: State) {
    && t.mem.table == s.mem.table && t.mem.stale == s.mem.stale
    && (forall u :: u in s.translated ==> u in t.translated)
    && (forall u :: u in t.translated ==> (u in s.translated && t.translated[u] == s.translated[u]) || IsCurrent(t, u))
  }

  lemma RenewedTrans(a: State, b: State, c: State)
    requires Renewed(a, b) && Renewed(b, c)
    ensures Renewed(a, c)
  {
    forall u | u in c.translated
      ensures (u in a.translated && c.translated[u] == a.translated[u]) || IsCurrent(c, u)
    {
      if !IsCurrent(c, u) {
        assert u in b.translated && !IsCurrent(b, u);
      }
    }
  }

  lemma TranslateRenews(cfg: Config, s: State, u: Uop)
    requires Inv(cfg, s)
    ensures Renewed(s, Translate(cfg, s, u))
  {
    hide FramesInv, ListInv, QueuesInv;
  }

  lemma WalkOneRenews(cfg: Config, s: State, u: Uop, o: Oracle)
    ensures Renewed(s, WalkOne(cfg, s, u, o))
  {
    hide Dispatch;
  }

  lemma {:induction false} WalkAllRenews(cfg: Config, s: State, us: seq<Uop>, o: Oracle)
    ensures Renewed(s, WalkAll(cfg, s, us, o))
  {
    hide WalkOne, Renewed;
    if us == [] {
      SameRenews(s, s);
    } else {
      var t := WalkAll(cfg, s, us[..|us| - 1], o);
      WalkAllRenews(cfg, s, us[..|us| - 1], o);
      WalkOneRenews(cfg, t, us[|us| - 1], o);
      RenewedTrans(s, t, WalkAll(cfg, s, us, o));
    }
  }

  lemma SameRenews(s: State, t: State)
    requires t.mem.table == s.mem.table && t.mem.stale == s.mem.stale && t.translated == s.translated
    ensures Renewed(s, t)
  {
  }

  lemma RetryOneRenews(cfg: Config, s: State, u: Uop, o: Oracle)
    requires Inv(cfg, s)
    ensures Renewed(s, RetryOne(cfg, s, u, o))
  {
    hide Inv, Translate, Renewed;
    var t := Translate(cfg, s, u);
    TranslateRenews(cfg, s, u);
    SameRenews(t, RetryOne(cfg, s, u, o));
    RenewedTrans(s, t, RetryOne(cfg, s, u, o));
  }

  lemma {:induction false} RetryAllRenews(cfg: Config, s: State, us: seq<Uop>, o: Oracle)
    requires Inv(cfg, s)
    ensures Renewed(s, RetryAll(cfg, s, us, o))
  {
    hide Inv, RetryOne, Renewed;
    if us == [] {
      SameRenews(s, s);
    } else {
      var t := RetryAll(cfg, s, us[..|us| - 1], o);
      RetryAllRenews(cfg, s, us[..|us| - 1], o);
      RetryAllKeeps(cfg, s, us[..|us| - 1], o);
      RetryOneRenews(cfg, t, us[|us| - 1], o);
      RenewedTrans(s, t, RetryAll(cfg, s, us, o));
    }
  }

  lemma {:induction false} WalksRenew(cfg: Config, s: State, o: Oracle)
    ensures Renewed(s, AfterWalks(cfg, s, o))
    decreases |s.q.walkQueue|
  {
    hide Renewed;
    if !WalkDue(s) {
      SameRenews(s, s);
    } else {
      var popped, uops := s.(q := PopWalk(s.q)), Listed(s.q.walks, s.q.walkQueue[0].page);
      var t := WalkHead(cfg, s, o);
      WalkAllKeepsQueue(cfg, popped, uops, o);
      SameRenews(s, popped);
      WalkAllRenews(cfg, popped, uops, o);
      RenewedTrans(s, popped, t);
      WalksRenew(cfg, t, o);
      RenewedTrans(s, t, AfterWalks(cfg, s, o));
    }
  }

  lemma CycleRenews(cfg: Config, s: State, locked: bool, o: Oracle)
    requires Inv(cfg, s)
    ensures Renewed(s, RunCycle(cfg, s, locked, o))
  {
    hide Inv, Renewed, RetryAll, WalkAll, AfterWalks;
    var end := RunCycle(cfg, s, locked, o);
    if locked {
      SameRenews(s, end);
    } else {
      var start := s.(q := s.q.(retry := []));
      SameRenews(s, start);
      SetRetryKeeps(cfg, s, []);
      RetryAllRenews(cfg, start, s.q.retry, o);
      var a := AfterRetry(cfg, s, o);
      RenewedTrans(s, start, a);
      var again := a.(q := a.q.(faultRetry := []));
      SameRenews(a, again);
      WalkAllRenews(cfg, again, a.q.faultRetry, o);
      var b := AfterFaultRetry(cfg, a, o);
      SameRenews(a, a);
      RenewedTrans(a, again, WalkAll(cfg, again, a.q.faultRetry, o));
      RenewedTrans(s, a, b);
      WalksRenew(cfg, b, o);
      var c := AfterWalks(cfg, b, o);
      RenewedTrans(s, b, c);
      SameRenews(c, end);
      RenewedTrans(s, c, end);
    }
  }

  lemma RenewedIsCarried(cfg: Config, s: State, t: State)
    requires Inv(cfg, s) && Renewed(s, t) && Carried(s)
    ensures Carried(t)
  {
    hide FramesInv, Coherent, QueuesInv;
    forall u | u in t.translated
      ensures IsCurrent(t, u) <==> u.page !in t.mem.stale
    {
      if u in s.translated && t.translated[u] == s.translated[u] {
        assert IsCurrent(t, u) <==> IsCurrent(s, u);
      }
    }
  }

  // ----- batches

  lemma MapCarries(cfg: Config, s: State, p: Page)
    requires MemInv(cfg, s.mem) && s.mem.remaining > 0 && p !in s.mem.table && Insertable(cfg, s.mem, p) && Carried(s)
    ensures cfg.nonswap || s.mem.toAllocate < |s.mem.free|
    ensures Carried(s.(mem := MapPage(cfg, s.mem, p)))
  {
    hide Coherent, ListInv;
    var t := s.(mem := MapPage(cfg, s.mem, p));
    forall u | u in t.translated
      ensures IsCurrent(t, u) <==> u.page !in t.mem.stale
    {
      assert IsCurrent(s, u) <==> u.page !in s.mem.stale;
    }
  }

  lemma EvictCarries(cfg: Config, s: State)
    requires !cfg.erases && Carried(s) && CanEvict(s.mem) && forall p :: p in s.mem.stale ==> p !in s.mem.table
    ensures Carried(s.(mem := EvictPage(cfg, s.mem)))
  {
    var t := s.(mem := EvictPage(cfg, s.mem));
    forall u | u in t.translated
      ensures IsCurrent(t, u) <==> u.page !in t.mem.stale
    {
      assert IsCurrent(s, u) <==> u.page !in s.mem.stale;
    }
  }

  lemma PrepareCarries(cfg: Config, s: State)
    requires MemInv(cfg, s.mem) && Carried(s) && (cfg.nonswap || !cfg.erases)
    ensures s.mem.remaining > 0 || CanEvict(s.mem)
    ensures Carried(Prepare(cfg, s))
  {
    hide Coherent, FramesInv;
    FullMeansEvictable(cfg, s.mem);
    if s.mem.remaining <= 0 {
      EvictCarries(cfg, s);
    }
  }

  lemma BatchCarries(cfg: Config, s: State)
    requires Inv(cfg, s) && s.batch && Carried(s) && (cfg.nonswap || !cfg.erases)
    ensures Steppable(cfg, s) && (BatchStep(cfg, s).Some? ==> Carried(BatchStep(cfg, s).value))
  {
    hide Carried, MemInv, QueuesInv, MapPage, EvictPage, Release, CanEvict, Insertable, IsCurrent;
    InvIsSteppable(cfg, s);
    PrepareCarries(cfg, s);
    SameCarried(Prepare(cfg, s), Prepare(cfg, s).(started := true));
    if Serving(s) && Insertable(cfg, s.mem, s.q.current[0]) {
      ResolveKeeps(cfg, s);
      assert s.q.current[0] in s.q.current;
      MapCarries(cfg, s, s.q.current[0]);
      var r := Resolve(cfg, s);
      SameCarried(s.(mem := MapPage(cfg, s.mem, s.q.current[0])), r);
      PrepareCarries(cfg, r);
      SameCarried(r, r.(batch := false, started := false));
    }
  }

  lemma SameCarried(s: State, t: State)
    requires t.mem == s.mem && t.translated == s.translated
    ensures Carried(s) <==> Carried(t)
  {
    forall u | u in s.translated
      ensures IsCurrent(s, u) <==> IsCurrent(t, u)
    {
    }
  }

  lemma HandleCarries(cfg: Config, s: State, order: seq<Page>)
    requires Inv(cfg, s) && Carried(s) && (cfg.nonswap || !cfg.erases) && (s.batch ==> Steppable(cfg, s))
    ensures HandleFaults(cfg, s, order).Some? ==> Carried(HandleFaults(cfg, s, order).value)
  {
    hide Inv, Carried, BatchStep;
    var r := if s.batch then BatchStep(cfg, s) else Some(s);
    if s.batch {
      BatchCarries(cfg, s);
    }
    if r.Some? {
      SameCarried(r.value, BeginBatch(cfg, r.value, order));
    }
  }

  // ----- runs

  lemma StepCarries(cfg: Config, m: Log, e: Event, l: Log)
    requires Inv(cfg, m.state) && Carried(m.state) && (cfg.nonswap || !cfg.erases) && StepTo(cfg, m, e, l)
    ensures Carried(l.state)
  {
    hide Inv, Carried, Renewed, HandleFaults, RunCycle, Translate, Places, OrderFits;
    match e
    case Access(u) =>
      TranslateRenews(cfg, m.state, u);
      RenewedIsCarried(cfg, m.state, l.state);
    case Clock(locked, o) =>
      CycleRenews(cfg, m.state, locked, o);
      RenewedIsCarried(cfg, m.state, l.state);
    case Faults(order) =>
      HandleCarries(cfg, m.state, order);
  }

  /** Over every run of the code as written: the frame a uop carries is the one its page
      is mapped to if and only if the page has never been evicted. */
  lemma {:induction false} RunCarries(cfg: Config, events: seq<Event>, l: Log)
    requires (cfg.nonswap || cfg.frames > 0) && (cfg.nonswap || !cfg.erases) && Runs(cfg, events, l)
    ensures Carried(l.state)
  {
    hide Carried, StepTo, Inv;
    if events == [] {
      NothingCarried(cfg);
    } else {
      var n := |events| - 1;
      var m :| Runs(cfg, events[..n], m) && StepTo(cfg, m, events[n], l);
      RunCarries(cfg, events[..n], m);
      RunConserves(cfg, events[..n], m, Uop(0, Page(0, 0), 0));
      StepCarries(cfg, m, events[n], l);
    }
  }

  lemma NothingCarried(cfg: Config)
    ensures Carried(Initial(cfg))
  {
  }

  /** Without swapping every uop carries its page's frame, in every reachable state. */
  lemma {:induction false} AlwaysCurrentWithoutSwapping(cfg: Config, events: seq<Event>, l: Log, u: Uop)
    requires cfg.nonswap && Runs(cfg, events, l) && u in l.state.translated
    ensures IsCurrent(l.state, u)
  {
    hide Runs;
    RunCarries(cfg, events, l);
    RunConserves(cfg, events, l, u);
  }

  /** Two uops with different virtual addresses that carry current frames access different
      physical addresses, in every reachable state. As written the condition is that
      neither page has been evicted; without swapping it always holds. */
  lemma {:induction false} CarriedFramesAreDistinct(cfg: Config, events: seq<Event>, l: Log, pageSize: nat, u: Uop,
                                                    v: Uop)
    requires (cfg.nonswap || cfg.frames > 0) && Runs(cfg, events, l)
    requires u in l.state.translated && v in l.state.translated && u.offset < pageSize && v.offset < pageSize
    requires (u.page, u.offset) != (v.page, v.offset)
    requires if cfg.nonswap || !cfg.erases then u.page !in l.state.mem.stale && v.page !in l.state.mem.stale
             else IsCurrent(l.state, u) && IsCurrent(l.state, v)
    ensures Physical(l.state.translated[u], u.offset, pageSize) != Physical(l.state.translated[v], v.offset, pageSize)
  {
    hide Runs, Physical;
    if cfg.nonswap || !cfg.erases {
      RunCarries(cfg, events, l);
    }
    ReachableTranslationIsInjective(cfg, events, l, pageSize, u.page, u.offset, v.page, v.offset);
  }

  // ----- when a carried frame goes out of date

  lemma BatchDrops(cfg: Config, s: State, u: Uop)
    requires Inv(cfg, s) && s.batch && Steppable(cfg, s) && BatchStep(cfg, s).Some? && IsCurrent(s, u)
    ensures var t := BatchStep(cfg, s).value;
      t.translated == s.translated && (IsCurrent(t, u) <==> u.page in t.mem.table)
  {
    hide QueuesInv, Release, Search, MemInv;
    assert s.q.current[0] in s.q.current;
  }

  /** In one event, with the key erased or not: what is newly translated is current, and a
      current frame goes out of date exactly when its page is evicted. */
  lemma {:induction false} OutdatedExactlyByEviction(cfg: Config, m: Log, e: Event, l: Log, u: Uop)
    requires Inv(cfg, m.state) && StepTo(cfg, m, e, l) && u in l.state.translated
    ensures u !in m.state.translated ==> IsCurrent(l.state, u)
    ensures IsCurrent(m.state, u) ==> (IsCurrent(l.state, u) <==> u.page in l.state.mem.table)
  {
    hide Inv, BatchStep, RunCycle, Translate, Places, OrderFits;
    match e
    case Access(v) => TranslateRenews(cfg, m.state, v);
    case Clock(locked, o) => CycleRenews(cfg, m.state, locked, o);
    case Faults(order) =>
      if m.state.batch {
        BatchKeepsTranslated(cfg, m.state);
        if IsCurrent(m.state, u) {
          BatchDrops(cfg, m.state, u);
        }
      }
  }

  lemma BatchKeepsTranslated(cfg: Config, s: State)
    requires Steppable(cfg, s)
    ensures BatchStep(cfg, s).Some? ==> BatchStep(cfg, s).value.translated == s.translated
  {
    hide Release, MapPage, EvictPage;
  }
}
