/** Every run of the MMU keeps its invariant and accounts for every uop. */
module MmuRun {
  import opened Lists
  import opened Recency
  import opened MmuModel
  import opened MmuMemory
  import opened MmuQueues
  import opened MmuWalks

  /** Pages that wait for a fault are not mapped; a batch has faults to process
      and, once it has started, a frame for the next one. */
  ghost predicate Inv(cfg: Config, s: State) {
    && MemInv(cfg, s.mem) && QueuesInv(s.q)
    && (forall p :: p in s.q.faults || p in s.q.current ==> p !in s.mem.table)
    && (s.batch <==> s.q.current != [])
    && (s.batch && s.started ==> s.mem.remaining > 0)
  }

  lemma {:induction false} InitialInv(cfg: Config)
    requires cfg.nonswap || cfg.frames > 0
    ensures Inv(cfg, Initial(cfg)) && forall v :: Places(Initial(cfg).q, v) == 0
  {
    InitialMemory(cfg);
  }

  // ----- translation

  lemma {:induction false} TranslateKeeps(cfg: Config, s: State, u: Uop)
    requires Inv(cfg, s)
    ensures Inv(cfg, Translate(cfg, s, u))
  {
    QueueWalkKeeps(cfg, s.q, u, s.cycle);
  }

  lemma {:induction false} TranslateCounts(cfg: Config, s: State, u: Uop, v: Uop)
    ensures Places(Translate(cfg, s, u).q, v) == Places(s.q, v) + if u == v && !Hits(s, u) then 1 else 0
  {
    QueueWalkCounts(cfg, s.q, u, s.cycle, v);
  }

  // ----- walks

  lemma WalkOneKeeps(cfg: Config, s: State, u: Uop, o: Oracle)
    requires Inv(cfg, s)
    ensures Inv(cfg, WalkOne(cfg, s, u, o))
  {
    DispatchKeeps(cfg, s.q, u, u.page in s.mem.table, o.exempt(u));
    if u.page in s.mem.table {
      TouchKeeps(cfg, s.mem, u, o.displaced(u));
    }
  }

  lemma {:induction false} WalkAllKeeps(cfg: Config, s: State, us: seq<Uop>, o: Oracle)
    requires Inv(cfg, s)
    ensures Inv(cfg, WalkAll(cfg, s, us, o))
  {
    hide Inv, WalkOne;
    if us != [] {
      WalkAllKeeps(cfg, s, us[..|us| - 1], o);
      WalkOneKeeps(cfg, WalkAll(cfg, s, us[..|us| - 1], o), us[|us| - 1], o);
    }
  }

  lemma {:induction false} WalkAllCounts(cfg: Config, s: State, us: seq<Uop>, o: Oracle, v: Uop)
    ensures Places(WalkAll(cfg, s, us, o).q, v) == Places(s.q, v) + multiset(us)[v]
  {
    hide Dispatch, TouchMemory, Places;
    if us != [] {
      var front, u := us[..|us| - 1], us[|us| - 1];
      WalkAllCounts(cfg, s, front, o, v);
      var t := WalkAll(cfg, s, front, o);
      DispatchCounts(cfg, t.q, u, u.page in t.mem.table, o.exempt(u), v);
      assert us == front + [u];
      PushCounts(front, u, v);
    }
  }

  // ----- the retry loop

  lemma SetRetryKeeps(cfg: Config, s: State, retry: seq<Uop>)
    requires Inv(cfg, s)
    ensures Inv(cfg, s.(q := s.q.(retry := retry)))
  {
  }

  lemma RetryOneKeeps(cfg: Config, s: State, u: Uop, o: Oracle)
    requires Inv(cfg, s)
    ensures Inv(cfg, RetryOne(cfg, s, u, o))
  {
    hide Inv, Translate;
    TranslateKeeps(cfg, s, u);
    SetRetryKeeps(cfg, Translate(cfg, s, u), Translate(cfg, s, u).q.retry + [u]);
  }

  lemma {:induction false} RetryAllKeeps(cfg: Config, s: State, us: seq<Uop>, o: Oracle)
    requires Inv(cfg, s)
    ensures Inv(cfg, RetryAll(cfg, s, us, o))
  {
    hide Inv, RetryOne;
    if us != [] {
      RetryAllKeeps(cfg, s, us[..|us| - 1], o);
      RetryOneKeeps(cfg, RetryAll(cfg, s, us[..|us| - 1], o), us[|us| - 1], o);
    }
  }

  /** The uops that the data cache takes during the retry loop. */
  function Leaving(cfg: Config, s: State, us: seq<Uop>, o: Oracle): seq<Uop> {
    if us == [] then []
    else
      var front, u := us[..|us| - 1], us[|us| - 1];
      Leaving(cfg, s, front, o) + if Hits(RetryAll(cfg, s, front, o), u) && o.accepts(u) then [u] else []
  }

  lemma RetryOneCounts(cfg: Config, s: State, u: Uop, o: Oracle, v: Uop)
    ensures Places(RetryOne(cfg, s, u, o).q, v) + (if u == v && Hits(s, u) && o.accepts(u) then 1 else 0)
         == Places(s.q, v) + if u == v then 1 else 0
  {
    TranslateCounts(cfg, s, u, v);
    PushCounts(Translate(cfg, s, u).q.retry, u, v);
  }

  lemma {:induction false} RetryAllCounts(cfg: Config, s: State, us: seq<Uop>, o: Oracle, v: Uop)
    ensures Places(RetryAll(cfg, s, us, o).q, v) + multiset(Leaving(cfg, s, us, o))[v] ==
      Places(s.q, v) + multiset(us)[v]
  {
    hide RetryOne, Places, Hits;
    if us != [] {
      var front, u := us[..|us| - 1], us[|us| - 1];
      RetryAllCounts(cfg, s, front, o, v);
      RetryOneCounts(cfg, RetryAll(cfg, s, front, o), u, o, v);
      assert us == front + [u];
      PushCounts(front, u, v);
      PushCounts(Leaving(cfg, s, front, o), u, v);
    }
  }

  // ----- a cycle

  lemma AfterRetryCounts(cfg: Config, s: State, o: Oracle, v: Uop)
    ensures Places(AfterRetry(cfg, s, o).q, v)
          + multiset(Leaving(cfg, s.(q := s.q.(retry := [])), s.q.retry, o))[v] == Places(s.q, v)
  {
    RetryAllCounts(cfg, s.(q := s.q.(retry := [])), s.q.retry, o, v);
  }

  lemma AfterFaultRetryCounts(cfg: Config, s: State, o: Oracle, v: Uop)
    ensures Places(AfterFaultRetry(cfg, s, o).q, v) == Places(s.q, v)
  {
    if s.q.faults == {} && s.q.faultRetry != [] {
      WalkAllCounts(cfg, s.(q := s.q.(faultRetry := [])), s.q.faultRetry, o, v);
    }
  }

  lemma WalkHeadKeeps(cfg: Config, s: State, o: Oracle)
    requires Inv(cfg, s) && s.q.walkQueue != []
    ensures Inv(cfg, WalkHead(cfg, s, o))
  {
    PopWalkKeeps(s.q);
    WalkAllKeeps(cfg, s.(q := PopWalk(s.q)), Listed(s.q.walks, s.q.walkQueue[0].page), o);
  }

  lemma WalkHeadCounts(cfg: Config, s: State, o: Oracle, v: Uop)
    requires QueuesInv(s.q) && s.q.walkQueue != []
    ensures Places(WalkHead(cfg, s, o).q, v) == Places(s.q, v)
  {
    PopWalkCounts(s.q, v);
    WalkAllCounts(cfg, s.(q := PopWalk(s.q)), Listed(s.q.walks, s.q.walkQueue[0].page), o, v);
  }

  lemma {:induction false} AfterWalksKeeps(cfg: Config, s: State, o: Oracle, v: Uop)
    requires Inv(cfg, s)
    ensures Inv(cfg, AfterWalks(cfg, s, o)) && Places(AfterWalks(cfg, s, o).q, v) == Places(s.q, v)
    decreases |s.q.walkQueue|
  {
    if WalkDue(s) {
      WalkHeadKeeps(cfg, s, o);
      WalkHeadCounts(cfg, s, o, v);
      WalkAllKeepsQueue(cfg, s.(q := PopWalk(s.q)), Listed(s.q.walks, s.q.walkQueue[0].page), o);
      AfterWalksKeeps(cfg, WalkHead(cfg, s, o), o, v);
    }
  }

  /** The uops that leave the MMU in a cycle. */
  function LeavingCycle(cfg: Config, s: State, locked: bool, o: Oracle): seq<Uop> {
    if locked then [] else Leaving(cfg, s.(q := s.q.(retry := [])), s.q.retry, o)
  }

  /** A cycle keeps the invariant; a uop leaves only by being taken by the data
      cache, and otherwise stays in exactly as many places as before. */
  lemma {:induction false} CycleConserves(cfg: Config, s: State, locked: bool, o: Oracle, v: Uop)
    requires Inv(cfg, s)
    ensures Inv(cfg, RunCycle(cfg, s, locked, o))
    ensures Places(RunCycle(cfg, s, locked, o).q, v) + multiset(LeavingCycle(cfg, s, locked, o))[v] == Places(s.q, v)
  {
    if !locked {
      var a := AfterRetry(cfg, s, o);
      RetryAllKeeps(cfg, s.(q := s.q.(retry := [])), s.q.retry, o);
      AfterRetryCounts(cfg, s, o, v);
      var b := AfterFaultRetry(cfg, a, o);
      FaultRetryKeeps(cfg, a, o);
      AfterFaultRetryCounts(cfg, a, o, v);
      AfterWalksKeeps(cfg, b, o, v);
    }
  }

  lemma FaultRetryKeeps(cfg: Config, s: State, o: Oracle)
    requires Inv(cfg, s)
    ensures Inv(cfg, AfterFaultRetry(cfg, s, o))
  {
    if s.q.faults == {} && s.q.faultRetry != [] {
      WalkAllKeeps(cfg, s.(q := s.q.(faultRetry := [])), s.q.faultRetry, o);
    }
  }

  // ----- batches

  lemma InvIsSteppable(cfg: Config, s: State)
    requires Inv(cfg, s) && s.batch
    ensures Steppable(cfg, s)
  {
    FullMeansEvictable(cfg, s.mem);
  }

  lemma {:induction false} PrepareKeeps(cfg: Config, s: State)
    requires Inv(cfg, s) && s.batch
    ensures s.mem.remaining > 0 || CanEvict(s.mem)
    ensures Inv(cfg, Prepare(cfg, s)) && Prepare(cfg, s).mem.remaining > 0 && Prepare(cfg, s).q == s.q
  {
    FullMeansEvictable(cfg, s.mem);
    if s.mem.remaining <= 0 {
      EvictFrames(cfg, s.mem);
      EvictList(cfg, s.mem);
      CountFreePositive(EvictPage(cfg, s.mem).free);
    }
  }

  /** Serving a fault keeps everything consistent; only started may be stale. */
  lemma ResolveKeeps(cfg: Config, s: State)
    requires Inv(cfg, s) && s.batch && s.started && Insertable(cfg, s.mem, s.q.current[0])
    ensures Steppable(cfg, s)
    ensures var r := Resolve(cfg, s);
      MemInv(cfg, r.mem) && QueuesInv(r.q) && forall p :: p in r.q.faults || p in r.q.current ==> p !in r.mem.table
  {
    InvIsSteppable(cfg, s);
    ReleaseKeeps(s.q);
    MapKeeps(cfg, s.mem, s.q.current[0]);
  }

  /** The fault being handled is due. */
  predicate Serving(s: State) {
    s.started && s.transferStart <= s.cycle && s.nextEvent <= s.cycle
  }

  lemma ServeKeeps(cfg: Config, s: State)
    requires Inv(cfg, s) && s.batch && Serving(s) && Insertable(cfg, s.mem, s.q.current[0])
    ensures Steppable(cfg, s)
    ensures var r := Resolve(cfg, s);
      && (r.mem.remaining > 0 || CanEvict(r.mem))
      && Inv(cfg, if r.q.current == [] then r.(batch := false, started := false) else Prepare(cfg, r))
  {
    hide MemInv, QueuesInv, Prepare, MapPage, Release;
    ResolveKeeps(cfg, s);
    NextFault(cfg, Resolve(cfg, s));
  }

  /** After a fault has been served the batch ends or a frame is prepared. */
  lemma NextFault(cfg: Config, r: State)
    requires MemInv(cfg, r.mem) && QueuesInv(r.q) && r.batch && r.started
    requires forall p :: p in r.q.faults || p in r.q.current ==> p !in r.mem.table
    ensures r.mem.remaining > 0 || CanEvict(r.mem)
    ensures Inv(cfg, if r.q.current == [] then r.(batch := false, started := false) else Prepare(cfg, r))
  {
    hide MemInv, QueuesInv, CanEvict, EvictPage;
    FullMeansEvictable(cfg, r.mem);
    if r.q.current != [] {
      PrepareKeeps(cfg, r.(started := false));
      assert Prepare(cfg, r) == Prepare(cfg, r.(started := false)).(started := true);
    }
  }

  lemma StartKeeps(cfg: Config, s: State)
    requires Inv(cfg, s) && s.batch
    ensures s.mem.remaining > 0 || CanEvict(s.mem)
    ensures Inv(cfg, Prepare(cfg, s).(started := true))
  {
    PrepareKeeps(cfg, s);
  }

  /** In swap mode the page being served is not on the recency list. */
  lemma CurrentIsUnlisted(cfg: Config, s: State)
    requires Inv(cfg, s) && s.batch
    ensures s.q.current != []
    ensures Insertable(cfg, s.mem, s.q.current[0]) <==> cfg.nonswap || cfg.erases || s.q.current[0] !in s.mem.stale
  {
    assert s.q.current[0] in s.q.current;
  }

  /** A step of a batch keeps the invariant and the uops. It fails only where the
      source's assertion does: in swap mode, when the page to map was evicted
      earlier and the replacement unit, not erasing it, still holds its key. */
  lemma {:induction false} BatchStepKeeps(cfg: Config, s: State)
    requires Inv(cfg, s) && s.batch
    ensures Steppable(cfg, s)
    ensures BatchStep(cfg, s).Some? ==> Inv(cfg, BatchStep(cfg, s).value)
    ensures BatchStep(cfg, s) == None <==>
      !cfg.nonswap && !cfg.erases && Serving(s) && s.q.current[0] in s.mem.stale
  {
    hide Inv, Prepare, Resolve, Insertable;
    InvIsSteppable(cfg, s);
    StartKeeps(cfg, s);
    CurrentIsUnlisted(cfg, s);
    if Serving(s) && Insertable(cfg, s.mem, s.q.current[0]) {
      ServeKeeps(cfg, s);
    }
  }

  lemma {:induction false} BatchStepCounts(cfg: Config, s: State, v: Uop)
    requires Inv(cfg, s) && s.batch && Steppable(cfg, s) && BatchStep(cfg, s).Some?
    ensures Places(BatchStep(cfg, s).value.q, v) == Places(s.q, v)
  {
    hide Places, MapPage, EvictPage, Insertable, CanEvict;
    IdleMeansEmpty(cfg, s);
    var q := s.q.(current := s.q.current[1..]);
    SkipCurrent(s.q, q.current, v);
    ReleaseCounts(q, s.q.current[0], v);
  }

  lemma SkipCurrent(q: Queues, current: seq<Page>, v: Uop)
    ensures Places(q.(current := current), v) == Places(q, v)
  {
  }

  lemma BeginBatchInv(cfg: Config, s: State, order: seq<Page>)
    requires Inv(cfg, s) && !s.batch && s.q.faults != {} && BatchOrder(s.q.faults, order)
    ensures Inv(cfg, BeginBatch(cfg, s, order))
  {
    BeginBatchKeeps(cfg, s, order);
    assert s.q.current + order == order;
  }

  /** handle_page_faults keeps the invariant and every uop in place. */
  lemma {:induction false} FaultsConserve(cfg: Config, s: State, order: seq<Page>, v: Uop)
    requires Inv(cfg, s)
    requires s.batch ==> Steppable(cfg, s)
    requires var t := if s.batch then BatchStep(cfg, s) else Some(s);
      t.Some? && !t.value.batch ==> BatchOrder(t.value.q.faults, order)
    ensures HandleFaults(cfg, s, order).Some? ==>
      Inv(cfg, HandleFaults(cfg, s, order).value) && Places(HandleFaults(cfg, s, order).value.q, v) == Places(s.q, v)
  {
    hide Places, Inv;
    var r := if s.batch then BatchStep(cfg, s) else Some(s);
    if s.batch {
      BatchStepKeeps(cfg, s);
      if r.Some? {
        BatchStepCounts(cfg, s, v);
      }
    }
    if r.Some? && !r.value.batch && r.value.q.faults != {} {
      BeginBatchInv(cfg, r.value, order);
      IdleMeansEmpty(cfg, r.value);
      BeginBatchCounts(cfg, r.value, order, v);
    }
  }

  lemma IdleMeansEmpty(cfg: Config, s: State)
    requires Inv(cfg, s)
    ensures QueuesInv(s.q) && (!s.batch ==> s.q.current == [])
  {
  }

  // ----- no due walk stays behind

  /** Walks are queued in the order in which they become due. */
  ghost predicate WalksSorted(cfg: Config, q: Queues, cycle: nat) {
    && (forall i, k :: 0 <= i < k < |q.walkQueue| ==> q.walkQueue[i].due <= q.walkQueue[k].due)
    && (forall i :: 0 <= i < |q.walkQueue| ==> q.walkQueue[i].due <= cycle + cfg.walkLatency)
  }

  lemma RetryOneSorted(cfg: Config, s: State, u: Uop, o: Oracle)
    requires WalksSorted(cfg, s.q, s.cycle)
    ensures WalksSorted(cfg, RetryOne(cfg, s, u, o).q, s.cycle) && RetryOne(cfg, s, u, o).cycle == s.cycle
  {
  }

  lemma {:induction false} RetrySorted(cfg: Config, s: State, us: seq<Uop>, o: Oracle)
    requires WalksSorted(cfg, s.q, s.cycle)
    ensures WalksSorted(cfg, RetryAll(cfg, s, us, o).q, s.cycle) && RetryAll(cfg, s, us, o).cycle == s.cycle
  {
    hide RetryOne, WalksSorted;
    if us != [] {
      RetrySorted(cfg, s, us[..|us| - 1], o);
      RetryOneSorted(cfg, RetryAll(cfg, s, us[..|us| - 1], o), us[|us| - 1], o);
    }
  }

  lemma {:induction false} WalksLeaveNoneDue(cfg: Config, s: State, o: Oracle)
    requires WalksSorted(cfg, s.q, s.cycle)
    ensures var t := AfterWalks(cfg, s, o);
      WalksSorted(cfg, t.q, t.cycle) && t.cycle == s.cycle
      && forall i :: 0 <= i < |t.q.walkQueue| ==> t.q.walkQueue[i].due > t.cycle
    decreases |s.q.walkQueue|
  {
    if WalkDue(s) {
      WalkAllKeepsQueue(cfg, s.(q := PopWalk(s.q)), Listed(s.q.walks, s.q.walkQueue[0].page), o);
      WalksLeaveNoneDue(cfg, WalkHead(cfg, s, o), o);
    }
  }

  /** After an unlocked cycle every walk that was due has been done. */
  lemma {:induction false} CycleLeavesNoneDue(cfg: Config, s: State, o: Oracle)
    requires WalksSorted(cfg, s.q, s.cycle)
    ensures var t := RunCycle(cfg, s, false, o);
      WalksSorted(cfg, t.q, t.cycle) && forall i :: 0 <= i < |t.q.walkQueue| ==> t.q.walkQueue[i].due >= t.cycle
  {
    var a := AfterRetry(cfg, s, o);
    RetrySorted(cfg, s.(q := s.q.(retry := [])), s.q.retry, o);
    WalkAllKeepsQueue(cfg, a.(q := a.q.(faultRetry := [])), a.q.faultRetry, o);
    WalksLeaveNoneDue(cfg, AfterFaultRetry(cfg, a, o), o);
  }

  // ----- whole runs

  /** The pipeline asks for a translation, the clock ticks, or page faults are
      handled. */
  datatype Event = Access(u: Uop) | Clock(locked: bool, o: Oracle) | Faults(order: seq<Page>)

  /** When the batch under way began, when its next page was prepared, and whether a page
      was given up for it. */
  datatype Times = Times(begun: nat, prepared: nat, evicted: bool)

  /** A state with what happened on the way to it: the uops that entered and left, and the
      pages used, by a walk that found them mapped or by being mapped. */
  datatype Log = Log(state: State, entered: seq<Uop>, left: seq<Uop>, uses: seq<Page>, times: Times)

  /** The pages that walks find mapped in a cycle. */
  function CycleUses(cfg: Config, s: State, locked: bool, o: Oracle): seq<Page> {
    if locked then [] else HitPages(s.mem.table, CycleWalks(cfg, s, o))
  }

  /** The page that was at the head of the batch and no longer is part of it. */
  function Served(s: State, t: State): seq<Page> {
    if s.batch && s.q.current != [] && s.q.current[0] !in t.q.current then [s.q.current[0]] else []
  }

  predicate Begins(s: State, t: State) {
    t.batch && (!s.batch || (|s.q.current| == 1 && Served(s, t) != []))
  }

  /** The first page of the batch, or the one after the page served, is next. */
  predicate Prepares(s: State, t: State) {
    s.batch && t.batch && !Begins(s, t) && (Served(s, t) != [] || (!s.started && t.started))
  }

  /** A page that was mapped, or the page served, is not mapped any more. */
  predicate Evicts(s: State, t: State) {
    (exists p :: p in s.mem.table && p !in t.mem.table) || exists p :: p in Served(s, t) && p !in t.mem.table
  }

  function TimesAfter(s: State, t: State, times: Times): Times {
    if Begins(s, t) then times.(begun := s.cycle)
    else if Prepares(s, t) then times.(prepared := s.cycle, evicted := Evicts(s, t))
    else times
  }

  /** The order given for a new batch, should one begin, sorts its faults. */
  ghost predicate OrderFits(cfg: Config, s: State, order: seq<Page>)
    requires s.batch ==> Steppable(cfg, s)
  {
    var t := if s.batch then BatchStep(cfg, s) else Some(s);
    t.Some? && !t.value.batch ==> BatchOrder(t.value.q.faults, order)
  }

  /** One event; a run ends where the source's assertion would fail. */
  ghost predicate StepTo(cfg: Config, m: Log, e: Event, l: Log) {
    match e
    case Access(u) =>
      && Places(m.state.q, u) == 0
      && l == m.(state := Translate(cfg, m.state, u), entered := m.entered + if Hits(m.state, u) then [] else [u])
    case Clock(locked, o) =>
      l == m.(state := RunCycle(cfg, m.state, locked, o), left := m.left + LeavingCycle(cfg, m.state, locked, o),
              uses := m.uses + CycleUses(cfg, m.state, locked, o))
    case Faults(order) =>
      && (m.state.batch ==> Steppable(cfg, m.state)) && OrderFits(cfg, m.state, order)
      && HandleFaults(cfg, m.state, order).Some?
      && l == AfterFaults(m, HandleFaults(cfg, m.state, order).value)
  }

  function AfterFaults(m: Log, t: State): Log {
    m.(state := t, uses := m.uses + Served(m.state, t), times := TimesAfter(m.state, t, m.times))
  }

  function Start(cfg: Config): Log {
    Log(Initial(cfg), [], [], [], Times(0, 0, false))
  }

  ghost predicate Runs(cfg: Config, events: seq<Event>, l: Log) {
    if events == [] then l == Start(cfg)
    else
      var n := |events| - 1;
      exists m :: Runs(cfg, events[..n], m) && StepTo(cfg, m, events[n], l)
  }

  lemma StepInv(cfg: Config, m: Log, e: Event, l: Log)
    requires Inv(cfg, m.state) && StepTo(cfg, m, e, l)
    ensures Inv(cfg, l.state)
  {
    hide Inv, HandleFaults, RunCycle, Translate, Places, OrderFits;
    var v := Uop(0, Page(0, 0), 0);
    match e
    case Access(u) => TranslateKeeps(cfg, m.state, u);
    case Clock(locked, o) => CycleConserves(cfg, m.state, locked, o, v);
    case Faults(order) => HandleInv(cfg, m.state, order, v);
  }

  lemma HandleInv(cfg: Config, s: State, order: seq<Page>, v: Uop)
    requires Inv(cfg, s) && (s.batch ==> Steppable(cfg, s)) && OrderFits(cfg, s, order)
    ensures HandleFaults(cfg, s, order).Some? ==>
      Inv(cfg, HandleFaults(cfg, s, order).value) && Places(HandleFaults(cfg, s, order).value.q, v) == Places(s.q, v)
  {
    FaultsConserve(cfg, s, order, v);
  }

  /** How often v entered and has not left. */
  ghost predicate Accounted(l: Log, v: Uop) {
    Places(l.state.q, v) + multiset(l.left)[v] == multiset(l.entered)[v] && Places(l.state.q, v) <= 1
  }

  lemma StepAccounts(cfg: Config, m: Log, e: Event, l: Log, v: Uop)
    requires Inv(cfg, m.state) && StepTo(cfg, m, e, l) && Accounted(m, v)
    ensures Accounted(l, v)
  {
    hide Inv, HandleFaults, RunCycle, Translate, Places, OrderFits, LeavingCycle;
    match e
    case Access(u) =>
      TranslateCounts(cfg, m.state, u, v);
      PushCounts(m.entered, u, v);
    case Clock(locked, o) =>
      CycleConserves(cfg, m.state, locked, o, v);
      var x := LeavingCycle(cfg, m.state, locked, o);
      assert multiset(m.left + x)[v] == multiset(m.left)[v] + multiset(x)[v];
    case Faults(order) =>
      HandleInv(cfg, m.state, order, v);
  }

  /** Over every run: the invariant holds, and each uop that entered waits in
      exactly one place until it leaves exactly once. */
  lemma {:induction false} RunConserves(cfg: Config, events: seq<Event>, l: Log, v: Uop)
    requires (cfg.nonswap || cfg.frames > 0) && Runs(cfg, events, l)
    ensures Inv(cfg, l.state) && Accounted(l, v)
  {
    hide Inv, StepTo, Accounted;
    if events == [] {
      StartAccounts(cfg, v);
    } else {
      var n := |events| - 1;
      var m :| Runs(cfg, events[..n], m) && StepTo(cfg, m, events[n], l);
      RunConserves(cfg, events[..n], m, v);
      StepInv(cfg, m, events[n], l);
      StepAccounts(cfg, m, events[n], l, v);
    }
  }

  lemma StartAccounts(cfg: Config, v: Uop)
    requires cfg.nonswap || cfg.frames > 0
    ensures Inv(cfg, Initial(cfg)) && Accounted(Start(cfg), v)
  {
    InitialInv(cfg);
  }

  /** When the victim's key is erased, or nothing is ever evicted, page faults are always
      handled: runs never stop, and pages that were evicted come back. */
  lemma {:induction false} FaultsNeverFail(cfg: Config, events: seq<Event>, m: Log, order: seq<Page>)
    requires (cfg.nonswap || cfg.frames > 0) && (cfg.nonswap || cfg.erases) && Runs(cfg, events, m)
    ensures m.state.batch ==> Steppable(cfg, m.state)
    ensures HandleFaults(cfg, m.state, order).Some?
    ensures OrderFits(cfg, m.state, order) ==>
      var l := AfterFaults(m, HandleFaults(cfg, m.state, order).value);
      StepTo(cfg, m, Faults(order), l) && Runs(cfg, events + [Faults(order)], l)
  {
    hide Inv, Runs, BatchStep, BatchOrder;
    RunConserves(cfg, events, m, Uop(0, Page(0, 0), 0));
    if m.state.batch {
      BatchStepKeeps(cfg, m.state);
    }
    if OrderFits(cfg, m.state, order) {
      var l := AfterFaults(m, HandleFaults(cfg, m.state, order).value);
      RunsSnoc(cfg, events, m, Faults(order), l);
    }
  }

  lemma RunsSnoc(cfg: Config, events: seq<Event>, m: Log, e: Event, l: Log)
    requires Runs(cfg, events, m) && StepTo(cfg, m, e, l)
    ensures Runs(cfg, events + [e], l)
  {
    hide StepTo;
    assert (events + [e])[..|events|] == events;
  }

  /** In every reachable state two distinct virtual addresses that are mapped have
      distinct physical addresses. */
  lemma {:induction false} ReachableTranslationIsInjective(cfg: Config, events: seq<Event>, l: Log, pageSize: nat,
                                                           p: Page, a: nat, q: Page, b: nat)
    requires (cfg.nonswap || cfg.frames > 0) && Runs(cfg, events, l)
    requires p in l.state.mem.table && q in l.state.mem.table && a < pageSize && b < pageSize
    requires (p, a) != (q, b)
    ensures Physical(l.state.mem.table[p], a, pageSize) != Physical(l.state.mem.table[q], b, pageSize)
  {
    RunConserves(cfg, events, l, Uop(0, p, a));
    var m := l.state.mem;
    if Physical(m.table[p], a, pageSize) == Physical(m.table[q], b, pageSize) {
      TranslationIsInjective(cfg, m, pageSize, p, a, q, b);
    }
  }
}
