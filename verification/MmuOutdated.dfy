/** A run in which two uops carry the same frame for different pages: one frame of
    memory, and a uop that the data cache refuses while its page is evicted. */
module MmuOutdated {
  import opened Lists
  import opened Recency
  import opened MmuModel
  import opened MmuMemory
  import opened MmuQueues
  import opened MmuRun
  import opened MmuCarried

  /** One frame, swapping, no latencies. */
  function OneFrame(erases: bool): Config {
    Config(1, false, erases, 8, 0, 0, 0, 0)
  }

  const P := Page(1, -1)
  const Q := Page(2, -1)
  const U := Uop(1, P, 0)
  const V := Uop(2, Q, 0)

  /** The data cache takes nothing. */
  const REFUSE := Oracle((u: Uop) => false, (u: Uop) => false, (u: Uop) => {})

  const IDLE := Queues([], map[], [], [], {}, map[], [], map[])

  /** Memory with one page mapped to the frame, or none. */
  function Holding(p: Option<Page>, tlb: map<Page, nat>, stale: set<Page>): Memory {
    match p
    case None => Memory(map[], tlb, [true], 1, 0, 0, [], stale)
    case Some(x) => Memory(map[x := 0], tlb, [false], 0, 0, 0, [x], stale)
  }

  /** No batch is under way. */
  function Resting(m: Memory, q: Queues, times: nat, cycle: nat, translated: map<Uop, nat>): State {
    State(m, q, false, false, times, times, cycle, translated)
  }

  /** A walk that misses in the page table becomes a fault. */
  lemma WalkFaults(erases: bool, m: Memory, kept: seq<Uop>, u: Uop, times: nat, c: nat, tr: map<Uop, nat>)
    requires u.page !in m.table && forall x :: x in kept ==> x in tr
    ensures RunCycle(OneFrame(erases),
                     Resting(m, IDLE.(walkQueue := [Walk(c, u.page)], walks := map[u.page := [u]], retry := kept),
                             times, c, tr), false, REFUSE)
         == Resting(m, IDLE.(faults := {u.page}, faultUops := map[u.page := [u]], retry := kept), times, c + 1, tr)
  {
    hide RetryAll;
    var cfg := OneFrame(erases);
    var s := Resting(m, IDLE.(walkQueue := [Walk(c, u.page)], walks := map[u.page := [u]], retry := kept), times, c,
                     tr);
    RetryKept(cfg, s.(q := s.q.(retry := [])), kept);
    var a := AfterRetry(cfg, s, REFUSE);
    assert a == s;
    var popped := s.(q := PopWalk(s.q));
    assert popped.q.walks == map[];
    assert [u][..0] == [];
    assert WalkAll(cfg, popped, [u], REFUSE) == WalkOne(cfg, popped, u, REFUSE);
    var t := Resting(m, IDLE.(faults := {u.page}, faultUops := map[u.page := [u]], retry := kept), times, c, tr);
    assert AddFault(popped.q, u) == t.q by {
      assert [] + [u] == [u] && {} + {u.page} == {u.page};
      assert map[][u.page := [u]] == map[u.page := [u]];
    }
    assert popped.q.faults == {} && |popped.q.faults| == 0;
    assert WalkHead(cfg, s, REFUSE) == t;
    assert AfterWalks(cfg, t, REFUSE) == t;
  }

  /** Translated uops that the data cache refuses stay in the retry queue. */
  lemma {:induction false} RetryKept(cfg: Config, s: State, us: seq<Uop>)
    requires forall x :: x in us ==> x in s.translated
    ensures RetryAll(cfg, s, us, REFUSE) == s.(q := s.q.(retry := s.q.retry + us))
  {
    if us != [] {
      var front, x := us[..|us| - 1], us[|us| - 1];
      assert us == front + [x];
      RetryKept(cfg, s, front);
      assert s.q.retry + us == s.q.retry + front + [x];
    }
  }

  /** A uop asks for a translation and misses in the TLB. */
  lemma AccessMisses(erases: bool, m: Memory, kept: seq<Uop>, u: Uop, times: nat, c: nat, tr: map<Uop, nat>)
    requires u !in tr && u.page !in m.tlb
    ensures Translate(OneFrame(erases), Resting(m, IDLE.(retry := kept), times, c, tr), u)
         == Resting(m, IDLE.(walkQueue := [Walk(c, u.page)], walks := map[u.page := [u]], retry := kept), times, c, tr)
  {
    assert [] + [u] == [u] && [] + [Walk(c, u.page)] == [Walk(c, u.page)];
    assert map[][u.page := [u]] == map[u.page := [u]];
  }

  /** A retried uop that is not translated is walked again in the same cycle and, its page
      now being mapped, translated. */
  lemma WalkHits(erases: bool, p: Page, stale: set<Page>, kept: seq<Uop>, u: Uop, times: nat, c: nat,
                 tr: map<Uop, nat>)
    requires u.page == p && u !in tr && forall x :: x in kept ==> x in tr
    ensures RunCycle(OneFrame(erases),
                     Resting(Holding(Some(p), map[], stale), IDLE.(retry := kept + [u]), times, c, tr),
                     false, REFUSE)
         == Resting(Holding(Some(p), map[p := 0], stale), IDLE.(retry := kept + [u]), times, c + 1,
                    tr[u := 0])
  {
    var cfg, m := OneFrame(erases), Holding(Some(p), map[], stale);
    var s := Resting(m, IDLE.(retry := kept + [u]), times, c, tr);
    var start := s.(q := s.q.(retry := []));
    RetryKept(cfg, start, kept);
    assert (kept + [u])[..|kept|] == kept && [] + kept == kept;
    AccessMisses(erases, m, kept, u, times, c, tr);
    var a := Resting(m, IDLE.(walkQueue := [Walk(c, p)], walks := map[p := [u]], retry := kept), times, c, tr);
    assert AfterRetry(cfg, s, REFUSE) == a;
    var popped := a.(q := PopWalk(a.q));
    assert popped.q.walks == map[];
    assert [u][..0] == [];
    assert Touched([p], p) == [p] by {
      WithoutAll([p], [p]);
    }
    assert (map[] - {})[p := 0] == map[p := 0];
    assert WalkAll(cfg, popped, [u], REFUSE) == WalkOne(cfg, popped, u, REFUSE);
    var t := Resting(Holding(Some(p), map[p := 0], stale), IDLE.(retry := kept + [u]), times, c,
                     tr[u := 0]);
    assert WalkHead(cfg, a, REFUSE) == t;
    assert AfterWalks(cfg, t, REFUSE) == t;
  }

  /** The queues while the batch for one faulting uop is under way. */
  function Batching(m: Memory, kept: seq<Uop>, u: Uop, started: bool, event: nat, c: nat, tr: map<Uop, nat>): State {
    State(m, IDLE.(current := [u.page], currentUops := map[u.page := [u]], retry := kept), true, started, c, event, c,
          tr)
  }

  lemma BatchBegins(erases: bool, m: Memory, kept: seq<Uop>, u: Uop, times: nat, c: nat, tr: map<Uop, nat>)
    ensures HandleFaults(OneFrame(erases),
                         Resting(m, IDLE.(faults := {u.page}, faultUops := map[u.page := [u]], retry := kept), times, c,
                                 tr), [u.page])
         == Some(Batching(m, kept, u, false, times, c, tr))
    ensures OrderFits(OneFrame(erases),
                      Resting(m, IDLE.(faults := {u.page}, faultUops := map[u.page := [u]], retry := kept), times, c,
                              tr), [u.page])
  {
    assert [] + [u.page] == [u.page];
  }

  /** Memory after a frame has been made free for the next page. */
  function Emptied(erases: bool, held: Option<Page>, stale: set<Page>): Memory {
    match held
    case None => Holding(None, map[], stale)
    case Some(x) => Holding(None, map[], if erases then stale else stale + {x})
  }

  /** Memory as a round of Access, walk, batch and retry finds it. */
  function Found(held: Option<Page>, stale: set<Page>): Memory {
    Holding(held, match held case None => map[] case Some(x) => map[x := 0], stale)
  }

  lemma BatchStarts(erases: bool, held: Option<Page>, stale: set<Page>, kept: seq<Uop>, u: Uop,
                    times: nat, c: nat, tr: map<Uop, nat>)
    ensures var s := Batching(Found(held, stale), kept, u, false, times, c, tr);
      && Steppable(OneFrame(erases), s) && OrderFits(OneFrame(erases), s, [])
      && HandleFaults(OneFrame(erases), s, []) ==
        Some(Batching(Emptied(erases, held, stale), kept, u, true, c, c, tr))
  {
    var s := Batching(Found(held, stale), kept, u, false, times, c, tr);
    if held.Some? {
      var x := held.value;
      assert map[x := 0] - {x} == map[];
      assert CanEvict(s.mem);
      assert EvictPage(OneFrame(erases), s.mem) == Emptied(erases, held, stale);
    }
  }

  lemma BatchServes(erases: bool, m: Memory, stale: set<Page>, kept: seq<Uop>, u: Uop, c: nat,
                    tr: map<Uop, nat>)
    requires m == Holding(None, map[], stale) && u.page !in stale
    ensures var s := Batching(m, kept, u, true, c, c, tr);
      && Steppable(OneFrame(erases), s) && OrderFits(OneFrame(erases), s, [])
      && HandleFaults(OneFrame(erases), s, [])
         == Some(Resting(Holding(Some(u.page), map[], stale), IDLE.(retry := kept + [u]), c, c,
                         tr))
  {
    var cfg, s := OneFrame(erases), Batching(m, kept, u, true, c, c, tr);
    var p := u.page;
    assert Search([true], 0) == 0;
    assert MapPage(cfg, m, p) == Holding(Some(p), map[], stale) by {
      assert map[][p := 0] == map[p := 0] && [true][0 := false] == [false] && [p] + [] == [p];
    }
    assert map[p := [u]] - {p} == map[] && kept + [u] + [] == kept + [u];
    assert s.q.faultUops - {p} == s.q.faultUops;
    assert Release(s.q.(current := []), p) == IDLE.(retry := kept + [u]);
    assert s.q.current[1..] == [];
  }

  lemma EmptiedIs(erases: bool, held: Option<Page>, stale: set<Page>)
    ensures var e := Emptied(erases, held, stale);
      e == Holding(None, map[], e.stale) && forall p :: p in e.stale ==> p in stale || held == Some(p)
  {
  }

  lemma AccessStep(erases: bool, m: Memory, kept: seq<Uop>, u: Uop, times: nat, c: nat, tr: map<Uop, nat>,
                   events: seq<Event>, was: Log) returns (l: Log, more: seq<Event>)
    requires Runs(OneFrame(erases), events, was) && was.state == Resting(m, IDLE.(retry := kept), times, c, tr)
    requires u !in tr && u !in kept && u.page !in m.tlb
    ensures Runs(OneFrame(erases), more, l) && events <= more
    ensures l.state ==
      Resting(m, IDLE.(walkQueue := [Walk(c, u.page)], walks := map[u.page := [u]], retry := kept), times, c, tr)
  {
    hide Runs, Translate;
    AccessMisses(erases, m, kept, u, times, c, tr);
    l := was.(state := Translate(OneFrame(erases), was.state, u), entered := was.entered + [u]);
    more := events + [Access(u)];
    RunsSnoc(OneFrame(erases), events, was, Access(u), l);
  }

  lemma ClockStep(cfg: Config, events: seq<Event>, m: Log) returns (l: Log, more: seq<Event>)
    requires Runs(cfg, events, m)
    ensures Runs(cfg, more, l) && events <= more && l.state == RunCycle(cfg, m.state, false, REFUSE)
  {
    hide Runs, RunCycle, LeavingCycle, CycleUses;
    l := m.(state := RunCycle(cfg, m.state, false, REFUSE), left := m.left + LeavingCycle(cfg, m.state, false, REFUSE),
            uses := m.uses + CycleUses(cfg, m.state, false, REFUSE));
    more := events + [Clock(false, REFUSE)];
    RunsSnoc(cfg, events, m, Clock(false, REFUSE), l);
  }

  lemma FaultStep(cfg: Config, events: seq<Event>, m: Log, order: seq<Page>) returns (l: Log, more: seq<Event>)
    requires Runs(cfg, events, m)
    requires (m.state.batch ==> Steppable(cfg, m.state)) && OrderFits(cfg, m.state, order)
    requires HandleFaults(cfg, m.state, order).Some?
    ensures Runs(cfg, more, l) && events <= more && l.state == HandleFaults(cfg, m.state, order).value
  {
    hide Runs, HandleFaults, OrderFits, Steppable, Served, TimesAfter;
    l, more := AfterFaults(m, HandleFaults(cfg, m.state, order).value), events + [Faults(order)];
    RunsSnoc(cfg, events, m, Faults(order), l);
  }

  /** One round: a uop misses, faults, its page is mapped to the only frame, and the uop is
      translated and refused by the data cache. */
  lemma Round(erases: bool, held: Option<Page>, stale: set<Page>, kept: seq<Uop>, u: Uop, times: nat, c: nat,
              tr: map<Uop, nat>, events: seq<Event>, was: Log) returns (more: seq<Event>, l: Log)
    requires Runs(OneFrame(erases), events, was)
    requires was.state == Resting(Found(held, stale), IDLE.(retry := kept), times, c, tr)
    requires u !in tr && u !in kept && u.page !in stale && held != Some(u.page) && forall x :: x in kept ==> x in tr
    ensures Runs(OneFrame(erases), more, l) && events <= more
    ensures l.state == Resting(Found(Some(u.page), Emptied(erases, held, stale).stale), IDLE.(retry := kept + [u]),
                               c + 1, c + 2, tr[u := 0])
  {
    hide Runs, HandleFaults, RunCycle, OrderFits, Steppable, Emptied;
    var cfg, m := OneFrame(erases), Found(held, stale);
    var l1, e1 := AccessStep(erases, m, kept, u, times, c, tr, events, was);
    WalkFaults(erases, m, kept, u, times, c, tr);
    var l2, e2 := ClockStep(cfg, e1, l1);
    BatchBegins(erases, m, kept, u, times, c + 1, tr);
    var l3, e3 := FaultStep(cfg, e2, l2, [u.page]);
    BatchStarts(erases, held, stale, kept, u, times, c + 1, tr);
    var l4, e4 := FaultStep(cfg, e3, l3, []);
    EmptiedIs(erases, held, stale);
    var e := Emptied(erases, held, stale);
    BatchServes(erases, e, e.stale, kept, u, c + 1, tr);
    var l5, e5 := FaultStep(cfg, e4, l4, []);
    WalkHits(erases, u.page, e.stale, kept, u, c + 1, c + 1, tr);
    l, more := ClockStep(cfg, e5, l5);
  }

  /** With one frame of memory, whether or not the victim's key is erased, there is a run
      after which two uops on different pages wait for the data cache with the same
      physical address; the page of the first is no longer mapped. */
  lemma {:induction false} OutdatedFrameIsShared(erases: bool) returns (events: seq<Event>, l: Log)
    ensures Runs(OneFrame(erases), events, l)
    ensures U in l.state.q.retry && V in l.state.q.retry && U in l.state.translated && V in l.state.translated
    ensures U.page != V.page && l.state.translated[U] == l.state.translated[V]
    ensures IsCurrent(l.state, V) && !IsCurrent(l.state, U) && U.page !in l.state.mem.table
  {
    hide Runs, Found, Emptied;
    FirstState(erases);
    events, l := Round(erases, None, {}, [], U, 0, 0, map[], [], Start(OneFrame(erases)));
    SecondState(erases);
    events, l := Round(erases, Some(P), {}, [U], V, 1, 2, map[U := 0], events, l);
    FinalState();
  }

  lemma FirstState(erases: bool)
    ensures Runs(OneFrame(erases), [], Start(OneFrame(erases)))
    ensures Start(OneFrame(erases)).state == Resting(Found(None, {}), IDLE.(retry := []), 0, 0, map[])
  {
    assert seq(1, _ => true) == [true];
  }

  lemma SecondState(erases: bool)
    ensures Emptied(erases, None, {}).stale == {} && [] + [U] == [U] && map[][U := 0] == map[U := 0]
  {
  }

  lemma FinalState()
    ensures U in [U] + [V] && V in [U] + [V] && U in map[U := 0][V := 0]
    ensures forall stale :: Found(Some(Q), stale).table == map[Q := 0]
  {
  }

  /** With the key erased an evicted page comes back: a run after which a page that a uop
      was translated with is not mapped any more, and that goes on to map it again. */
  lemma {:induction false} EvictedPageReturns() returns (first: seq<Event>, m: Log, events: seq<Event>, l: Log)
    ensures Runs(OneFrame(true), first, m) && U.page == P && U in m.state.translated && P !in m.state.mem.table
    ensures Runs(OneFrame(true), events, l) && first <= events
    ensures P in l.state.mem.table && l.state.mem.recency == [P]
  {
    hide Runs, Found, Emptied;
    FirstState(true);
    first, m := Round(true, None, {}, [], U, 0, 0, map[], [], Start(OneFrame(true)));
    SecondState(true);
    first, m := Round(true, Some(P), {}, [U], V, 1, 2, map[U := 0], first, m);
    ThirdState();
    FinalState();
    events, l := Round(true, Some(Q), {}, [U, V], Uop(3, P, 0), 3, 4, map[U := 0, V := 0], first, m);
  }

  lemma ThirdState()
    ensures Emptied(true, Some(P), {}).stale == {} && [U] + [V] == [U, V] && map[U := 0][V := 0] == map[U := 0, V := 0]
    ensures forall x, stale :: Found(Some(x), stale).table == map[x := 0] && Found(Some(x), stale).recency == [x]
  {
  }
}
