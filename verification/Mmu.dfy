/** The MMU as the simulator runs it: queues and tables updated in place by the
    loops of each cycle, with the linked replacement list, proved against MmuModel. */
module Mmu {
  import opened Lists
  import opened Recency
  import opened MmuModel
  import opened MmuMemory
  import opened MmuQueues
  import opened MmuWalks
  import opened MmuRun
  import ReplacementUnit

  class Unit {
    const cfg: Config
    const repl: ReplacementUnit.Unit  // m_replacement_unit; not used without swapping
    var table: map<Page, nat>         // m_page_table
    var tlb: map<Page, nat>
    var free: seq<bool>               // m_free_frames
    var remaining: int                // m_free_frames_remaining
    var toAllocate: nat               // m_frame_to_allocate
    var dimm: nat                     // m_frame_dimm
    var q: Queues
    var batch: bool
    var started: bool
    var transferStart: nat
    var nextEvent: nat
    var cycle: nat
    var translated: map<Uop, nat>

    /** The recency list of the model is what the replacement unit's linked list holds,
        its stale keys are those left in the unit's table. */
    ghost function Mem(): Memory
      reads this, repl
    {
      Memory(table, tlb, free, remaining, toAllocate, dimm, repl.listed, repl.evicted)
    }

    ghost function State(): MmuModel.State
      reads this, repl
    {
      MmuModel.State(Mem(), q, batch, started, transferStart, nextEvent, cycle, translated)
    }

    ghost predicate ReplOk()
      reads repl, repl.pool
    {
      repl.Valid() && repl.erases == cfg.erases && repl.maxEntries == if cfg.nonswap then 0 else cfg.frames
    }

    ghost predicate Valid()
      reads this, repl, repl.pool
    {
      ReplOk() && Inv(cfg, State())
    }

    constructor (cfg: Config)
      requires cfg.nonswap || cfg.frames > 0
      ensures Valid() && this.cfg == cfg && State() == Initial(cfg) && fresh(repl) && fresh(repl.pool)
    {
      this.cfg := cfg;
      repl := new ReplacementUnit.Unit(if cfg.nonswap then 0 else cfg.frames, cfg.erases);
      table, tlb, toAllocate, dimm := map[], map[], 0, 0;
      free := if cfg.nonswap then [] else seq(cfg.frames, _ => true);
      remaining := if cfg.nonswap then 0x7FFF_FFFF_FFFF_FFFF else cfg.frames;
      q, batch, started := Queues([], map[], [], [], {}, map[], [], map[]), false, false;
      transferStart, nextEvent, cycle, translated := 0, 0, 0, map[];
      new;
      InitialInv(cfg);
    }

    /** translate */
    method Translate(u: Uop) returns (done: bool)
      modifies this`q, this`translated
      ensures State() == MmuModel.Translate(cfg, old(State()), u) && done == Hits(old(State()), u)
    {
      if u in translated {
        return true;
      }
      if u.page in tlb {
        translated := translated[u := tlb[u.page]];
        return true;
      }
      if u.page in q.walks {
        q := q.(walks := q.walks[u.page := q.walks[u.page] + [u]]);
      } else {
        q := q.(walkQueue := q.walkQueue + [Walk(cycle + cfg.walkLatency, u.page)], walks := q.walks[u.page := [u]]);
        assert [] + [u] == [u];
      }
      done := false;
    }

    /** do_page_table_walks */
    method DoPageTableWalk(u: Uop, o: Oracle)
      requires ReplOk() && MemInv(cfg, Mem())
      modifies this`tlb, this`q, this`translated, repl, repl.pool
      ensures ReplOk() && MemInv(cfg, Mem()) && State() == WalkOne(cfg, old(State()), u, o)
    {
      hide MemInv, ReplacementUnit.Unit.Valid, Touched;
      if u.page in table {
        TouchKeeps(cfg, Mem(), u, o.displaced(u));
        if !cfg.nonswap {
          MappedIsListed(cfg, Mem(), u.page);
        }
        var frame := table[u.page];
        translated := translated[u := frame];
        if u.page !in tlb {
          tlb := (tlb - o.displaced(u))[u.page := frame];
        }
        if !cfg.nonswap {
          repl.Update(u.page);
        }
        q := q.(retry := q.retry + [u]);
      } else {
        if !o.exempt(u) && u.page !in q.faults && |q.faults| >= cfg.bufferSize {
          q := q.(faultRetry := q.faultRetry + [u]);
          return;
        }
        q := q.(faults := q.faults + {u.page}, faultUops := q.faultUops[u.page := Listed(q.faultUops, u.page) + [u]]);
      }
    }

    method WalkEach(us: seq<Uop>, o: Oracle)
      requires ReplOk() && MemInv(cfg, Mem())
      modifies this`tlb, this`q, this`translated, repl, repl.pool
      ensures ReplOk() && MemInv(cfg, Mem()) && State() == WalkAll(cfg, old(State()), us, o)
    {
      hide MemInv, WalkOne;
      for i := 0 to |us|
        invariant ReplOk() && MemInv(cfg, Mem()) && State() == WalkAll(cfg, old(State()), us[..i], o)
      {
        assert us[..i + 1][..i] == us[..i];
        DoPageTableWalk(us[i], o);
      }
      assert us[..|us|] == us;
    }

    /** The retry loop of run_a_cycle: each uop accesses the data cache again,
        which first translates. */
    method RetryLoop(o: Oracle)
      modifies this`q, this`translated
      ensures State() == AfterRetry(cfg, old(State()), o)
    {
      var todo := q.retry;
      q := q.(retry := []);
      ghost var s0 := State();
      for i := 0 to |todo|
        invariant State() == RetryAll(cfg, s0, todo[..i], o)
      {
        assert todo[..i + 1][..i] == todo[..i];
        var u := todo[i];
        var done := Translate(u);
        if done && !o.accepts(u) {
          q := q.(retry := q.retry + [u]);
        }
      }
      assert todo[..|todo|] == todo;
    }

    /** The loop over due walks. */
    method WalkLoop(o: Oracle)
      requires ReplOk() && MemInv(cfg, Mem())
      modifies this`tlb, this`q, this`translated, repl, repl.pool
      ensures ReplOk() && MemInv(cfg, Mem()) && State() == AfterWalks(cfg, old(State()), o)
    {
      hide MemInv, WalkAll;
      while q.walkQueue != [] && q.walkQueue[0].due <= cycle
        invariant ReplOk() && MemInv(cfg, Mem())
        invariant AfterWalks(cfg, State(), o) == AfterWalks(cfg, old(State()), o)
        decreases |q.walkQueue|
      {
        ghost var s := State();
        var uops := Listed(q.walks, q.walkQueue[0].page);
        q := q.(walks := q.walks - {q.walkQueue[0].page}, walkQueue := q.walkQueue[1..]);
        WalkAllKeepsQueue(cfg, State(), uops, o);
        WalkEach(uops, o);
        assert State() == WalkHead(cfg, s, o);
      }
    }

    /** Faults that found the buffer full are walked again once it has drained. */
    method FaultRetry(o: Oracle)
      requires ReplOk() && MemInv(cfg, Mem())
      modifies this`tlb, this`q, this`translated, repl, repl.pool
      ensures ReplOk() && MemInv(cfg, Mem()) && State() == AfterFaultRetry(cfg, old(State()), o)
    {
      hide MemInv, ReplOk, WalkAll;
      if q.faults == {} && q.faultRetry != [] {
        var again := q.faultRetry;
        q := q.(faultRetry := []);
        WalkEach(again, o);
      }
    }

    /** run_a_cycle */
    method RunACycle(locked: bool, o: Oracle)
      requires Valid()
      modifies this`tlb, this`q, this`translated, this`cycle, repl, repl.pool
      ensures Valid() && State() == RunCycle(cfg, old(State()), locked, o)
    {
      hide Inv, AfterWalks, AfterRetry, AfterFaultRetry, MemInv, ReplOk, Places, LeavingCycle;
      CycleConserves(cfg, State(), locked, o, Uop(0, Page(0, 0), 0));
      MemoryInv(cfg, State());
      RetryKeepsFaults(cfg, State(), o);
      if !locked {
        RetryLoop(o);
        FaultRetry(o);
        WalkLoop(o);
      }
      cycle := cycle + 1;
    }

    /** The circular search for a free frame, which ends because one is free. */
    method FindFrame() returns (frame: nat)
      requires !cfg.nonswap && FramesInv(cfg, Mem()) && remaining > 0
      ensures frame == Search(free, toAllocate) && free[frame]
    {
      SearchFindsFree(cfg, Mem());
      frame := CircularSearch(free, toAllocate);
    }

    /** Swap a page out: the mapped page whose last use, by a walk or by its fault, is the
        longest ago. Its frame is the one allocated next. */
    method EvictVictim() returns (victim: Page)
      requires ReplOk() && MemInv(cfg, Mem()) && !cfg.nonswap && remaining <= 0
      modifies this`table, this`tlb, this`free, this`remaining, this`toAllocate, repl, repl.pool
      ensures ReplOk() && MemInv(cfg, Mem()) && CanEvict(old(Mem())) && Mem() == EvictPage(cfg, old(Mem()))
      ensures victim in old(table) && table == old(table) - {victim} && victim !in tlb
      ensures remaining == old(remaining) + 1 && free[old(table)[victim]] && toAllocate == old(table)[victim]
      ensures forall p :: p in old(table) ==>
        LastUse(UsesPage, old(repl.ops), victim) <= LastUse(UsesPage, old(repl.ops), p)
    {
      hide MemInv, LastUse, ReplacementUnit.Unit.Valid, EvictPage, CanEvict;
      ghost var m := Mem();
      EvictKeeps(cfg, m);
      VictimOf(cfg, m);
      victim := repl.GetVictim();
      assert victim == m.recency[|m.recency| - 1];
      Unmap(victim);
      assert Mem() == EvictPage(cfg, m);
    }

    /** The mapping goes and the frame is the next to be allocated. */
    method Unmap(p: Page)
      requires p in table && table[p] < |free|
      modifies this`table, this`tlb, this`free, this`remaining, this`toAllocate
      ensures table == old(table) - {p} && tlb == old(tlb) - {p} && toAllocate == old(table)[p]
      ensures free == old(free)[old(table)[p] := true] && remaining == old(remaining) + 1
    {
      var frame := table[p];
      table, tlb := table - {p}, tlb - {p};
      free, remaining, toAllocate := free[frame := true], remaining + 1, frame;
    }

    method PrepareFrame()
      requires ReplOk() && MemInv(cfg, Mem())
      modifies this`table, this`tlb, this`free, this`remaining, this`toAllocate, this`nextEvent, repl, repl.pool
      ensures ReplOk() && (old(remaining) > 0 || CanEvict(old(Mem()))) && State() == Prepare(cfg, old(State()))
    {
      hide MemInv, ReplOk, EvictPage, CanEvict, LastUse;
      if cfg.nonswap {
        NeverFull(cfg, Mem());
      }
      ghost var s := State();
      if remaining > 0 {
        nextEvent := cycle + cfg.faultLatency;
      } else {
        nextEvent := cycle + cfg.evictLatency + cfg.faultLatency;
        var _ := EvictVictim();
        assert Mem() == EvictPage(cfg, s.mem);
        assert State() == s.(mem := Mem(), nextEvent := nextEvent);
      }
    }

    /** Allocate a frame for the page and enter the mapping. The replacement unit has an
        entry free whenever a frame is, so its insertion never takes another page's. */
    method MapFault(p: Page) returns (ok: bool)
      requires ReplOk() && MemInv(cfg, Mem()) && remaining > 0 && p !in table
      modifies this`table, this`free, this`remaining, this`toAllocate, this`dimm, repl, repl.pool
      ensures !cfg.nonswap ==> old(repl.freeEntries) != []
      ensures cfg.nonswap || old(toAllocate) < |old(free)|
      ensures ReplOk() && ok == Insertable(cfg, old(Mem()), p)
      ensures ok ==> Mem() == MapPage(cfg, old(Mem()), p)
    {
      hide Coherent, Possible, RunOps;
      ok := true;
      if cfg.nonswap {
        toAllocate, dimm := dimm, dimm + 1;
        table := table[p := toAllocate];
      } else {
        EntryFree();
        var frame := FindFrame();
        toAllocate := frame;
        table := table[p := frame];
        ok := repl.Insert(p);
        if ok {
          free, remaining := free[frame := false], remaining - 1;
        }
      }
    }

    lemma EntryFree()
      requires ReplOk() && ListInv(cfg, Mem()) && !cfg.nonswap && remaining > 0
      ensures repl.freeEntries != [] && |repl.listed| < cfg.frames
    {
    }

    /** Move the uops that wait for the page to the retry queue: those of this batch, then
        those that came during it. No uop is lost or added. */
    method ReleaseUops(p: Page)
      requires Keyed(q.faultUops) && Keyed(q.currentUops)
      modifies this`q
      ensures q == Release(old(q), p)
      ensures forall v :: Places(q, v) == Places(old(q), v)
    {
      hide Keyed, Places;
      forall v
        ensures Places(Release(q, p), v) == Places(q, v)
      {
        ReleaseCounts(q, p, v);
      }
      var uops := Listed(q.currentUops, p);
      assert q.retry + uops[..0] == q.retry;
      for i := 0 to |uops|
        invariant q == old(q).(retry := old(q).retry + uops[..i])
      {
        assert uops[..i + 1] == uops[..i] + [uops[i]];
        q := q.(retry := q.retry + [uops[i]]);
      }
      q := q.(currentUops := q.currentUops - {p});
      ghost var half := q;
      assert half == old(q).(retry := old(q).retry + uops, currentUops := old(q).currentUops - {p});
      if p in q.faultUops {
        uops := q.faultUops[p];
        assert q.retry + uops[..0] == q.retry;
        for i := 0 to |uops|
          invariant q == half.(retry := half.retry + uops[..i])
        {
          assert uops[..i + 1] == uops[..i] + [uops[i]];
          q := q.(retry := q.retry + [uops[i]]);
        }
        assert uops[..|uops|] == uops;
        q := q.(faultUops := q.faultUops - {p}, faults := q.faults - {p});
      } else {
        assert q.faultUops - {p} == q.faultUops;
        assert q.retry + [] == q.retry;
      }
    }

    /** do_batch_processing. The result false is the failed assertion of insert. */
    method DoBatchProcessing() returns (ok: bool)
      requires Valid() && batch
      modifies this, repl, repl.pool
      ensures Steppable(cfg, old(State()))
      ensures ok <==> BatchStep(cfg, old(State())).Some?
      ensures ok ==> Valid() && State() == BatchStep(cfg, old(State())).value
    {
      hide MemInv, QueuesInv, Prepare, Resolve, Insertable, CanEvict;
      BatchStepKeeps(cfg, State());
      StartKeeps(cfg, State());
      ok := true;
      if cycle < transferStart {
        return;
      }
      if !started {
        PrepareFrame();
        started := true;
        return;
      }
      if cycle < nextEvent {
        return;
      }
      ok := ServeFault();
    }

    /** The head of the batch is mapped and its uops are released. */
    method ServeFault() returns (ok: bool)
      requires Valid() && batch && Serving(State())
      modifies this, repl, repl.pool
      ensures Steppable(cfg, old(State()))
      ensures ok <==> Insertable(cfg, old(Mem()), old(q).current[0])
      ensures ok ==> Valid() && Some(State()) == BatchStep(cfg, old(State()))
    {
      hide MemInv, QueuesInv, Prepare, MapPage, Release, Insertable, CanEvict, ReplOk;
      ghost var s := State();
      InvIsSteppable(cfg, s);
      QueuesKeyed(q);
      var p := q.current[0];
      assert p in q.current;
      ok := MapFault(p);
      if ok {
        ServeKeeps(cfg, s);
        ResolveKeeps(cfg, s);
        q := q.(current := q.current[1..]);
        ReleaseUops(p);
        assert State() == Resolve(cfg, s);
        NextOrEnd();
      }
    }

    /** Prepare the next fault of the batch, or end it. */
    method NextOrEnd()
      requires ReplOk() && MemInv(cfg, Mem())
      modifies this, repl, repl.pool
      ensures ReplOk() && (old(remaining) > 0 || CanEvict(old(Mem())))
      ensures State() ==
        if old(q).current == [] then old(State()).(batch := false, started := false) else Prepare(cfg, old(State()))
    {
      hide MemInv, Prepare, CanEvict, ReplOk;
      FullMeansEvictable(cfg, Mem());
      if q.current != [] {
        PrepareFrame();
      } else {
        batch, started := false, false;
      }
    }

    /** begin_batch_processing */
    method BeginBatchProcessing()
      requires Valid() && !batch && q.faults != {}
      modifies this`q, this`batch, this`started, this`transferStart
      ensures Valid()
      ensures exists order :: BatchOrder(old(q).faults, order) && State() == BeginBatch(cfg, old(State()), order)
    {
      hide MemInv, QueuesInv;
      var order := SortFaults(q.faults);
      ghost var s := State();
      BeginBatchInv(cfg, s, order);
      q := q.(current := q.current + order, currentUops := q.faultUops);
      q := q.(faults := {}, faultUops := map[]);
      batch, started := true, false;
      transferStart := cycle + cfg.overhead;
      assert State() == BeginBatch(cfg, s, order);
    }

    /** handle_page_faults. It never fails without swapping or with victims' keys erased. */
    method HandlePageFaults() returns (ok: bool)
      requires Valid()
      modifies this, repl, repl.pool
      ensures old(batch) ==> Steppable(cfg, old(State()))
      ensures ok <==> !(old(batch) && BatchStep(cfg, old(State())) == None)
      ensures cfg.nonswap || cfg.erases ==> ok
      ensures ok ==> Valid()
      ensures ok ==>
        exists order :: OrderFits(cfg, old(State()), order) && Some(State()) == HandleFaults(cfg, old(State()), order)
    {
      hide Inv, BatchStep, BatchOrder;
      ghost var s0 := State();
      ok := true;
      if batch {
        BatchStepKeeps(cfg, s0);
        ok := DoBatchProcessing();
        if !ok {
          return;
        }
      }
      ghost var s1 := State();
      ghost var order: seq<Page> := [];
      if !batch && q.faults != {} {
        BeginBatchProcessing();
        order :| BatchOrder(s1.q.faults, order) && State() == BeginBatch(cfg, s1, order);
      } else {
        EmptyOrder();
      }
      assert OrderFits(cfg, s0, order) && Some(State()) == HandleFaults(cfg, s0, order);
    }
  }

  lemma EmptyOrder()
    ensures BatchOrder({}, [])
  {
  }

  lemma MappedIsListed(cfg: Config, m: Memory, p: Page)
    requires MemInv(cfg, m) && !cfg.nonswap && p in m.table
    ensures p in m.recency
  {
  }

  lemma NeverFull(cfg: Config, m: Memory)
    requires MemInv(cfg, m) && cfg.nonswap
    ensures m.remaining > 0
  {
  }

  /** Full memory can give up a page, and stays consistent. */
  lemma EvictKeeps(cfg: Config, m: Memory)
    requires MemInv(cfg, m) && !cfg.nonswap && m.remaining <= 0
    ensures CanEvict(m) && MemInv(cfg, EvictPage(cfg, m)) && forall p :: p in m.table ==> p in m.recency
  {
    hide Coherent, FramesInv, EvictPage, CanEvict;
    FullMeansEvictable(cfg, m);
    EvictFrames(cfg, m);
    EvictList(cfg, m);
  }

  /** The page given up, and all that changes with it. */
  lemma VictimOf(cfg: Config, m: Memory)
    requires CanEvict(m)
    ensures m.recency != []
    ensures
      var n := |m.recency| - 1;
      var v := m.recency[n];
      && v in m.table && m.table[v] < |m.free|
      && EvictPage(cfg, m) == Memory(m.table - {v}, m.tlb - {v}, m.free[m.table[v] := true], m.remaining + 1,
                                     m.table[v], m.dimm, m.recency[..n], if cfg.erases then m.stale else m.stale + {v})
  {
  }

  lemma QueuesKeyed(q: Queues)
    requires QueuesInv(q)
    ensures Keyed(q.faultUops) && Keyed(q.currentUops)
  {
  }

  lemma MemoryInv(cfg: Config, s: State)
    requires Inv(cfg, s)
    ensures MemInv(cfg, s.mem)
  {
  }

  /** list::sort by page number over the buffered faults. */
  method SortFaults(faults: set<Page>) returns (order: seq<Page>)
    ensures BatchOrder(faults, order)
  {
    order := [];
    var rest := faults;
    while rest != {}
      invariant rest <= faults && BatchOrder(faults - rest, order)
    {
      var p :| p in rest;
      var i := |order|;
      while i > 0 && order[i - 1].number > p.number
        invariant 0 <= i <= |order|
        invariant forall k :: i <= k < |order| ==> order[k].number > p.number
      {
        i := i - 1;
      }
      InsertSorted(faults - rest, order, i, p);
      order := order[..i] + [p] + order[i..];
      rest := rest - {p};
      assert faults - rest == (faults - rest - {p}) + {p};
    }
    assert faults - rest == faults;
  }

  lemma InsertSorted(faults: set<Page>, order: seq<Page>, i: nat, p: Page)
    requires BatchOrder(faults, order) && p !in faults && i <= |order|
    requires i > 0 ==> order[i - 1].number <= p.number
    requires forall k :: i <= k < |order| ==> order[k].number > p.number
    ensures BatchOrder(faults + {p}, order[..i] + [p] + order[i..])
  {
    var r := order[..i] + [p] + order[i..];
    InsertMembers(order, i, p);
    forall a, b | 0 <= a < b < |r|
      ensures r[a] != r[b] && r[a].number <= r[b].number
    {
      var x, y := if a <= i then a else a - 1, if b <= i then b else b - 1;
      assert (a == i || r[a] == order[x]) && (b == i || r[b] == order[y]);
      assert a < i && b == i && a < i - 1 ==> order[a].number <= order[i - 1].number;
      assert a == i ==> order[y] in order;
      assert b == i ==> order[x] in order;
    }
  }

  lemma InsertMembers(s: seq<Page>, i: nat, p: Page)
    requires i <= |s|
    ensures forall x :: x in s[..i] + [p] + s[i..] <==> x in s || x == p
  {
    assert s == s[..i] + s[i..];
    assert forall x :: x in s <==> x in s[..i] || x in s[i..];
  }

  /** The index after i, wrapping around: the remainder in the source's loop. */
  lemma Wraps(i: nat, n: nat)
    requires i < n
    ensures (i + 1) % n == if i + 1 == n then 0 else i + 1
  {
  }

  /** What is known while the search stands at `frame`. */
  ghost predicate Searching(free: seq<bool>, start: nat, frame: nat) {
    && start < |free| && frame < |free|
    && if frame > start then FirstFree(free, start, |free|) == FirstFree(free, frame, |free|)
       else FirstFree(free, start, |free|) == |free| && FirstFree(free, 0, start) == FirstFree(free, frame, start)
  }

  lemma SearchOn(free: seq<bool>, start: nat, frame: nat)
    requires start < |free| && frame < |free| && !free[frame] && (frame == start || Searching(free, start, frame))
    requires frame == start ==> !free[start]
    ensures !(frame < start && frame + 1 == start) ==>
      Searching(free, start, if frame + 1 == |free| then 0 else frame + 1)
    ensures frame < start && frame + 1 == start ==>
      FirstFree(free, start, |free|) == |free| && FirstFree(free, 0, start) == start
  {
  }

  method CircularSearch(free: seq<bool>, start: nat) returns (frame: nat)
    requires start < |free| && exists k :: 0 <= k < |free| && free[k]
    ensures frame == Search(free, start) && free[frame]
  {
    frame := start;
    if free[frame] {
      return;
    }
    var n := |free|;
    Wraps(frame, n);
    SearchOn(free, start, frame);
    frame := (frame + 1) % n;
    while frame != start && !free[frame]
      invariant Searching(free, start, frame)
      decreases if frame > start then n - frame + start + 1 else start - frame
    {
      Wraps(frame, n);
      SearchOn(free, start, frame);
      frame := (frame + 1) % n;
    }
  }
}
