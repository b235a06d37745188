/** No translating uop is lost or duplicated. */
module MmuQueues {
  import opened Lists
  import opened Recency
  import opened MmuModel

  /** Uops wait under their own page. */
  ghost predicate Keyed(m: map<Page, seq<Uop>>) {
    forall p, u :: p in m && u in m[p] ==> u.page == p
  }

  ghost function In(m: map<Page, seq<Uop>>, u: Uop): nat {
    multiset(Listed(m, u.page))[u]
  }

  /** In how many places a uop waits. */
  ghost function Places(q: Queues, u: Uop): nat {
    In(q.walks, u) + In(q.faultUops, u) + In(q.currentUops, u) + multiset(q.faultRetry)[u] + multiset(q.retry)[u]
  }

  ghost predicate WalksInv(walkQueue: seq<Walk>, walks: map<Page, seq<Uop>>) {
    && Keyed(walks)
    && NoDup(Map(PageOf, walkQueue)) && (forall p :: p in Map(PageOf, walkQueue) <==> p in walks)
  }

  ghost predicate CurrentInv(current: seq<Page>, uops: map<Page, seq<Uop>>) {
    && Keyed(uops)
    && NoDup(current) && (forall p :: p in current <==> p in uops)
  }

  /** Every queued walk and every fault has its list of uops, once. */
  ghost predicate QueuesInv(q: Queues) {
    && WalksInv(q.walkQueue, q.walks)
    && Keyed(q.faultUops) && q.faults == q.faultUops.Keys
    && CurrentInv(q.current, q.currentUops)
  }

  function PageOf(w: Walk): Page { w.page }

  lemma AppendCounts(m: map<Page, seq<Uop>>, u: Uop, v: Uop)
    ensures In(m[u.page := Listed(m, u.page) + [u]], v) == In(m, v) + if u == v then 1 else 0
    ensures Keyed(m) ==> Keyed(m[u.page := Listed(m, u.page) + [u]])
  {
    var l := Listed(m, u.page);
    assert multiset(l + [u]) == multiset(l) + multiset{u};
  }

  lemma PushCounts(s: seq<Uop>, u: Uop, v: Uop)
    ensures multiset(s + [u])[v] == multiset(s)[v] + if u == v then 1 else 0
  {
    assert multiset(s + [u]) == multiset(s) + multiset{u};
  }

  /** Queueing a walk adds the uop to exactly one place. */
  lemma QueueWalkCounts(cfg: Config, q: Queues, u: Uop, cycle: nat, v: Uop)
    ensures Places(QueueWalk(cfg, q, u, cycle), v) == Places(q, v) + if u == v then 1 else 0
  {
    AppendCounts(q.walks, u, v);
  }

  lemma QueueWalkKeeps(cfg: Config, q: Queues, u: Uop, cycle: nat)
    requires QueuesInv(q)
    ensures QueuesInv(QueueWalk(cfg, q, u, cycle))
  {
    AppendCounts(q.walks, u, u);
    var w := Walk(cycle + cfg.walkLatency, u.page);
    if u.page !in q.walks {
      var pages := Map(PageOf, q.walkQueue);
      assert Map(PageOf, q.walkQueue + [w]) == pages + [u.page];
      NoDupAppend(pages, [u.page]);
    }
  }

  /** A walk puts the uop into exactly one place, whatever it finds. */
  lemma DispatchCounts(cfg: Config, q: Queues, u: Uop, hit: bool, exempt: bool, v: Uop)
    ensures Places(Dispatch(cfg, q, u, hit, exempt), v) == Places(q, v) + if u == v then 1 else 0
  {
    AppendCounts(q.faultUops, u, v);
    PushCounts(q.retry, u, v);
    PushCounts(q.faultRetry, u, v);
  }

  lemma AddFaultKeeps(q: Queues, u: Uop)
    requires QueuesInv(q)
    ensures QueuesInv(AddFault(q, u))
  {
    hide Keyed, WalksInv, CurrentInv;
    AppendCounts(q.faultUops, u, u);
  }

  lemma DispatchKeeps(cfg: Config, q: Queues, u: Uop, hit: bool, exempt: bool)
    requires QueuesInv(q)
    ensures QueuesInv(Dispatch(cfg, q, u, hit, exempt))
  {
    hide Keyed, WalksInv, CurrentInv, AddFault;
    AddFaultKeeps(q, u);
  }

  /** Removing a page's list takes exactly its uops out. */
  lemma RemoveCounts(m: map<Page, seq<Uop>>, p: Page, v: Uop)
    requires Keyed(m)
    ensures In(m, v) == In(m - {p}, v) + multiset(Listed(m, p))[v]
  {
    if v.page != p && p in m {
      assert v !in m[p];
    }
  }

  lemma PopWalkCounts(q: Queues, v: Uop)
    requires QueuesInv(q) && q.walkQueue != []
    ensures Places(q, v) == Places(PopWalk(q), v) + multiset(Listed(q.walks, q.walkQueue[0].page))[v]
  {
    RemoveCounts(q.walks, q.walkQueue[0].page, v);
  }

  lemma PopWalkKeeps(q: Queues)
    requires QueuesInv(q) && q.walkQueue != []
    ensures QueuesInv(PopWalk(q))
  {
    var pages := Map(PageOf, q.walkQueue);
    assert Map(PageOf, q.walkQueue[1..]) == pages[1..];
    assert pages == [pages[0]] + pages[1..];
    assert pages[0] !in pages[1..];
    assert forall p :: p in pages[1..] <==> p in pages && p != pages[0];
  }

  /** Serving a page releases all uops that wait for it and nobody else. */
  lemma {:induction false} ReleaseCounts(q: Queues, p: Page, v: Uop)
    requires Keyed(q.faultUops) && Keyed(q.currentUops)
    ensures Places(Release(q, p), v) == Places(q, v)
  {
    RemoveCounts(q.faultUops, p, v);
    RemoveCounts(q.currentUops, p, v);
    var a, b := Listed(q.currentUops, p), Listed(q.faultUops, p);
    assert multiset(q.retry + a + b) == multiset(q.retry) + multiset(a) + multiset(b);
  }

  lemma ReleaseKeeps(q: Queues)
    requires QueuesInv(q) && q.current != []
    ensures QueuesInv(Release(q.(current := q.current[1..]), q.current[0]))
    ensures q.current[0] !in q.current[1..]
  {
    var p := q.current[0];
    assert q.current == [p] + q.current[1..];
    assert p !in q.current[1..];
    assert forall x :: x in q.current[1..] <==> x in q.current && x != p;
  }

  /** Starting a batch overwrites the uops being processed; there are none. */
  lemma {:induction false} BeginBatchCounts(cfg: Config, s: State, order: seq<Page>, v: Uop)
    requires QueuesInv(s.q) && s.q.current == []
    ensures Places(BeginBatch(cfg, s, order).q, v) == Places(s.q, v)
  {
    assert s.q.currentUops == map[] by {
      assert forall p :: p !in s.q.currentUops;
    }
  }

  lemma BeginBatchKeeps(cfg: Config, s: State, order: seq<Page>)
    requires QueuesInv(s.q) && s.q.current == [] && BatchOrder(s.q.faults, order)
    ensures QueuesInv(BeginBatch(cfg, s, order).q)
  {
    assert s.q.current + order == order;
  }
}
