/** Page table, frames, TLB and recency list stay consistent. */
module MmuMemory {
  import opened Lists
  import opened Recency
  import opened MmuModel

  function CountFree(free: seq<bool>): nat {
    if free == [] then 0 else CountFree(free[..|free| - 1]) + if free[|free| - 1] then 1 else 0
  }

  lemma {:induction false} CountFreeUpdate(free: seq<bool>, f: nat, b: bool)
    requires f < |free|
    ensures CountFree(free[f := b]) == CountFree(free) + (if b then 1 else 0) - (if free[f] then 1 else 0)
  {
    var n := |free| - 1;
    if f == n {
      assert free[f := b][..n] == free[..n];
    } else {
      assert free[f := b][..n] == free[..n][f := b];
      CountFreeUpdate(free[..n], f, b);
    }
  }

  lemma {:induction false} CountFreePositive(free: seq<bool>)
    ensures CountFree(free) > 0 <==> exists k :: 0 <= k < |free| && free[k]
  {
    if free != [] {
      var n := |free| - 1;
      CountFreePositive(free[..n]);
      assert forall k :: 0 <= k < n ==> free[..n][k] == free[k];
    }
  }

  /** Cached translations are those of the page table, and no two pages share a
      frame. */
  ghost predicate Coherent(m: Memory) {
    && (forall p :: p in m.tlb ==> p in m.table && m.tlb[p] == m.table[p])
    && (forall p, q :: p in m.table && q in m.table && p != q ==> m.table[p] != m.table[q])
  }

  /** Swap mode: the frames in use are exactly the mapped ones, the counter
      counts the others, and the recency list holds exactly the mapped pages. */
  ghost predicate FramesInv(cfg: Config, m: Memory) {
    && cfg.frames > 0 && |m.free| == cfg.frames && m.toAllocate < cfg.frames
    && m.remaining == CountFree(m.free)
    && (forall p :: p in m.table ==> m.table[p] < cfg.frames && !m.free[m.table[p]])
    && (forall f :: 0 <= f < cfg.frames && !m.free[f] ==> exists p :: p in m.table && m.table[p] == f)
  }

  ghost predicate ListInv(cfg: Config, m: Memory) {
    && NoDup(m.recency) && m.remaining + |m.recency| == cfg.frames
    && (forall p :: p in m.recency <==> p in m.table)
    && (forall p :: p in m.stale ==> p !in m.table) && (cfg.erases ==> m.stale == {})
  }

  ghost predicate MemInv(cfg: Config, m: Memory) {
    && Coherent(m)
    && if cfg.nonswap then
         && m.remaining > 0 && m.recency == [] && m.stale == {}
         && forall p :: p in m.table ==> m.table[p] < m.dimm
       else FramesInv(cfg, m) && ListInv(cfg, m)
  }

  lemma {:induction false} AllFree(n: nat)
    ensures CountFree(seq(n, _ => true)) == n
  {
    if n > 0 {
      assert seq(n, _ => true)[..n - 1] == seq(n - 1, _ => true);
      AllFree(n - 1);
    }
  }

  lemma {:induction false} InitialMemory(cfg: Config)
    requires cfg.nonswap || cfg.frames > 0
    ensures MemInv(cfg, Initial(cfg).mem)
  {
    AllFree(cfg.frames);
  }

  lemma TouchKeeps(cfg: Config, m: Memory, u: Uop, displaced: set<Page>)
    requires MemInv(cfg, m) && u.page in m.table
    ensures MemInv(cfg, TouchMemory(cfg, m, u, displaced))
  {
    hide Touched;
    if !cfg.nonswap {
      TouchedMembers(m.recency, u.page);
    }
  }

  /** When memory is full there is a victim. */
  lemma FullMeansEvictable(cfg: Config, m: Memory)
    requires MemInv(cfg, m)
    ensures m.remaining > 0 || CanEvict(m)
  {
    if !cfg.nonswap && m.remaining <= 0 {
      assert |m.recency| == cfg.frames;
      assert m.recency[|m.recency| - 1] in m.recency;
    }
  }

  lemma {:induction false} EvictFrames(cfg: Config, m: Memory)
    requires Coherent(m) && FramesInv(cfg, m) && CanEvict(m)
    ensures Coherent(EvictPage(cfg, m)) && FramesInv(cfg, EvictPage(cfg, m))
  {
    var victim := m.recency[|m.recency| - 1];
    var e := EvictPage(cfg, m);
    CountFreeUpdate(m.free, m.table[victim], true);
    forall f | 0 <= f < cfg.frames && !e.free[f]
      ensures exists p :: p in e.table && e.table[p] == f
    {
      var p :| p in m.table && m.table[p] == f;
      assert p in e.table;
    }
  }

  lemma {:induction false} EvictList(cfg: Config, m: Memory)
    requires ListInv(cfg, m) && CanEvict(m)
    ensures ListInv(cfg, EvictPage(cfg, m))
  {
    var n := |m.recency| - 1;
    var e := EvictPage(cfg, m);
    assert m.recency == e.recency + [m.recency[n]];
    assert m.recency[n] !in e.recency;
  }

  /** The circular search ends on a free frame whenever the counter is positive. */
  lemma {:induction false} SearchFindsFree(cfg: Config, m: Memory)
    requires FramesInv(cfg, m) && m.remaining > 0
    ensures m.free[Search(m.free, m.toAllocate)]
  {
    CountFreePositive(m.free);
  }

  lemma MapCoherent(cfg: Config, m: Memory, p: Page)
    requires !cfg.nonswap && Coherent(m) && FramesInv(cfg, m) && m.remaining > 0 && p !in m.table
    ensures Coherent(MapPage(cfg, m, p))
  {
    SearchFindsFree(cfg, m);
    var frame, t := Search(m.free, m.toAllocate), MapPage(cfg, m, p);
    assert t.table == m.table[p := frame] && t.tlb == m.tlb;
    assert forall q :: q in m.table ==> m.table[q] != frame;
  }

  lemma MapFrames(cfg: Config, m: Memory, p: Page)
    requires !cfg.nonswap && Coherent(m) && FramesInv(cfg, m) && m.remaining > 0 && p !in m.table
    ensures FramesInv(cfg, MapPage(cfg, m, p))
  {
    hide Coherent;
    SearchFindsFree(cfg, m);
    var frame, t := Search(m.free, m.toAllocate), MapPage(cfg, m, p);
    hide Search, Added;
    assert t.table == m.table[p := frame] && t.free == m.free[frame := false];
    CountFreeUpdate(m.free, frame, false);
    assert p in t.table && t.table[p] == frame;
    forall f | 0 <= f < cfg.frames && !t.free[f]
      ensures exists q :: q in t.table && t.table[q] == f
    {
      if f != frame {
        var q :| q in m.table && m.table[q] == f;
        assert q in t.table && t.table[q] == f;
      }
    }
  }

  /** The replacement unit has a free entry whenever there is a free frame, so
      insert never silently replaces a page. */
  lemma {:induction false} MapList(cfg: Config, m: Memory, p: Page)
    requires !cfg.nonswap && FramesInv(cfg, m) && ListInv(cfg, m)
    requires m.remaining > 0 && p !in m.table && p !in m.stale
    ensures MapPage(cfg, m, p).recency == [p] + m.recency
    ensures ListInv(cfg, MapPage(cfg, m, p))
  {
    NoDupAppend([p], m.recency);
  }

  lemma {:induction false} MapKeeps(cfg: Config, m: Memory, p: Page)
    requires MemInv(cfg, m) && m.remaining > 0 && p !in m.table && Insertable(cfg, m, p)
    ensures MemInv(cfg, MapPage(cfg, m, p))
    ensures MapPage(cfg, m, p).table.Keys == m.table.Keys + {p}
  {
    if !cfg.nonswap {
      MapFrames(cfg, m, p);
      MapCoherent(cfg, m, p);
      MapList(cfg, m, p);
    }
  }

  /** The physical address of a virtual one: (frame << m_offset_bits) | offset. */
  function Physical(frame: nat, offset: nat, pageSize: nat): nat {
    frame * pageSize + offset
  }

  /** Two different virtual addresses never translate to one physical address. */
  lemma {:induction false} TranslationIsInjective(cfg: Config, m: Memory, pageSize: nat, p: Page, a: nat, q: Page,
                                                  b: nat)
    requires MemInv(cfg, m) && p in m.table && q in m.table && a < pageSize && b < pageSize
    requires Physical(m.table[p], a, pageSize) == Physical(m.table[q], b, pageSize)
    ensures p == q && a == b
  {
    FrameOf(m.table[p], a, m.table[q], b, pageSize);
  }

  lemma FrameOf(f: nat, a: nat, g: nat, b: nat, n: nat)
    requires a < n && b < n && f * n + a == g * n + b
    ensures f == g && a == b
  {
    if f < g {
      NextFrame(f, g, n);
    } else if g < f {
      NextFrame(g, f, n);
    }
  }

  lemma {:induction false} NextFrame(f: nat, g: nat, n: nat)
    requires f < g
    ensures f * n + n <= g * n
  {
    if f + 1 < g {
      NextFrame(f, g - 1, n);
    }
    assert (g - 1) * n + n == g * n;
  }
}
