/** The set-associative cache, updated in place. */
module CacheUnit {
  import opened Lists
  import opened Bits
  import opened CacheModel
  import opened CachePartition
  import CacheRecency

  class Cache {
    const g: Geometry
    const partition: bool      // KNOB_HETERO_STATIC_CACHE_PARTITION and m_enable_partition
    const cpuQuota: int        // KNOB_HETERO_STATIC_CPU_PARTITION
    var sets: seq<CacheSet>

    ghost predicate Valid()
      reads this
    {
      g.assoc > 0 && |sets| == Pow2(g.setBits) && forall s :: 0 <= s < |sets| ==> |sets[s].lines| == g.assoc
    }

    ghost function Lines(): (r: seq<seq<Line>>)
      reads this
      ensures |r| == |sets|
    {
      seq(|sets|, s requires 0 <= s < |sets| reads this => sets[s].lines)
    }

    constructor (g: Geometry, partition: bool, cpuQuota: int)
      requires g.assoc > 0
      ensures Valid() && this.g == g && this.partition == partition && this.cpuQuota == cpuQuota
      ensures Lines() == CacheRecency.EmptyCache(g)
      ensures forall s :: 0 <= s < |sets| ==> sets[s] == CacheSet(seq(g.assoc, _ => EMPTY), 0, 0)
    {
      this.g := g;
      this.partition := partition;
      this.cpuQuota := cpuQuota;
      sets := seq(Pow2(g.setBits), _ => CacheSet(seq(g.assoc, _ => EMPTY), 0, 0));
    }

    /** access_cache: the first way that holds the line; a hit renews its time if asked to. */
    method Access(addr: nat, update: bool, now: nat) returns (way: nat)
      requires Valid()
      modifies this
      ensures Valid() && way == Lookup(old(sets)[SetOf(g, addr)].lines, TagOf(g, addr))
      ensures sets == if update && way < g.assoc
        then
          var s := SetOf(g, addr);
          old(sets)[s := old(sets)[s].(lines := Used(old(sets)[s].lines, way, now))]
        else old(sets)
    {
      var s, tag := SetOf(g, addr), TagOf(g, addr);
      var lines := sets[s].lines;
      way := 0;
      while way < g.assoc && !(lines[way].valid && lines[way].tag == tag)
        invariant 0 <= way <= g.assoc
        invariant Lookup(lines, tag) == LookupFrom(lines, tag, way)
      {
        way := way + 1;
      }
      if update && way < g.assoc {
        sets := sets[s := sets[s].(lines := lines[way := lines[way].(time := now)])];
      }
    }

    /** find_replacement_line, true LRU */
    method FindReplacement(s: nat) returns (w: nat)
      requires Valid() && s < |sets|
      ensures w == ReplacementWay(sets[s].lines)
    {
      var lines := sets[s].lines;
      var i := 0;
      w := 0;
      var time := MAX_INT;
      while i < g.assoc
        invariant 0 <= i <= g.assoc
        invariant (w, time) == LeastRecent(lines, i)
        invariant FreeFrom(lines, 0) == FreeFrom(lines, i)
      {
        if !lines[i].valid {
          w := i;
          return;
        }
        if lines[i].time < time {
          w, time := i, lines[i].time;
        }
        i := i + 1;
      }
    }

    /** find_replacement_line_from_same_type */
    method FindSameType(s: nat, gpu: bool) returns (w: Option<nat>)
      requires Valid() && s < |sets|
      ensures w == SameTypeWay(sets[s], cpuQuota, gpu)
    {
      var lines := sets[s].lines;
      var count := if gpu then sets[s].gpu else sets[s].cpu;
      var max := if gpu then g.assoc - cpuQuota else cpuQuota;
      w := None;
      var time := FOREVER;
      for i := 0 to g.assoc
        invariant (w, time) == OldestOfType(lines, gpu, i)
        invariant count < max ==> FreeFrom(lines, 0) == FreeFrom(lines, i)
      {
        if !lines[i].valid && count < max {
          w := Some(i);
          return;
        }
        if lines[i].valid && lines[i].gpu == gpu && lines[i].time < time {
          w, time := Some(i), lines[i].time;
        }
      }
    }

    /** The way insert_cache takes. */
    ghost function Chosen(addr: nat, gpu: bool): (w: Option<nat>)
      requires Valid()
      reads this
      ensures w.Some? ==> w.value < g.assoc
    {
      Choice(partition, cpuQuota, sets[SetOf(g, addr)], gpu)
    }

    /** insert_cache. `updated` is the base of the valid line replaced, 0 if none was:
        a victim at base 0 is not told from none. */
    method Insert(addr: nat, gpu: bool, now: nat) returns (way: Option<nat>, updated: nat)
      requires Valid()
      modifies this
      ensures Valid() && way == old(Chosen(addr, gpu))
      ensures way.None? ==> sets == old(sets)
      ensures way.Some? ==> var s := SetOf(g, addr);
        && sets == old(sets)[s := Replaced(old(sets)[s], way.value, TagOf(g, addr), BaseOf(g, addr), gpu, now)]
        && updated == if old(sets)[s].lines[way.value].valid then old(sets)[s].lines[way.value].base else 0
    {
      var s, tag := SetOf(g, addr), TagOf(g, addr);
      if partition {
        way := FindSameType(s, gpu);
        if way.None? {
          return None, 0;
        }
      } else {
        var w := FindReplacement(s);
        way := Some(w);
      }
      var here := sets[s];
      var line := here.lines[way.value];
      var cpu, gpus := here.cpu, here.gpu;
      updated := 0;
      if line.valid {
        updated := line.base;
        if line.gpu {
          gpus := gpus - 1;
        } else {
          cpu := cpu - 1;
        }
      }
      if gpu {
        gpus := gpus + 1;
      } else {
        cpu := cpu + 1;
      }
      line := line.(valid := true, tag := tag, base := BaseOf(g, addr), time := now, gpu := gpu);
      sets := sets[s := CacheSet(here.lines[way.value := line], cpu, gpus)];
    }

    /** The use every level makes of the cache: access, then insert on a miss. It gets
        stuck where the partition's search gives up. */
    method Reference(addr: nat, gpu: bool, now: nat) returns (hit: bool, stuck: bool)
      requires Valid()
      modifies this
      ensures Valid() && hit == Hit(old(Lines())[SetOf(g, addr)], TagOf(g, addr))
      ensures !partition ==> !stuck
      ensures !partition ==>
        Lines() == old(Lines())[SetOf(g, addr) :=
          CacheRecency.Referenced(old(Lines())[SetOf(g, addr)], TagOf(g, addr), BaseOf(g, addr), gpu, now)]
      ensures partition ==>
        var s, op := SetOf(g, addr), if hit then CachePartition.Access(TagOf(g, addr), now)
                                     else CachePartition.Insert(TagOf(g, addr), BaseOf(g, addr), gpu, now);
        var next := Step(old(sets)[s], cpuQuota, op);
        stuck == next.None? && sets == if stuck then old(sets) else old(sets)[s := next.value]
    {
      var way := Access(addr, true, now);
      hit, stuck := way < g.assoc, false;
      if !hit {
        var chosen, _ := Insert(addr, gpu, now);
        stuck := chosen.None?;
      }
    }

    /** invalidate_cache_line */
    method Invalidate(addr: nat)
      requires Valid()
      modifies this
      ensures Valid() && sets == old(sets)[SetOf(g, addr) := Invalidated(old(sets)[SetOf(g, addr)], TagOf(g, addr))]
    {
      var s, tag := SetOf(g, addr), TagOf(g, addr);
      var lines := sets[s].lines;
      var way := 0;
      while way < g.assoc && !(lines[way].valid && lines[way].tag == tag)
        invariant 0 <= way <= g.assoc
        invariant Lookup(lines, tag) == LookupFrom(lines, tag, way)
      {
        way := way + 1;
      }
      if way < g.assoc {
        var cleared := lines[way].(valid := false, tag := 0, base := 0, dirty := false);
        sets := sets[s := sets[s].(lines := lines[way := cleared])];
      }
    }

    /** Writing the dirty bit of a line's data. */
    method SetDirty(s: nat, way: nat, dirty: bool)
      requires Valid() && s < |sets| && way < g.assoc
      modifies this
      ensures Valid()
      ensures sets ==
        old(sets)[s := old(sets)[s].(lines := old(sets)[s].lines[way := old(sets)[s].lines[way].(dirty := dirty)])]
    {
      sets := sets[s := sets[s].(lines := sets[s].lines[way := sets[s].lines[way].(dirty := dirty)])];
    }
  }
}
