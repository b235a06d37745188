/** A pass over the fill queue as values: which requests are tried, what each try does to
    the cache, and what is left of the queue. */
module CachePass {
  import opened Lists
  import opened CacheModel
  import opened CachePartition

  /** A request in the fill queue; new until its line has been filled (MEM_FILL_NEW). */
  datatype FillReq = FillReq(id: nat, addr: nat, dirty: bool, gpu: bool, isNew: bool)

  /** The cache and the bases of the queued write-backs. */
  datatype View = View(sets: seq<CacheSet>, wb: seq<nat>)

  datatype Shape = Shape(g: Geometry, partition: bool, cpuQuota: int)

  /** What the surroundings answer during a pass: whether a request's cycle has come,
      whether it gets a write port, and whether it can be passed on. */
  datatype Env = Env(shape: Shape, ready: nat -> bool, port: nat -> bool, forward: nat -> bool, now: nat)

  predicate Fits(g: Geometry, v: View, addr: nat) {
    SetOf(g, addr) < |v.sets| && |v.sets[SetOf(g, addr)].lines| == g.assoc && g.assoc > 0
  }

  predicate Present(g: Geometry, v: View, addr: nat)
    requires Fits(g, v, addr)
  {
    Hit(v.sets[SetOf(g, addr)].lines, TagOf(g, addr))
  }

  /** The way of the line: where it is found, or where insert_cache puts it. */
  function WayFor(c: Shape, v: View, addr: nat, gpu: bool): (w: Option<nat>)
    requires Fits(c.g, v, addr)
    ensures w.Some? ==> w.value < c.g.assoc
  {
    var s := v.sets[SetOf(c.g, addr)];
    if Present(c.g, v, addr) then Some(Lookup(s.lines, TagOf(c.g, addr)))
    else Choice(c.partition, c.cpuQuota, s, gpu)
  }

  // ----- storing a line

  /** The set with the line in way w, dirty if it comes or already is so. */
  function StoredSet(s: CacheSet, hit: bool, w: nat, tag: nat, base: nat, dirty: bool, gpu: bool, now: nat): CacheSet
    requires w < |s.lines|
  {
    if hit then s.(lines := s.lines[w := s.lines[w].(dirty := s.lines[w].dirty || dirty)])
    else
      var r := Replaced(s, w, tag, base, gpu, now);
      r.(lines := r.lines[w := r.lines[w].(dirty := dirty)])
  }

  /** The victim that has to be written back; one at base 0 is taken for none. */
  function WrittenBack(l: Line): seq<nat> {
    if l.valid && l.base != 0 && l.dirty then [l.base] else []
  }

  function Stored(g: Geometry, v: View, w: nat, addr: nat, dirty: bool, gpu: bool, now: nat): View
    requires Fits(g, v, addr) && w < g.assoc
  {
    var s, hit := SetOf(g, addr), Present(g, v, addr);
    View(v.sets[s := StoredSet(v.sets[s], hit, w, TagOf(g, addr), BaseOf(g, addr), dirty, gpu, now)],
         v.wb + if hit then [] else WrittenBack(v.sets[s].lines[w]))
  }

  /** After a fill the line is present and dirty exactly if the data is or the line was.
      A line not present before takes the way of its own type, with a partition, or the
      replacement way. Every other line is as before, in every set, and the line replaced
      was written back if it was dirty, unless it was at base 0. */
  lemma {:induction false} StoredIsPresent(c: Shape, v: View, addr: nat, dirty: bool, gpu: bool, now: nat,
                                           s: nat, w: nat)
    requires Fits(c.g, v, addr) && WayFor(c, v, addr, gpu).Some? && s < |v.sets| && w < |v.sets[s].lines|
    ensures
      var t, mine, way := Stored(c.g, v, WayFor(c, v, addr, gpu).value, addr, dirty, gpu, now), SetOf(c.g, addr),
                          WayFor(c, v, addr, gpu).value;
      var l, was := t.sets[mine].lines[way], v.sets[mine].lines[way];
      && Fits(c.g, t, addr) && Present(c.g, t, addr)
      && Holds(t.sets[mine].lines, TagOf(c.g, addr), way)
      && l.dirty == (dirty || (Present(c.g, v, addr) && was.dirty))
      && (!Present(c.g, v, addr) ==> l.base == BaseOf(c.g, addr) && l.gpu == gpu && l.time == now)
      && (!Present(c.g, v, addr) && c.partition ==> SameTypeWay(v.sets[mine], c.cpuQuota, gpu) == Some(way))
      && (!Present(c.g, v, addr) && !c.partition ==> ReplacementWay(v.sets[mine].lines) == way)
      && |t.sets[s].lines| == |v.sets[s].lines|
      && ((s, w) != (mine, way) ==> t.sets[s].lines[w] == v.sets[s].lines[w])
      && (was.valid && was.dirty && was.base != 0 && !Present(c.g, v, addr) ==> t.wb == v.wb + [was.base])
      && (Present(c.g, v, addr) || !was.valid || !was.dirty ==> t.wb == v.wb)
  {
    hide SetOf, TagOf, BaseOf, SameTypeWay, ReplacementWay;
    var way, mine, tag := WayFor(c, v, addr, gpu).value, SetOf(c.g, addr), TagOf(c.g, addr);
    var lines := Stored(c.g, v, way, addr, dirty, gpu, now).sets[mine].lines;
    assert Holds(lines, tag, way);
    assert Lookup(lines, tag) <= way;
  }

  // ----- the tries of a pass

  /** A new request whose time has come and that hits or has a port. */
  predicate Fillable(env: Env, v: View, r: FillReq)
    requires Fits(env.shape.g, v, r.addr)
  {
    r.isNew && env.ready(r.id) && (env.port(r.id) || Present(env.shape.g, v, r.addr))
  }

  /** Whether a try fills: only the search of the partition can stand in the way. */
  predicate Fills(env: Env, v: View, r: FillReq)
    requires Fits(env.shape.g, v, r.addr)
  {
    Fillable(env, v, r) && WayFor(env.shape, v, r.addr, r.gpu).Some?
  }

  /** The try finds no way and stops the pass. */
  predicate Stops(env: Env, v: View, r: FillReq) {
    Fits(env.shape.g, v, r.addr) && Fillable(env, v, r) && WayFor(env.shape, v, r.addr, r.gpu).None?
  }

  function Filled(r: FillReq, did: bool): FillReq {
    if did then r.(isNew := false) else r
  }

  /** Whether the request leaves the queue. */
  predicate Goes(env: Env, r: FillReq, did: bool) {
    env.ready(r.id) && env.forward(r.id) && !Filled(r, did).isNew
  }

  /** One try takes the cache from v to v'. */
  ghost predicate TryOk(env: Env, r: FillReq, v: View, v': View, did: bool) {
    && Fits(env.shape.g, v, r.addr) && (did <==> Fills(env, v, r))
    && var way := WayFor(env.shape, v, r.addr, r.gpu);
       v' == if did then Stored(env.shape.g, v, way.value, r.addr, r.dirty, r.gpu, env.now) else v
  }

  /** The requests of q have been tried in order; the cache is views[k] before the k-th. */
  ghost predicate Tried(env: Env, q: seq<FillReq>, views: seq<View>, dids: seq<bool>) {
    && |views| == |q| + 1 && |dids| == |q|
    && forall k :: 0 <= k < |q| ==> TryOk(env, q[k], views[k], views[k + 1], dids[k])
  }

  /** What stays of the tried requests, and the ids of those that go, both in order. */
  function Staying(env: Env, q: seq<FillReq>, dids: seq<bool>): seq<FillReq>
    requires |dids| == |q|
  {
    if q == [] then []
    else
      var n := |q| - 1;
      Staying(env, q[..n], dids[..n]) + if Goes(env, q[n], dids[n]) then [] else [Filled(q[n], dids[n])]
  }

  function Going(env: Env, q: seq<FillReq>, dids: seq<bool>): seq<nat>
    requires |dids| == |q|
  {
    if q == [] then []
    else
      var n := |q| - 1;
      Going(env, q[..n], dids[..n]) + if Goes(env, q[n], dids[n]) then [q[n].id] else []
  }

  lemma TriedSnoc(env: Env, q: seq<FillReq>, views: seq<View>, dids: seq<bool>, r: FillReq, v': View, did: bool)
    requires Tried(env, q, views, dids) && TryOk(env, r, views[|q|], v', did)
    ensures Tried(env, q + [r], views + [v'], dids + [did])
  {
    hide TryOk;
    var q', views', dids' := q + [r], views + [v'], dids + [did];
    forall k | 0 <= k < |q'|
      ensures TryOk(env, q'[k], views'[k], views'[k + 1], dids'[k])
    {
      if k < |q| {
        assert q'[k] == q[k] && views'[k] == views[k] && views'[k + 1] == views[k + 1] && dids'[k] == dids[k];
      }
    }
  }

  lemma PassSnoc(env: Env, q: seq<FillReq>, dids: seq<bool>, r: FillReq, did: bool)
    requires |dids| == |q|
    ensures Staying(env, q + [r], dids + [did]) ==
      Staying(env, q, dids) + if Goes(env, r, did) then [] else [Filled(r, did)]
    ensures Going(env, q + [r], dids + [did]) == Going(env, q, dids) + if Goes(env, r, did) then [r.id] else []
  {
    hide Goes;
    assert (q + [r])[..|q|] == q && (dids + [did])[..|q|] == dids;
  }

  /** Among the requests tried, exactly those are filled that are new and whose cycle has
      come, and that find their line or else get a port and a way; exactly those leave that
      are ready, can be passed on and are filled now or were so before. The others stay,
      marked if they were filled. */
  lemma {:induction false} WhoGoes(env: Env, q: seq<FillReq>, views: seq<View>, dids: seq<bool>, k: nat)
    requires Tried(env, q, views, dids) && k < |q|
    ensures Fits(env.shape.g, views[k], q[k].addr)
    ensures
      var r, c := q[k], env.shape;
      var s, tag := views[k].sets[SetOf(c.g, r.addr)], TagOf(c.g, r.addr);
      var found := exists w :: 0 <= w < |s.lines| && s.lines[w].valid && s.lines[w].tag == tag;
      && (dids[k] <==> r.isNew && env.ready(r.id)
                       && (found || (env.port(r.id) && (c.partition ==> SameTypeWay(s, c.cpuQuota, r.gpu).Some?))))
      && (!dids[k] ==> views[k + 1] == views[k])
      && (dids[k] ==> Fits(c.g, views[k + 1], r.addr) && Present(c.g, views[k + 1], r.addr))
      && if env.ready(r.id) && env.forward(r.id) && (!r.isNew || dids[k]) then r.id in Going(env, q, dids)
         else (if dids[k] then r.(isNew := false) else r) in Staying(env, q, dids)
  {
    hide Stored, Tried;
    TryAt(env, q, views, dids, k);
    var r, c := q[k], env.shape;
    FoundIff(views[k].sets[SetOf(c.g, r.addr)].lines, TagOf(c.g, r.addr));
    if dids[k] {
      StoredIsPresent(c, views[k], r.addr, r.dirty, r.gpu, env.now, SetOf(c.g, r.addr), 0);
    }
    PlaceOf(env, q, views, dids, k);
  }

  lemma TryAt(env: Env, q: seq<FillReq>, views: seq<View>, dids: seq<bool>, k: nat)
    requires Tried(env, q, views, dids) && k < |q|
    ensures |views| == |q| + 1 && |dids| == |q| && TryOk(env, q[k], views[k], views[k + 1], dids[k])
  {
  }

  lemma FoundIff(lines: seq<Line>, tag: nat)
    ensures Hit(lines, tag) <==> exists w :: 0 <= w < |lines| && lines[w].valid && lines[w].tag == tag
  {
    if w :| 0 <= w < |lines| && lines[w].valid && lines[w].tag == tag {
      assert Holds(lines, tag, w);
    }
  }

  lemma {:induction false} PlaceOf(env: Env, q: seq<FillReq>, views: seq<View>, dids: seq<bool>, k: nat)
    requires Tried(env, q, views, dids) && k < |q|
    ensures
      var r := q[k];
      if env.ready(r.id) && env.forward(r.id) && (!r.isNew || dids[k]) then r.id in Going(env, q, dids)
      else (if dids[k] then r.(isNew := false) else r) in Staying(env, q, dids)
  {
    hide TryOk;
    var n := |q| - 1;
    if k < n {
      TriedFront(env, q, views, dids);
      PlaceOf(env, q[..n], views[..n + 1], dids[..n], k);
    }
  }

  lemma TriedFront(env: Env, q: seq<FillReq>, views: seq<View>, dids: seq<bool>)
    requires Tried(env, q, views, dids) && q != []
    ensures var n := |q| - 1; Tried(env, q[..n], views[..n + 1], dids[..n])
  {
    hide TryOk;
    var n := |q| - 1;
    forall k | 0 <= k < n
      ensures TryOk(env, q[..n][k], views[..n + 1][k], views[..n + 1][k + 1], dids[..n][k])
    {
      assert TryOk(env, q[k], views[k], views[k + 1], dids[k]);
    }
  }
}
