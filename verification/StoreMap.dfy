/** Memory dependences: the table of in-flight stores by quadword, and the store a
    load depends on. */
module StoreMap {
  import opened Lists

  /** A memory micro-operation: its number, address, size and path. */
  datatype Uop = Uop(num: nat, va: nat, size: nat, offPath: bool)

  /** mem_map_entry_c: the set bits of the store mask and the store of each byte. */
  datatype Entry = Entry(mask: set<nat>, uops: seq<Option<Uop>>)

  type Table = map<nat, Entry>

  const BYTES: nat := 8        // BYTES_IN_QUADWORD
  const NARROW: nat := 0x1_0000_0000  // the range of the 32-bit unsigned maximum

  /** MEM_MAP_KEY */
  function Key(va: nat, offPath: bool): nat {
    va / 8 * 2 + if offPath then 1 else 0
  }

  function FirstByte(va: nat): (b: nat)
    ensures b < BYTES
  {
    va % 8
  }

  predicate Overlap(a0: nat, s0: nat, a1: nat, s1: nat) {
    !(a0 >= a1 + s1 || a1 >= a0 + s0)
  }

  predicate InRange(x: nat, a: nat, s: nat) {
    a <= x < a + s
  }

  /** Two ranges overlap in the sense of the macro exactly when they share a byte,
      as long as neither is empty. */
  lemma {:induction false} OverlapIsSharing(a0: nat, s0: nat, a1: nat, s1: nat)
    requires s0 > 0 && s1 > 0
    ensures Overlap(a0, s0, a1, s1) <==> exists x :: InRange(x, a0, s0) && InRange(x, a1, s1)
  {
    var x := if a0 < a1 then a1 else a0;
    assert Overlap(a0, s0, a1, s1) ==> InRange(x, a0, s0) && InRange(x, a1, s1);
  }

  /** Key and first byte name the address and the path. */
  lemma {:induction false} KeyNamesTheQuadword(u: Uop, v: Uop)
    ensures (Key(u.va, u.offPath) == Key(v.va, v.offPath) && FirstByte(u.va) == FirstByte(v.va)) <==>
      (u.va == v.va && u.offPath == v.offPath)
  {
  }

  predicate StartsAt(u: Uop, key: nat, b: nat) {
    Key(u.va, u.offPath) == key && FirstByte(u.va) == b
  }

  // ----- the plain list of events

  datatype Event = Fetch(store: Uop) | Retire(store: Uop)

  /** The store last fetched for the byte, unless it has retired since. */
  function Current(h: seq<Event>, key: nat, b: nat): Option<Uop> {
    if h == [] then None
    else
      var c := Current(h[..|h| - 1], key, b);
      match h[|h| - 1]
      case Fetch(u) => if StartsAt(u, key, b) then Some(u) else c
      case Retire(u) => if c == Some(u) then None else c
  }

  /** The fetch at position i is the latest store to its byte and has not retired. */
  ghost predicate LatestUnretired(h: seq<Event>, key: nat, b: nat, i: nat) {
    && i < |h| && h[i].Fetch? && StartsAt(h[i].store, key, b)
    && (forall j :: i < j < |h| && h[j].Fetch? ==> !StartsAt(h[j].store, key, b))
    && (forall j :: i < j < |h| ==> h[j] != Retire(h[i].store))
  }

  lemma {:induction false} CurrentIsLatestUnretired(h: seq<Event>, key: nat, b: nat, u: Uop)
    ensures Current(h, key, b) == Some(u) <==> exists i: nat :: LatestUnretired(h, key, b, i) && h[i].store == u
  {
    if h != [] {
      var n := |h| - 1;
      var front, e := h[..n], h[n];
      CurrentIsLatestUnretired(front, key, b, u);
      if e == Fetch(u) && StartsAt(u, key, b) {
        assert LatestUnretired(h, key, b, n);
      } else if Current(h, key, b) == Some(u) {
        var i: nat :| LatestUnretired(front, key, b, i) && front[i].store == u;
        assert h[i] == front[i];
        assert LatestUnretired(h, key, b, i);
      }
      if i: nat :| LatestUnretired(h, key, b, i) && h[i].store == u {
        if i < n {
          assert front[i] == h[i] && LatestUnretired(front, key, b, i);
        }
      }
    }
  }

  lemma {:induction false} CurrentStartsThere(h: seq<Event>, key: nat, b: nat)
    ensures Current(h, key, b).Some? ==> StartsAt(Current(h, key, b).value, key, b)
  {
    if h != [] {
      CurrentStartsThere(h[..|h| - 1], key, b);
    }
  }

  // ----- the table agrees with the events

  /** A byte's slot in the table. */
  function Slot(t: Table, key: nat, b: nat): Option<Uop> {
    if key in t && b < |t[key].uops| && b in t[key].mask then t[key].uops[b] else None
  }

  ghost predicate EntryOk(e: Entry) {
    && |e.uops| == BYTES && e.mask != {}
    && (forall b :: b in e.mask ==> b < BYTES)
    && (forall b :: 0 <= b < BYTES ==> (b in e.mask <==> e.uops[b].Some?))
  }

  ghost predicate Agrees(t: Table, h: seq<Event>) {
    && (forall k :: k in t ==> EntryOk(t[k]))
    && (forall k: nat, b: nat :: b < BYTES ==> Slot(t, k, b) == Current(h, k, b))
  }

  const NO_STORES: Entry := Entry({}, [None, None, None, None, None, None, None, None])

  /** update_store_hash */
  function Updated(t: Table, u: Uop): Table {
    var key, b := Key(u.va, u.offPath), FirstByte(u.va);
    var e := if key in t then t[key] else NO_STORES;
    t[key := Entry(e.mask + {b}, if b < |e.uops| then e.uops[b := Some(u)] else e.uops)]
  }

  /** delete_store_hash_entry */
  function Deleted(t: Table, u: Uop): Table {
    var key, b := Key(u.va, u.offPath), FirstByte(u.va);
    if !(key in t && b < |t[key].uops| && t[key].uops[b] == Some(u)) then t
    else
      var e := Entry(t[key].mask - {b}, t[key].uops[b := None]);
      if e.mask == {} then t - {key} else t[key := e]
  }

  lemma {:induction false} UpdatedAgrees(t: Table, h: seq<Event>, u: Uop)
    requires Agrees(t, h)
    ensures Agrees(Updated(t, u), h + [Fetch(u)])
  {
    hide Key, FirstByte;
    var key, b := Key(u.va, u.offPath), FirstByte(u.va);
    var t' := Updated(t, u);
    FirstByteBound(u.va);
    assert (h + [Fetch(u)])[..|h|] == h;
    UpdatedEntry(t, u);
    forall k: nat, c: nat | c < BYTES
      ensures Slot(t', k, c) == Current(h + [Fetch(u)], k, c)
    {
      assert Slot(t, k, c) == Current(h, k, c);
    }
  }

  lemma FirstByteBound(va: nat)
    ensures FirstByte(va) < BYTES
  {
  }

  lemma UpdatedEntry(t: Table, u: Uop)
    requires forall k :: k in t ==> EntryOk(t[k])
    ensures forall k :: k in Updated(t, u) ==> EntryOk(Updated(t, u)[k])
    ensures forall k: nat, c: nat :: c < BYTES ==>
      Slot(Updated(t, u), k, c) == if StartsAt(u, k, c) then Some(u) else Slot(t, k, c)
  {
    hide Key, FirstByte;
    FirstByteBound(u.va);
  }

  lemma DeletedEntry(t: Table, u: Uop)
    requires forall k :: k in t ==> EntryOk(t[k])
    ensures forall k :: k in Deleted(t, u) ==> EntryOk(Deleted(t, u)[k])
    ensures forall k: nat, c: nat :: c < BYTES ==>
      Slot(Deleted(t, u), k, c) == if StartsAt(u, k, c) && Slot(t, k, c) == Some(u) then None else Slot(t, k, c)
  {
    hide Key, FirstByte;
    FirstByteBound(u.va);
    var key, b := Key(u.va, u.offPath), FirstByte(u.va);
    forall k: nat, c: nat | c < BYTES
      ensures Slot(Deleted(t, u), k, c) == if StartsAt(u, k, c) && Slot(t, k, c) == Some(u) then None else Slot(t, k, c)
    {
      if k == key && key in t && t[key].uops[b] == Some(u) {
        assert c in t[key].mask && c != b ==> c in t[key].mask - {b};
      }
    }
  }

  lemma {:induction false} DeletedAgrees(t: Table, h: seq<Event>, u: Uop)
    requires Agrees(t, h)
    ensures Agrees(Deleted(t, u), h + [Retire(u)])
  {
    hide Key, FirstByte, Deleted, StartsAt;
    assert (h + [Retire(u)])[..|h|] == h;
    DeletedEntry(t, u);
    forall k: nat, c: nat | c < BYTES
      ensures Slot(Deleted(t, u), k, c) == Current(h + [Retire(u)], k, c)
    {
      assert Slot(t, k, c) == Current(h, k, c);
      CurrentStartsThere(h, k, c);
    }
  }

  // ----- the store a load depends on

  /** Slot b of the entry holds a store that overlaps the load. */
  predicate Feeds(e: Entry, ld: Uop, b: nat) {
    b in e.mask && b < |e.uops| && e.uops[b].Some? && Overlap(e.uops[b].value.va, e.uops[b].value.size, ld.va, ld.size)
  }

  function NumAt(e: Entry, b: nat): nat {
    if b < |e.uops| && e.uops[b].Some? then e.uops[b].value.num else 0
  }

  /** The scan over the first n slots: the slot chosen and the 32-bit maximum kept. */
  function Scan(e: Entry, ld: Uop, n: nat): (r: (Option<nat>, nat))
    ensures r.1 < NARROW && (r.0.None? ==> r.1 == 0)
    ensures r.0.Some? ==> r.0.value < n && Feeds(e, ld, r.0.value) && r.1 == NumAt(e, r.0.value) % NARROW
  {
    if n == 0 then (None, 0)
    else
      var (w, t) := Scan(e, ld, n - 1);
      if Feeds(e, ld, n - 1) && t < NumAt(e, n - 1) then (Some(n - 1), NumAt(e, n - 1) % NARROW) else (w, t)
  }

  /** Slot m holds the youngest of the stores in the first n slots that feed the load. */
  ghost predicate Youngest(e: Entry, ld: Uop, m: nat, n: nat) {
    m < n && Feeds(e, ld, m) && forall b :: 0 <= b < n && b != m && Feeds(e, ld, b) ==> NumAt(e, b) < NumAt(e, m)
  }

  /** The scan chooses the youngest store exactly when its number is not 0 and no later
      slot's number exceeds what 32 bits keep of it, as is so below 2^32. */
  lemma {:induction false} ScanFindsYoungest(e: Entry, ld: Uop, m: nat, n: nat)
    requires Youngest(e, ld, m, n)
    ensures Scan(e, ld, n).0 == Some(m) <==>
      NumAt(e, m) > 0 && forall b :: m < b < n && Feeds(e, ld, b) ==> NumAt(e, b) <= NumAt(e, m) % NARROW
  {
    hide Feeds, NumAt;
    if m == n - 1 {
      ScanBelow(e, ld, n - 1, NumAt(e, m));
    } else {
      ScanFindsYoungest(e, ld, m, n - 1);
    }
  }

  lemma ScanBelow(e: Entry, ld: Uop, n: nat, top: nat)
    requires forall b :: 0 <= b < n && Feeds(e, ld, b) ==> NumAt(e, b) < top
    ensures top > 0 ==> Scan(e, ld, n).1 < top
  {
  }

  /** Two overlapping stores above 2^32 of which the scan takes the older one. */
  lemma {:induction false} WideNumbersMisleadTheScan()
    ensures var e := Entry({0, 1}, [Some(Uop(NARROW + 2, 0, 4, false)), Some(Uop(NARROW + 1, 1, 4, false))]);
      Youngest(e, Uop(NARROW + 3, 0, 8, false), 0, 2) && Scan(e, Uop(NARROW + 3, 0, 8, false), 2).0 == Some(1)
  {
    var e, ld := Entry({0, 1}, [Some(Uop(NARROW + 2, 0, 4, false)), Some(Uop(NARROW + 1, 1, 4, false))]),
      Uop(NARROW + 3, 0, 8, false);
    assert Scan(e, ld, 1) == (Some(0), 2);
  }

  /** When the load's first byte is the only one with a store, taking that store is
      what the scan would do, if and only if neither access is empty. */
  lemma {:induction false} FastPathIsScan(e: Entry, ld: Uop, b: nat)
    requires EntryOk(e) && b < BYTES && e.mask == {b} && e.uops[b].value.va == ld.va && NumAt(e, b) > 0
    ensures Scan(e, ld, BYTES).0 == Some(b) <==> e.uops[b].value.size > 0 && ld.size > 0
  {
    if Feeds(e, ld, b) {
      assert Youngest(e, ld, b, BYTES);
      ScanFindsYoungest(e, ld, b, BYTES);
    }
  }

  // ----- sources

  /** The source list knows a store by its number. */
  predicate Listed(srcs: seq<Uop>, num: nat) {
    exists i :: 0 <= i < |srcs| && srcs[i].num == num
  }

  class Map {
    var table: Table
    ghost var history: seq<Event>

    ghost predicate Valid()
      reads this
    {
      Agrees(table, history)
    }

    constructor ()
      ensures Valid() && history == []
    {
      table, history := map[], [];
    }

    /** update_store_hash: a store is fetched. */
    method UpdateStore(u: Uop)
      requires Valid()
      modifies this
      ensures Valid() && history == old(history) + [Fetch(u)]
    {
      hide Key, FirstByte;
      UpdatedAgrees(table, history, u);
      FirstByteBound(u.va);
      var key, b := Key(u.va, u.offPath), FirstByte(u.va);
      var e := NO_STORES;
      if key in table {
        e := table[key];
      }
      e := e.(mask := e.mask + {b});
      e := e.(uops := e.uops[b := Some(u)]);
      table := table[key := e];
      history := history + [Fetch(u)];
    }

    /** delete_store_hash_entry: a store retires. */
    method DeleteStore(u: Uop)
      requires Valid()
      modifies this
      ensures Valid() && history == old(history) + [Retire(u)]
    {
      hide Key, FirstByte;
      DeletedAgrees(table, history, u);
      FirstByteBound(u.va);
      history := history + [Retire(u)];
      var key, b := Key(u.va, u.offPath), FirstByte(u.va);
      if !(key in table && table[key].uops[b] == Some(u)) {
        return;
      }
      var e := Entry(table[key].mask - {b}, table[key].uops[b := None]);
      table := table[key := e];
      if e.mask == {} {
        table := table - {key};
      }
    }

    /** add_src_from_uop */
    method AddSource(srcs: seq<Uop>, u: Uop) returns (r: seq<Uop>)
      ensures srcs <= r && |r| <= |srcs| + 1 && Listed(r, u.num)
      ensures r == if Listed(srcs, u.num) then srcs else srcs + [u]
    {
      for j := 0 to |srcs|
        invariant forall i :: 0 <= i < j ==> srcs[i].num != u.num
      {
        if srcs[j].num == u.num {
          return srcs;
        }
      }
      r := srcs + [u];
      assert r[|srcs|] == u;
    }

    /** add_store_deps. With stores issued out of order every store feeding the load
        becomes a source of it, otherwise only the one found. */
    method AddStoreDeps(ld: Uop, outOfOrder: bool, srcs: seq<Uop>) returns (dep: Option<Uop>, r: seq<Uop>)
      requires Valid()
      ensures dep == DepOf(table, ld)
      ensures !outOfOrder ==> r == if dep.Some? && !Listed(srcs, dep.value.num) then srcs + [dep.value] else srcs
      ensures outOfOrder ==> Sourced(table, ld, srcs, r)
    {
      hide Key, FirstByte, Overlap, Current;
      FirstByteBound(ld.va);
      var key, first := Key(ld.va, ld.offPath), FirstByte(ld.va);
      r := srcs;
      if key !in table {
        return None, r;
      }
      var e := table[key];
      assert EntryOk(e);
      if e.mask == {first} {
        dep := e.uops[first];
        r := AddSource(r, dep.value);
        return;
      }
      var chosen: Option<nat>, top := None, 0;
      for b := 0 to BYTES
        invariant (chosen, top) == Scan(e, ld, b)
        invariant if outOfOrder then SourcedTo(e, ld, srcs, r, b) else r == srcs
      {
        if b in e.mask && Overlap(e.uops[b].value.va, e.uops[b].value.size, ld.va, ld.size) {
          var u := e.uops[b].value;
          if outOfOrder {
            ghost var earlier := r;
            r := AddSource(r, u);
            SourcedStep(e, ld, srcs, earlier, r, b);
          }
          if top < u.num {
            chosen, top := Some(b), u.num % NARROW;
          }
        } else {
          SourcedSkip(e, ld, srcs, r, b);
        }
      }
      if chosen.None? {
        return None, r;
      }
      dep := e.uops[chosen.value];
      if !outOfOrder {
        r := AddSource(r, dep.value);
      }
    }
  }

  /** The new sources are stores in the first n slots that feed the load, and all of
      these are sources. */
  ghost predicate SourcedTo(e: Entry, ld: Uop, srcs: seq<Uop>, r: seq<Uop>, n: nat) {
    && srcs <= r
    && (forall b :: 0 <= b < n && Feeds(e, ld, b) ==> Listed(r, NumAt(e, b)))
    && (forall i :: |srcs| <= i < |r| ==> FedBy(e, ld, r[i], n))
  }

  ghost predicate FedBy(e: Entry, ld: Uop, u: Uop, n: nat) {
    exists b :: 0 <= b < n && Feeds(e, ld, b) && e.uops[b].value == u
  }

  lemma SourcedStep(e: Entry, ld: Uop, srcs: seq<Uop>, r: seq<Uop>, r': seq<Uop>, n: nat)
    requires SourcedTo(e, ld, srcs, r, n) && Feeds(e, ld, n)
    requires r' == if Listed(r, NumAt(e, n)) then r else r + [e.uops[n].value]
    ensures SourcedTo(e, ld, srcs, r', n + 1)
  {
    forall k | 0 <= k < |r| && k < |r'|
      ensures r'[k] == r[k]
    {
    }
    forall num | Listed(r, num)
      ensures Listed(r', num)
    {
      var k :| 0 <= k < |r| && r[k].num == num;
      assert r'[k].num == num;
    }
    if !Listed(r, NumAt(e, n)) {
      assert r'[|r|].num == NumAt(e, n);
    }
    forall i | |srcs| <= i < |r'|
      ensures FedBy(e, ld, r'[i], n + 1)
    {
      if i < |r| {
        assert FedBy(e, ld, r[i], n);
      }
    }
  }

  lemma SourcedSkip(e: Entry, ld: Uop, srcs: seq<Uop>, r: seq<Uop>, n: nat)
    requires !Feeds(e, ld, n)
    ensures SourcedTo(e, ld, srcs, r, n) ==> SourcedTo(e, ld, srcs, r, n + 1)
  {
    if SourcedTo(e, ld, srcs, r, n) {
      forall i | |srcs| <= i < |r|
        ensures FedBy(e, ld, r[i], n + 1)
      {
        assert FedBy(e, ld, r[i], n);
      }
    }
  }

  /** The sources added for a load. */
  ghost predicate Sourced(t: Table, ld: Uop, srcs: seq<Uop>, r: seq<Uop>) {
    var key, first := Key(ld.va, ld.offPath), FirstByte(ld.va);
    if key !in t then r == srcs
    else if t[key].mask == {first} then
      && srcs <= r && |r| <= |srcs| + 1 && Listed(r, NumAt(t[key], first))
      && forall i :: |srcs| <= i < |r| ==> Some(r[i]) == Slot(t, key, first)
    else SourcedTo(t[key], ld, srcs, r, BYTES)
  }

  /** The store add_store_deps gives: the only one, if it is at the load's first byte,
      or the one the scan chooses. */
  function DepOf(t: Table, ld: Uop): Option<Uop> {
    var key, first := Key(ld.va, ld.offPath), FirstByte(ld.va);
    if key !in t then None
    else if t[key].mask == {first} && first < |t[key].uops| then t[key].uops[first]
    else
      var b := Scan(t[key], ld, BYTES).0;
      if b.Some? then t[key].uops[b.value] else None
  }

  // ----- in terms of the table

  /** u is in the load's entry of the table and overlaps the load. */
  ghost predicate Tabled(h: seq<Event>, ld: Uop, u: Uop) {
    && Current(h, Key(ld.va, ld.offPath), FirstByte(u.va)) == Some(u)
    && Overlap(u.va, u.size, ld.va, ld.size)
  }

  /** Stores are not empty and have distinct numbers above 0 and below 2^32. */
  ghost predicate Numbered(h: seq<Event>) {
    && (forall i :: 0 <= i < |h| && h[i].Fetch? ==> 0 < h[i].store.num < NARROW && h[i].store.size > 0)
    && (forall i, j :: 0 <= i < |h| && 0 <= j < |h| && h[i].Fetch? && h[j].Fetch? ==>
          h[i].store.num == h[j].store.num ==> h[i].store == h[j].store)
  }

  lemma {:induction false} CurrentWasFetched(h: seq<Event>, key: nat, b: nat)
    ensures Current(h, key, b).Some? ==> exists i :: 0 <= i < |h| && h[i] == Fetch(Current(h, key, b).value)
  {
    if h != [] && Current(h, key, b).Some? {
      CurrentWasFetched(h[..|h| - 1], key, b);
      var n := |h| - 1;
      if h[n].Fetch? && StartsAt(h[n].store, key, b) {
        assert h[n] == Fetch(Current(h, key, b).value);
      } else {
        var i :| 0 <= i < n && h[..n][i] == Fetch(Current(h[..n], key, b).value);
        assert h[i] == Fetch(Current(h, key, b).value);
      }
    }
  }

  /** What is in the load's entry, in terms of the list of stores. */
  lemma EntryIsTabled(t: Table, h: seq<Event>, ld: Uop, b: nat)
    requires Agrees(t, h) && Numbered(h) && Key(ld.va, ld.offPath) in t && b < BYTES
    requires b in t[Key(ld.va, ld.offPath)].mask
    ensures var key := Key(ld.va, ld.offPath);
      && |t[key].uops| == BYTES && t[key].uops[b] == Current(h, key, b) && t[key].uops[b].Some?
      && StartsAt(t[key].uops[b].value, key, b)
      && 0 < NumAt(t[key], b) < NARROW && t[key].uops[b].value.size > 0
      && (Feeds(t[key], ld, b) <==> Tabled(h, ld, t[key].uops[b].value))
  {
    hide Key, FirstByte, Overlap;
    var key := Key(ld.va, ld.offPath);
    assert EntryOk(t[key]);
    assert Slot(t, key, b) == Current(h, key, b);
    CurrentStartsThere(h, key, b);
    CurrentWasFetched(h, key, b);
  }

  lemma SlotsDiffer(t: Table, h: seq<Event>, ld: Uop, b: nat, c: nat)
    requires Agrees(t, h) && Numbered(h) && Key(ld.va, ld.offPath) in t && b != c
    requires var e := t[Key(ld.va, ld.offPath)]; Feeds(e, ld, b) && Feeds(e, ld, c)
    ensures NumAt(t[Key(ld.va, ld.offPath)], b) != NumAt(t[Key(ld.va, ld.offPath)], c)
  {
    hide Key, FirstByte, Overlap, Current;
    var key := Key(ld.va, ld.offPath);
    assert EntryOk(t[key]);
    EntryIsTabled(t, h, ld, b);
    EntryIsTabled(t, h, ld, c);
    CurrentWasFetched(h, key, b);
    CurrentWasFetched(h, key, c);
  }

  /** Among distinct numbers some slot that feeds the load is the youngest. */
  lemma {:induction false} SomeYoungest(e: Entry, ld: Uop, n: nat) returns (m: nat)
    requires exists b :: 0 <= b < n && Feeds(e, ld, b)
    requires forall b, c :: 0 <= b < n && 0 <= c < n && b != c && Feeds(e, ld, b) && Feeds(e, ld, c) ==>
      NumAt(e, b) != NumAt(e, c)
    ensures Youngest(e, ld, m, n)
  {
    hide Feeds, NumAt;
    if exists b :: 0 <= b < n - 1 && Feeds(e, ld, b) {
      m := SomeYoungest(e, ld, n - 1);
      if Feeds(e, ld, n - 1) && NumAt(e, n - 1) > NumAt(e, m) {
        m := n - 1;
      }
    } else {
      m := n - 1;
    }
  }

  lemma TabledIsInEntry(t: Table, h: seq<Event>, ld: Uop, u: Uop)
    requires Agrees(t, h) && Tabled(h, ld, u)
    ensures Key(ld.va, ld.offPath) in t
    ensures var e, b := t[Key(ld.va, ld.offPath)], FirstByte(u.va); b < BYTES && Feeds(e, ld, b) && NumAt(e, b) == u.num
  {
    hide Key, FirstByte, Overlap, Current;
    FirstByteBound(u.va);
    assert Slot(t, Key(ld.va, ld.offPath), FirstByte(u.va)) == Some(u);
  }

  /** The short cut gives what the scan gives. */
  lemma DepIsScan(t: Table, h: seq<Event>, ld: Uop)
    requires Agrees(t, h) && Numbered(h) && ld.size > 0 && Key(ld.va, ld.offPath) in t
    ensures var e := t[Key(ld.va, ld.offPath)];
      var b := Scan(e, ld, BYTES).0;
      && |e.uops| == BYTES && DepOf(t, ld) == if b.Some? then e.uops[b.value] else None
  {
    hide Key, FirstByte, Overlap, Current, Feeds, NumAt, Scan;
    var key, first := Key(ld.va, ld.offPath), FirstByte(ld.va);
    FirstByteBound(ld.va);
    var e := t[key];
    assert EntryOk(e);
    if e.mask == {first} {
      EntryIsTabled(t, h, ld, first);
      KeyNamesTheQuadword(e.uops[first].value, ld);
      FastPathIsScan(e, ld, first);
    }
  }

  lemma ScanIsYoungest(t: Table, h: seq<Event>, ld: Uop)
    requires Agrees(t, h) && Numbered(h) && Key(ld.va, ld.offPath) in t
    requires exists b :: 0 <= b < BYTES && Feeds(t[Key(ld.va, ld.offPath)], ld, b)
    ensures var e := t[Key(ld.va, ld.offPath)];
      var m := Scan(e, ld, BYTES).0;
      && m.Some? && m.value < |e.uops| && e.uops[m.value].Some? && Tabled(h, ld, e.uops[m.value].value)
      && forall b :: 0 <= b < BYTES && Feeds(e, ld, b) ==> NumAt(e, b) <= e.uops[m.value].value.num
  {
    hide Key, FirstByte, Overlap, Current, Scan, Tabled;
    var e := t[Key(ld.va, ld.offPath)];
    forall b, c | 0 <= b < BYTES && 0 <= c < BYTES && b != c && Feeds(e, ld, b) && Feeds(e, ld, c)
      ensures NumAt(e, b) != NumAt(e, c)
    {
      SlotsDiffer(t, h, ld, b, c);
    }
    var m := SomeYoungest(e, ld, BYTES);
    EntryIsTabled(t, h, ld, m);
    ScanFindsYoungest(e, ld, m, BYTES);
  }

  /** The store a load is made to depend on is the youngest one in its entry that
      overlaps it; there is none exactly when no such store is there. */
  lemma {:induction false} DepIsYoungestTabled(t: Table, h: seq<Event>, ld: Uop)
    requires Agrees(t, h) && Numbered(h) && ld.size > 0
    ensures var d := DepOf(t, ld);
      && (d.Some? ==> Tabled(h, ld, d.value) && forall u :: Tabled(h, ld, u) ==> u.num <= d.value.num)
      && (d.None? ==> forall u :: !Tabled(h, ld, u))
  {
    hide Key, FirstByte, Overlap, Current, Feeds, NumAt, EntryOk, Youngest;
    var key, first := Key(ld.va, ld.offPath), FirstByte(ld.va);
    FirstByteBound(ld.va);
    if key !in t {
      forall u
        ensures !Tabled(h, ld, u)
      {
        FirstByteBound(u.va);
        assert Slot(t, key, FirstByte(u.va)) == Current(h, key, FirstByte(u.va));
      }
    } else {
      DepIsScan(t, h, ld);
      var e := t[key];
      forall u | Tabled(h, ld, u)
        ensures Feeds(e, ld, FirstByte(u.va)) && NumAt(e, FirstByte(u.va)) == u.num && FirstByte(u.va) < BYTES
      {
        TabledIsInEntry(t, h, ld, u);
      }
      if exists b :: 0 <= b < BYTES && Feeds(e, ld, b) {
        ScanIsYoungest(t, h, ld);
      }
    }
  }

  // ----- in terms of the stores in flight

  /** The store fetched at position i has not retired since. */
  ghost predicate UnretiredAt(h: seq<Event>, i: nat) {
    i < |h| && h[i].Fetch? && forall j :: i < j < |h| ==> h[j] != Retire(h[i].store)
  }

  ghost predicate InFlight(h: seq<Event>, u: Uop) {
    exists i: nat :: UnretiredAt(h, i) && h[i].store == u
  }

  /** The load needs data of u: a store in flight that overlaps it. */
  ghost predicate Needed(h: seq<Event>, ld: Uop, u: Uop) {
    InFlight(h, u) && Overlap(u.va, u.size, ld.va, ld.size)
  }

  ghost predicate YoungestNeeded(h: seq<Event>, ld: Uop, y: Uop) {
    Needed(h, ld, y) && forall u :: Needed(h, ld, u) ==> u.num <= y.num
  }

  /** u starts in the quadword in which the load starts, is on the load's path, and no
      later store to its address on that path has been fetched. */
  ghost predicate Visible(h: seq<Event>, ld: Uop, u: Uop) {
    && u.va / 8 == ld.va / 8 && u.offPath == ld.offPath
    && exists i: nat :: UnretiredAt(h, i) && h[i].store == u && LastAt(h, i)
  }

  ghost predicate LastAt(h: seq<Event>, i: nat)
    requires i < |h|
  {
    forall j :: i < j < |h| && h[j].Fetch? ==>
      !(h[j].store.va == h[i].store.va && h[j].store.offPath == h[i].store.offPath)
  }

  /** The right answer for a load: the youngest store it needs, or none. */
  ghost predicate Right(h: seq<Event>, ld: Uop, dep: Option<Uop>) {
    match dep
    case None => forall u :: !Needed(h, ld, u)
    case Some(y) => YoungestNeeded(h, ld, y)
  }

  lemma SameKey(u: Uop, ld: Uop)
    ensures StartsAt(u, Key(ld.va, ld.offPath), FirstByte(u.va)) <==> u.va / 8 == ld.va / 8 && u.offPath == ld.offPath
  {
  }

  lemma SameSlot(u: Uop, v: Uop, key: nat, b: nat)
    requires StartsAt(u, key, b)
    ensures StartsAt(v, key, b) <==> v.va == u.va && v.offPath == u.offPath
  {
    KeyNamesTheQuadword(u, v);
  }

  /** What is in the table is exactly what is in flight and visible. */
  lemma {:induction false} TabledIsVisible(h: seq<Event>, ld: Uop, u: Uop)
    ensures Tabled(h, ld, u) <==> Needed(h, ld, u) && Visible(h, ld, u)
  {
    hide Overlap, StartsAt, Current, Key, FirstByte;
    var key, b := Key(ld.va, ld.offPath), FirstByte(u.va);
    SameKey(u, ld);
    CurrentIsLatestUnretired(h, key, b, u);
    if i: nat :| LatestUnretired(h, key, b, i) && h[i].store == u {
      LatestIsLast(h, key, b, i);
    }
    if u.va / 8 == ld.va / 8 && u.offPath == ld.offPath {
      if i: nat :| UnretiredAt(h, i) && h[i].store == u && LastAt(h, i) {
        LatestIsLast(h, key, b, i);
      }
    }
  }

  lemma LatestIsLast(h: seq<Event>, key: nat, b: nat, i: nat)
    requires i < |h| && h[i].Fetch? && StartsAt(h[i].store, key, b)
    ensures LatestUnretired(h, key, b, i) <==> UnretiredAt(h, i) && LastAt(h, i)
  {
    hide StartsAt;
    forall j | i < j < |h| && h[j].Fetch?
      ensures StartsAt(h[j].store, key, b) <==>
        h[j].store.va == h[i].store.va && h[j].store.offPath == h[i].store.offPath
    {
      SameSlot(h[i].store, h[j].store, key, b);
    }
  }

  /** Among the stores of the first n events that the load needs one is the youngest. */
  lemma {:induction false} SomeYoungestNeeded(h: seq<Event>, ld: Uop, n: nat) returns (y: Option<nat>)
    requires n <= |h|
    ensures y.Some? ==> y.value < n && Wanted(h, ld, y.value)
    ensures y.Some? ==> forall i :: 0 <= i < n && Wanted(h, ld, i) ==> h[i].store.num <= h[y.value].store.num
    ensures y.None? ==> forall i :: 0 <= i < n ==> !Wanted(h, ld, i)
  {
    hide Overlap;
    y := None;
    if n > 0 {
      y := SomeYoungestNeeded(h, ld, n - 1);
      if Wanted(h, ld, n - 1) && (y.None? || h[y.value].store.num < h[n - 1].store.num) {
        y := Some(n - 1);
      }
    }
  }

  ghost predicate Wanted(h: seq<Event>, ld: Uop, i: nat) {
    UnretiredAt(h, i) && Overlap(h[i].store.va, h[i].store.size, ld.va, ld.size)
  }

  lemma NeededIsWanted(h: seq<Event>, ld: Uop, u: Uop)
    ensures Needed(h, ld, u) <==> exists i: nat :: Wanted(h, ld, i) && h[i].store == u
  {
    hide Overlap;
    if Needed(h, ld, u) {
      var i: nat :| UnretiredAt(h, i) && h[i].store == u;
      assert Wanted(h, ld, i);
    }
    if i: nat :| Wanted(h, ld, i) && h[i].store == u {
      assert UnretiredAt(h, i);
    }
  }

  lemma YoungestExists(h: seq<Event>, ld: Uop, u: Uop) returns (y: Uop)
    requires Needed(h, ld, u)
    ensures YoungestNeeded(h, ld, y)
  {
    hide Overlap, Needed, Wanted;
    NeededIsWanted(h, ld, u);
    var k := SomeYoungestNeeded(h, ld, |h|);
    forall i: nat | Wanted(h, ld, i)
      ensures i < |h|
    {
      WantedIsIndex(h, ld, i);
    }
    y := h[k.value].store;
    NeededIsWanted(h, ld, y);
    forall v | Needed(h, ld, v)
      ensures v.num <= y.num
    {
      NeededIsWanted(h, ld, v);
    }
  }

  lemma WantedIsIndex(h: seq<Event>, ld: Uop, i: nat)
    requires Wanted(h, ld, i)
    ensures i < |h| && h[i].Fetch?
  {
  }

  lemma SameNumber(h: seq<Event>, ld: Uop, u: Uop, v: Uop)
    requires Numbered(h) && Needed(h, ld, u) && Needed(h, ld, v) && u.num == v.num
    ensures u == v
  {
  }

  /** The dependence found is the youngest store needed exactly when that one is visible. */
  lemma {:induction false} YoungestIsFoundIffVisible(t: Table, h: seq<Event>, ld: Uop, y: Uop)
    requires Agrees(t, h) && Numbered(h) && ld.size > 0 && YoungestNeeded(h, ld, y)
    ensures DepOf(t, ld) == Some(y) <==> Visible(h, ld, y)
  {
    hide Agrees, Numbered, DepOf, Tabled, Needed, Visible;
    DepIsYoungestTabled(t, h, ld);
    TabledIsVisible(h, ld, y);
    var d := DepOf(t, ld);
    if d.Some? {
      TabledIsVisible(h, ld, d.value);
      if Visible(h, ld, y) {
        SameNumber(h, ld, y, d.value);
      }
    }
  }

  /** Over every history of fetched and retired stores: the answer for a load is right
      if and only if the youngest store it needs, if it needs any, starts in the load's
      quadword, is on its path and has not been hidden by a later store to its address. */
  lemma {:induction false} DepIsRightIffVisible(t: Table, h: seq<Event>, ld: Uop)
    requires Agrees(t, h) && Numbered(h) && ld.size > 0
    ensures Right(h, ld, DepOf(t, ld)) <==> forall y :: YoungestNeeded(h, ld, y) ==> Visible(h, ld, y)
  {
    hide Agrees, Numbered, DepOf, Tabled, Needed, Visible;
    var d := DepOf(t, ld);
    DepIsYoungestTabled(t, h, ld);
    forall y | YoungestNeeded(h, ld, y)
      ensures d == Some(y) <==> Visible(h, ld, y)
    {
      YoungestIsFoundIffVisible(t, h, ld, y);
    }
    if Right(h, ld, d) {
      forall y | YoungestNeeded(h, ld, y)
        ensures Visible(h, ld, y)
      {
        if d.Some? {
          SameNumber(h, ld, y, d.value);
        }
      }
    } else if forall y :: YoungestNeeded(h, ld, y) ==> Visible(h, ld, y) {
      if u :| Needed(h, ld, u) {
        var y := YoungestExists(h, ld, u);
      } else {
        TabledIsVisible(h, ld, d.value);
      }
    }
  }

  /** None is found exactly when no store needed is visible. */
  lemma {:induction false} NothingFoundIff(t: Table, h: seq<Event>, ld: Uop)
    requires Agrees(t, h) && Numbered(h) && ld.size > 0
    ensures DepOf(t, ld) == None <==> forall u :: Needed(h, ld, u) ==> !Visible(h, ld, u)
  {
    hide Agrees, Numbered, DepOf, Tabled, Needed, Visible;
    DepIsYoungestTabled(t, h, ld);
    forall u
      ensures Tabled(h, ld, u) <==> Needed(h, ld, u) && Visible(h, ld, u)
    {
      TabledIsVisible(h, ld, u);
    }
  }

  // ----- one input for each way to miss a store

  /** A store is overlooked: the load needs it and finds none. */
  ghost predicate Overlooked(t: Table, h: seq<Event>, ld: Uop, u: Uop) {
    Needed(h, ld, u) && DepOf(t, ld) == None
  }

  lemma SingleStore(u: Uop, ld: Uop, t: Table)
    requires Agrees(t, [Fetch(u)]) && 0 < u.num < NARROW && u.size > 0 && ld.size > 0
    requires Overlap(u.va, u.size, ld.va, ld.size)
    ensures Overlooked(t, [Fetch(u)], ld, u) <==> !(u.va / 8 == ld.va / 8 && u.offPath == ld.offPath)
  {
    var h := [Fetch(u)];
    assert UnretiredAt(h, 0) && h[0].store == u && LastAt(h, 0);
    NothingFoundIff(t, h, ld);
    assert forall v :: InFlight(h, v) ==> v == u;
  }

  /** A store that reaches into the load's quadword from the one before. */
  lemma {:induction false} SpillingStoreIsNotFound(t: Table)
    requires Agrees(t, [Fetch(Uop(1, 4, 8, false))])
    ensures Overlooked(t, [Fetch(Uop(1, 4, 8, false))], Uop(2, 8, 4, false), Uop(1, 4, 8, false))
  {
    SingleStore(Uop(1, 4, 8, false), Uop(2, 8, 4, false), t);
  }

  /** A load that reaches into the store's quadword from the one before. */
  lemma {:induction false} SpillingLoadFindsNothing(t: Table)
    requires Agrees(t, [Fetch(Uop(1, 8, 4, false))])
    ensures Overlooked(t, [Fetch(Uop(1, 8, 4, false))], Uop(2, 6, 4, false), Uop(1, 8, 4, false))
  {
    SingleStore(Uop(1, 8, 4, false), Uop(2, 6, 4, false), t);
  }

  /** A load off the path does not see the store on the path it came from. */
  lemma {:induction false} OffPathLoadFindsNothing(t: Table)
    requires Agrees(t, [Fetch(Uop(1, 0, 4, false))])
    ensures Overlooked(t, [Fetch(Uop(1, 0, 4, false))], Uop(2, 0, 4, true), Uop(1, 0, 4, false))
  {
    SingleStore(Uop(1, 0, 4, false), Uop(2, 0, 4, true), t);
  }

  /** A store hidden by a later, shorter one to the same address. */
  lemma {:induction false} HiddenStoreIsNotFound(t: Table)
    requires Agrees(t, [Fetch(Uop(1, 0, 8, false)), Fetch(Uop(2, 0, 4, false))])
    ensures Overlooked(t, [Fetch(Uop(1, 0, 8, false)), Fetch(Uop(2, 0, 4, false))], Uop(3, 4, 4, false),
                       Uop(1, 0, 8, false))
  {
    var h := [Fetch(Uop(1, 0, 8, false)), Fetch(Uop(2, 0, 4, false))];
    var ld := Uop(3, 4, 4, false);
    NothingFoundIff(t, h, ld);
    assert UnretiredAt(h, 0) && h[0].store == Uop(1, 0, 8, false);
    assert h[1].Fetch? && h[1].store.va == h[0].store.va;
    forall u | Needed(h, ld, u)
      ensures !Visible(h, ld, u)
    {
      assert u == h[0].store;
      assert !LastAt(h, 0);
    }
  }
}
