/** Miss status holding registers as values: the lists of entries, the forest of merged
    requests, and what completing, flushing and issuing requests does to them. */
module MshrForest {
  import opened Lists

  datatype Kind = Demand | Prefetch

  /** mem_req_s as the miss handling sees it; requests are named by their slot. */
  datatype Req = Req(
    id: nat, core: nat, kind: Kind, addr: nat, size: nat,
    parent: Option<nat>,  // m_merged_req
    merge: seq<nat>)      // m_merge

  /** mem_req_s::init */
  const BLANK := Req(0, 0, Demand, 0, 0, None, [])

  /** The request covers the given range. */
  predicate Covers(r: Req, addr: nat, size: nat) {
    r.addr <= addr && addr + size <= r.addr + r.size
  }

  // ----- the lists of live and free entries

  /** The lists after free_req(core, s). */
  function FreeLists(live: seq<seq<nat>>, free: seq<seq<nat>>, core: nat, s: nat): (seq<seq<nat>>, seq<seq<nat>>)
    requires core < |live| == |free|
  {
    (live[core := Without(live[core], [s])], free[core := free[core] + [s]])
  }

  predicate On(lists: seq<seq<nat>>, c: nat, s: nat) {
    c < |lists| && s in lists[c]
  }

  /** Each entry is on exactly one list, live or free, of the core it belongs to. */
  ghost predicate Partition(owner: seq<nat>, live: seq<seq<nat>>, free: seq<seq<nat>>) {
    && |live| == |free|
    && (forall c :: 0 <= c < |live| ==> NoDup(live[c]) && NoDup(free[c]))
    && (forall c: nat, s: nat :: On(live, c, s) || On(free, c, s) ==> s < |owner| && owner[s] == c)
    && (forall s: nat :: s < |owner| ==> owner[s] < |live| && (On(live, owner[s], s) <==> !On(free, owner[s], s)))
  }

  /** Freeing an entry on behalf of a core keeps the partition exactly when it is
      the core whose list the entry is on. After a promotion by another core the
      request carries that core's number, and free_req leaves the entry live on
      one list and free on the other. */
  lemma {:induction false} FreeKeepsPartition(owner: seq<nat>, live: seq<seq<nat>>, free: seq<seq<nat>>, core: nat,
                                              s: nat)
    requires Partition(owner, live, free) && s < |owner| && On(live, owner[s], s) && core < |live|
    ensures var (l, f) := FreeLists(live, free, core, s);
      && (Partition(owner, l, f) <==> core == owner[s])
      && (core != owner[s] ==> On(l, owner[s], s) && On(f, core, s))
  {
    var (l, f) := FreeLists(live, free, core, s);
    forall c: nat, x: nat
      ensures On(l, c, x) <==> On(live, c, x) && !(c == core && x == s)
      ensures On(f, c, x) <==> On(free, c, x) || (c == core && x == s)
    {
    }
    if core == owner[s] {
      WithoutOne(live[core], s);
      NoDupAppend(free[core], [s]);
      assert Partition(owner, l, f);
    } else {
      assert On(f, core, s);
    }
  }

  /** allocate_new_entry: the last free entry of the core becomes its last live one. */
  lemma {:induction false} AllocateKeepsPartition(owner: seq<nat>, live: seq<seq<nat>>, free: seq<seq<nat>>, core: nat)
    requires Partition(owner, live, free) && core < |live| && free[core] != []
    ensures var s := free[core][|free[core]| - 1];
      var l, f := live[core := live[core] + [s]], free[core := free[core][..|free[core]| - 1]];
      && s < |owner| && owner[s] == core && !On(live, core, s) && Partition(owner, l, f)
      && forall x: nat :: x < |owner| ==> (On(l, owner[x], x) <==> On(live, owner[x], x) || x == s)
  {
    var n := |free[core]| - 1;
    var s := free[core][n];
    var l, f := live[core := live[core] + [s]], free[core := free[core][..n]];
    assert free[core] == free[core][..n] + [s];
    assert On(free, core, s);
    NoDupSplit(free[core][..n], [s]);
    NoDupAppend(live[core], [s]);
    forall c: nat, x: nat
      ensures On(l, c, x) <==> On(live, c, x) || (c == core && x == s)
      ensures On(f, c, x) <==> On(free, c, x) && !(c == core && x == s)
    {
    }
  }

  /** The constructor's next list of entries, numbered after the earlier ones. */
  lemma ListAdded(earlier: seq<nat>, owners: seq<nat>, none: seq<seq<nat>>, lists: seq<seq<nat>>, list: seq<nat>)
    requires Partition(earlier, none, lists) && |owners| == |earlier| + |list| && owners[..|earlier|] == earlier
    requires forall d :: 0 <= d < |none| ==> none[d] == []
    requires forall k :: 0 <= k < |list| ==> list[k] == |earlier| + k
    requires forall s :: |earlier| <= s < |owners| ==> owners[s] == |lists|
    ensures Partition(owners, none + [[]], lists + [list])
  {
    var c := |lists|;
    var n, l := none + [[]], lists + [list];
    forall d: nat, s: nat
      ensures !On(n, d, s)
      ensures On(l, d, s) <==> On(lists, d, s) || (d == c && |earlier| <= s < |owners|)
    {
      if d == c && |earlier| <= s < |owners| {
        assert list[s - |earlier|] == s;
      }
    }
    forall s | 0 <= s < |earlier|
      ensures owners[s] == earlier[s]
    {
      assert owners[..|earlier|][s] == earlier[s];
    }
    assert forall d :: 0 <= d < |lists| ==> l[d] == lists[d];
  }

  // ----- the merge forest

  /** Merged requests hang below the request they were merged into, which was
      issued earlier; prefetches neither merge nor are merged into. */
  ghost predicate Forest(reqs: seq<Req>, live: set<nat>) {
    && (forall s :: s in live ==> s < |reqs|)
    && Distinct(reqs, live) && Parents(reqs, live) && Merges(reqs, live)
  }

  ghost predicate Distinct(reqs: seq<Req>, live: set<nat>)
    requires forall s :: s in live ==> s < |reqs|
  {
    && (forall s, t :: s in live && t in live && s != t ==> reqs[s].id != reqs[t].id)
    && (forall s :: s in live ==> NoDup(reqs[s].merge))
    && (forall s :: s in live && reqs[s].kind == Prefetch ==> reqs[s].parent == None && reqs[s].merge == [])
  }

  ghost predicate Parents(reqs: seq<Req>, live: set<nat>)
    requires forall s :: s in live ==> s < |reqs|
  {
    forall s :: s in live && reqs[s].parent.Some? ==>
      reqs[s].parent.value in live && s in reqs[reqs[s].parent.value].merge
  }

  ghost predicate Merges(reqs: seq<Req>, live: set<nat>)
    requires forall s :: s in live ==> s < |reqs|
  {
    forall s, c :: s in live && c in reqs[s].merge ==> c in live && MergedInto(reqs[c], reqs[s], s)
  }

  /** The request r is merged into the older request p of slot s, which covers it. */
  predicate MergedInto(r: Req, p: Req, s: nat) {
    r.parent == Some(s) && p.id < r.id && Covers(p, r.addr, r.size)
  }

  /** x is r or hangs somewhere below it. */
  ghost predicate Under(reqs: seq<Req>, x: nat, r: nat)
    decreases if x < |reqs| then reqs[x].id else 0
  {
    x < |reqs| && (x == r ||
      (reqs[x].parent.Some? && reqs[x].parent.value < |reqs| && reqs[reqs[x].parent.value].id < reqs[x].id &&
       Under(reqs, reqs[x].parent.value, r)))
  }

  lemma {:induction false} UnderIsYounger(reqs: seq<Req>, x: nat, r: nat)
    requires Under(reqs, x, r) && r < |reqs|
    ensures reqs[r].id <= reqs[x].id && (x != r ==> reqs[r].id < reqs[x].id)
    decreases if x < |reqs| then reqs[x].id else 0
  {
    if x != r {
      UnderIsYounger(reqs, reqs[x].parent.value, r);
    }
  }

  lemma {:induction false} UnderTrans(reqs: seq<Req>, x: nat, c: nat, r: nat)
    requires Under(reqs, x, c) && Under(reqs, c, r)
    ensures Under(reqs, x, r)
    decreases if x < |reqs| then reqs[x].id else 0
  {
    if x != c {
      UnderTrans(reqs, reqs[x].parent.value, c, r);
    }
  }

  /** The bytes of a merged request are among those of every request above it. */
  lemma {:induction false} UnderIsCovered(reqs: seq<Req>, live: set<nat>, x: nat, r: nat)
    requires Forest(reqs, live) && x in live && Under(reqs, x, r)
    ensures r in live && Covers(reqs[r], reqs[x].addr, reqs[x].size)
    decreases reqs[x].id
  {
    if x != r {
      var p := reqs[x].parent.value;
      assert x in reqs[p].merge;
      UnderIsCovered(reqs, live, p, r);
    }
  }

  /** Different children of one request have nothing in common below them. */
  lemma SiblingsApart(reqs: seq<Req>, live: set<nat>, r: nat, c: nat, d: nat)
    requires Forest(reqs, live) && r in live && c in reqs[r].merge && d in reqs[r].merge && c != d
    ensures !Under(reqs, d, c) && !Under(reqs, r, c) && Under(reqs, c, r) && d in live && d < |reqs|
  {
    if Under(reqs, r, c) {
      UnderIsYounger(reqs, r, c);
    }
    assert Under(reqs, r, r);
  }

  lemma ChildIsUnder(reqs: seq<Req>, live: set<nat>, r: nat, c: nat)
    requires Forest(reqs, live) && r in live && c in reqs[r].merge
    ensures c in live && Under(reqs, c, r) && !Under(reqs, r, c)
  {
    assert Under(reqs, r, r);
    if Under(reqs, r, c) {
      UnderIsYounger(reqs, r, c);
    }
  }

  /** Only the merge lists differ. */
  predicate SameButMerge(a: Req, b: Req) {
    a.(merge := []) == b.(merge := [])
  }

  /** What completing below r may change: requests under r may be freed or lose
      merged requests; everything else is as before. */
  ghost predicate ChangedBelow(reqs: seq<Req>, live: set<nat>, reqs': seq<Req>, live': set<nat>, r: nat) {
    && |reqs'| == |reqs| && live' <= live && r in live'
    && (forall x :: x in live' ==> x < |reqs| && SameButMerge(reqs[x], reqs'[x]))
    && (forall x :: x in live && !Under(reqs, x, r) ==> x in live' && reqs'[x] == reqs[x])
  }

  // ----- every request is accounted for

  /** Each issued request is live, or was completed, or was flushed; the completed
      and flushed ones are so exactly once. `limbo` are the live requests whose
      completion is done and whose entry is about to be freed. */
  ghost predicate Accounts(reqs: seq<Req>, live: set<nat>, issued: set<nat>, finished: seq<nat>, flushed: seq<nat>,
                           limbo: set<nat>) {
    && (forall s :: s in live ==> s < |reqs|)
    && NoDup(finished + flushed)
    && (forall i :: i in finished || i in flushed ==> i in issued)
    && (forall i :: i in issued ==> i in finished || i in flushed || exists s :: s in live && reqs[s].id == i)
    && limbo <= live
    && (forall s :: s in live ==> reqs[s].id in issued && reqs[s].id !in flushed)
    && (forall s :: s in live ==> (reqs[s].id in finished <==> s in limbo))
  }

  lemma FinishAccounts(reqs: seq<Req>, live: set<nat>, issued: set<nat>, finished: seq<nat>, flushed: seq<nat>,
                       limbo: set<nat>, r: nat)
    requires Accounts(reqs, live, issued, finished, flushed, limbo) && Forest(reqs, live) && r in live && r !in limbo
    ensures Accounts(reqs, live, issued, finished + [reqs[r].id], flushed, limbo + {r})
  {
    var f := finished + [reqs[r].id];
    assert forall i :: i in f <==> i in finished || i == reqs[r].id;
    NoDupSplit(finished, flushed);
    NoDupAppend(finished, [reqs[r].id]);
    NoDupAppend(f, flushed);
  }

  lemma NoDupSplit<T>(a: seq<T>, b: seq<T>)
    requires NoDup(a + b)
    ensures NoDup(a) && NoDup(b) && forall x :: x in a ==> x !in b
  {
    assert forall i :: 0 <= i < |a| ==> (a + b)[i] == a[i];
    assert forall i :: 0 <= i < |b| ==> (a + b)[|a| + i] == b[i];
  }

  /** Freeing an entry whose completion is done. */
  lemma FreeAccounts(reqs: seq<Req>, live: set<nat>, issued: set<nat>, finished: seq<nat>, flushed: seq<nat>,
                     limbo: set<nat>, reqs': seq<Req>, r: nat)
    requires Accounts(reqs, live, issued, finished, flushed, limbo) && r in limbo && |reqs'| == |reqs|
    requires forall x :: x in live && x != r ==> reqs'[x].id == reqs[x].id
    ensures Accounts(reqs', live - {r}, issued, finished, flushed, limbo - {r})
  {
    forall i | i in issued
      ensures i in finished || i in flushed || exists s :: s in live - {r} && reqs'[s].id == i
    {
      if i !in finished && i !in flushed {
        var s :| s in live && reqs[s].id == i;
        assert s in live - {r} && reqs'[s].id == i;
      }
    }
  }

  // ----- freeing an entry keeps the forest

  /** The entries after c has left the merge list of r and has been freed. */
  function Released(reqs: seq<Req>, r: nat, c: nat): seq<Req>
    requires r < |reqs| && c < |reqs|
  {
    reqs[r := reqs[r].(merge := Without(reqs[r].merge, [c]))][c := BLANK]
  }

  lemma ReleasedEntries(reqs: seq<Req>, r: nat, c: nat, x: nat)
    requires r < |reqs| && c < |reqs| && c != r && x < |reqs| && x != c && NoDup(reqs[r].merge) && c in reqs[r].merge
    ensures SameButMerge(reqs[x], Released(reqs, r, c)[x])
    ensures forall d :: d in Released(reqs, r, c)[x].merge <==> d in reqs[x].merge && !(x == r && d == c)
    ensures NoDup(reqs[x].merge) ==> NoDup(Released(reqs, r, c)[x].merge)
    ensures reqs[x].merge == [] ==> Released(reqs, r, c)[x].merge == []
  {
    if x == r {
      WithoutOne(reqs[r].merge, c);
    }
  }

  /** A merged request without merged requests of its own leaves its parent. */
  lemma ForestRelease(reqs: seq<Req>, live: set<nat>, r: nat, c: nat)
    requires Forest(reqs, live) && r in live && c in live && c in reqs[r].merge && reqs[c].merge == []
    ensures c != r && Forest(Released(reqs, r, c), live - {c})
  {
    var reqs' := Released(reqs, r, c);
    forall x | x in live - {c}
      ensures SameButMerge(reqs[x], reqs'[x])
      ensures forall d :: d in reqs'[x].merge <==> d in reqs[x].merge && !(x == r && d == c)
      ensures NoDup(reqs'[x].merge) && (reqs[x].merge == [] ==> reqs'[x].merge == [])
    {
      ReleasedEntries(reqs, r, c, x);
    }
    hide Released;
    forall s, d | s in live - {c} && d in reqs'[s].merge
      ensures d in live - {c} && MergedInto(reqs'[d], reqs'[s], s)
    {
      assert d in reqs[s].merge;
    }
  }

  /** A request that is not merged and has none merged can be freed. */
  lemma ForestFreeRoot(reqs: seq<Req>, live: set<nat>, s: nat)
    requires Forest(reqs, live) && s in live && reqs[s].parent == None && reqs[s].merge == []
    ensures Forest(reqs[s := BLANK], live - {s})
  {
    var reqs' := reqs[s := BLANK];
    assert forall x :: x in live - {s} ==> reqs'[x] == reqs[x];
    forall x, d | x in live - {s} && d in reqs'[x].merge
      ensures d in live - {s} && MergedInto(reqs'[d], reqs'[x], x)
    {
      assert d in reqs[x].merge;
    }
  }

  /** The relation "under" depends on parents and ids only. */
  lemma {:induction false} UnderStable(reqs: seq<Req>, reqs': seq<Req>, live': set<nat>, x: nat, r: nat)
    requires |reqs| == |reqs'| && Forest(reqs', live') && x in live'
    requires forall y :: y in live' ==> SameButMerge(reqs[y], reqs'[y])
    ensures Under(reqs, x, r) <==> Under(reqs', x, r)
    decreases reqs'[x].id
  {
    if x != r && reqs'[x].parent.Some? {
      var p := reqs'[x].parent.value;
      assert x in reqs'[p].merge;
      UnderStable(reqs, reqs', live', p, r);
    }
  }

  /** Everything below r hangs below one of its merged requests. */
  lemma {:induction false} UnderAChild(reqs: seq<Req>, live: set<nat>, x: nat, r: nat) returns (c: nat)
    requires Forest(reqs, live) && x in live && r in live && Under(reqs, x, r) && x != r
    ensures c in reqs[r].merge && Under(reqs, x, c)
    decreases reqs[x].id
  {
    var p := reqs[x].parent.value;
    assert x in reqs[p].merge;
    if p == r {
      c := x;
    } else {
      c := UnderAChild(reqs, live, p, r);
    }
  }

  // ----- completion below a request, step by step

  /** The requests under c are as they were. */
  ghost predicate Untouched(reqs: seq<Req>, live: set<nat>, reqs': seq<Req>, live': set<nat>, c: nat)
    requires |reqs| == |reqs'|
  {
    forall x :: x in live && Under(reqs, x, c) ==> x in live' && x < |reqs| && reqs'[x] == reqs[x]
  }

  /** Completing below the child c changes r's tree only below c. */
  lemma ComposeChanges(a: seq<Req>, la: set<nat>, b: seq<Req>, lb: set<nat>, d: seq<Req>, ld: set<nat>, r: nat, c: nat)
    requires Forest(a, la) && Forest(b, lb) && r in la && r in lb && c in b[r].merge
    requires ChangedBelow(a, la, b, lb, r) && ChangedBelow(b, lb, d, ld, c)
    ensures ChangedBelow(a, la, d, ld, r) && d[r] == b[r]
  {
    ChildIsUnder(b, lb, r, c);
    hide Forest;
    forall x | x in la && !Under(a, x, r)
      ensures x in ld && d[x] == a[x]
    {
      assert x in lb && b[x] == a[x];
      UnderStable(a, b, lb, x, r);
      if Under(b, x, c) {
        UnderTrans(b, x, c, r);
      }
    }
  }

  /** A sibling's tree survives the completion below c. */
  lemma SiblingUntouched(a: seq<Req>, la: set<nat>, b: seq<Req>, lb: set<nat>, d: seq<Req>, ld: set<nat>, r: nat,
                         c: nat, e: nat)
    requires Forest(a, la) && Forest(b, lb) && ChangedBelow(a, la, b, lb, r) && ChangedBelow(b, lb, d, ld, c)
    requires r in lb && c in b[r].merge && e in b[r].merge && c != e && Untouched(a, la, b, lb, e)
    ensures Untouched(a, la, d, ld, e)
  {
    forall x | x in la && Under(a, x, e)
      ensures x in ld && x < |a| && d[x] == a[x]
    {
      assert x in lb && b[x] == a[x];
      UnderStable(a, b, lb, x, e);
      if Under(b, x, c) {
        NoCommonDescendant(b, lb, r, c, e, x);
      }
    }
  }

  lemma {:induction false} NoCommonDescendant(reqs: seq<Req>, live: set<nat>, r: nat, c: nat, e: nat, x: nat)
    requires Forest(reqs, live) && r in live && c in reqs[r].merge && e in reqs[r].merge && c != e && x in live
    requires Under(reqs, x, c) && Under(reqs, x, e)
    ensures false
    decreases reqs[x].id
  {
    SiblingsApart(reqs, live, r, c, e);
    SiblingsApart(reqs, live, r, e, c);
    var p := reqs[x].parent.value;
    assert x in reqs[p].merge;
    NoCommonDescendant(reqs, live, r, c, e, p);
  }

  /** Every request under r, including r, is accepted by its cache. */
  ghost predicate AllAccepted(reqs: seq<Req>, live: set<nat>, r: nat, accept: nat -> bool) {
    forall x :: x in live && x < |reqs| && Under(reqs, x, r) ==> accept(reqs[x].id)
  }

  /** Of the requests below r those have gone of which none below is refused. */
  ghost predicate Pruned(reqs: seq<Req>, live: set<nat>, live': set<nat>, r: nat, accept: nat -> bool) {
    forall x :: x in live && Under(reqs, x, r) && x != r ==> (x in live' <==> !AllAccepted(reqs, live, x, accept))
  }

  lemma AcceptedUntouched(a: seq<Req>, la: set<nat>, b: seq<Req>, lb: set<nat>, c: nat, accept: nat -> bool)
    requires |a| == |b| && Forest(a, la) && Forest(b, lb) && lb <= la && Untouched(a, la, b, lb, c)
    requires forall y :: y in lb ==> SameButMerge(a[y], b[y])
    ensures AllAccepted(a, la, c, accept) <==> AllAccepted(b, lb, c, accept)
  {
    forall x | x in lb
      ensures Under(a, x, c) <==> Under(b, x, c)
    {
      UnderStable(a, b, lb, x, c);
    }
  }

  lemma {:induction false} AcceptedByChildren(reqs: seq<Req>, live: set<nat>, r: nat, accept: nat -> bool)
    requires Forest(reqs, live) && r in live
    ensures AllAccepted(reqs, live, r, accept) <==>
      accept(reqs[r].id) && forall c :: c in reqs[r].merge ==> AllAccepted(reqs, live, c, accept)
  {
    forall c, x | c in reqs[r].merge && Under(reqs, x, c)
      ensures Under(reqs, x, r)
    {
      assert Under(reqs, r, r) && Under(reqs, c, r);
      UnderTrans(reqs, x, c, r);
    }
    forall x | x in live && Under(reqs, x, r) && x != r
      ensures exists c :: c in reqs[r].merge && Under(reqs, x, c)
    {
      var c := UnderAChild(reqs, live, x, r);
    }
  }

  lemma ReleaseKeeps(reqs: seq<Req>, live: set<nat>, issued: set<nat>, finished: seq<nat>, flushed: seq<nat>,
                     limbo: set<nat>, r: nat, c: nat)
    requires Accounts(reqs, live, issued, finished, flushed, limbo) && Forest(reqs, live)
    requires r in live && c in reqs[r].merge && c in limbo && reqs[c].merge == []
    ensures c != r && c in live && r < |reqs| && c < |reqs| && Forest(Released(reqs, r, c), live - {c})
    ensures Accounts(Released(reqs, r, c), live - {c}, issued, finished, flushed, limbo - {c})
  {
    ForestRelease(reqs, live, r, c);
    var after := Released(reqs, r, c);
    assert forall x :: x in live && x != c ==> after[x].id == reqs[x].id;
    hide Forest, Released, Accounts;
    FreeAccounts(reqs, live, issued, finished, flushed, limbo, after, c);
  }

  ghost function Members(s: seq<nat>): set<nat> {
    set x | x in s
  }

  /** The state b of completing the merged requests of r, the first i tried, when
      it was a at the start: `done` are those among them that completed. */
  ghost predicate Progress(a: seq<Req>, la: set<nat>, b: seq<Req>, lb: set<nat>, r: nat, i: nat, done: seq<nat>,
                           accept: nat -> bool) {
    && r in la && r < |a| && i <= |a[r].merge|
    && ChangedBelow(a, la, b, lb, r) && b[r] == a[r]
    && NoDup(done) && (forall x :: x in done ==> x in a[r].merge[..i])
    && (forall k :: 0 <= k < i ==> (a[r].merge[k] in done <==> AllAccepted(a, la, a[r].merge[k], accept)))
    && (forall x :: x in done ==> x < |b| && b[x].merge == [])
    && (forall k :: i <= k < |a[r].merge| ==> Untouched(a, la, b, lb, a[r].merge[k]))
    && (forall k :: 0 <= k < i ==> Pruned(a, la, lb, a[r].merge[k], accept))
  }

  lemma ProgressStart(a: seq<Req>, la: set<nat>, r: nat, accept: nat -> bool)
    requires Forest(a, la) && r in la
    ensures Progress(a, la, a, la, r, 0, [], accept)
  {
  }

  /** Completed requests waiting to be freed are not below the next one to try. */
  lemma LimboApart(a: seq<Req>, la: set<nat>, b: seq<Req>, lb: set<nat>, r: nat, i: nat, done: seq<nat>,
                   accept: nat -> bool, limbo: set<nat>)
    requires Forest(a, la) && Forest(b, lb) && Progress(a, la, b, lb, r, i, done, accept) && i < |a[r].merge|
    requires limbo <= lb && forall x :: x in limbo ==> !Under(a, x, r)
    ensures forall x :: x in limbo + Members(done) ==> !Under(b, x, a[r].merge[i])
  {
    var c := a[r].merge[i];
    forall x | x in limbo + Members(done)
      ensures !Under(b, x, c)
    {
      if x in done {
        assert x != c by {
          assert NoDup(a[r].merge);
        }
        SiblingsApart(b, lb, r, c, x);
      } else if Under(b, x, c) {
        ChildIsUnder(b, lb, r, c);
        UnderTrans(b, x, c, r);
        UnderStable(a, b, lb, x, r);
      }
    }
  }

  /** One more merged request tried. */
  lemma ProgressStep(a: seq<Req>, la: set<nat>, b: seq<Req>, lb: set<nat>, d: seq<Req>, ld: set<nat>, r: nat, i: nat,
                     done: seq<nat>, accept: nat -> bool, ok: bool)
    requires Forest(a, la) && Forest(b, lb) && Progress(a, la, b, lb, r, i, done, accept) && i < |a[r].merge|
    requires ChangedBelow(b, lb, d, ld, a[r].merge[i])
    requires (ok <==> AllAccepted(b, lb, a[r].merge[i], accept)) && (ok ==> d[a[r].merge[i]].merge == [])
    requires Pruned(b, lb, ld, a[r].merge[i], accept)
    ensures Progress(a, la, d, ld, r, i + 1, if ok then done + [a[r].merge[i]] else done, accept)
  {
    hide Forest, AllAccepted, Untouched, NoDup, Pruned;
    var m := a[r].merge;
    var c := m[i];
    var done' := if ok then done + [c] else done;
    MergedOnce(a, la, r, i);
    ComposeChanges(a, la, b, lb, d, ld, r, c);
    AcceptedUntouched(a, la, b, lb, c, accept);
    StepDone(b, lb, d, ld, r, c, done);
    StepSiblings(a, la, b, lb, d, ld, r, i, done, accept);
    forall k | 0 <= k < i
      ensures Pruned(a, la, ld, m[k], accept)
    {
      PrunedBefore(a, la, b, lb, d, ld, r, c, m[k], accept);
    }
    PrunedNow(a, la, b, lb, ld, c, accept);
    NoDupAppend(done, [c]);
    assert forall x :: x in done' ==> x in m[..i + 1];
    assert forall x :: x in done' <==> x in done || (ok && x == c);
  }

  /** What has been pruned below a sibling stays as it is. */
  lemma PrunedBefore(a: seq<Req>, la: set<nat>, b: seq<Req>, lb: set<nat>, d: seq<Req>, ld: set<nat>, r: nat, c: nat,
                     e: nat, accept: nat -> bool)
    requires Forest(a, la) && Forest(b, lb) && ChangedBelow(a, la, b, lb, r) && ChangedBelow(b, lb, d, ld, c)
    requires r in lb && c in b[r].merge && e in b[r].merge && c != e && Pruned(a, la, lb, e, accept)
    ensures Pruned(a, la, ld, e, accept)
  {
    hide Forest, AllAccepted;
    forall x | x in lb && Under(a, x, e)
      ensures x in ld
    {
      UnderStable(a, b, lb, x, e);
      if Under(b, x, c) {
        NoCommonDescendant(b, lb, r, c, e, x);
      }
    }
  }

  lemma PrunedNow(a: seq<Req>, la: set<nat>, b: seq<Req>, lb: set<nat>, ld: set<nat>, c: nat, accept: nat -> bool)
    requires |a| == |b| && Forest(a, la) && Forest(b, lb) && lb <= la && Untouched(a, la, b, lb, c)
    requires forall y :: y in lb ==> y < |a| && SameButMerge(a[y], b[y])
    requires Pruned(b, lb, ld, c, accept)
    ensures Pruned(a, la, ld, c, accept)
  {
    hide Forest, AllAccepted;
    forall x | x in la && Under(a, x, c) && x != c
      ensures x in ld <==> !AllAccepted(a, la, x, accept)
    {
      UnderStable(a, b, lb, x, c);
      forall y | y in la && Under(a, y, x)
        ensures Under(a, y, c)
      {
        UnderTrans(a, y, x, c);
      }
      AcceptedUntouched(a, la, b, lb, x, accept);
    }
  }

  /** The requests left once the completed children have been released. */
  lemma PrunedAll(a: seq<Req>, la: set<nat>, b: seq<Req>, lb: set<nat>, r: nat, done: seq<nat>, accept: nat -> bool)
    requires Forest(a, la) && Forest(b, lb) && r in la && Progress(a, la, b, lb, r, |a[r].merge|, done, accept)
    ensures Pruned(a, la, lb - Members(done), r, accept)
  {
    hide Forest, AllAccepted, Untouched, NoDup;
    var m := a[r].merge;
    assert m[..|m|] == m;
    forall x | x in la && Under(a, x, r) && x != r
      ensures x in lb - Members(done) <==> !AllAccepted(a, la, x, accept)
    {
      var c := UnderAChild(a, la, x, r);
      var k :| 0 <= k < |m| && m[k] == c;
      if x == c {
        NextLive(b, lb, r, c);
      } else {
        assert Pruned(a, la, lb, m[k], accept);
        if x in done {
          SiblingsApart(a, la, r, c, x);
        }
      }
    }
  }

  lemma NextLive(b: seq<Req>, lb: set<nat>, r: nat, c: nat)
    requires Forest(b, lb) && r in lb && c in b[r].merge
    ensures c in lb
  {
  }

  lemma MergedOnce(a: seq<Req>, la: set<nat>, r: nat, i: nat)
    requires Forest(a, la) && r in la && i < |a[r].merge|
    ensures a[r].merge[i] !in a[r].merge[..i] && NoDup([a[r].merge[i]])
    ensures a[r].merge[..i + 1] == a[r].merge[..i] + [a[r].merge[i]]
  {
    assert NoDup(a[r].merge);
  }

  lemma StepDone(b: seq<Req>, lb: set<nat>, d: seq<Req>, ld: set<nat>, r: nat, c: nat, done: seq<nat>)
    requires Forest(b, lb) && r in lb && c in b[r].merge && ChangedBelow(b, lb, d, ld, c)
    requires forall x :: x in done ==> x in b[r].merge && x != c && x < |b| && b[x].merge == []
    ensures forall x :: x in done ==> x < |d| && d[x].merge == []
  {
    hide Forest;
    forall x | x in done
      ensures x < |d| && d[x].merge == []
    {
      SiblingsApart(b, lb, r, c, x);
    }
  }

  lemma StepSiblings(a: seq<Req>, la: set<nat>, b: seq<Req>, lb: set<nat>, d: seq<Req>, ld: set<nat>, r: nat, i: nat,
                     done: seq<nat>, accept: nat -> bool)
    requires Forest(a, la) && Forest(b, lb) && Progress(a, la, b, lb, r, i, done, accept) && i < |a[r].merge|
    requires ChangedBelow(b, lb, d, ld, a[r].merge[i])
    ensures forall k :: i + 1 <= k < |a[r].merge| ==> Untouched(a, la, d, ld, a[r].merge[k])
  {
    var m := a[r].merge;
    assert NoDup(m);
    hide Forest, AllAccepted;
    forall k | i + 1 <= k < |m|
      ensures Untouched(a, la, d, ld, m[k])
    {
      hide Untouched;
      SiblingUntouched(a, la, b, lb, d, ld, r, m[i], m[k]);
    }
  }

  lemma NextChild(a: seq<Req>, la: set<nat>, b: seq<Req>, lb: set<nat>, r: nat, i: nat, done: seq<nat>,
                  accept: nat -> bool)
    requires Forest(b, lb) && Progress(a, la, b, lb, r, i, done, accept) && i < |a[r].merge|
    ensures r in lb && |b| == |a| && a[r].merge[i] in lb && a[r].merge[i] < |b|
    ensures b[r].id == a[r].id < b[a[r].merge[i]].id
    ensures a[r].merge[i] in b[r].merge && a[r].merge[i] !in done && a[r].merge[i] !in a[r].merge[..i]
  {
    hide AllAccepted, Untouched, Under, Pruned;
    var m := a[r].merge;
    assert m[i] in b[r].merge && NoDup(m);
    assert m[i] !in m[..i];
  }

  /** After the merged requests have been tried. */
  lemma Tried(a: seq<Req>, la: set<nat>, b: seq<Req>, lb: set<nat>, r: nat, done: seq<nat>, accept: nat -> bool,
              limbo: set<nat>)
    requires Forest(a, la) && r in la && Progress(a, la, b, lb, r, |a[r].merge|, done, accept)
    requires forall x :: x in limbo ==> !Under(a, x, r)
    ensures r in lb && r < |b| && b[r] == a[r] && NoDup(done) && r !in done && ChangedBelow(a, la, b, lb, r)
    ensures forall x :: x in done ==> x in b[r].merge && x < |b| && b[x].merge == [] && x !in limbo
    ensures (forall x :: x in b[r].merge ==> x in done) <==>
      forall x :: x in a[r].merge ==> AllAccepted(a, la, x, accept)
  {
    hide AllAccepted, Untouched, NoDup, Pruned;
    var m := a[r].merge;
    assert m[..|m|] == m;
    forall x | x in done
      ensures x !in limbo
    {
      ChildIsUnder(a, la, r, x);
    }
    forall x | x in m
      ensures x in done <==> AllAccepted(a, la, x, accept)
    {
      var k :| 0 <= k < |m| && m[k] == x;
    }
  }

  /** Releasing a completed child changes nothing outside the tree of r. */
  lemma ReleaseIsBelow(a: seq<Req>, la: set<nat>, b: seq<Req>, lb: set<nat>, r: nat, c: nat)
    requires Forest(a, la) && r in la && r in lb && r < |b| && c < |b| && c in a[r].merge && c != r
    requires ChangedBelow(a, la, b, lb, r)
    ensures ChangedBelow(a, la, Released(b, r, c), lb - {c}, r)
  {
    ChildIsUnder(a, la, r, c);
    assert Under(a, r, r);
    hide Forest;
  }

  lemma NoMembers(done: seq<nat>, limbo: set<nat>)
    ensures limbo + Members(done[|done|..]) == limbo && Members([]) == {}
  {
  }

  /** Releasing the next completed request. */
  lemma NextDone(merge: seq<nat>, done: seq<nat>, i: nat, limbo: set<nat>, alive: set<nat>)
    requires NoDup(done) && i < |done| && forall x :: x in done ==> x in merge && x !in limbo
    ensures done[i] in done[i..] && done[i] in Without(merge, done[..i]) && done[i] in limbo + Members(done[i..])
    ensures limbo + Members(done[i..]) - {done[i]} == limbo + Members(done[i + 1..])
    ensures alive - Members(done[..i]) - {done[i]} == alive - Members(done[..i + 1])
    ensures Without(Without(merge, done[..i]), [done[i]]) == Without(merge, done[..i + 1])
    ensures forall x :: x in done[i + 1..] ==> x in done && x in done[i..] && x != done[i]
  {
    assert done[..i + 1] == done[..i] + [done[i]];
    WithoutStep(merge, done[..i], done[i]);
    assert done[i..] == [done[i]] + done[i + 1..];
    assert done[i] in done && done[i] !in done[..i];
  }

  lemma ReleaseRest(b: seq<Req>, r: nat, done: seq<nat>, i: nat)
    requires r < |b| && i < |done| && r !in done && NoDup(done)
    requires forall k :: i <= k < |done| ==> done[k] < |b| && b[done[k]].merge == []
    ensures |Released(b, r, done[i])| == |b|
    ensures Released(b, r, done[i])[r] == b[r].(merge := Without(b[r].merge, [done[i]]))
    ensures forall k :: i < k < |done| ==> Released(b, r, done[i])[done[k]].merge == []
  {
  }

  lemma SameSelf(a: seq<Req>, la: set<nat>, r: nat)
    requires Forest(a, la) && r in la
    ensures ChangedBelow(a, la, a, la, r)
  {
  }

  lemma ChangedTwice(a: seq<Req>, la: set<nat>, b: seq<Req>, lb: set<nat>, d: seq<Req>, ld: set<nat>, r: nat)
    requires Forest(b, lb) && ChangedBelow(a, la, b, lb, r) && ChangedBelow(b, lb, d, ld, r)
    ensures ChangedBelow(a, la, d, ld, r)
  {
    hide Forest;
    forall x | x in la && !Under(a, x, r)
      ensures x in ld && d[x] == a[x]
    {
      UnderStable(a, b, lb, x, r);
    }
  }

  // ----- issuing, merging and flushing

  /** search_req on one core: the first request of the list that covers the range. */
  function FirstIn(reqs: seq<Req>, list: seq<nat>, addr: nat, size: nat): (m: Option<nat>)
    ensures m.Some? ==> m.value in list && m.value < |reqs| && Covers(reqs[m.value], addr, size)
    ensures m.None? ==> forall s :: s in list && s < |reqs| ==> !Covers(reqs[s], addr, size)
  {
    if list == [] then None
    else if list[0] < |reqs| && Covers(reqs[list[0]], addr, size) then Some(list[0])
    else
      assert list == [list[0]] + list[1..];
      FirstIn(reqs, list[1..], addr, size)
  }

  /** The search over the cores, from core c on. */
  function FirstMatch(reqs: seq<Req>, live: seq<seq<nat>>, c: nat, addr: nat, size: nat): (m: Option<nat>)
    requires c <= |live|
    ensures m.Some? ==>
      m.value < |reqs| && Covers(reqs[m.value], addr, size) && exists d :: c <= d < |live| && On(live, d, m.value)
    ensures m.None? ==>
      forall d, s: nat :: c <= d < |live| && On(live, d, s) && s < |reqs| ==> !Covers(reqs[s], addr, size)
    decreases |live| - c
  {
    if c == |live| then None
    else
      var here := FirstIn(reqs, live[c], addr, size);
      if here.Some? then
        assert On(live, c, here.value);
        here
      else FirstMatch(reqs, live, c + 1, addr, size)
  }

  predicate Waiting(reqs: seq<Req>, s: nat) {
    s < |reqs| && reqs[s].kind == Prefetch && reqs[s].merge == []
  }

  lemma FlushAccounts(reqs: seq<Req>, live: set<nat>, issued: set<nat>, finished: seq<nat>, flushed: seq<nat>, s: nat)
    requires Accounts(reqs, live, issued, finished, flushed, {}) && Forest(reqs, live) && s in live
    ensures Accounts(reqs[s := BLANK], live - {s}, issued, finished, flushed + [reqs[s].id], {})
  {
    var id, reqs' := reqs[s].id, reqs[s := BLANK];
    assert forall x :: x in live - {s} ==> reqs'[x] == reqs[x] && reqs[x].id != id;
    hide Forest;
    FlushedOnce(finished, flushed, id);
    forall i | i in issued
      ensures i in finished || i in flushed + [id] || exists t :: t in live - {s} && reqs'[t].id == i
    {
      if i !in finished && i !in flushed && i != id {
        var t :| t in live && reqs[t].id == i;
        assert t in live - {s} && reqs'[t].id == i;
      }
    }
  }

  lemma GrowsApart(list: seq<nat>, part: seq<nat>, i: nat)
    requires NoDup(list) && NoDup(part) && i < |list| && forall x :: x in part ==> x in list[..i]
    ensures NoDup(part + [list[i]])
  {
    assert list[i] !in list[..i];
    NoDupAppend(part, [list[i]]);
  }

  lemma FlushedOnce(finished: seq<nat>, flushed: seq<nat>, id: nat)
    requires NoDup(finished + flushed) && id !in finished && id !in flushed
    ensures NoDup(finished + (flushed + [id]))
  {
    NoDupAppend(finished + flushed, [id]);
    assert finished + flushed + [id] == finished + (flushed + [id]);
  }

  /** A new entry, alone or below the request it is merged into. */
  function Added(reqs: seq<Req>, s: nat, q: Req, into: Option<nat>): (r: seq<Req>)
    requires s < |reqs| && (into.Some? ==> into.value < |reqs| && into.value != s)
    ensures |r| == |reqs|
  {
    var placed := reqs[s := q.(parent := into, merge := [])];
    if into.None? then placed
    else placed[into.value := reqs[into.value].(merge := reqs[into.value].merge + [s])]
  }

  lemma AddedEntries(reqs: seq<Req>, live: set<nat>, s: nat, q: Req, into: Option<nat>)
    requires Forest(reqs, live) && s < |reqs| && s !in live && (into.Some? ==> into.value in live)
    ensures Grown(reqs, live, Added(reqs, s, q, into), s, q, into)
  {
    hide Parents, Merges;
    var reqs' := Added(reqs, s, q, into);
    forall x | x in live
      ensures SameButMerge(reqs'[x], reqs[x])
      ensures reqs'[x].merge == if into == Some(x) then reqs[x].merge + [s] else reqs[x].merge
    {
    }
  }

  /** How a new entry s shows in the table. */
  ghost predicate Grown(reqs: seq<Req>, live: set<nat>, reqs': seq<Req>, s: nat, q: Req, into: Option<nat>) {
    && |reqs'| == |reqs| && s < |reqs| && (forall x :: x in live ==> x < |reqs|)
    && reqs'[s] == q.(parent := into, merge := [])
    && (forall x :: x in live ==> SameButMerge(reqs'[x], reqs[x]))
    && (forall x :: x in live ==> reqs'[x].merge == if into == Some(x) then reqs[x].merge + [s] else reqs[x].merge)
  }

  lemma AddDistinct(reqs: seq<Req>, live: set<nat>, reqs': seq<Req>, s: nat, q: Req, into: Option<nat>)
    requires Forest(reqs, live) && s !in live && Grown(reqs, live, reqs', s, q, into)
    requires forall x :: x in live ==> reqs[x].id < q.id
    requires into.Some? ==> into.value in live && reqs[into.value].kind == Demand && q.kind == Demand
    ensures Distinct(reqs', live + {s})
  {
    hide Parents;
    forall x | x in live
      ensures NoDup(reqs'[x].merge)
    {
      assert s !in reqs[x].merge;
      NoDupAppend(reqs[x].merge, [s]);
    }
  }

  lemma AddParents(reqs: seq<Req>, live: set<nat>, reqs': seq<Req>, s: nat, q: Req, into: Option<nat>)
    requires Forest(reqs, live) && s !in live && Grown(reqs, live, reqs', s, q, into)
    requires into.Some? ==> into.value in live
    ensures Parents(reqs', live + {s})
  {
    hide Merges, Distinct;
  }

  lemma AddMerges(reqs: seq<Req>, live: set<nat>, reqs': seq<Req>, s: nat, q: Req, into: Option<nat>)
    requires Forest(reqs, live) && s !in live && Grown(reqs, live, reqs', s, q, into)
    requires into.Some? ==> into.value in live && reqs[into.value].id < q.id && Covers(reqs[into.value], q.addr, q.size)
    ensures Merges(reqs', live + {s})
  {
    hide Parents, Distinct;
    forall x, d | x in live + {s} && d in reqs'[x].merge
      ensures d in live + {s} && MergedInto(reqs'[d], reqs'[x], x)
    {
      if d != s {
        assert d in reqs[x].merge && d in live && MergedInto(reqs[d], reqs[x], x);
      }
    }
  }

  lemma {:induction false} ForestAdd(reqs: seq<Req>, live: set<nat>, s: nat, q: Req, into: Option<nat>)
    requires Forest(reqs, live) && s < |reqs| && s !in live
    requires forall x :: x in live ==> reqs[x].id < q.id
    requires into.Some? ==>
      into.value in live && reqs[into.value].kind == Demand && q.kind == Demand &&
        Covers(reqs[into.value], q.addr, q.size)
    ensures Forest(Added(reqs, s, q, into), live + {s})
  {
    hide Parents, Merges, Distinct, Added;
    var reqs' := Added(reqs, s, q, into);
    AddedEntries(reqs, live, s, q, into);
    AddDistinct(reqs, live, reqs', s, q, into);
    AddParents(reqs, live, reqs', s, q, into);
    AddMerges(reqs, live, reqs', s, q, into);
  }

  lemma AddAccounts(reqs: seq<Req>, live: set<nat>, issued: set<nat>, finished: seq<nat>, flushed: seq<nat>, s: nat,
                    q: Req, into: Option<nat>)
    requires Accounts(reqs, live, issued, finished, flushed, {}) && s < |reqs| && s !in live && q.id !in issued
    requires into.Some? ==> into.value in live
    ensures Accounts(Added(reqs, s, q, into), live + {s}, issued + {q.id}, finished, flushed, {})
  {
    var reqs' := Added(reqs, s, q, into);
    assert reqs'[s].id == q.id && forall x :: x in live ==> reqs'[x].id == reqs[x].id;
    hide Added;
    forall i | i in issued + {q.id}
      ensures i in finished || i in flushed || exists t :: t in live + {s} && reqs'[t].id == i
    {
      if i in issued && i !in finished && i !in flushed {
        var t :| t in live && reqs[t].id == i;
        assert reqs'[t].id == i;
      } else if i == q.id {
        assert reqs'[s].id == i;
      }
    }
  }

  /** A prefetch turned into a demand: it keeps its place. */
  lemma PromoteForest(reqs: seq<Req>, live: set<nat>, m: nat, q: Req)
    requires Forest(reqs, live) && m in live && reqs[m].kind == Prefetch && q.id == reqs[m].id && q.parent == None
    requires q.merge == []
    ensures Forest(reqs[m := q], live)
  {
    var reqs' := reqs[m := q];
    assert forall x :: x in live ==>
      reqs'[x].id == reqs[x].id && reqs'[x].merge == reqs[x].merge && reqs'[x].parent == reqs[x].parent;
    forall x, d | x in live && d in reqs'[x].merge
      ensures d in live && MergedInto(reqs'[d], reqs'[x], x)
    {
      assert d in reqs[x].merge;
      assert d in live && d < |reqs|;
      assert MergedInto(reqs[d], reqs[x], x);
      assert d != m && x != m;
    }
  }

  lemma PromoteAccounts(reqs: seq<Req>, live: set<nat>, issued: set<nat>, finished: seq<nat>, flushed: seq<nat>,
                        m: nat, q: Req)
    requires Accounts(reqs, live, issued, finished, flushed, {}) && m in live && q.id == reqs[m].id
    ensures Accounts(reqs[m := q], live, issued, finished, flushed, {})
  {
    hide NoDup;
    var reqs' := reqs[m := q];
    assert forall x :: x in live ==> reqs'[x].id == reqs[x].id;
    forall i | i in issued
      ensures i in finished || i in flushed || exists t :: t in live && reqs'[t].id == i
    {
      if i !in finished && i !in flushed {
        var t :| t in live && reqs[t].id == i;
        assert reqs'[t].id == i;
      }
    }
  }

  lemma FreeRootAccounts(reqs: seq<Req>, live: set<nat>, issued: set<nat>, finished: seq<nat>, flushed: seq<nat>,
                         r: nat)
    requires Accounts(reqs, live, issued, finished, flushed, {r})
    ensures r in live && r < |reqs| && Accounts(reqs[r := BLANK], live - {r}, issued, finished, flushed, {})
  {
    assert r in {r} && {r} - {r} == {};
    FreeAccounts(reqs, live, issued, finished, flushed, {r}, reqs[r := BLANK], r);
  }

  lemma Alone(reqs: seq<Req>, live: set<nat>, s: nat)
    requires Forest(reqs, live) && s in live && reqs[s].kind == Prefetch
    ensures reqs[s].parent == None && reqs[s].merge == []
  {
  }

  /** A request that is no longer live and was not flushed has completed. */
  lemma GoneIsFinished(a: seq<Req>, la: set<nat>, b: seq<Req>, lb: set<nat>, issued: set<nat>, earlier: seq<nat>,
                       finished: seq<nat>, flushed: seq<nat>)
    requires Forest(a, la) && lb <= la && |a| == |b| && forall x :: x in lb ==> x < |a| && SameButMerge(a[x], b[x])
    requires Accounts(a, la, issued, earlier, flushed, {}) && Accounts(b, lb, issued, finished, flushed, {})
    ensures forall x :: x in la - lb ==> a[x].id in finished
  {
    forall x | x in la - lb
      ensures a[x].id in finished
    {
      assert forall s :: s in lb ==> a[s].id == b[s].id && s != x;
    }
  }
}
