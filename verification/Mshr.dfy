/** The miss handling unit: allocation, merging of requests into a forest, and the
    recursive completion of merged requests, updated in place. */
module Mshr {
  import opened Lists
  import opened MshrForest

  class Unit {
    var reqs: seq<Req>
    var live: seq<seq<nat>>   // m_mshr, per core
    var free: seq<seq<nat>>   // m_mshr_free_list, per core
    var nextId: nat           // m_unique_id
    var finished: seq<nat>    // ids whose done function succeeded: their uops are awake
    var flushed: seq<nat>     // ids of flushed prefetches
    ghost var issued: set<nat>
    ghost const owner: seq<nat>

    ghost function LiveSet(): set<nat>
      reads this`live
    {
      set s: nat | s < |owner| && On(live, owner[s], s)
    }

    /** The lists partition the entries, each live request belongs to the core
        whose list it is on, and ids come from the counter. */
    ghost predicate Lists()
      reads this`reqs, this`live, this`free, this`nextId, this`issued
    {
      && |reqs| == |owner| && Partition(owner, live, free)
      && (forall s :: s in LiveSet() ==> reqs[s].core == owner[s] && reqs[s].id < nextId)
      && (forall s: nat :: s < |owner| && s !in LiveSet() ==> reqs[s].merge == [])
      && (forall i :: i in issued ==> i < nextId)
    }

    ghost predicate Inv(limbo: set<nat>)
      reads this
    {
      Lists() && Forest(reqs, LiveSet()) && Accounts(reqs, LiveSet(), issued, finished, flushed, limbo)
    }

    ghost predicate Valid()
      reads this
    {
      Inv({})
    }

    /** All entries free, `size` of them on the list of each core. */
    constructor (cores: nat, size: nat)
      ensures Valid() && LiveSet() == {} && issued == {} && finished == [] && flushed == []
      ensures |live| == |free| == cores && forall c :: 0 <= c < cores ==> |free[c]| == size
    {
      var lists: seq<seq<nat>>, none: seq<seq<nat>> := [], [];
      var table: seq<Req> := [];
      ghost var owners: seq<nat> := [];
      for c := 0 to cores
        invariant |lists| == |none| == c && |table| == |owners|
        invariant Partition(owners, none, lists) && (forall d :: 0 <= d < c ==> none[d] == [] && |lists[d]| == size)
        invariant forall s :: 0 <= s < |table| ==> table[s] == BLANK
      {
        var list: seq<nat> := [];
        ghost var earlier := owners;
        for j := 0 to size
          invariant |list| == j && |table| == |owners| == |earlier| + j
          invariant forall k :: 0 <= k < j ==> list[k] == |earlier| + k
          invariant forall s :: |earlier| <= s < |owners| ==> owners[s] == c
          invariant owners[..|earlier|] == earlier
          invariant forall s :: 0 <= s < |table| ==> table[s] == BLANK
        {
          list := list + [|table|];
          table := table + [BLANK];
          owners := owners + [c];
        }
        ListAdded(earlier, owners, none, lists, list);
        lists, none := lists + [list], none + [[]];
      }
      reqs, live, free, nextId, finished, flushed := table, none, lists, 0, [], [];
      issued, owner := {}, owners;
      new;
      assert forall s: nat :: s < |owner| ==> !On(live, owner[s], s);
      assert LiveSet() == {};
    }

    predicate Carries(s: nat, id: nat)
      reads this`reqs
    {
      s < |reqs| && reqs[s].id == id
    }

    /** Every request ever issued is live in exactly one entry, or has completed, or was
        flushed, and the last two at most once: none is lost and none wakes twice. */
    lemma {:induction false} EachRequestOnce(i: nat)
      requires Valid() && i in issued
      ensures multiset(finished)[i] + multiset(flushed)[i] <= 1
      ensures multiset(finished)[i] + multiset(flushed)[i] == 0 <==>
        exists s :: s in LiveSet() && Carries(s, i)
      ensures forall s, t :: s in LiveSet() && t in LiveSet() && Carries(s, i) && Carries(t, i) ==> s == t
    {
      assert multiset(finished + flushed)[i] == multiset(finished)[i] + multiset(flushed)[i];
      CountByNoDup(finished + flushed, i);
    }

    /** The lists of free_req, with the core number the request carries. */
    method FreeEntry(s: nat)
      requires Lists() && s in LiveSet()
      modifies this`live, this`free, this`reqs
      ensures reqs == old(reqs)[s := BLANK] && Lists() && LiveSet() == old(LiveSet()) - {s}
      ensures old(reqs)[s].core < |old(live)| == |old(free)|
      ensures (live, free) == FreeLists(old(live), old(free), old(reqs)[s].core, s)
    {
      var core := reqs[s].core;
      FreeKeepsPartition(owner, live, free, core, s);
      reqs := reqs[s := BLANK];
      ghost var before := live;
      live := live[core := Without(live[core], [s])];
      free := free[core := free[core] + [s]];
      assert forall x: nat :: x < |owner| ==> (On(live, owner[x], x) <==> On(before, owner[x], x) && x != s);
    }

    lemma Known(s: nat, limbo: set<nat>)
      requires Inv(limbo) && s in LiveSet()
      ensures s < |reqs| && reqs[s].id < nextId && limbo <= LiveSet()
    {
    }

    method DropMerged(r: nat, c: nat)
      requires Lists() && r in LiveSet()
      modifies this`reqs
      ensures reqs == old(reqs)[r := old(reqs)[r].(merge := Without(old(reqs)[r].merge, [c]))]
      ensures Lists() && LiveSet() == old(LiveSet())
    {
      hide Partition, On;
      reqs := reqs[r := reqs[r].(merge := Without(reqs[r].merge, [c]))];
    }

    /** A completed merged request leaves the merge list and is freed. */
    method ReleaseChild(r: nat, c: nat, ghost limbo: set<nat>)
      requires Inv(limbo) && r in LiveSet() && c in reqs[r].merge && c in limbo && reqs[c].merge == []
      modifies this`live, this`free, this`reqs
      ensures Inv(limbo - {c}) && LiveSet() == old(LiveSet()) - {c} && reqs == Released(old(reqs), r, c)
    {
      hide Forest, Accounts, Partition, NoDup, Lists, LiveSet;
      ReleaseKeeps(reqs, LiveSet(), issued, finished, flushed, limbo, r, c);
      DropMerged(r, c);
      FreeEntry(c);
    }

    /** The first loop of dcache_fill_line_wrapper: the done functions of the merged
        requests, some of which may be refused. */
    method FillMerged(r: nat, accept: nat -> bool, ghost limbo: set<nat>) returns (done: seq<nat>, result: bool)
      requires Inv(limbo) && r in LiveSet() && forall x :: x in limbo ==> !Under(reqs, x, r)
      modifies this`live, this`free, this`reqs, this`finished
      ensures Inv(limbo + Members(done))
      ensures Progress(old(reqs), old(LiveSet()), reqs, LiveSet(), r, |old(reqs)[r].merge|, done, accept)
      ensures result <==> forall x :: x in old(reqs)[r].merge ==> x in done
      decreases nextId - reqs[r].id, 0
    {
      hide Lists, LiveSet, Forest, Accounts, Progress, AllAccepted, ChangedBelow, Pruned;
      Known(r, limbo);
      var merged := reqs[r].merge;
      done, result := [], true;
      ghost var before, alive := reqs, LiveSet();
      ProgressStart(reqs, alive, r, accept);
      assert limbo + Members([]) == limbo;
      for i := 0 to |merged|
        invariant Inv(limbo + Members(done))
        invariant Progress(before, alive, reqs, LiveSet(), r, i, done, accept)
        invariant result <==> forall k :: 0 <= k < i ==> merged[k] in done
      {
        ghost var b, lb := reqs, LiveSet();
        ghost var waiting := limbo + Members(done);
        NextChild(before, alive, b, lb, r, i, done, accept);
        Known(r, waiting);
        Known(merged[i], waiting);
        LimboApart(before, alive, b, lb, r, i, done, accept, limbo);
        var ok := FillLine(merged[i], accept, waiting);
        ProgressStep(before, alive, b, lb, reqs, LiveSet(), r, i, done, accept, ok);
        if ok {
          done := done + [merged[i]];
          assert limbo + Members(done) == waiting + {merged[i]};
        } else {
          result := false;
        }
      }
    }

    /** The second loop: the completed ones leave the merge list and are freed. */
    method ReleaseAll(r: nat, done: seq<nat>, ghost limbo: set<nat>)
      requires Inv(limbo + Members(done)) && r in LiveSet() && NoDup(done) && r !in done
      requires forall x :: x in done ==> x in reqs[r].merge && x < |reqs| && reqs[x].merge == [] && x !in limbo
      modifies this`live, this`free, this`reqs
      ensures Inv(limbo) && r in LiveSet() && LiveSet() == old(LiveSet()) - Members(done)
      ensures reqs[r] == old(reqs)[r].(merge := Without(old(reqs)[r].merge, done))
      ensures ChangedBelow(old(reqs), old(LiveSet()), reqs, LiveSet(), r)
    {
      hide Lists, LiveSet, Forest, Accounts, ChangedBelow, Members, NoDup, Released;
      Known(r, limbo + Members(done));
      ghost var before, alive := reqs, LiveSet();
      SameSelf(reqs, alive, r);
      WithoutNone(reqs[r].merge);
      assert done[0..] == done && done[..0] == [] && done[..|done|] == done;
      NoMembers(done, limbo);
      assert forall k :: 0 <= k < |done| ==> done[k] in done;
      for i := 0 to |done|
        invariant Inv(limbo + Members(done[i..])) && r in LiveSet() && |reqs| == |before|
        invariant LiveSet() == alive - Members(done[..i])
        invariant reqs[r] == before[r].(merge := Without(before[r].merge, done[..i]))
        invariant forall k :: i <= k < |done| ==> done[k] < |reqs| && reqs[done[k]].merge == []
        invariant ChangedBelow(before, alive, reqs, LiveSet(), r)
      {
        ghost var b, lb := reqs, LiveSet();
        Known(r, limbo + Members(done[i..]));
        NextDone(before[r].merge, done, i, limbo, alive);
        ReleaseKeeps(b, lb, issued, finished, flushed, limbo + Members(done[i..]), r, done[i]);
        ReleaseIsBelow(before, alive, b, lb, r, done[i]);
        ReleaseRest(b, r, done, i);
        ReleaseChild(r, done[i], limbo + Members(done[i..]));
      }
    }

    /** dcache_fill_line_wrapper */
    method FillLine(r: nat, accept: nat -> bool, ghost limbo: set<nat>) returns (ok: bool)
      requires Inv(limbo) && r in LiveSet() && forall x :: x in limbo ==> !Under(reqs, x, r)
      modifies this`live, this`free, this`reqs, this`finished
      ensures Inv(if ok then limbo + {r} else limbo)
      ensures ChangedBelow(old(reqs), old(LiveSet()), reqs, LiveSet(), r)
      ensures ok <==> AllAccepted(old(reqs), old(LiveSet()), r, accept)
      ensures ok ==> reqs[r].merge == []
      ensures Pruned(old(reqs), old(LiveSet()), LiveSet(), r, accept)
      decreases nextId - reqs[r].id, 1
    {
      hide Lists, LiveSet, Forest, Accounts, ChangedBelow, AllAccepted, Progress, NoDup, Pruned;
      Known(r, limbo);
      ghost var before, alive := reqs, LiveSet();
      var done;
      done, ok := FillMerged(r, accept, limbo);
      Tried(before, alive, reqs, LiveSet(), r, done, accept, limbo);
      PrunedAll(before, alive, reqs, LiveSet(), r, done, accept);
      AcceptedByChildren(before, alive, r, accept);
      ghost var b, lb := reqs, LiveSet();
      ReleaseAll(r, done, limbo);
      ChangedTwice(before, alive, b, lb, reqs, LiveSet(), r);
      if ok {
        Known(r, limbo);
        WithoutAll(before[r].merge, done);
        ok := accept(reqs[r].id);
        if ok {
          FinishAccounts(reqs, LiveSet(), issued, finished, flushed, limbo, r);
          finished := finished + [reqs[r].id];
        }
      }
    }

    /** A completed request that was not merged is freed: nothing is left below it. */
    method FreeRoot(r: nat)
      requires Inv({r}) && reqs[r].parent == None && reqs[r].merge == []
      modifies this`live, this`free, this`reqs
      ensures Valid() && reqs == old(reqs)[r := BLANK] && LiveSet() == old(LiveSet()) - {r}
    {
      hide Lists, LiveSet, Forest, Accounts;
      ghost var alive := LiveSet();
      FreeRootAccounts(reqs, alive, issued, finished, flushed, r);
      Known(r, {r});
      ForestFreeRoot(reqs, alive, r);
      FreeEntry(r);
    }

    /** The data of the unmerged request r has come back. A request waiting for it
        completes exactly when neither it nor any request below it is refused; it
        then wakes its uop and is freed, and the others stay for the next try. */
    method Complete(r: nat, accept: nat -> bool) returns (ok: bool)
      requires Valid() && r in LiveSet() && reqs[r].parent == None
      modifies this`live, this`free, this`reqs, this`finished
      ensures Valid()
      ensures ok <==> r !in LiveSet()
      ensures forall x :: x in old(LiveSet()) ==>
        (x !in LiveSet() <==> Under(old(reqs), x, r) && AllAccepted(old(reqs), old(LiveSet()), x, accept))
      ensures forall x :: x in LiveSet() ==> x in old(LiveSet()) && SameButMerge(old(reqs)[x], reqs[x])
      ensures forall x :: x in old(LiveSet()) && !Under(old(reqs), x, r) ==> reqs[x] == old(reqs)[x]
      ensures forall x :: x in old(LiveSet()) && x !in LiveSet() ==> old(reqs)[x].id in finished
    {
      hide Lists, LiveSet, Forest, Accounts, AllAccepted;
      Known(r, {});
      ghost var before, alive, earlier := reqs, LiveSet(), finished;
      ok := FillLine(r, accept, {});
      assert r in LiveSet();
      assert Under(before, r, r);
      if ok {
        assert {} + {r} == {r};
        FreeRoot(r);
      }
      GoneIsFinished(before, alive, reqs, LiveSet(), issued, earlier, finished, flushed);
    }

    /** One prefetch of flush_prefetch. */
    method FlushOne(core: nat, s: nat)
      requires Valid() && core < |live| && s in live[core] && s < |reqs| && reqs[s].kind == Prefetch
      modifies this`live, this`free, this`reqs, this`flushed
      ensures Valid() && reqs == old(reqs)[s := BLANK] && LiveSet() == old(LiveSet()) - {s}
      ensures flushed == old(flushed) + [old(reqs)[s].id] && |live| == old(|live|)
      ensures live[core] == Without(old(live)[core], [s])
      ensures forall c :: 0 <= c < |live| && c != core ==> live[c] == old(live)[c]
    {
      hide Lists, LiveSet, Forest, Accounts;
      ListedOn(core, s);
      Alone(reqs, LiveSet(), s);
      ForestFreeRoot(reqs, LiveSet(), s);
      FlushAccounts(reqs, LiveSet(), issued, finished, flushed, s);
      flushed := flushed + [reqs[s].id];
      FreeEntry(s);
    }

    lemma ListedOn(core: nat, s: nat)
      requires Lists() && core < |live| && s in live[core]
      ensures s in LiveSet() && owner[s] == core && s < |reqs| == |owner| && reqs[s].core == core
    {
      assert On(live, core, s);
    }

    /** A prefetch of the core that has not left the queue yet. */
    ghost predicate Droppable(core: nat, queued: nat -> bool)
      reads this`reqs, this`live
    {
      exists s :: s in LiveSet() && s < |reqs| && owner[s] == core && reqs[s].kind == Prefetch && queued(reqs[s].id)
    }

    /** An entry is free exactly when not all entries of the core are in use. */
    lemma FreeIff(core: nat)
      requires Lists() && core < |live|
      ensures |free| == |live|
      ensures free[core] != [] <==> exists s: nat :: s < |owner| && owner[s] == core && s !in LiveSet()
    {
      if free[core] != [] {
        var s := free[core][0];
        assert s in free[core];
        assert On(free, core, s);
      }
      if s: nat :| s < |owner| && owner[s] == core && s !in LiveSet() {
        assert On(live, core, s) || On(free, core, s);
      }
    }

    /** flush_prefetch: exactly the queued prefetches of the core are dropped. */
    method FlushPrefetch(core: nat, queued: nat -> bool)
      requires Valid() && core < |live|
      modifies this`live, this`free, this`reqs, this`flushed
      ensures Valid() && |live| == old(|live|)
      ensures forall s :: s in old(LiveSet()) ==>
        (s !in LiveSet() <==>
           owner[s] == core && s < |old(reqs)| && old(reqs)[s].kind == Prefetch && queued(old(reqs)[s].id))
      ensures forall s :: s in LiveSet() ==> s in old(LiveSet()) && s < |reqs| == |old(reqs)| && reqs[s] == old(reqs)[s]
      ensures |free| == |live| == |old(free)|
      ensures free[core] != [] <==> old(free)[core] != [] || old(Droppable(core, queued))
      ensures !Droppable(core, queued)
    {
      hide Lists, LiveSet, Forest, Accounts, NoDup;
      ListsInRange(core);
      FreeIff(core);
      var victims := Prefetches(core);
      DropEach(core, victims, queued);
      FreeIff(core);
    }

    /** The first loop: the prefetches of the core, none of which has anything merged. */
    method Prefetches(core: nat) returns (victims: seq<nat>)
      requires Valid() && core < |live|
      ensures NoDup(victims) && forall s :: s in victims <==> s in live[core] && Waiting(reqs, s)
    {
      hide Lists, LiveSet, Forest, Accounts;
      var list := live[core];
      ListsInRange(core);
      victims := [];
      for i := 0 to |list|
        invariant NoDup(victims)
        invariant forall s :: s in victims ==> s in list[..i] && Waiting(reqs, s)
        invariant forall k :: 0 <= k < i && Waiting(reqs, list[k]) ==> list[k] in victims
      {
        assert list[i] in live[core] && list[i] in LiveSet();
        if reqs[list[i]].kind == Prefetch && reqs[list[i]].merge == [] {
          GrowsApart(list, victims, i);
          victims := victims + [list[i]];
        }
      }
      assert list[..|list|] == list;
    }

    /** The second loop: those that are still queued are dropped. */
    method DropEach(core: nat, victims: seq<nat>, queued: nat -> bool)
      requires Valid() && core < |live| && NoDup(victims)
      requires forall s :: s in victims ==> s in live[core] && Waiting(reqs, s)
      modifies this`live, this`free, this`reqs, this`flushed
      ensures Valid() && |live| == old(|live|) && |reqs| == |old(reqs)|
      ensures forall s :: s in old(LiveSet()) ==>
        (s !in LiveSet() <==> s in victims && s < |reqs| && queued(old(reqs)[s].id))
      ensures forall s :: s in LiveSet() ==> s in old(LiveSet()) && s < |reqs| && reqs[s] == old(reqs)[s]
    {
      hide Lists, LiveSet, Forest, Accounts, Partition, Covers, FirstMatch, FirstIn;
      ghost var before, alive := reqs, LiveSet();
      ListsInRange(core);
      assert forall k :: 0 <= k < |victims| ==> victims[k] in victims;
      for i := 0 to |victims|
        invariant Valid() && |live| == old(|live|) && |reqs| == |before|
        invariant forall k :: i <= k < |victims| ==>
          victims[k] in live[core] && victims[k] < |reqs| && reqs[victims[k]] == before[victims[k]]
        invariant forall s :: s in alive ==> (s !in LiveSet() <==> s in victims[..i] && queued(before[s].id))
        invariant forall s :: s in LiveSet() ==> s in alive && reqs[s] == before[s]
      {
        var s := victims[i];
        if queued(reqs[s].id) {
          FlushOne(core, s);
        }
      }
      assert victims[..|victims|] == victims;
    }

    lemma ListsInRange(core: nat)
      requires Inv({}) && core < |live|
      ensures |reqs| == |owner| && |free| == |live| && NoDup(live[core])
      ensures forall s :: s in live[core] ==> s in LiveSet()
      ensures forall s :: s in LiveSet() ==> s < |reqs| && (s in live[core] <==> owner[s] == core)
      ensures forall s :: s in LiveSet() && reqs[s].kind == Prefetch ==> reqs[s].merge == []
    {
      forall s: nat | s in live[core]
        ensures s in LiveSet() && owner[s] == core
      {
        assert On(live, core, s);
      }
    }

    /** search_req over all cores */
    method Search(addr: nat, size: nat) returns (m: Option<nat>)
      requires Valid()
      ensures m == FirstMatch(reqs, live, 0, addr, size)
    {
      hide Forest, Accounts, NoDup;
      m := None;
      var c := 0;
      while c < |live| && m.None?
        invariant 0 <= c <= |live|
        invariant FirstMatch(reqs, live, 0, addr, size) == if m.Some? then m else FirstMatch(reqs, live, c, addr, size)
      {
        var list := live[c];
        var k := 0;
        while k < |list| && !(list[k] < |reqs| && Covers(reqs[list[k]], addr, size))
          invariant 0 <= k <= |list|
          invariant FirstIn(reqs, list, addr, size) == FirstIn(reqs, list[k..], addr, size)
        {
          k := k + 1;
        }
        if k < |list| {
          m := Some(list[k]);
        }
        c := c + 1;
      }
    }

    /** allocate_new_entry, init_new_req and the merging of new_mem_req */
    method Place(core: nat, kind: Kind, addr: nat, size: nat, into: Option<nat>) returns (s: nat)
      requires Valid() && core < |live| == |free| && free[core] != []
      requires into.Some? ==>
        into.value in LiveSet() && into.value < |reqs| && reqs[into.value].kind == Demand == kind &&
          Covers(reqs[into.value], addr, size)
      modifies this`live, this`free, this`reqs, this`nextId, this`issued
      ensures Valid() && |live| == old(|live|) && LiveSet() == old(LiveSet()) + {s} && s !in old(LiveSet())
      ensures nextId == old(nextId) + 1 && issued == old(issued) + {old(nextId)}
      ensures s < |old(reqs)| && (into.Some? ==> into.value != s)
      ensures reqs == Added(old(reqs), s, Req(old(nextId), core, kind, addr, size, None, []), into)
    {
      hide Forest, Accounts, NoDup, Partition, Covers, On;
      ghost var alive := LiveSet();
      AllocateKeepsPartition(owner, live, free, core);
      var list := free[core];
      s := list[|list| - 1];
      var q := Req(nextId, core, kind, addr, size, into, []);
      ForestAdd(reqs, alive, s, q, into);
      AddAccounts(reqs, alive, issued, finished, flushed, s, q, into);
      free := free[core := list[..|list| - 1]];
      live := live[core := live[core] + [s]];
      reqs := reqs[s := q];
      if into.Some? {
        var m := reqs[into.value];
        reqs := reqs[into.value := m.(merge := m.merge + [s])];
      }
      nextId := nextId + 1;
      issued := issued + {q.id};
      assert LiveSet() == alive + {s};
    }

    /** The request the search finds is live. */
    lemma MatchIsLive(addr: nat, size: nat)
      requires Inv({})
      ensures var m := FirstMatch(reqs, live, 0, addr, size); m.Some? ==> m.value in LiveSet() && m.value < |owner|
    {
      var m := FirstMatch(reqs, live, 0, addr, size);
      if m.Some? {
        var d :| 0 <= d < |live| && On(live, d, m.value);
      }
    }

    /** A demand that finds a prefetch held by another core: adjust_req then gives
        the entry this core's number although it is on the other core's list. */
    ghost predicate CrossesCores(kind: Kind, addr: nat, size: nat, core: nat)
      reads this
    {
      var m := FirstMatch(reqs, live, 0, addr, size);
      && kind == Demand && m.Some? && m.value < |owner|
      && reqs[m.value].kind == Prefetch && owner[m.value] != core
    }

    /** adjust_req */
    method Promote(m: nat, core: nat, addr: nat, size: nat)
      requires Valid() && m in LiveSet() && m < |owner| && m < |reqs| && reqs[m].kind == Prefetch
      modifies this`reqs
      ensures Valid() <==> core == owner[m]
      ensures reqs == old(reqs)[m := Req(old(reqs)[m].id, core, Demand, addr, size, None, [])]
    {
      hide Forest, Accounts, NoDup, Partition, On;
      ghost var q := Req(reqs[m].id, core, Demand, addr, size, None, []);
      Alone(reqs, LiveSet(), m);
      PromoteForest(reqs, LiveSet(), m, q);
      PromoteAccounts(reqs, LiveSet(), issued, finished, flushed, m, q);
      reqs := reqs[m := reqs[m].(core := core, kind := Demand, addr := addr, size := size, parent := None)];
    }

    /** There is an entry for a request of this kind: a free one, or one that prefetches
        give up. A prefetch takes only what a full queue has already made free, and
        nothing from a queue that stays full. */
    ghost predicate HasRoom(kind: Kind, core: nat, full: bool, stillFull: bool, queued: nat -> bool)
      requires core < |free|
      reads this`reqs, this`live, this`free
    {
      if kind == Prefetch then !(full && stillFull) && (free[core] != [] || (full && Droppable(core, queued)))
      else free[core] != [] || Droppable(core, queued)
    }

    /** The full-queue and full-list steps of new_mem_req: prefetches give way to
        demands, and a prefetch that finds no room is dropped. */
    method MakeRoom(kind: Kind, core: nat, full: bool, stillFull: bool, queued: nat -> bool)
      returns (room: bool, accepted: bool)
      requires Valid() && core < |live|
      modifies this`live, this`free, this`reqs, this`flushed
      ensures Valid() && |live| == old(|live|) == |free| && |reqs| == |old(reqs)|
      ensures forall s :: s in LiveSet() ==> s in old(LiveSet()) && s < |reqs| && reqs[s] == old(reqs)[s]
      ensures forall s :: s in old(LiveSet()) && s < |reqs| && old(reqs)[s].kind == Demand ==> s in LiveSet()
      ensures room ==> free[core] != []
      ensures old(|free|) == |live| && room == old(HasRoom(kind, core, full, stillFull, queued))
      ensures !full && old(free)[core] != [] ==> live == old(live) && flushed == old(flushed)
      ensures !room ==> (accepted <==> kind == Prefetch)
      ensures !room && !accepted ==> free[core] == []
      ensures !room && !accepted ==>
        forall s :: s in LiveSet() && owner[s] == core && s < |reqs| && reqs[s].kind == Prefetch ==> !queued(reqs[s].id)
    {
      hide Lists, LiveSet, Forest, Accounts, NoDup, Covers, On;
      ListsInRange(core);
      ghost var before, alive := reqs, LiveSet();
      if full {
        FlushPrefetch(core, queued);
        ListsInRange(core);
        if stillFull && kind == Prefetch {
          return false, true;
        }
      }
      if free[core] == [] {
        FlushPrefetch(core, queued);
        ListsInRange(core);
        if kind == Prefetch {
          return false, true;
        }
        if free[core] == [] {
          return false, false;
        }
      }
      return true, true;
    }

    /** The request gets an entry: a demand by promoting the prefetch it finds, and any
        request where there is room, except a prefetch that is redundant or stopped. */
    ghost predicate Takes(kind: Kind, addr: nat, size: nat, core: nat, stopped: bool, full: bool, stillFull: bool,
                          queued: nat -> bool)
      reads this
    {
      var m := FirstMatch(reqs, live, 0, addr, size);
      var promotes := kind == Demand && m.Some? && m.value < |reqs| && reqs[m.value].kind == Prefetch;
      promotes || (&& core < |free| && HasRoom(kind, core, full, stillFull, queued)
                   && (kind == Prefetch ==> !stopped && m.None?))
    }

    /** new_mem_req. `placed` is the entry that stands for the request afterwards. */
    method NewReq(kind: Kind, addr: nat, size: nat, core: nat, stopped: bool, full: bool, stillFull: bool,
                  queued: nat -> bool)
      returns (accepted: bool, ghost placed: Option<nat>)
      requires Valid() && core < |live|
      modifies this`live, this`free, this`reqs, this`nextId, this`issued, this`flushed
      ensures Valid() <==> !old(CrossesCores(kind, addr, size, core))
      ensures placed.Some? <==> old(Takes(kind, addr, size, core, stopped, full, stillFull, queued))
      ensures accepted <==> kind == Prefetch || placed.Some?
      ensures !full && old(core < |free| && free[core] != []) ==> flushed == old(flushed)
      ensures placed.Some? ==> placed.value in LiveSet() && placed.value < |reqs| &&
                               Asked(reqs[placed.value], kind, addr, size, core)
      ensures placed.Some? ==>
                Stands(old(FirstMatch(reqs, live, 0, addr, size)), old(reqs), placed.value, reqs[placed.value],
                       old(nextId), nextId)
      ensures issued == if nextId == old(nextId) then old(issued) else old(issued) + {old(nextId)}
      ensures !accepted ==> kind == Demand && nextId == old(nextId) && core < |free| && free[core] == []
      ensures !accepted ==>
        forall s :: s in LiveSet() && owner[s] == core && s < |reqs| && reqs[s].kind == Prefetch ==> !queued(reqs[s].id)
      ensures forall s :: s in old(LiveSet()) && s < |old(reqs)| && old(reqs)[s].kind == Demand ==>
                s in LiveSet() && s < |reqs| && SameButMerge(old(reqs)[s], reqs[s])
    {
      hide Lists, LiveSet, Forest, Accounts, NoDup, Covers, On;
      ListsInRange(core);
      MatchIsLive(addr, size);
      if stopped && kind == Prefetch {
        return true, None;
      }
      var m := Search(addr, size);
      if m.Some? {
        if kind == Prefetch {
          return true, None;
        }
        if reqs[m.value].kind == Prefetch {
          Promote(m.value, core, addr, size);
          return true, m;
        }
      }
      var room;
      room, accepted := MakeRoom(kind, core, full, stillFull, queued);
      if !room {
        return accepted, None;
      }
      var s := Place(core, kind, addr, size, m);
      return true, Some(s);
    }
  }

  /** The entry carries what was asked for, and nothing has been merged into it yet. */
  predicate Asked(q: Req, kind: Kind, addr: nat, size: nat, core: nat) {
    q.core == core && q.kind == kind && q.addr == addr && q.size == size && q.merge == []
  }

  /** The entry s now standing for a request whose search gave m: the prefetch found,
      under its old id, or a new entry merged into the demand found, if any. */
  predicate Stands(m: Option<nat>, before: seq<Req>, s: nat, q: Req, firstId: nat, nextId: nat) {
    if m.Some? && m.value < |before| && before[m.value].kind == Prefetch then
      m == Some(s) && q.id == before[s].id && q.parent == None && nextId == firstId
    else
      q.parent == m && q.id == firstId && nextId == firstId + 1
  }
}
