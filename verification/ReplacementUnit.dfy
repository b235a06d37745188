/** The MMU's replacement unit: pool entries on a doubly linked list between two
    sentinels, found through a hash table. */
module ReplacementUnit {
  import opened Lists
  import opened Recency

  /** An entry; the key None stands for the pair (-1, -1) of an unused entry. */
  class Entry {
    var key: Option<Page>
    var prev: Entry?
    var next: Entry?
    constructor ()
      ensures key == None
    {
      key, prev, next := None, null, null;
    }
  }

  /** Neighbours point at each other. */
  ghost predicate Linked(chain: seq<Entry>)
    reads chain
  {
    forall i :: 0 <= i < |chain| - 1 ==> chain[i].next == chain[i + 1] && chain[i + 1].prev == chain[i]
  }

  /** The table finds every listed page at its entry, and otherwise holds only
      keys of pages evicted earlier. */
  ghost predicate Found(table: map<Option<Page>, Entry>, spine: seq<Entry>, listed: seq<Page>, evicted: set<Page>)
    requires |spine| == |listed|
  {
    && (forall i :: 0 <= i < |spine| ==> Some(listed[i]) in table && table[Some(listed[i])] == spine[i])
    && (forall k :: k in table ==> k.Some? && (k.value in listed || k.value in evicted))
    && (forall p :: p in evicted ==> Some(p) in table && p !in listed)
  }

  class Unit {
    const head: Entry
    const tail: Entry
    const maxEntries: nat
    const erases: bool             // GetVictim erases the victim's key, as intended
    var table: map<Option<Page>, Entry>
    var freeEntries: seq<Entry>
    ghost const pool: set<Entry>
    ghost var spine: seq<Entry>    // the entries between head and tail
    ghost var listed: seq<Page>    // their pages, most recently used first
    ghost var evicted: set<Page>   // pages given up by GetVictim whose keys are left behind
    ghost var ops: seq<Op>         // every update, insertion and eviction so far

    ghost function Chain(): seq<Entry>
      reads this`spine
    {
      [head] + spine + [tail]
    }

    /** The list is well formed and every entry is listed or free. */
    ghost predicate WellLinked()
      reads this`spine, this`freeEntries, pool
    {
      && (forall e :: e in Chain() ==> e in pool)
      && (forall e :: e in freeEntries ==> e in pool && e !in Chain())
      && NoDup(Chain()) && NoDup(freeEntries)
      && Linked(Chain())
      && |spine| + |freeEntries| == maxEntries
    }

    /** Each listed entry carries its page and the table is in order. */
    ghost predicate Indexed()
      reads this`table, this`spine, this`listed, this`evicted, pool
    {
      && |listed| == |spine| && Found(table, spine, listed, evicted)
      && (forall i :: 0 <= i < |spine| ==> spine[i] in pool && spine[i].key == Some(listed[i]))
    }

    /** The listed pages are what the operations so far make of an empty list. */
    ghost predicate Recorded()
      reads this
    {
      Possible(ops, maxEntries) && listed == RunOps(ops, maxEntries) && (erases ==> evicted == {})
    }

    ghost predicate Valid()
      reads this, pool
    {
      WellLinked() && Indexed() && Recorded()
    }

    /** The page that GetVictim gives up is the least recently inserted or updated one. */
    lemma {:induction false} LastIsLeastRecentlyUsed(q: Page)
      requires Valid() && q in listed
      ensures LastUse(UsesPage, ops, listed[|listed| - 1]) <= LastUse(UsesPage, ops, q)
    {
      VictimIsLeastRecent(ops, maxEntries, q);
    }

    lemma ListedIsDistinct()
      requires WellLinked() && Indexed()
      ensures NoDup(listed)
    {
      forall i, j | 0 <= i < j < |listed|
        ensures listed[i] != listed[j]
      {
        assert Chain()[i + 1] == spine[i] && Chain()[j + 1] == spine[j];
      }
    }

    /** The entry of a listed page is found by its key. */
    lemma EntryOf(i: nat)
      requires Indexed() && i < |listed|
      ensures |spine| == |listed| && Some(listed[i]) in table && table[Some(listed[i])] == spine[i]
    {
    }

    constructor (n: nat, erases: bool)
      ensures Valid() && listed == [] && evicted == {} && ops == [] && fresh(pool)
      ensures maxEntries == n && this.erases == erases
    {
      var h := new Entry();
      var t := new Entry();
      h.next, t.prev := t, h;
      var free: seq<Entry> := [];
      ghost var all := {h, t};
      for i := 0 to n
        invariant |free| == i && h in all && t in all && h.next == t && t.prev == h && h != t
        invariant forall e :: e in free ==> e in all && e != h && e != t
        invariant NoDup(free) && fresh(all)
      {
        var e := new Entry();
        free := free + [e];
        all := all + {e};
      }
      head, tail, maxEntries, this.erases := h, t, n, erases;
      table, freeEntries, pool := map[], free, all;
      spine, listed, evicted, ops := [], [], {}, [];
      new;
      assert Chain() == [head, tail];
    }

    /** Unlink the entry at position i of the list. */
    method Detach(node: Entry, ghost i: nat)
      requires i < |spine| && node == spine[i] && NoDup(Chain()) && Linked(Chain())
      requires forall e :: e in Chain() ==> e in pool
      modifies this`spine, pool
      ensures spine == TakeOut(old(spine), i) && NoDup(Chain()) && Linked(Chain())
      ensures forall e :: e in Chain() <==> e in old(Chain()) && e != node
      ensures forall e :: e in pool ==> e.key == old(e.key)
    {
      ghost var chain := Chain();
      assert node == chain[i + 1] && node.prev == chain[i] && node.next == chain[i + 2];
      node.prev.next := node.next;
      node.next.prev := node.prev;
      spine := TakeOut(spine, i);
      ghost var now := Chain();
      assert now == TakeOut(chain, i + 1);
      TakeOutAbsent(chain, i + 1);
      forall k | 0 <= k < |now| - 1
        ensures now[k].next == now[k + 1] && now[k + 1].prev == now[k]
      {
        ghost var a, b := if k <= i then k else k + 1, if k + 1 <= i then k + 1 else k + 2;
        assert now[k] == chain[a] && now[k + 1] == chain[b];
        if k != i {
          assert b == a + 1 && chain[a] != chain[i] && chain[b] != chain[i + 2];
          assert chain[a] in chain && chain[b] in chain && old(chain[a].next) == chain[b] &&
            old(chain[b].prev) == chain[a];
        }
      }
    }

    /** Link an entry in right after the head. */
    method Attach(node: Entry)
      requires node !in Chain() && NoDup(Chain()) && Linked(Chain())
      requires node in pool && forall e :: e in Chain() ==> e in pool
      modifies this`spine, pool
      ensures spine == [node] + old(spine) && NoDup(Chain()) && Linked(Chain())
      ensures forall e :: e in Chain() <==> e in old(Chain()) || e == node
      ensures forall e :: e in pool ==> e.key == old(e.key)
    {
      ghost var chain := Chain();
      assert head == chain[0] && head.next == chain[1];
      node.next := head.next;
      node.prev := head;
      head.next := node;
      node.next.prev := node;
      spine := [node] + spine;
      ghost var now := Chain();
      assert now == [head, node] + chain[1..];
      forall k | 0 <= k < |now| - 1
        ensures now[k].next == now[k + 1] && now[k + 1].prev == now[k]
      {
        if k >= 2 {
          assert now[k] == chain[k - 1] && now[k + 1] == chain[k];
          assert chain[k - 1] != chain[0] && chain[k] != chain[1] && chain[k - 1] in chain && chain[k] in chain;
          assert old(chain[k - 1].next) == chain[k] && old(chain[k].prev) == chain[k - 1];
        }
      }
      forall a, b | 0 <= a < b < |now|
        ensures now[a] != now[b]
      {
        assert a != 1 ==> now[a] in chain;
        assert b != 1 ==> now[b] in chain;
      }
    }

    method MoveToFront(node: Entry, ghost i: nat)
      requires WellLinked() && i < |spine| == |listed| && node == spine[i]
      modifies this`spine, this`listed, pool
      ensures WellLinked() && spine == [node] + TakeOut(old(spine), i)
      ensures listed == [old(listed)[i]] + TakeOut(old(listed), i)
      ensures forall e :: e in pool ==> e.key == old(e.key)
    {
      assert node == Chain()[i + 1];
      Detach(node, i);
      Attach(node);
      listed := [listed[i]] + TakeOut(listed, i);
    }

    /** update: move a listed page to the front. */
    method Update(page: Page)
      requires Valid() && page in listed
      modifies this`spine, this`listed, this`ops, pool
      ensures Valid() && listed == Touched(old(listed), page) && ops == old(ops) + [Touch(page)]
    {
      hide Possible, RunOps, WellLinked, Indexed, NoDup, TakeOut;
      ghost var i: nat :| i < |listed| && listed[i] == page;
      EntryOf(i);
      ListedIsDistinct();
      TakeOutIsWithout(listed, i);
      RunSnoc(ops, Touch(page), maxEntries);
      var node := table[Some(page)];
      UpdateAt(node, i);
      ops := ops + [Touch(page)];
    }

    method UpdateAt(node: Entry, ghost i: nat)
      requires WellLinked() && Indexed() && NoDup(listed) && i < |spine| && node == spine[i]
      modifies this`spine, this`listed, pool
      ensures WellLinked() && Indexed() && listed == [old(listed)[i]] + TakeOut(old(listed), i)
    {
      hide WellLinked, Linked, TakeOut, Found;
      ghost var s0, p0 := spine, listed;
      MoveToFront(node, i);
      MovedFrom(s0, i);
      MovedFrom(p0, i);
      FoundMoves(table, s0, p0, evicted, i);
    }

    /** insert: a new page goes to the front, on a free entry or, when there is
        none, on the entry of the last page. The source asserts that the table
        does not hold the key yet; a refused key is that failure. */
    method Insert(page: Page) returns (ok: bool)
      requires Valid() && maxEntries > 0
      modifies this, pool
      ensures Valid()
      ensures ok <==> page !in old(listed) && page !in old(evicted)
      ensures !ok ==> listed == old(listed) && ops == old(ops) && table == old(table) && freeEntries == old(freeEntries)
      ensures ok ==> listed == Added(old(listed), page, old(freeEntries) == []) && ops == old(ops) + [Add(page)]
      ensures evicted == old(evicted)
    {
      hide Possible, RunOps, Linked;
      ok := Some(page) !in table;
      if !ok {
        return;
      }
      ListedIsDistinct();
      RunSnoc(ops, Add(page), maxEntries);
      var node;
      if freeEntries != [] {
        node := freeEntries[|freeEntries| - 1];
        freeEntries := freeEntries[..|freeEntries| - 1];
      } else {
        node := TakeLast();
      }
      Place(node, page);
      ops := ops + [Add(page)];
    }

    /** Unlink the last entry and erase its key, for reuse. */
    method TakeLast() returns (node: Entry)
      requires WellLinked() && Indexed() && NoDup(listed) && listed != []
      modifies this`table, this`spine, this`listed, pool
      ensures listed == old(listed)[..|old(listed)| - 1] && node.key == Some(old(listed)[|old(listed)| - 1])
      ensures table.Keys == old(table.Keys) - {Some(old(listed)[|old(listed)| - 1])}
      ensures Spare(node)
    {
      ghost var n := |spine| - 1;
      node := TakeLastEntry();
      table := table - {node.key};
      listed := listed[..n];
    }

    /** Everything is in order except that one entry is neither listed nor free. */
    ghost predicate Spare(node: Entry)
      reads this, pool
    {
      && node in pool && node !in Chain() && node !in freeEntries
      && (forall e :: e in Chain() ==> e in pool)
      && (forall e :: e in freeEntries ==> e in pool && e !in Chain())
      && NoDup(Chain()) && NoDup(freeEntries) && Linked(Chain())
      && |spine| + |freeEntries| + 1 == maxEntries
      && Indexed()
    }

    /** Link the spare entry in front under a new key. */
    method Place(node: Entry, page: Page)
      requires Spare(node) && Some(page) !in table
      modifies this`table, this`spine, this`listed, pool
      ensures WellLinked() && Indexed() && listed == [page] + old(listed)
      ensures table.Keys == old(table.Keys) + {Some(page)}
    {
      hide Linked, Found;
      FoundPlaced(table, spine, listed, evicted, node, page);
      node.key := Some(page);
      Attach(node);
      table := table[Some(page) := node];
      listed := [page] + listed;
    }

    /** Unlink the entry in front of the tail. */
    method TakeLastEntry() returns (node: Entry)
      requires WellLinked() && Indexed() && NoDup(listed) && listed != []
      modifies this`spine, pool
      ensures node == old(spine)[|old(spine)| - 1] && spine == old(spine)[..|old(spine)| - 1]
      ensures NoDup(Chain()) && Linked(Chain()) && (forall e :: e in Chain() <==> e in old(Chain()) && e != node)
      ensures node in old(Chain()) && forall e :: e in pool ==> e.key == old(e.key)
    {
      ghost var n := |spine| - 1;
      assert tail == Chain()[n + 2] && tail.prev == Chain()[n + 1];
      node := tail.prev;
      Detach(node, n);
    }

    /** getVictim. As written the entry's key is overwritten before it is used to erase
        the table, so the victim's own key stays behind; as intended it is erased. */
    method GetVictim() returns (victim: Page)
      requires Valid() && listed != []
      modifies this, pool
      ensures Valid() && ops == old(ops) + [Evict]
      ensures victim == old(listed)[|old(listed)| - 1] && listed == old(listed)[..|old(listed)| - 1]
      ensures evicted == if erases then old(evicted) else old(evicted) + {victim}
      ensures table.Keys == if erases then old(table.Keys) - {Some(victim)} else old(table.Keys)
      ensures forall q :: q in old(listed) ==> LastUse(UsesPage, old(ops), victim) <= LastUse(UsesPage, old(ops), q)
    {
      hide Possible, RunOps, LastUse, WellLinked, Indexed;
      forall q | q in listed
        ensures LastUse(UsesPage, ops, listed[|listed| - 1]) <= LastUse(UsesPage, ops, q)
      {
        LastIsLeastRecentlyUsed(q);
      }
      RunSnoc(ops, Evict, maxEntries);
      victim := TakeVictim();
      ops := ops + [Evict];
    }

    method TakeVictim() returns (victim: Page)
      requires WellLinked() && Indexed() && listed != []
      modifies this`table, this`freeEntries, this`spine, this`listed, this`evicted, pool
      ensures WellLinked() && Indexed()
      ensures victim == old(listed)[|old(listed)| - 1] && listed == old(listed)[..|old(listed)| - 1]
      ensures evicted == if erases then old(evicted) else old(evicted) + {victim}
      ensures table.Keys == if erases then old(table.Keys) - {Some(victim)} else old(table.Keys)
    {
      ListedIsDistinct();
      var node;
      if erases {
        node := TakeLast();
        victim := node.key.value;
      } else {
        victim, node := TakeLastAsWritten();
      }
      Free(node);
    }

    /** Unlink the last entry, but overwrite its key before erasing it. */
    method TakeLastAsWritten() returns (victim: Page, node: Entry)
      requires WellLinked() && Indexed() && NoDup(listed) && listed != []
      modifies this`table, this`spine, this`listed, this`evicted, pool
      ensures Spare(node) && table.Keys == old(table.Keys) && evicted == old(evicted) + {victim}
      ensures victim == old(listed)[|old(listed)| - 1] && listed == old(listed)[..|old(listed)| - 1]
    {
      hide Linked, Found;
      node := TakeLastEntry();
      ghost var n := |listed| - 1;
      FoundEvicts(table, old(spine), listed, evicted);
      victim := node.key.value;
      node.key := None;
      table := table - {node.key};
      listed, evicted := listed[..n], evicted + {victim};
    }

    /** Put a spare entry back among the free ones. */
    method Free(node: Entry)
      requires Spare(node)
      modifies this`freeEntries, node
      ensures WellLinked() && Indexed()
    {
      hide Found;
      NoDupAppend(freeEntries, [node]);
      node.key := None;
      freeEntries := freeEntries + [node];
    }
  }

  /** The consequence of the stale key: a page that was given up as a victim is
      refused when it comes back, whatever the page. */
  method VictimCannotReturn(page: Page) returns (first: bool, again: bool)
    ensures first && !again
  {
    var u := new Unit(1, false);
    first := u.Insert(page);
    var victim := u.GetVictim();
    again := u.Insert(victim);
  }

  /** With its key erased the page is taken again. */
  method ErasedVictimReturns(page: Page) returns (first: bool, again: bool)
    ensures first && again
  {
    var u := new Unit(1, true);
    first := u.Insert(page);
    var victim := u.GetVictim();
    again := u.Insert(victim);
  }

  /** Where position k of the list was before position i moved to the front. */
  function From(i: nat, k: nat): nat {
    if k == 0 then i else if k <= i then k - 1 else k
  }

  lemma MovedFrom<T>(s: seq<T>, i: nat)
    requires i < |s|
    ensures var m := [s[i]] + TakeOut(s, i);
      |m| == |s| && forall k :: 0 <= k < |m| ==> From(i, k) < |s| && m[k] == s[From(i, k)]
  {
  }

  /** The list loses its last page; its key stays in the table or is erased. */
  lemma FoundEvicts(table: map<Option<Page>, Entry>, spine: seq<Entry>, listed: seq<Page>, evicted: set<Page>)
    requires |spine| == |listed| > 0 && NoDup(listed) && Found(table, spine, listed, evicted)
    ensures var n := |spine| - 1;
      && table - {None} == table && Found(table - {None}, spine[..n], listed[..n], evicted + {listed[n]})
      && Found(table - {Some(listed[n])}, spine[..n], listed[..n], evicted)
  {
    var n := |spine| - 1;
    assert listed == listed[..n] + [listed[n]];
    assert listed[n] !in listed[..n];
  }

  /** A new page in front, found at its entry. */
  lemma FoundPlaced(table: map<Option<Page>, Entry>, spine: seq<Entry>, listed: seq<Page>, evicted: set<Page>,
                    node: Entry, page: Page)
    requires |spine| == |listed| && Found(table, spine, listed, evicted) && Some(page) !in table
    ensures Found(table[Some(page) := node], [node] + spine, [page] + listed, evicted)
  {
    var t, s, l := table[Some(page) := node], [node] + spine, [page] + listed;
    forall i | 0 <= i < |s|
      ensures Some(l[i]) in t && t[Some(l[i])] == s[i]
    {
      if i > 0 {
        assert l[i] == listed[i - 1] && s[i] == spine[i - 1];
      }
    }
  }

  lemma FoundMoves(table: map<Option<Page>, Entry>, spine: seq<Entry>, listed: seq<Page>, evicted: set<Page>, i: nat)
    requires |spine| == |listed| && i < |spine| && NoDup(listed) && Found(table, spine, listed, evicted)
    ensures Found(table, [spine[i]] + TakeOut(spine, i), [listed[i]] + TakeOut(listed, i), evicted)
  {
    MovedFrom(spine, i);
    MovedFrom(listed, i);
    TakeOutAbsent(listed, i);
    assert forall q :: q in [listed[i]] + TakeOut(listed, i) <==> q in listed;
  }

  lemma {:induction false} TakeOutIsWithout(r: seq<Page>, i: nat)
    requires NoDup(r) && i < |r|
    ensures TakeOut(r, i) == Without(r, [r[i]])
  {
    var front, last := r[..|r| - 1], r[|r| - 1];
    assert r == front + [last];
    if i == |r| - 1 {
      WithoutAbsent(front, [r[i]]);
      assert TakeOut(r, i) == front;
    } else {
      TakeOutIsWithout(front, i);
      assert TakeOut(r, i) == TakeOut(front, i) + [last];
    }
  }
}
