/** Choosing the next request of a bank: FCFS and FR-FCFS. */
module DramPolicy {
  import opened Lists
  import opened DramTypes

  /** `int current_rid = m_current_rid[bid]`, compared with a 64-bit row id:
      the low 32 bits, sign-extended. */
  function SeenRow(openRow: nat): nat {
    var low := openRow % 0x1_0000_0000;
    if low < 0x8000_0000 then low else 0xFFFF_FFFF_0000_0000 + low
  }

  /** The narrowing is harmless exactly for the open rows that fit a signed
      32-bit integer; the closed marker is one of them. */
  lemma {:induction false} NarrowingIsExact(openRow: nat)
    requires openRow <= NEVER
    ensures SeenRow(openRow) == openRow <==> openRow < 0x8000_0000 || openRow >= 0xFFFF_FFFF_8000_0000
    ensures SeenRow(NEVER) == NEVER
  {
  }

  /** sort_func::operator() */
  predicate Before(openRow: nat, a: Entry, b: Entry) {
    if a.req.kind != Prefetch && b.req.kind == Prefetch then true
    else if a.req.kind == Prefetch && b.req.kind != Prefetch then false
    else if a.row == SeenRow(openRow) && b.row != SeenRow(openRow) then true
    else if a.row != SeenRow(openRow) && b.row == SeenRow(openRow) then false
    else a.timestamp < b.timestamp
  }

  /** Neither entry is preferred. */
  predicate Tied(openRow: nat, a: Entry, b: Entry) {
    !Before(openRow, a, b) && !Before(openRow, b, a)
  }

  /** What the order means, read off the requests instead of the branches. */
  ghost predicate Preferred(openRow: nat, a: Entry, b: Entry) {
    var demand := (e: Entry) => if e.req.kind == Prefetch then 1 else 0;
    var hit := (e: Entry) => if e.row == SeenRow(openRow) then 0 else 1;
    || demand(a) < demand(b)
    || (demand(a) == demand(b) && hit(a) < hit(b))
    || (demand(a) == demand(b) && hit(a) == hit(b) && a.timestamp < b.timestamp)
  }

  lemma {:induction false} BeforeIsPreferred(openRow: nat, a: Entry, b: Entry)
    ensures Before(openRow, a, b) <==> Preferred(openRow, a, b)
  {
  }

  /** list::sort needs a strict weak order. */
  lemma {:induction false} BeforeIsStrictWeakOrder(openRow: nat, a: Entry, b: Entry, c: Entry)
    ensures !Before(openRow, a, a)
    ensures Before(openRow, a, b) && Before(openRow, b, c) ==> Before(openRow, a, c)
    ensures Tied(openRow, a, b) && Tied(openRow, b, c) ==> Tied(openRow, a, c)
  {
  }

  /** Stable insertion from the right, the effect of list::sort on one element. */
  function Place(openRow: nat, s: seq<Entry>, e: Entry): seq<Entry> {
    if s == [] then [e]
    else
      var front, last := s[..|s| - 1], s[|s| - 1];
      if Before(openRow, e, last) then Place(openRow, front, e) + [last] else s + [e]
  }

  function SortEntries(openRow: nat, s: seq<Entry>): seq<Entry> {
    if s == [] then [] else Place(openRow, SortEntries(openRow, s[..|s| - 1]), s[|s| - 1])
  }

  ghost predicate Sorted(openRow: nat, s: seq<Entry>) {
    forall i, j :: 0 <= i < j < |s| ==> !Before(openRow, s[j], s[i])
  }

  lemma {:induction false} PlacePermutes(openRow: nat, s: seq<Entry>, e: Entry)
    ensures multiset(Place(openRow, s, e)) == multiset(s) + multiset{e}
    ensures |Place(openRow, s, e)| == |s| + 1
    ensures forall x :: x in Place(openRow, s, e) ==> x in s || x == e
  {
    if s != [] {
      assert s == s[..|s| - 1] + [s[|s| - 1]];
      PlacePermutes(openRow, s[..|s| - 1], e);
    }
  }

  lemma {:induction false} PlaceSorts(openRow: nat, s: seq<Entry>, e: Entry)
    requires Sorted(openRow, s)
    ensures Sorted(openRow, Place(openRow, s, e))
  {
    if s != [] {
      var front, last := s[..|s| - 1], s[|s| - 1];
      if Before(openRow, e, last) {
        PlaceSorts(openRow, front, e);
        PlacePermutes(openRow, front, e);
        SortedSnoc(openRow, Place(openRow, front, e), last);
      } else {
        SortedSnoc(openRow, s, e);
      }
    }
  }

  lemma SortedSnoc(openRow: nat, s: seq<Entry>, e: Entry)
    requires Sorted(openRow, s) && forall x :: x in s ==> !Before(openRow, e, x)
    ensures Sorted(openRow, s + [e])
  {
  }

  /** The list after sort: a permutation in which nothing is preferred to an
      earlier entry. */
  lemma {:induction false} SortEntriesSorts(openRow: nat, s: seq<Entry>)
    ensures Sorted(openRow, SortEntries(openRow, s))
    ensures multiset(SortEntries(openRow, s)) == multiset(s)
    ensures |SortEntries(openRow, s)| == |s|
  {
    if s != [] {
      SortEntriesSorts(openRow, s[..|s| - 1]);
      PlaceSorts(openRow, SortEntries(openRow, s[..|s| - 1]), s[|s| - 1]);
      PlacePermutes(openRow, SortEntries(openRow, s[..|s| - 1]), s[|s| - 1]);
      assert s == s[..|s| - 1] + [s[|s| - 1]];
    }
  }

  /** The buffer as schedule() leaves it, with the chosen entry in front. */
  function Ordered(frfcfs: bool, openRow: nat, buffer: seq<Entry>): seq<Entry> {
    if frfcfs then SortEntries(openRow, buffer) else buffer
  }

  lemma OrderedPermutes(frfcfs: bool, openRow: nat, buffer: seq<Entry>)
    ensures multiset(Ordered(frfcfs, openRow, buffer)) == multiset(buffer)
    ensures |Ordered(frfcfs, openRow, buffer)| == |buffer|
    ensures forall e :: e in Ordered(frfcfs, openRow, buffer) <==> e in buffer
  {
    SortEntriesSorts(openRow, buffer);
    assert forall e :: e in Ordered(frfcfs, openRow, buffer) <==> e in multiset(Ordered(frfcfs, openRow, buffer));
    assert forall e :: e in buffer <==> e in multiset(buffer);
  }

  /** The pick is not worse than e: a demand before a prefetch, then a hit on the
      open row before a miss, then the older one. */
  predicate Beats(openRow: nat, pick: Entry, e: Entry) {
    && (pick.req.kind == Prefetch ==> e.req.kind == Prefetch)
    && ((pick.req.kind == Prefetch <==> e.req.kind == Prefetch) ==>
          && (e.row == openRow ==> pick.row == openRow)
          && ((e.row == openRow <==> pick.row == openRow) ==> pick.timestamp <= e.timestamp))
  }

  /** FR-FCFS picks an entry of the buffer that no other entry beats, whenever the
      open row survives the narrowing. */
  lemma {:induction false} FrFcfsPick(openRow: nat, buffer: seq<Entry>, e: Entry)
    requires e in buffer && openRow <= NEVER
    requires openRow < 0x8000_0000 || openRow >= 0xFFFF_FFFF_8000_0000
    ensures SortEntries(openRow, buffer) != []
    ensures SortEntries(openRow, buffer)[0] in buffer && Beats(openRow, SortEntries(openRow, buffer)[0], e)
  {
    SortEntriesSorts(openRow, buffer);
    OrderedPermutes(true, openRow, buffer);
    NarrowingIsExact(openRow);
    var s := SortEntries(openRow, buffer);
    var k :| 0 <= k < |s| && s[k] == e;
    assert k == 0 || !Before(openRow, s[k], s[0]);
  }

  /** For every open row that the narrowing changes, a hit on it loses to any older
      miss of the same class, unless the miss is on the row seen instead. */
  lemma {:induction false} WideRowsMissTheOpenRow(openRow: nat, hit: Entry, miss: Entry)
    requires 0x8000_0000 <= openRow < 0xFFFF_FFFF_8000_0000
    requires hit.row == openRow && miss.row != openRow && miss.row != SeenRow(openRow)
    requires hit.req.kind == miss.req.kind && miss.timestamp < hit.timestamp
    ensures SortEntries(openRow, [hit, miss]) == [miss, hit] && !Beats(openRow, miss, hit)
  {
    NarrowingIsExact(openRow);
    var s := [hit, miss];
    assert s[..1] == [hit] && [hit][..0] == [];
    assert SortEntries(openRow, [hit]) == [hit];
    assert Before(openRow, miss, hit);
    assert Place(openRow, [hit], miss) == [miss] + [hit];
  }

  ghost predicate PicksBest(openRow: nat, buffer: seq<Entry>) {
    var s := SortEntries(openRow, buffer);
    s != [] && forall e :: e in buffer ==> Beats(openRow, s[0], e)
  }

  /** The pick of every buffer is the best of it exactly for the open rows that fit a
      signed 32-bit integer. */
  lemma {:induction false} PicksBestIffNarrow(openRow: nat)
    requires openRow <= NEVER
    ensures (forall buffer: seq<Entry> :: buffer != [] ==> PicksBest(openRow, buffer)) <==>
            openRow < 0x8000_0000 || openRow >= 0xFFFF_FFFF_8000_0000
  {
    if openRow < 0x8000_0000 || openRow >= 0xFFFF_FFFF_8000_0000 {
      forall buffer: seq<Entry> | buffer != []
        ensures PicksBest(openRow, buffer)
      {
        forall e | e in buffer
          ensures Beats(openRow, SortEntries(openRow, buffer)[0], e)
        {
          FrFcfsPick(openRow, buffer, e);
        }
        FrFcfsPick(openRow, buffer, buffer[0]);
      }
    } else {
      var other := if SeenRow(openRow) == 0 then 1 else 0;
      var req := Req(0, 0, Fetch, 0, false);
      var hit, miss := Entry(0, 0, req, openRow, 1, 0, Init), Entry(1, 1, req, other, 0, 0, Init);
      WideRowsMissTheOpenRow(openRow, hit, miss);
      assert hit in [hit, miss] && !PicksBest(openRow, [hit, miss]);
    }
  }
}
