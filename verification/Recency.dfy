/** A duplicate-free list of pages, most recently used first: what the
    replacement unit's linked list stands for. */
module Recency {
  import opened Lists

  datatype Page = Page(number: nat, pid: int)

  datatype Op = Touch(page: Page) | Add(page: Page) | Evict

  /** Move a listed page to the front. */
  function Touched(r: seq<Page>, p: Page): seq<Page> {
    [p] + Without(r, [p])
  }

  /** Put a new page in front; a full list first loses its last page. */
  function Added(r: seq<Page>, p: Page, full: bool): seq<Page>
    requires full ==> r != []
  {
    [p] + if full then r[..|r| - 1] else r
  }

  predicate Enabled(r: seq<Page>, op: Op, capacity: nat) {
    match op
    case Touch(p) => p in r
    case Add(p) => p !in r && capacity > 0
    case Evict => r != []
  }

  function Apply(r: seq<Page>, op: Op, capacity: nat): seq<Page>
    requires Enabled(r, op, capacity)
  {
    match op
    case Touch(p) => Touched(r, p)
    case Add(p) => Added(r, p, |r| == capacity)
    case Evict => r[..|r| - 1]
  }

  lemma TouchedMembers(r: seq<Page>, p: Page)
    requires NoDup(r) && p in r
    ensures NoDup(Touched(r, p)) && |Touched(r, p)| == |r|
    ensures forall q :: q in Touched(r, p) <==> q in r
  {
    WithoutOne(r, p);
    NoDupAppend([p], Without(r, [p]));
    assert |multiset(r)| == |multiset(Without(r, [p]))| + 1;
    assert forall q :: q in Touched(r, p) <==> q == p || q in Without(r, [p]);
  }

  lemma ApplyKeeps(r: seq<Page>, op: Op, capacity: nat)
    requires NoDup(r) && |r| <= capacity && Enabled(r, op, capacity)
    ensures NoDup(Apply(r, op, capacity)) && |Apply(r, op, capacity)| <= capacity
  {
    match op
    case Touch(p) => TouchedMembers(r, p);
    case Add(p) => NoDupAppend([p], if |r| == capacity then r[..|r| - 1] else r);
    case Evict =>
  }

  // ----- runs: the list is ordered by last use

  /** The list after a run of operations on an empty unit. */
  function RunOps(ops: seq<Op>, capacity: nat): seq<Page> {
    if ops == [] then []
    else
      var r, op := RunOps(ops[..|ops| - 1], capacity), ops[|ops| - 1];
      if Enabled(r, op, capacity) then Apply(r, op, capacity) else r
  }

  /** Every operation meets its precondition: updates and evictions of listed
      pages, insertions of new ones. */
  predicate Possible(ops: seq<Op>, capacity: nat) {
    ops == [] ||
    (Possible(ops[..|ops| - 1], capacity) && Enabled(RunOps(ops[..|ops| - 1], capacity), ops[|ops| - 1], capacity))
  }

  /** One more operation. */
  lemma RunSnoc(ops: seq<Op>, op: Op, capacity: nat)
    ensures Possible(ops + [op], capacity) <==> Possible(ops, capacity) && Enabled(RunOps(ops, capacity), op, capacity)
    ensures Enabled(RunOps(ops, capacity), op, capacity) ==>
      RunOps(ops + [op], capacity) == Apply(RunOps(ops, capacity), op, capacity)
  {
    assert (ops + [op])[..|ops|] == ops;
  }

  lemma {:induction false} RunKeeps(ops: seq<Op>, capacity: nat)
    requires Possible(ops, capacity)
    ensures NoDup(RunOps(ops, capacity)) && |RunOps(ops, capacity)| <= capacity
  {
    if ops != [] {
      var n := |ops| - 1;
      RunKeeps(ops[..n], capacity);
      ApplyKeeps(RunOps(ops[..n], capacity), ops[n], capacity);
    }
  }

  /** The operation inserts or updates the page. */
  predicate UsesPage(op: Op, p: Page) {
    op == Touch(p) || op == Add(p)
  }

  /** In every run the list holds the pages by decreasing last use, so the page
      that Evict gives up is the least recently inserted or updated one. */
  lemma {:induction false} OrderedByLastUse(ops: seq<Op>, capacity: nat)
    requires Possible(ops, capacity)
    ensures ByLastUse(UsesPage, ops, RunOps(ops, capacity))
  {
    hide ByLastUse, LastUse;
    if ops == [] {
      NothingListed();
    } else {
      var n := |ops| - 1;
      var r := RunOps(ops[..n], capacity);
      OrderedByLastUse(ops[..n], capacity);
      RunKeeps(ops[..n], capacity);
      assert ops == ops[..n] + [ops[n]];
      match ops[n] {
        case Touch(p) =>
          WithoutByLastUse(UsesPage, ops[..n], r, p);
          UseFront(UsesPage, ops[..n], ops[n], p, Without(r, [p]));
        case Add(p) =>
          ShorterByLastUse(ops[..n], r);
          UseFront(UsesPage, ops[..n], ops[n], p, if |r| == capacity then r[..|r| - 1] else r);
        case Evict =>
          ShorterByLastUse(ops[..n], r);
          UseNone(UsesPage, ops[..n], ops[n], r[..|r| - 1]);
      }
    }
  }

  lemma NothingListed()
    ensures ByLastUse(UsesPage, [], [])
  {
  }

  lemma ShorterByLastUse(ops: seq<Op>, r: seq<Page>)
    requires ByLastUse(UsesPage, ops, r)
    ensures r != [] ==> ByLastUse(UsesPage, ops, r[..|r| - 1])
  {
    hide LastUse;
  }

  /** The page given up next is the least recently inserted or updated one listed. */
  lemma {:induction false} VictimIsLeastRecent(ops: seq<Op>, capacity: nat, q: Page)
    requires Possible(ops, capacity) && q in RunOps(ops, capacity)
    ensures var r := RunOps(ops, capacity); LastUse(UsesPage, ops, r[|r| - 1]) <= LastUse(UsesPage, ops, q)
  {
    OrderedByLastUse(ops, capacity);
    var r := RunOps(ops, capacity);
    var i :| 0 <= i < |r| && r[i] == q;
    assert i < |r| - 1 ==> LastUse(UsesPage, ops, r[i]) > LastUse(UsesPage, ops, r[|r| - 1]);
  }
}
