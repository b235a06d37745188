/** What each phase of a controller cycle does to one bank. */
module DramBank {
  import opened Lists
  import opened DramTypes
  import opened DramPolicy

  function ReqOf(e: Entry): Req { e.req }
  function SlotOf(e: Entry): nat { e.slot }
  predicate IsPrefetch(e: Entry) { e.req.kind == Prefetch }
  predicate IsWriteBack(r: Req) { r.kind == WriteBack }
  function AtAddress(addr: nat): Entry -> bool { (e: Entry) => e.req.addr == addr }

  // ----- the phases

  /** The command the channel issues to its chosen bank: activate a closed
      bank, access the open row, or precharge a bank with another row open. */
  function Issue(cfg: Config, b: Bank, cycle: nat): Bank
    requires Waiting(b)
  {
    var e := b.current.value;
    if b.openRow == NEVER then
      b.(openRow := e.row, bankReady := cycle + cfg.activate, dataAvail := NEVER,
         current := Some(e.(phase := CmdWait)))
    else if e.row == b.openRow then
      b.(bankReady := cycle + cfg.column, dataAvail := cycle + cfg.column,
         current := Some(e.(phase := Data)))
    else
      b.(openRow := NEVER, bankReady := cycle + cfg.precharge, dataAvail := NEVER,
         current := Some(e.(phase := CmdWait)))
  }

  /** The bank holds data that the bus may take. */
  predicate DataPending(b: Bank, cycle: nat) {
    b.current.Some? && b.current.value.phase == Data && b.dataAvail <= cycle
  }

  function GrantData(b: Bank, ready: nat): Bank
    requires b.current.Some?
  {
    b.(dataReady := ready, dataAvail := NEVER, current := Some(b.current.value.(phase := DataWait)))
  }

  predicate Finished(b: Bank, cycle: nat) {
    b.current.Some? && b.dataReady <= cycle
  }

  /** The buffered entries that complete together with the current one. */
  function Merged(cfg: Config, b: Bank): seq<Entry>
    requires b.current.Some?
  {
    if cfg.merge then Select(AtAddress(b.current.value.req.addr), true, b.buffer) else []
  }

  /** All entries that complete in this bank, in completion order. */
  function Done(cfg: Config, b: Bank, cycle: nat): seq<Entry> {
    if Finished(b, cycle) then Merged(cfg, b) + [b.current.value] else []
  }

  /** The bank after bank_schedule_complete. */
  function Complete(cfg: Config, b: Bank, cycle: nat): Bank {
    if Finished(b, cycle) then
      b.(buffer := if cfg.merge then Select(AtAddress(b.current.value.req.addr), false, b.buffer) else b.buffer,
         free := b.free + Map(SlotOf, Done(cfg, b, cycle)),
         current := None,
         dataReady := NEVER)
    else b
  }

  /** The completed requests that travel back, and the write-backs that end here. */
  function Delivered(cfg: Config, b: Bank, cycle: nat): seq<Req> {
    Select(IsWriteBack, false, Map(ReqOf, Done(cfg, b, cycle)))
  }

  function Retired(cfg: Config, b: Bank, cycle: nat): seq<Req> {
    Select(IsWriteBack, true, Map(ReqOf, Done(cfg, b, cycle)))
  }

  /** The bank after bank_schedule_new: start the chosen request when idle,
      return to the command phase when the previous command has elapsed. */
  function Advance(cfg: Config, b: Bank, cycle: nat): Bank {
    if b.current.None? then
      if b.buffer == [] then b
      else
        OrderedPermutes(cfg.frfcfs, b.openRow, b.buffer);
        var queue := Ordered(cfg.frfcfs, b.openRow, b.buffer);
        b.(buffer := queue[1..],
           current := Some(queue[0].(phase := Cmd, scheduled := cycle)),
           bankReady := NEVER,
           timestamp := cycle)
    else if b.bankReady <= cycle && b.current.value.phase == CmdWait then
      b.(bankReady := NEVER, current := Some(b.current.value.(phase := Cmd)), timestamp := cycle)
    else b
  }

  /** The bank after flush_prefetch. */
  function Flush(b: Bank): Bank {
    b.(buffer := Select(IsPrefetch, false, b.buffer),
       free := b.free + Map(SlotOf, Select(IsPrefetch, true, b.buffer)))
  }

  function Flushed(b: Bank): seq<Req> {
    Map(ReqOf, Select(IsPrefetch, true, b.buffer))
  }

  /** insert_req_in_drb */
  function Enqueue(b: Bank, r: Req, row: nat, cycle: nat, id: nat): Bank
    requires b.free != []
  {
    b.(free := b.free[1..], buffer := b.buffer + [Entry(b.free[0], id, r, row, cycle, 0, Init)])
  }

  // ----- what a bank holds

  ghost function CurrentReq(b: Bank): multiset<Req> {
    if b.current.Some? then multiset{b.current.value.req} else multiset{}
  }

  ghost function CurrentSlot(b: Bank): multiset<nat> {
    if b.current.Some? then multiset{b.current.value.slot} else multiset{}
  }

  /** The requests of a bank: buffered or being served. */
  ghost function Held(b: Bank): multiset<Req> {
    multiset(Map(ReqOf, b.buffer)) + CurrentReq(b)
  }

  /** The entries of a bank's pool: free, buffered or being served. */
  ghost function SlotsOf(b: Bank): multiset<nat> {
    multiset(b.free) + multiset(Map(SlotOf, b.buffer)) + CurrentSlot(b)
  }

  function Load(b: Bank): nat {
    |b.buffer| + if b.current.Some? then 1 else 0
  }

  /** One copy of each entry of a pool of the given size. */
  ghost function WholePool(size: nat): multiset<nat> {
    if size == 0 then multiset{} else WholePool(size - 1) + multiset{size - 1}
  }

  lemma {:induction false} WholePoolCount(size: nat, slot: nat)
    ensures WholePool(size)[slot] == if slot < size then 1 else 0
    ensures |WholePool(size)| == size
  {
    if size > 0 {
      WholePoolCount(size - 1, slot);
    }
  }

  /** The timers agree with the state of the request being served. */
  ghost predicate TimersAgree(b: Bank) {
    && b.openRow <= NEVER
    && (forall e :: e in b.buffer ==> e.row < NEVER)
    && (b.dataReady < NEVER ==> b.current.Some? && b.current.value.phase == DataWait)
    && (b.current.Some? ==>
          var e := b.current.value;
          && e.phase != Init
          && e.row < NEVER
          && (e.phase == Cmd ==> b.bankReady == NEVER)
          && (e.phase == CmdWait ==> b.openRow == e.row || b.openRow == NEVER)
          && (e.phase == Data || e.phase == DataWait ==> b.openRow == e.row))
  }

  /** Every pool entry is in exactly one place, and the timers agree. */
  ghost predicate BankInv(cfg: Config, b: Bank) {
    SlotsOf(b) == WholePool(cfg.poolSize) && TimersAgree(b)
  }

  lemma {:induction false} PoolIsConstant(cfg: Config, b: Bank)
    requires BankInv(cfg, b)
    ensures |b.free| + Load(b) == cfg.poolSize
    ensures NoDup(b.free)
  {
    WholePoolCount(cfg.poolSize, 0);
    assert |SlotsOf(b)| == |b.free| + Load(b);
    forall slot | slot in b.free
      ensures multiset(b.free)[slot] <= 1
    {
      WholePoolCount(cfg.poolSize, slot);
      assert multiset(b.free)[slot] <= SlotsOf(b)[slot];
    }
    NoDupByCount(b.free);
  }

  // ----- each phase accounts for every pool entry and every request

  lemma {:induction false} IssueKeeps(cfg: Config, b: Bank, cycle: nat)
    requires BankInv(cfg, b) && Waiting(b)
    ensures BankInv(cfg, Issue(cfg, b, cycle))
    ensures Held(Issue(cfg, b, cycle)) == Held(b)
  {
  }

  /** The asserts on the bank state never fire: only a request that waits for
      its data completes, with its own row open. */
  lemma {:induction false} CompletionImpliesDataWait(b: Bank, cycle: nat)
    requires TimersAgree(b) && cycle < NEVER && Finished(b, cycle)
    ensures b.current.value.phase == DataWait
    ensures b.openRow == b.current.value.row
  {
  }

  /** For any attribute f of entries (request or pool slot): what the bank holds
      is what it keeps plus what completes. */
  lemma CompleteSplits<U>(f: Entry -> U, cfg: Config, b: Bank, cycle: nat)
    requires Finished(b, cycle)
    ensures multiset(Map(f, b.buffer)) + multiset{f(b.current.value)}
         == multiset(Map(f, Complete(cfg, b, cycle).buffer)) + multiset(Map(f, Done(cfg, b, cycle)))
  {
    var e := b.current.value;
    if cfg.merge {
      MapSelectSplits(f, AtAddress(e.req.addr), b.buffer);
    }
    MapAppend(f, Merged(cfg, b), [e]);
    assert Map(f, [e]) == [f(e)];
  }

  lemma CompleteSlots(cfg: Config, b: Bank, cycle: nat)
    ensures SlotsOf(Complete(cfg, b, cycle)) == SlotsOf(b)
  {
    if Finished(b, cycle) {
      CompleteSplits(SlotOf, cfg, b, cycle);
      var free, kept := multiset(b.free), multiset(Map(SlotOf, Complete(cfg, b, cycle).buffer));
      var done := Map(SlotOf, Done(cfg, b, cycle));
      var held := multiset(Map(SlotOf, b.buffer)) + multiset{SlotOf(b.current.value)};
      assert multiset(b.free + done) == free + multiset(done);
      assert (free + multiset(done)) + kept == free + (kept + multiset(done)) == free + held;
      assert SlotsOf(Complete(cfg, b, cycle)) == (free + multiset(done)) + kept;
    }
  }

  lemma {:induction false} CompleteKeeps(cfg: Config, b: Bank, cycle: nat)
    requires BankInv(cfg, b)
    ensures BankInv(cfg, Complete(cfg, b, cycle))
  {
    CompleteSlots(cfg, b, cycle);
    assert TimersAgree(Complete(cfg, b, cycle));
  }

  lemma {:induction false} CompleteAccounts(cfg: Config, b: Bank, cycle: nat)
    ensures Held(b) == Held(Complete(cfg, b, cycle))
                       + multiset(Delivered(cfg, b, cycle)) + multiset(Retired(cfg, b, cycle))
    ensures Load(b) == Load(Complete(cfg, b, cycle)) + |Done(cfg, b, cycle)|
  {
    SelectSplits(IsWriteBack, Map(ReqOf, Done(cfg, b, cycle)));
    if Finished(b, cycle) {
      CompleteSplits(ReqOf, cfg, b, cycle);
      SelectSplits(AtAddress(b.current.value.req.addr), b.buffer);
    }
  }

  lemma AdvanceSplits<U>(f: Entry -> U, cfg: Config, b: Bank)
    requires b.buffer != []
    ensures var queue := Ordered(cfg.frfcfs, b.openRow, b.buffer);
      |queue| == |b.buffer| && multiset(Map(f, b.buffer)) == multiset{f(queue[0])} + multiset(Map(f, queue[1..]))
  {
    var queue := Ordered(cfg.frfcfs, b.openRow, b.buffer);
    OrderedPermutes(cfg.frfcfs, b.openRow, b.buffer);
    MapPermutes(f, queue, b.buffer);
    assert queue == [queue[0]] + queue[1..];
    MapAppend(f, [queue[0]], queue[1..]);
    assert Map(f, [queue[0]]) == [f(queue[0])];
  }

  lemma {:induction false} AdvanceKeeps(cfg: Config, b: Bank, cycle: nat)
    requires BankInv(cfg, b)
    ensures BankInv(cfg, Advance(cfg, b, cycle))
  {
    if b.current.None? && b.buffer != [] {
      AdvanceSplits(SlotOf, cfg, b);
      OrderedPermutes(cfg.frfcfs, b.openRow, b.buffer);
    }
  }

  lemma AdvanceAccounts(cfg: Config, b: Bank, cycle: nat)
    ensures Held(Advance(cfg, b, cycle)) == Held(b)
    ensures Load(Advance(cfg, b, cycle)) == Load(b)
  {
    if b.current.None? && b.buffer != [] {
      AdvanceSplits(ReqOf, cfg, b);
    }
  }

  lemma FlushSlots(b: Bank)
    ensures SlotsOf(Flush(b)) == SlotsOf(b)
  {
    hide Select;
    MapSelectSplits(SlotOf, IsPrefetch, b.buffer);
    var out := multiset(Map(SlotOf, Select(IsPrefetch, true, b.buffer)));
    var kept := multiset(Map(SlotOf, Select(IsPrefetch, false, b.buffer)));
    FreedSlots(multiset(b.free), out, kept, CurrentSlot(b));
  }

  lemma FreedSlots(free: multiset<nat>, out: multiset<nat>, kept: multiset<nat>, current: multiset<nat>)
    ensures (free + out) + kept + current == free + (out + kept) + current
  {
  }

  lemma FlushHeld(b: Bank)
    ensures Held(b) == Held(Flush(b)) + multiset(Flushed(b))
    ensures Load(b) == Load(Flush(b)) + |Flushed(b)|
  {
    hide Select;
    MapSelectSplits(ReqOf, IsPrefetch, b.buffer);
    SelectSplits(IsPrefetch, b.buffer);
  }

  lemma {:induction false} FlushKeeps(cfg: Config, b: Bank)
    requires BankInv(cfg, b)
    ensures BankInv(cfg, Flush(b))
    ensures Held(b) == Held(Flush(b)) + multiset(Flushed(b))
    ensures Load(b) == Load(Flush(b)) + |Flushed(b)|
  {
    hide Select, SlotsOf, Held, Load, Flushed, WholePool;
    FlushSlots(b);
    FlushHeld(b);
  }

  lemma EnqueueSplits<U>(f: Entry -> U, b: Bank, e: Entry)
    ensures multiset(Map(f, b.buffer + [e])) == multiset(Map(f, b.buffer)) + multiset{f(e)}
  {
    assert Map(f, b.buffer + [e]) == Map(f, b.buffer) + [f(e)];
  }

  lemma EnqueueSlots(b: Bank, r: Req, row: nat, cycle: nat, id: nat)
    requires b.free != []
    ensures SlotsOf(Enqueue(b, r, row, cycle, id)) == SlotsOf(b)
  {
    var e := Entry(b.free[0], id, r, row, cycle, 0, Init);
    EnqueueSplits(SlotOf, b, e);
    assert b.free == [b.free[0]] + b.free[1..];
    var rest, slots := multiset(b.free[1..]), multiset(Map(SlotOf, b.buffer));
    assert multiset(b.free) == multiset{SlotOf(e)} + rest;
    assert rest + (slots + multiset{SlotOf(e)}) == (multiset{SlotOf(e)} + rest) + slots;
  }

  lemma {:induction false} EnqueueKeeps(cfg: Config, b: Bank, r: Req, row: nat, cycle: nat, id: nat)
    requires BankInv(cfg, b) && b.free != [] && row < NEVER
    ensures BankInv(cfg, Enqueue(b, r, row, cycle, id))
  {
    EnqueueSlots(b, r, row, cycle, id);
    assert TimersAgree(Enqueue(b, r, row, cycle, id));
  }

  lemma EnqueueAccounts(b: Bank, r: Req, row: nat, cycle: nat, id: nat)
    requires b.free != []
    ensures Held(Enqueue(b, r, row, cycle, id)) == Held(b) + multiset{r}
    ensures Load(Enqueue(b, r, row, cycle, id)) == Load(b) + 1
  {
    EnqueueSplits(ReqOf, b, Entry(b.free[0], id, r, row, cycle, 0, Init));
  }

  lemma {:induction false} GrantKeeps(cfg: Config, b: Bank, ready: nat)
    requires BankInv(cfg, b)
    requires b.current.Some? && b.current.value.phase == Data
    ensures BankInv(cfg, GrantData(b, ready))
    ensures Held(GrantData(b, ready)) == Held(b)
  {
  }
}
