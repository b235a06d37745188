/** What a bank must do in a cycle: start, go on or finish, and take a request in. */
module DramProgress {
  import opened Lists
  import opened DramTypes
  import opened DramPolicy
  import opened DramBank
  import opened DramArbiter
  import opened DramModel
  import opened DramRun
  import opened DramService
  import opened DramOutcome
  import DramAddress

  // ----- the request in service

  /** The policy's choice among the waiting entries: the first to come, or the best one
      whenever the open row survives the narrowing. */
  ghost predicate Chosen(cfg: Config, openRow: nat, waiting: seq<Entry>, pick: Entry) {
    && pick in waiting
    && (!cfg.frfcfs ==> pick == waiting[0])
    && (cfg.frfcfs && (openRow < 0x8000_0000 || openRow >= 0xFFFF_FFFF_8000_0000) ==>
          forall e :: e in waiting ==> Beats(openRow, pick, e))
  }

  /** The entry a bank with these waiting entries starts. */
  ghost function Pick(cfg: Config, openRow: nat, waiting: seq<Entry>): (pick: Entry)
    requires waiting != [] && openRow <= NEVER
    ensures Chosen(cfg, openRow, waiting, pick)
  {
    PickIsChosen(cfg, openRow, waiting);
    Ordered(cfg.frfcfs, openRow, waiting)[0]
  }

  lemma PickIsChosen(cfg: Config, openRow: nat, waiting: seq<Entry>)
    requires waiting != [] && openRow <= NEVER
    ensures Ordered(cfg.frfcfs, openRow, waiting) != []
    ensures Chosen(cfg, openRow, waiting, Ordered(cfg.frfcfs, openRow, waiting)[0])
  {
    hide Beats, SortEntries;
    OrderedPermutes(cfg.frfcfs, openRow, waiting);
    var pick := Ordered(cfg.frfcfs, openRow, waiting)[0];
    assert pick in Ordered(cfg.frfcfs, openRow, waiting);
    if cfg.frfcfs && (openRow < 0x8000_0000 || openRow >= 0xFFFF_FFFF_8000_0000) {
      forall e | e in waiting
        ensures Beats(openRow, pick, e)
      {
        FrFcfsPick(openRow, waiting, e);
      }
    }
  }

  /** The current request of a bank that has been through commands and transfers, at the
      end of the cycle. A finished or idle bank starts the policy's choice of what waits, in
      the same cycle, and stays idle only with nothing waiting; a bank whose command has
      elapsed asks for the next one; any other goes on. */
  ghost predicate Progress(cfg: Config, d: Bank, cycle: nat, e: Bank) {
    var waiting := Complete(cfg, d, cycle).buffer;
    if d.current.None? || d.dataReady <= cycle then
      if waiting == [] then e.current == None
      else
        && d.openRow <= NEVER
        && e.current == Some(Pick(cfg, d.openRow, waiting).(phase := Cmd, scheduled := cycle))
        && e.timestamp == cycle
    else if d.current.value.phase == CmdWait && d.bankReady <= cycle then
      e.current == Some(d.current.value.(phase := Cmd)) && e.timestamp == cycle
    else e.current == d.current && e.timestamp == d.timestamp
  }

  lemma {:induction false} AdvanceProgresses(cfg: Config, d: Bank, cycle: nat)
    requires d.openRow <= NEVER
    ensures Progress(cfg, d, cycle, Advance(cfg, Complete(cfg, d, cycle), cycle))
  {
    hide Ordered;
    var b := Complete(cfg, d, cycle);
    OrderedPermutes(cfg.frfcfs, b.openRow, b.buffer);
  }

  /** In every unlocked cycle every bank makes its progress. */
  lemma {:induction false} BankProgresses(cfg: Config, s: Ctrl, input: Input, j: nat)
    requires cfg.Valid() && Wired(cfg) && Shaped(cfg, s) && WellRouted(cfg, input) && AllOk(s)
    requires !input.locked && j < cfg.numBanks
    ensures Progress(cfg, BeforeComplete(cfg, s, input.accepts).banks[j], s.cycle, Tick(cfg, s, input).next.banks[j])
  {
    hide Tick, BeforeComplete, Complete, Advance, Progress, Pick, Flush, Enqueue;
    var t := BankTick(cfg, s, input, j);
    var id' := Tick(cfg, s, input).next.nextId;
    BankOkStep(cfg, s.banks[j], t, s.cycle, Commanded(cfg, s.banks, j), s.nextId, id');
    AdvanceProgresses(cfg, t.data, s.cycle);
    ReceiveRows(t.next, t.end, s.cycle, s.nextId, id');
    SameProgress(cfg, t.data, s.cycle, t.next, t.end);
  }

  lemma SameProgress(cfg: Config, d: Bank, cycle: nat, e: Bank, e': Bank)
    requires Progress(cfg, d, cycle, e) && e'.current == e.current && e'.timestamp == e.timestamp
    ensures Progress(cfg, d, cycle, e')
  {
  }

  // ----- taking a request in

  ghost predicate HoldsPrefetch(b: Bank) {
    exists e :: e in b.buffer && e.req.kind == Prefetch
  }

  ghost predicate Appended(before: seq<Entry>, after: seq<Entry>, r: Req, row: nat, cycle: nat, id: nat) {
    && |after| == |before| + 1 && after[..|before|] == before
    && var e := after[|before|]; e.req == r && e.row == row && e.timestamp == cycle && e.id == id
  }

  /** A request is taken in exactly when its bank has a free entry or a prefetch to give
      up. Prefetches are dropped only for want of a free entry, and then all of them; no
      other bank changes. The new entry carries the address's row and the cycle. */
  lemma {:induction false} AcceptedIff(cfg: Config, s: Ctrl, r: Req, j: nat)
    requires cfg.Valid() && |s.banks| == cfg.numBanks && j < |s.banks|
    requires forall i :: 0 <= i < |s.banks| ==> BankInv(cfg, s.banks[i])
    requires DramAddress.ParseAddr(cfg.addressMap, r.addr).bank < cfg.numBanks
    ensures
      var loc, o := DramAddress.ParseAddr(cfg.addressMap, r.addr), AfterReceive(cfg, s, Some(r));
      var b, b' := s.banks[loc.bank], o.next.banks[loc.bank];
      var full := Load(b) == cfg.poolSize;
      && (o.accepted == [r] <==> !full || HoldsPrefetch(b))
      && (o.accepted == [] <==> full && !HoldsPrefetch(b))
      && (o.flushed != [] <==> full && HoldsPrefetch(b))
      && (o.accepted == [r] ==> Appended(if full then Select(IsPrefetch, false, b.buffer) else b.buffer, b'.buffer,
                                         r, loc.row, s.cycle, s.nextId))
      && (o.accepted == [] ==> b'.buffer == b.buffer)
      && (j != loc.bank ==> o.next.banks[j] == s.banks[j])
  {
    hide DramAddress.ParseAddr, SlotsOf, WholePool, Select;
    var loc := DramAddress.ParseAddr(cfg.addressMap, r.addr);
    var b := s.banks[loc.bank];
    PoolIsConstant(cfg, b);
    PrefetchesGo(b);
  }

  lemma PrefetchesGo(b: Bank)
    ensures HoldsPrefetch(b) <==> Select(IsPrefetch, true, b.buffer) != []
    ensures !HoldsPrefetch(b) ==> Select(IsPrefetch, false, b.buffer) == b.buffer
    ensures |Map(SlotOf, Select(IsPrefetch, true, b.buffer))| == |Select(IsPrefetch, true, b.buffer)| == |Flushed(b)|
  {
    var gone := Select(IsPrefetch, true, b.buffer);
    if gone != [] {
      assert gone[0] in gone;
    }
    if !HoldsPrefetch(b) {
      KeepsAll(b.buffer);
    }
  }

  lemma {:induction false} KeepsAll(s: seq<Entry>)
    requires forall e :: e in s ==> e.req.kind != Prefetch
    ensures Select(IsPrefetch, false, s) == s
  {
    if s != [] {
      KeepsAll(s[..|s| - 1]);
      assert s == s[..|s| - 1] + [s[|s| - 1]];
    }
  }
}
