/** What every run of the controller guarantees about service times, the order
    of service, the delay buffer and the data bus. */
module DramHistory {
  import opened Lists
  import opened DramTypes
  import opened DramPolicy
  import opened DramBank
  import opened DramArbiter
  import opened DramSend
  import opened DramModel
  import opened DramRun
  import opened DramService
  import opened DramStarvation
  import DramAddress

  // ----- commands and latency of one service

  /** Commands the request in service still needs: precharge and activate and
      column access, activate and column access, or the column access alone. */
  function Remaining(b: Bank): nat {
    if b.current.None? || b.current.value.phase == Data || b.current.value.phase == DataWait then 0
    else if b.openRow == b.current.value.row then 1
    else if b.openRow == NEVER then 2
    else 3
  }

  /** The latencies of those commands. */
  function RemainingLatency(cfg: Config, b: Bank): nat {
    match Remaining(b)
    case 0 => 0
    case 1 => cfg.column
    case 2 => cfg.activate + cfg.column
    case _ => cfg.precharge + cfg.activate + cfg.column
  }

  /** A lower bound on the cycle in which the request in service completes. */
  function Earliest(cfg: Config, b: Bank, cycle: nat): nat {
    if b.current.None? then cycle
    else match b.current.value.phase
      case Data => b.dataAvail
      case DataWait => b.dataReady
      case CmdWait => b.bankReady + RemainingLatency(cfg, b)
      case _ => cycle + RemainingLatency(cfg, b)
  }

  /** One cycle without completion: the same request stays in service, each
      command counts once, and the bound never moves back. */
  lemma ServiceStep(cfg: Config, b: Bank, t: Stages, cycle: nat, commanded: bool, id: nat, id': nat)
    requires BankOk(b, cycle) && cycle < NEVER && b.current.Some?
    requires BankStep(cfg, b, t, cycle, commanded, id, id') && !Finished(t.data, cycle)
    ensures t.end.current.Some? && t.end.current.value.req == b.current.value.req
    ensures Remaining(b) == Remaining(t.end) + if commanded then 1 else 0
    ensures Earliest(cfg, b, cycle) <= Earliest(cfg, t.end, cycle + 1)
  {
    BankOkStep(cfg, b, t, cycle, commanded, id, id');
    ReceiveRows(t.next, t.end, cycle, id, id');
  }

  /** The cycle of completion: no command is left and the bound has been reached. */
  lemma ServiceEnd(cfg: Config, b: Bank, t: Stages, cycle: nat, commanded: bool, id: nat, id': nat)
    requires BankOk(b, cycle) && cycle < NEVER && b.current.Some?
    requires BankStep(cfg, b, t, cycle, commanded, id, id') && Finished(t.data, cycle)
    ensures t.data.current.value.req == b.current.value.req && t.data.openRow == b.current.value.row
    ensures Remaining(b) == if commanded then 1 else 0
    ensures Earliest(cfg, b, cycle) <= cycle
  {
    BankOkStep(cfg, b, t, cycle, commanded, id, id');
  }

  /** Bank j completes its request in this cycle. */
  ghost predicate Completes(cfg: Config, s: Ctrl, input: Input, j: nat)
    requires cfg.Valid() && Wired(cfg) && Shaped(cfg, s) && j < cfg.numBanks
  {
    !input.locked && Finished(BeforeComplete(cfg, s, input.accepts).banks[j], s.cycle)
  }

  function CountTrue(flags: seq<bool>): nat {
    if flags == [] then 0 else CountTrue(flags[..|flags| - 1]) + if flags[|flags| - 1] then 1 else 0
  }

  /** In which of the cycles bank j gets a command. */
  ghost function CommandFlags(cfg: Config, s: Ctrl, inputs: seq<Input>, j: nat): seq<bool>
    requires Runnable(cfg, s, inputs)
  {
    seq(|inputs|, k requires 0 <= k < |inputs| => CommandAt(cfg, s, inputs, k, j))
  }

  /** The states of bank j along the run. */
  ghost function BankTrace(cfg: Config, s: Ctrl, inputs: seq<Input>, j: nat): seq<Bank>
    requires Runnable(cfg, s, inputs) && j < cfg.numBanks
  {
    seq(|inputs| + 1, k requires 0 <= k <= |inputs| => At(cfg, s, inputs, k).banks[j])
  }

  /** Bank j is busy and completes nothing before the last of the cycles. */
  ghost predicate InService(cfg: Config, s: Ctrl, inputs: seq<Input>, n: nat, j: nat)
    requires Runnable(cfg, s, inputs) && j < cfg.numBanks && n <= |inputs|
  {
    s.banks[j].current.Some? && forall k :: 0 <= k < n ==> !Completes(cfg, At(cfg, s, inputs, k), inputs[k], j)
  }

  /** From b0 at c0 to b at c the same request stayed in service and n commands
      were issued. */
  ghost predicate Kept(cfg: Config, b0: Bank, c0: nat, b: Bank, c: nat, n: nat) {
    && b0.current.Some? && b.current.Some? && b.current.value.req == b0.current.value.req
    && Remaining(b0) == Remaining(b) + n
    && Earliest(cfg, b0, c0) <= Earliest(cfg, b, c)
  }

  /** Steps add up. */
  lemma {:induction false} KeptChain(cfg: Config, bs: seq<Bank>, flags: seq<bool>, c0: nat, n: nat)
    requires |bs| == |flags| + 1 && n <= |flags| && bs[0].current.Some?
    requires forall k :: 0 <= k < n && bs[k].current.Some? ==>
      Kept(cfg, bs[k], c0 + k, bs[k + 1], c0 + k + 1, if flags[k] then 1 else 0)
    ensures Kept(cfg, bs[0], c0, bs[n], c0 + n, CountTrue(flags[..n]))
  {
    if n > 0 {
      KeptChain(cfg, bs, flags, c0, n - 1);
      assert flags[..n][..n - 1] == flags[..n - 1];
    }
  }

  lemma ServiceTick(cfg: Config, s: Ctrl, input: Input, j: nat)
    requires cfg.Valid() && Wired(cfg) && Shaped(cfg, s) && WellRouted(cfg, input) && j < cfg.numBanks
    requires AllOk(s) && s.cycle < NEVER && s.banks[j].current.Some? && !input.locked
    ensures var c, b, b' := Commanded(cfg, s.banks, j), s.banks[j], Tick(cfg, s, input).next.banks[j];
      if Completes(cfg, s, input, j)
      then Remaining(b) == (if c then 1 else 0) && Earliest(cfg, b, s.cycle) <= s.cycle
      else
        && b'.current.Some? && b'.current.value.req == b.current.value.req
        && Remaining(b) == Remaining(b') + (if c then 1 else 0)
        && Earliest(cfg, b, s.cycle) <= Earliest(cfg, b', s.cycle + 1)
  {
    var t := BankTick(cfg, s, input, j);
    var c, id, id' := Commanded(cfg, s.banks, j), s.nextId, Tick(cfg, s, input).next.nextId;
    if Completes(cfg, s, input, j) {
      ServiceEnd(cfg, s.banks[j], t, s.cycle, c, id, id');
    } else {
      ServiceStep(cfg, s.banks[j], t, s.cycle, c, id, id');
    }
  }

  lemma AtZero(cfg: Config, s: Ctrl, inputs: seq<Input>)
    requires Runnable(cfg, s, inputs)
    ensures At(cfg, s, inputs, 0) == s
  {
    assert inputs[..0] == [];
  }

  lemma AtSucc(cfg: Config, s: Ctrl, inputs: seq<Input>, k: nat)
    requires Runnable(cfg, s, inputs) && k < |inputs|
    ensures At(cfg, s, inputs, k + 1) == Tick(cfg, At(cfg, s, inputs, k), inputs[k]).next
  {
    assert inputs[..k + 1][..k] == inputs[..k];
  }

  lemma KeptAt(cfg: Config, s: Ctrl, inputs: seq<Input>, k: nat, j: nat)
    requires Runnable(cfg, s, inputs) && AllOk(s) && s.cycle + |inputs| <= NEVER && k < |inputs| && j < cfg.numBanks
    requires At(cfg, s, inputs, k).banks[j].current.Some? && !Completes(cfg, At(cfg, s, inputs, k), inputs[k], j)
    ensures Kept(cfg, At(cfg, s, inputs, k).banks[j], s.cycle + k, At(cfg, s, inputs, k + 1).banks[j], s.cycle + k + 1,
                 if CommandAt(cfg, s, inputs, k, j) then 1 else 0)
  {
    hide Tick, Completes, Commanded, Earliest, Remaining;
    AtSucc(cfg, s, inputs, k);
    AllOkRun(cfg, s, inputs[..k]);
    if inputs[k].locked {
      LockedKeeps(cfg, At(cfg, s, inputs, k), inputs[k], j);
    } else {
      ServiceTick(cfg, At(cfg, s, inputs, k), inputs[k], j);
    }
  }

  lemma LockedKeeps(cfg: Config, s: Ctrl, input: Input, j: nat)
    requires cfg.Valid() && Wired(cfg) && Shaped(cfg, s) && WellRouted(cfg, input) && j < cfg.numBanks
    requires input.locked && s.banks[j].current.Some?
    ensures Kept(cfg, s.banks[j], s.cycle, Tick(cfg, s, input).next.banks[j], s.cycle + 1, 0)
  {
  }

  /** While the request of bank j stays in service, every command it gets takes
      one off the number it still needs, and the completion bound never moves
      back. */
  lemma {:induction false} ServiceRun(cfg: Config, s: Ctrl, inputs: seq<Input>, n: nat, j: nat)
    requires Runnable(cfg, s, inputs) && AllOk(s) && s.cycle + |inputs| <= NEVER && n <= |inputs| && j < cfg.numBanks
    requires InService(cfg, s, inputs, n, j)
    ensures Kept(cfg, s.banks[j], s.cycle, At(cfg, s, inputs, n).banks[j], s.cycle + n,
                 CountTrue(CommandFlags(cfg, s, inputs, j)[..n]))
  {
    hide Tick, Run, Kept, Completes, CommandAt;
    var bs, flags := BankTrace(cfg, s, inputs, j), CommandFlags(cfg, s, inputs, j);
    AtZero(cfg, s, inputs);
    forall k | 0 <= k < n && bs[k].current.Some?
      ensures Kept(cfg, bs[k], s.cycle + k, bs[k + 1], s.cycle + k + 1, if flags[k] then 1 else 0)
    {
      KeptAt(cfg, s, inputs, k, j);
    }
    KeptChain(cfg, bs, flags, s.cycle, n);
  }

  /** A request that completes in the last of the given cycles took exactly the
      commands it needed at the start, at most three, and no less time than
      their latencies. */
  lemma {:induction false} ServiceTakesItsCommands(cfg: Config, s: Ctrl, inputs: seq<Input>, n: nat, j: nat)
    requires Runnable(cfg, s, inputs) && AllOk(s) && s.cycle + |inputs| <= NEVER && j < cfg.numBanks
    requires |inputs| == n + 1 && InService(cfg, s, inputs, n, j)
    requires Completes(cfg, At(cfg, s, inputs, n), inputs[n], j)
    ensures CountTrue(CommandFlags(cfg, s, inputs, j)) == Remaining(s.banks[j]) <= 3
    ensures Waiting(s.banks[j]) ==> s.cycle + RemainingLatency(cfg, s.banks[j]) <= s.cycle + n
  {
    hide Tick, Run, At, Completes, CommandAt, Earliest, Remaining, RemainingLatency, Commanded;
    AtZero(cfg, s, inputs);
    ServiceRun(cfg, s, inputs, n, j);
    LastCycle(cfg, s, inputs, n, j);
    var flags := CommandFlags(cfg, s, inputs, j);
    assert flags[..|flags|] == flags && flags[..n + 1][..n] == flags[..n];
    AtMostThree(cfg, s.banks[j], s.cycle);
  }

  /** The cycle of completion takes the last command, if one is left. */
  lemma LastCycle(cfg: Config, s: Ctrl, inputs: seq<Input>, n: nat, j: nat)
    requires Runnable(cfg, s, inputs) && AllOk(s) && s.cycle + |inputs| <= NEVER && n < |inputs| && j < cfg.numBanks
    requires At(cfg, s, inputs, n).banks[j].current.Some? && Completes(cfg, At(cfg, s, inputs, n), inputs[n], j)
    ensures Remaining(At(cfg, s, inputs, n).banks[j]) == if CommandAt(cfg, s, inputs, n, j) then 1 else 0
    ensures Earliest(cfg, At(cfg, s, inputs, n).banks[j], s.cycle + n) <= s.cycle + n
  {
    hide Tick, Commanded, Earliest, Remaining;
    AllOkRun(cfg, s, inputs[..n]);
    ServiceTick(cfg, At(cfg, s, inputs, n), inputs[n], j);
  }

  lemma AtMostThree(cfg: Config, b: Bank, cycle: nat)
    ensures Remaining(b) <= 3
    ensures Waiting(b) ==> Earliest(cfg, b, cycle) == cycle + RemainingLatency(cfg, b)
  {
  }

  // ----- FCFS serves each bank in arrival order

  /** Ascending entry numbers, all in the range. */
  ghost predicate Ascending(s: seq<Entry>, from: nat, next: nat) {
    && (forall i :: 0 <= i < |s| ==> from <= s[i].id < next)
    && (forall i, k :: 0 <= i < k < |s| ==> s[i].id < s[k].id)
  }

  /** Entry numbers ascend through the buffer, the request in service precedes
      them all, and none is below `from` or unassigned. */
  ghost predicate InOrder(b: Bank, from: nat, next: nat) {
    && from <= next
    && match b.current
       case None => Ascending(b.buffer, from, next)
       case Some(e) => from <= e.id < next && Ascending(b.buffer, e.id + 1, next)
  }

  lemma AscendingInit(s: seq<Entry>, from: nat, next: nat)
    requires Ascending(s, from, next) && s != []
    ensures from <= s[|s| - 1].id < next && Ascending(s[..|s| - 1], from, s[|s| - 1].id)
  {
  }

  lemma AscendingSnoc(s: seq<Entry>, e: Entry, from: nat, next: nat)
    requires Ascending(s, from, e.id) && from <= e.id < next
    ensures Ascending(s + [e], from, next)
  {
  }

  lemma AscendingWider(s: seq<Entry>, from: nat, next: nat, from': nat, next': nat)
    requires Ascending(s, from, next) && from' <= from && next <= next'
    ensures Ascending(s, from', next')
  {
  }

  lemma {:induction false} SelectAscends(p: Entry -> bool, want: bool, s: seq<Entry>, from: nat, next: nat)
    requires Ascending(s, from, next)
    ensures Ascending(Select(p, want, s), from, next)
  {
    if s != [] {
      var front, last := s[..|s| - 1], s[|s| - 1];
      AscendingInit(s, from, next);
      SelectAscends(p, want, front, from, last.id);
      AscendingSnoc(Select(p, want, front), last, from, next);
      AscendingWider(Select(p, want, front), from, last.id, from, next);
    }
  }

  lemma InOrderFlush(b: Bank, from: nat, next: nat)
    requires InOrder(b, from, next)
    ensures InOrder(Flush(b), from, next)
  {
    SelectAscends(IsPrefetch, false, b.buffer, if b.current.Some? then b.current.value.id + 1 else from, next);
  }

  lemma InOrderComplete(cfg: Config, b: Bank, from: nat, next: nat, cycle: nat)
    requires InOrder(b, from, next)
    ensures InOrder(Complete(cfg, b, cycle), from, next)
  {
    if Finished(b, cycle) {
      var e, b' := b.current.value, Complete(cfg, b, cycle);
      if cfg.merge {
        SelectAscends(AtAddress(e.req.addr), false, b.buffer, e.id + 1, next);
      }
      AscendingWider(b'.buffer, e.id + 1, next, from, next);
    }
  }

  lemma InOrderAdvance(cfg: Config, b: Bank, from: nat, next: nat, cycle: nat)
    requires !cfg.frfcfs && InOrder(b, from, next)
    ensures InOrder(Advance(cfg, b, cycle), from, next)
  {
    if b.current.None? && b.buffer != [] {
      assert Ascending(b.buffer[1..], b.buffer[0].id + 1, next);
    }
  }

  lemma InOrderEnqueue(b: Bank, b': Bank, from: nat, cycle: nat, id: nat, id': nat)
    requires InOrder(b, from, id) && Enqueued(b, b', cycle, id) && id < id'
    ensures InOrder(b', from, id')
  {
    var r: Req, row: nat :| row < NEVER && b' == Enqueue(b, r, row, cycle, id);
    var e := b'.buffer[|b.buffer|];
    AscendingSnoc(b.buffer, e, if b.current.Some? then b.current.value.id + 1 else from, id');
  }

  lemma InOrderReceive(b: Bank, b': Bank, from: nat, cycle: nat, id: nat, id': nat)
    requires InOrder(b, from, id) && ReceiveEffect(b, b', cycle, id, id')
    ensures InOrder(b', from, id')
  {
    InOrderFlush(b, from, id);
    if id < id' && Enqueued(b, b', cycle, id) {
      InOrderEnqueue(b, b', from, cycle, id, id');
    } else if id < id' && Enqueued(Flush(b), b', cycle, id) {
      InOrderEnqueue(Flush(b), b', from, cycle, id, id');
    } else {
      AscendingWider(b'.buffer, if b'.current.Some? then b'.current.value.id + 1 else from, id,
                     if b'.current.Some? then b'.current.value.id + 1 else from, id');
    }
  }

  lemma InOrderStep(cfg: Config, b: Bank, t: Stages, cycle: nat, commanded: bool, from: nat, id: nat, id': nat)
    requires !cfg.frfcfs && InOrder(b, from, id) && BankStep(cfg, b, t, cycle, commanded, id, id')
    ensures InOrder(t.end, from, id')
  {
    assert InOrder(t.data, from, id);
    InOrderComplete(cfg, t.data, from, id, cycle);
    InOrderAdvance(cfg, t.done, from, id, cycle);
    InOrderReceive(t.next, t.end, from, cycle, id, id');
  }

  lemma {:induction false} InOrderRun(cfg: Config, s: Ctrl, inputs: seq<Input>, j: nat, from: nat)
    requires Runnable(cfg, s, inputs) && !cfg.frfcfs && j < cfg.numBanks && InOrder(s.banks[j], from, s.nextId)
    ensures var t := Run(cfg, s, inputs).next; InOrder(t.banks[j], from, t.nextId)
  {
    if inputs != [] {
      var n := |inputs| - 1;
      InOrderRun(cfg, s, inputs[..n], j, from);
      var mid := Run(cfg, s, inputs[..n]).next;
      if !inputs[n].locked {
        var t := BankTick(cfg, mid, inputs[n], j);
        InOrderStep(cfg, mid.banks[j], t, mid.cycle, Commanded(cfg, mid.banks, j), from, mid.nextId,
                    Tick(cfg, mid, inputs[n]).next.nextId);
      }
    }
  }

  /** Under FCFS a bank never serves a request after one that arrived later,
      through merges and prefetch flushes, in any run. */
  lemma {:induction false} FcfsServesInArrivalOrder(cfg: Config, s: Ctrl, inputs: seq<Input>, j: nat)
    requires Runnable(cfg, s, inputs) && !cfg.frfcfs && j < cfg.numBanks && InOrder(s.banks[j], 0, s.nextId)
    requires s.banks[j].current.Some? && Run(cfg, s, inputs).next.banks[j].current.Some?
    ensures s.banks[j].current.value.id <= Run(cfg, s, inputs).next.banks[j].current.value.id
    ensures forall e :: e in Run(cfg, s, inputs).next.banks[j].buffer ==>
      Run(cfg, s, inputs).next.banks[j].current.value.id < e.id
  {
    InOrderRun(cfg, s, inputs, j, s.banks[j].current.value.id);
    var b := Run(cfg, s, inputs).next.banks[j];
    assert forall i :: 0 <= i < |b.buffer| ==> b.current.value.id < b.buffer[i].id;
  }

  // ----- the delay buffer

  ghost predicate DelaySorted(delay: seq<Delayed>, bound: nat) {
    && (forall i, k :: 0 <= i < k < |delay| ==> delay[i].ready <= delay[k].ready)
    && (forall i :: 0 <= i < |delay| ==> delay[i].ready < bound)
  }

  /** delay_packet leaves no due request behind. */
  lemma {:induction false} NothingDueStays(s: Ctrl, bound: nat)
    requires DelaySorted(s.delay, bound)
    ensures var t := AfterDelay(s);
      && (forall i :: 0 <= i < |t.delay| ==> t.delay[i].ready > s.cycle)
      && DelaySorted(t.delay, bound)
  {
    var n := DueCount(s.delay, s.cycle);
    forall i | n <= i < |s.delay|
      ensures s.delay[i].ready > s.cycle
    {
      assert s.delay[n].ready <= s.delay[i].ready;
    }
  }

  lemma DelayAppends(delay: seq<Delayed>, reqs: seq<Req>, ready: nat)
    requires DelaySorted(delay, ready)
    ensures DelaySorted(delay + Map(Delay(ready), reqs), ready + 1)
  {
  }

  lemma FinishDelay(cfg: Config, s1: Ctrl, arrival: Option<Req>)
    requires cfg.addressMap.numMc > 0 && |s1.banks| == cfg.numBanks
    requires arrival.Some? ==> DramAddress.ParseAddr(cfg.addressMap, arrival.value.addr).bank < cfg.numBanks
    ensures Finish(cfg, s1, arrival).next.delay == AfterComplete(cfg, s1).delay
  {
  }

  lemma CompleteDelay(cfg: Config, s1: Ctrl)
    requires DelaySorted(s1.delay, s1.cycle + cfg.extra)
    ensures DelaySorted(AfterComplete(cfg, s1).delay, s1.cycle + 1 + cfg.extra)
  {
    hide Concat;
    DelayAppends(s1.delay, Concat(DeliveredBy(cfg, s1.banks, s1.cycle), |s1.banks|), s1.cycle + cfg.extra);
  }

  /** Where the delay buffer of a tick comes from. */
  lemma TickDelay(cfg: Config, s: Ctrl, input: Input)
    requires cfg.Valid() && Wired(cfg) && Shaped(cfg, s) && WellRouted(cfg, input)
    ensures input.locked ==> Tick(cfg, s, input).next.delay == s.delay
    ensures !input.locked ==>
      Tick(cfg, s, input).next.delay == AfterComplete(cfg, BeforeComplete(cfg, s, input.accepts)).delay
  {
    hide AfterComplete, BeforeComplete, Finish;
    if !input.locked {
      BeforeDelay(cfg, s, input.accepts);
      FinishDelay(cfg, BeforeComplete(cfg, s, input.accepts), input.arrival);
    }
  }

  lemma BeforeDelay(cfg: Config, s: Ctrl, accepts: seq<bool>)
    requires Wired(cfg) && cfg.busWidth > 0 && Shaped(cfg, s)
    ensures var s1 := BeforeComplete(cfg, s, accepts);
      && s1.cycle == s.cycle && |s1.banks| == |s.banks|
      && s1.delay ==
        if cfg.extra > 0 then AfterDelay(s.(out := Without(s.out, Sent(cfg, s.out, accepts)))).delay else s.delay
  {
  }

  lemma SortedLater(delay: seq<Delayed>, bound: nat)
    requires DelaySorted(delay, bound)
    ensures DelaySorted(delay, bound + 1)
  {
  }

  lemma DelayTick(cfg: Config, s: Ctrl, input: Input)
    requires cfg.Valid() && Wired(cfg) && Shaped(cfg, s) && WellRouted(cfg, input)
    requires DelaySorted(s.delay, s.cycle + cfg.extra)
    ensures DelaySorted(Tick(cfg, s, input).next.delay, s.cycle + 1 + cfg.extra)
  {
    hide DelaySorted, Tick, BeforeComplete, AfterComplete, AfterDelay, Sent, WellRouted;
    TickDelay(cfg, s, input);
    SortedLater(s.delay, s.cycle + cfg.extra);
    NothingDueStays(s.(out := Without(s.out, Sent(cfg, s.out, input.accepts))), s.cycle + cfg.extra);
    BeforeDelay(cfg, s, input.accepts);
    CompleteDelay(cfg, BeforeComplete(cfg, s, input.accepts));
  }

  /** In every run the delay buffer stays sorted by ready cycle. */
  lemma {:induction false} DelayRun(cfg: Config, s: Ctrl, inputs: seq<Input>)
    requires Runnable(cfg, s, inputs) && DelaySorted(s.delay, s.cycle + cfg.extra)
    ensures var t := Run(cfg, s, inputs).next; DelaySorted(t.delay, t.cycle + cfg.extra)
  {
    if inputs != [] {
      var n := |inputs| - 1;
      DelayRun(cfg, s, inputs[..n]);
      DelayTick(cfg, Run(cfg, s, inputs[..n]).next, inputs[n]);
    }
  }

  // ----- bandwidth

  /** The bytes channel ch transfers in this cycle. */
  function BytesAt(cfg: Config, s: Ctrl, input: Input, ch: nat): nat
    requires cfg.Valid() && Wired(cfg) && Shaped(cfg, s) && ch < cfg.numChannels
  {
    if input.locked then 0
    else
      ChannelsFit(cfg, ch);
      var banks := CmdChannels(cfg, s.banks, s.cycle, cfg.numChannels);
      var (b, buses) := DataChannels(cfg, banks, s.buses, s.cycle, ch);
      BytesOf(b, DataChannel(cfg, b, buses[ch], s.cycle, Lo(cfg, ch), Lo(cfg, ch + 1)).order)
  }

  /** A channel's bus is touched only in its own turn. */
  lemma {:induction false} BusInTurn(cfg: Config, banks: seq<Bank>, buses: seq<Bus>, cycle: nat, n: nat, ch: nat)
    requires Wired(cfg) && cfg.busWidth > 0 && n <= cfg.numChannels && ch < cfg.numChannels
    requires |banks| == cfg.numBanks && |buses| == cfg.numChannels
    requires forall bus :: bus in buses ==> BusInv(cfg.busWidth, bus)
    ensures Lo(cfg, ch) <= Lo(cfg, ch + 1) <= cfg.numBanks
    ensures DataChannels(cfg, banks, buses, cycle, n).1[ch] ==
      if n <= ch then buses[ch]
      else
        var (b, bs) := DataChannels(cfg, banks, buses, cycle, ch);
        DataChannel(cfg, b, bs[ch], cycle, Lo(cfg, ch), Lo(cfg, ch + 1)).bus
  {
    ChannelsFit(cfg, ch);
    if n > 0 {
      ChannelsFit(cfg, n - 1);
      BusInTurn(cfg, banks, buses, cycle, n - 1, ch);
    }
  }

  lemma TickBandwidth(cfg: Config, s: Ctrl, input: Input, ch: nat)
    requires cfg.Valid() && Wired(cfg) && Shaped(cfg, s) && WellRouted(cfg, input) && ch < cfg.numChannels
    ensures BytesAt(cfg, s, input, ch) + Position(cfg.busWidth, s.buses[ch])
         <= Position(cfg.busWidth, Tick(cfg, s, input).next.buses[ch])
  {
    if !input.locked {
      var banks := CmdChannels(cfg, s.banks, s.cycle, cfg.numChannels);
      ChannelsFit(cfg, ch);
      BusInTurn(cfg, banks, s.buses, s.cycle, cfg.numChannels, ch);
      BusInTurn(cfg, banks, s.buses, s.cycle, ch, ch);
      var (b, buses) := DataChannels(cfg, banks, s.buses, s.cycle, ch);
      DataChannelBandwidth(cfg, b, buses[ch], s.cycle, Lo(cfg, ch), Lo(cfg, ch + 1));
    }
  }

  function BytesOver(cfg: Config, s: Ctrl, inputs: seq<Input>, ch: nat): nat
    requires Runnable(cfg, s, inputs) && ch < cfg.numChannels
  {
    if inputs == [] then 0
    else
      var n := |inputs| - 1;
      BytesOver(cfg, s, inputs[..n], ch) + BytesAt(cfg, Run(cfg, s, inputs[..n]).next, inputs[n], ch)
  }

  /** Over any run the bytes transferred on a channel fit into the distance its
      bus has advanced: the bus never carries more than its width per cycle. */
  lemma {:induction false} BandwidthNeverExceeded(cfg: Config, s: Ctrl, inputs: seq<Input>, ch: nat)
    requires Runnable(cfg, s, inputs) && ch < cfg.numChannels
    ensures BytesOver(cfg, s, inputs, ch)
         <= Position(cfg.busWidth, Run(cfg, s, inputs).next.buses[ch]) - Position(cfg.busWidth, s.buses[ch])
  {
    if inputs != [] {
      var n := |inputs| - 1;
      BandwidthNeverExceeded(cfg, s, inputs[..n], ch);
      TickBandwidth(cfg, Run(cfg, s, inputs[..n]).next, inputs[n], ch);
    }
  }
}
