/** The DRAM controller as the simulator runs it: lists, arrays and counters
    updated in place by the loops of each cycle, proved against DramModel. */
module DramCtrl {
  import opened Lists
  import opened DramTypes
  import opened DramPolicy
  import opened DramBank
  import opened DramArbiter
  import opened DramSend
  import opened DramModel
  import opened DramRun
  import opened DramService
  import DramAddress

  /** One pass over the output buffer, as in the inner loop of send(). */
  method SendOnce(out: seq<Req>, allowCpu: bool, allowGpu: bool, accepts: seq<bool>, start: nat) returns (p: Pass)
    ensures p == SendPass(out, allowCpu, allowGpu, accepts, start)
  {
    hide SendPass;
    var sent, cpu, gpu := [], false, false;
    var tried: nat := start;
    var i := 0;
    assert out[0..] == out;
    while i < |out|
      invariant i <= |out|
      invariant var rest := SendPass(out[i..], allowCpu, allowGpu, accepts, tried);
        SendPass(out, allowCpu, allowGpu, accepts, start)
          == Pass(sent + rest.sent, rest.tried, cpu || rest.cpu, gpu || rest.gpu)
    {
      var req := out[i];
      SendPassAt(out, i, allowCpu, allowGpu, accepts, tried);
      i := i + 1;
      if !(if req.gpu then allowGpu else allowCpu) {
        continue;
      }
      cpu, gpu := cpu || !req.gpu, gpu || req.gpu;
      tried := tried + 1;
      if !(tried - 1 < |accepts| && accepts[tried - 1]) {
        p := Pass(sent, tried, cpu, gpu);
        return;
      }
      ghost var rest := SendPass(out[i..], allowCpu, allowGpu, accepts, tried);
      assert sent + ([req] + rest.sent) == (sent + [req]) + rest.sent;
      sent := sent + [req];
    }
    SendPassEnd(allowCpu, allowGpu, accepts, tried);
    assert out[i..] == [] && sent + [] == sent;
    p := Pass(sent, tried, cpu, gpu);
  }

  /** Removes the listed elements one by one. */
  method RemoveEach<T(==)>(list: seq<T>, gone: seq<T>) returns (rest: seq<T>)
    ensures rest == Without(list, gone)
  {
    rest := list;
    WithoutNone(list);
    for k := 0 to |gone|
      invariant rest == Without(list, gone[..k])
    {
      WithoutStep(list, gone[..k], gone[k]);
      assert gone[..k] + [gone[k]] == gone[..k + 1];
      rest := Without(rest, [gone[k]]);
    }
    assert gone[..|gone|] == gone;
  }

  class Controller {
    const cfg: Config
    const banks: array<Bank>
    const buses: array<Bus>
    var out: seq<Req>
    var delay: seq<Delayed>
    var total: int
    var cycle: nat
    var nextId: nat

    function State(): Ctrl
      reads this, banks, buses
    {
      Ctrl(banks[..], buses[..], out, delay, total, cycle, nextId)
    }

    /** The controller invariant between cycles. */
    ghost predicate Valid()
      reads this, banks, buses
    {
      cfg.Valid() && Wired(cfg) && CtrlInv(cfg, State()) && AllOk(State())
    }

    constructor (cfg: Config)
      requires cfg.Valid()
      ensures Valid() && this.cfg == cfg && State() == Initial(cfg) && fresh(banks) && fresh(buses)
    {
      this.cfg := cfg;
      banks := new Bank[cfg.numBanks](_ => InitialBank(cfg));
      buses := new Bus[cfg.numChannels](_ => Bus(cfg.busWidth, 0));
      out, delay, total, cycle, nextId := [], [], 0, 0, 0;
      new;
      assert State() == Initial(cfg);
      ValidIsWired(cfg);
      InitialInv(cfg);
    }

    /** send: one or two passes over the output buffer, then removal. */
    method Send(accepts: seq<bool>) returns (sent: seq<Req>)
      modifies this`out
      ensures sent == Sent(cfg, old(out), accepts)
      ensures out == Without(old(out), sent)
    {
      var maxIter := if cfg.partition then 2 else 1;
      var p := SendOnce(out, true, true, accepts, 0);
      sent := p.sent;
      if maxIter == 2 && !(p.cpu && p.gpu) {
        var q := SendOnce(out, !p.cpu, !p.gpu, accepts, p.tried);
        sent := sent + q.sent;
      }
      out := RemoveEach(out, sent);
    }

    /** delay_packet: move the leading due requests to the output buffer. */
    method DelayPacket()
      requires NoDup(delay)
      modifies this`out, this`delay
      ensures out == AfterDelay(old(State())).out && delay == AfterDelay(old(State())).delay
    {
      ghost var n := DueCount(delay, cycle);
      var temp: seq<Delayed> := [];
      var i := 0;
      while i < |delay|
        invariant delay == old(delay) && i <= n <= |delay| && temp == delay[..i]
        invariant out == old(out) + Map(ReqOfDelayed, temp)
      {
        var d := delay[i];
        if d.ready <= cycle {
          temp := temp + [d];
          out := out + [d.req];
          i := i + 1;
        } else {
          break;
        }
      }
      assert i == n;
      WithoutPrefix(delay, i);
      delay := RemoveEach(delay, temp);
    }

    /** The scan shared by command and data scheduling. */
    method FindOldest(w: Want, lo: nat, hi: nat) returns (bank: int)
      requires lo <= hi <= banks.Length
      requires forall j :: lo <= j < hi && Eligible(w, banks[j]) ==> banks[j].timestamp < NEVER
      ensures Oldest(w, banks[..], lo, hi) == if bank == -1 then None else Some(bank)
      ensures bank == -1 || lo <= bank < hi
    {
      var oldest := NEVER;
      bank := -1;
      var j := lo;
      while j < hi
        invariant lo <= j <= hi && (bank == -1 || lo <= bank < j)
        invariant Oldest(w, banks[..], lo, j) == if bank == -1 then None else Some(bank)
        invariant oldest == if bank == -1 then NEVER else banks[bank].timestamp
      {
        if Eligible(w, banks[j]) && banks[j].timestamp < oldest {
          oldest := banks[j].timestamp;
          bank := j;
        }
        j := j + 1;
      }
    }

    /** The range of banks a channel scans. */
    method BanksOf(ch: nat) returns (lo: nat, hi: nat)
      requires Wired(cfg) && ch < cfg.numChannels
      ensures lo == Lo(cfg, ch) <= hi == Lo(cfg, ch + 1) <= cfg.numBanks
    {
      ChannelsFit(cfg, ch);
      LoIsMultiple(cfg, ch);
      LoIsMultiple(cfg, ch + 1);
      lo, hi := ch * cfg.perChannel, (ch + 1) * cfg.perChannel;
    }

    /** channel_schedule_cmd */
    method ScheduleCommands()
      requires Wired(cfg) && banks.Length == cfg.numBanks
      requires forall j :: 0 <= j < banks.Length && Waiting(banks[j]) ==> banks[j].timestamp < NEVER
      modifies banks
      ensures banks[..] == CmdChannels(cfg, old(banks[..]), cycle, cfg.numChannels)
    {
      hide CmdChannels, Issue, Lo;
      CmdNone(cfg, banks[..], cycle);
      for ch := 0 to cfg.numChannels
        invariant banks[..] == CmdChannels(cfg, old(banks[..]), cycle, ch)
        invariant forall j :: 0 <= j < banks.Length && Waiting(banks[j]) ==> banks[j].timestamp < NEVER
      {
        var pick := CommandChannel(ch);
        CmdUnfold(cfg, old(banks[..]), cycle, ch + 1, pick);
      }
    }

    /** The command slot of one channel. */
    method CommandChannel(ch: nat) returns (pick: Option<nat>)
      requires Wired(cfg) && banks.Length == cfg.numBanks && ch < cfg.numChannels
      requires forall j :: 0 <= j < banks.Length && Waiting(banks[j]) ==> banks[j].timestamp < NEVER
      modifies banks
      ensures Lo(cfg, ch) <= Lo(cfg, ch + 1) <= cfg.numBanks
      ensures pick == Oldest(ForCommand, old(banks[..]), Lo(cfg, ch), Lo(cfg, ch + 1))
      ensures pick.None? ==> banks[..] == old(banks[..])
      ensures pick.Some? ==> banks[..] == old(banks[..])[pick.value := Issue(cfg, old(banks[..])[pick.value], cycle)]
      ensures forall j :: 0 <= j < banks.Length && Waiting(banks[j]) ==> banks[j].timestamp < NEVER
    {
      pick := None;
      var lo, hi := BanksOf(ch);
      var bank := FindOldest(ForCommand, lo, hi);
      if bank != -1 {
        pick := Some(bank);
        IssueAt(bank);
      }
    }

    /** The command itself: activate, column access or precharge. */
    method IssueAt(bank: nat)
      requires bank < banks.Length && Waiting(banks[bank])
      modifies banks
      ensures banks[..] == old(banks[..])[bank := Issue(cfg, old(banks[bank]), cycle)]
    {
      var b := banks[bank];
      var e := b.current.value;
      if b.openRow == NEVER {
        b := b.(openRow := e.row, bankReady := cycle + cfg.activate, dataAvail := NEVER);
        e := e.(phase := CmdWait);
      } else if e.row == b.openRow {
        b := b.(bankReady := cycle + cfg.column);
        b := b.(dataAvail := b.bankReady);
        e := e.(phase := Data);
      } else {
        b := b.(openRow := NEVER, bankReady := cycle + cfg.precharge, dataAvail := NEVER);
        e := e.(phase := CmdWait);
      }
      banks[bank] := b.(current := Some(e));
    }

    /** acquire_data_bus */
    method AcquireBus(ch: nat, size: nat) returns (latency: nat)
      requires ch < buses.Length && BusInv(cfg.busWidth, buses[ch])
      modifies buses
      ensures buses[..] == old(buses[..])[ch := Acquire(cfg.busWidth, old(buses[ch]), size, cycle)]
      ensures latency == buses[ch].ready
    {
      var avail := buses[ch].avail;
      if size < avail {
        avail := avail - size;
        latency := cycle;
      } else {
        latency := cycle + (size - avail) / cfg.busWidth + 1;
        avail := cfg.busWidth - (size - avail) % cfg.busWidth;
      }
      buses[ch] := Bus(avail, latency);
    }

    /** The grant loop of one channel in channel_schedule_data. */
    method TransferChannel(ch: nat, lo: nat, hi: nat)
      requires lo <= hi <= banks.Length && ch < buses.Length
      requires cfg.busWidth > 0 && BusInv(cfg.busWidth, buses[ch])
      requires forall j :: lo <= j < hi && banks[j].current.Some? ==> banks[j].timestamp < NEVER
      modifies banks, buses
      ensures var g := DataChannel(cfg, old(banks[..]), old(buses[ch]), cycle, lo, hi);
        banks[..] == g.banks && buses[..] == old(buses[..])[ch := g.bus]
    {
      ghost var g := DataChannel(cfg, banks[..], buses[ch], cycle, lo, hi);
      while buses[ch].ready <= cycle
        invariant BusInv(cfg.busWidth, buses[ch])
        invariant forall k :: 0 <= k < buses.Length && k != ch ==> buses[k] == old(buses[k])
        invariant forall j :: lo <= j < hi && banks[j].current.Some? ==> banks[j].timestamp < NEVER
        invariant var h := DataChannel(cfg, banks[..], buses[ch], cycle, lo, hi); h.banks == g.banks && h.bus == g.bus
        decreases Count(ForData(cycle), banks[..], lo, hi)
      {
        var bank := FindOldest(ForData(cycle), lo, hi);
        if bank == -1 {
          break;
        }
        ghost var before, bus := banks[..], buses[ch];
        var b := banks[bank];
        var ready := AcquireBus(ch, b.current.value.req.size);
        banks[bank] := b.(dataReady := ready, dataAvail := NEVER, current := Some(b.current.value.(phase := DataWait)));
        assert (banks[..], buses[ch]) == GrantTo(cfg, before, bus, cycle, bank);
        AcquireAdvances(cfg.busWidth, bus, b.current.value.req.size, cycle);
        CountDrops(ForData(cycle), before, lo, hi, bank, banks[bank]);
      }
    }

    /** channel_schedule_data */
    method ScheduleData()
      requires Wired(cfg) && cfg.busWidth > 0 && Shaped(cfg, State())
      requires forall j :: 0 <= j < banks.Length && banks[j].current.Some? ==> banks[j].timestamp < NEVER
      modifies banks, buses
      ensures (banks[..], buses[..]) == DataChannels(cfg, old(banks[..]), old(buses[..]), cycle, cfg.numChannels)
    {
      for ch := 0 to cfg.numChannels
        invariant (banks[..], buses[..]) == DataChannels(cfg, old(banks[..]), old(buses[..]), cycle, ch)
        invariant forall j :: 0 <= j < banks.Length && banks[j].current.Some? ==> banks[j].timestamp < NEVER
      {
        var lo, hi := BanksOf(ch);
        assert buses[ch] in buses[..];
        ghost var b, bus := banks[..], buses[ch];
        TransferChannel(ch, lo, hi);
        DataChannelEffect(cfg, b, bus, cycle, lo, hi);
      }
    }

    /** A completed request leaves its bank: write-backs end here, the others go
        to the delay buffer or straight to the output buffer. */
    method FinishRequest(r: Req) returns (retired: seq<Req>)
      modifies this`out, this`delay
      ensures retired == Select(IsWriteBack, true, [r])
      ensures State() == Deliver(cfg, old(State()), Select(IsWriteBack, false, [r]))
    {
      assert [r][..0] == [];
      if IsWriteBack(r) {
        retired := [r];
        assert Map(Delay(cycle + cfg.extra), []) == [];
      } else {
        retired := [];
        if cfg.extra > 0 {
          delay := delay + [Delayed(r, cycle + cfg.extra)];
          assert Map(Delay(cycle + cfg.extra), [r]) == [Delayed(r, cycle + cfg.extra)];
        } else {
          out := out + [r];
        }
      }
    }

    /** The merge loop: every buffered entry of the same address completes. */
    method FinishMerged(ii: nat) returns (merged: seq<Entry>, retired: seq<Req>)
      requires ii < banks.Length && banks[ii].current.Some? && cfg.merge
      modifies this`out, this`delay
      ensures merged == Merged(cfg, banks[ii])
      ensures retired == Select(IsWriteBack, true, Map(ReqOf, merged))
      ensures State() == Deliver(cfg, old(State()), Select(IsWriteBack, false, Map(ReqOf, merged)))
    {
      merged, retired := [], [];
      ghost var b := banks[ii];
      ghost var p := AtAddress(b.current.value.req.addr);
      DeliverNone(cfg, State());
      for k := 0 to |banks[ii].buffer|
        invariant merged == Select(p, true, b.buffer[..k])
        invariant retired == Select(IsWriteBack, true, Map(ReqOf, merged))
        invariant State() == Deliver(cfg, old(State()), Select(IsWriteBack, false, Map(ReqOf, merged)))
      {
        var e := banks[ii].buffer[k];
        assert b.buffer[..k + 1][..k] == b.buffer[..k];
        if e.req.addr == banks[ii].current.value.req.addr {
          ghost var done := Map(ReqOf, merged);
          var r := FinishRequest(e.req);
          retired := retired + r;
          MapAppend(ReqOf, merged, [e]);
          assert Map(ReqOf, [e]) == [e.req];
          SelectAppend(IsWriteBack, true, done, [e.req]);
          SelectAppend(IsWriteBack, false, done, [e.req]);
          DeliverTwice(cfg, old(State()), Select(IsWriteBack, false, done), Select(IsWriteBack, false, [e.req]));
          merged := merged + [e];
        }
      }
      assert b.buffer[..|b.buffer|] == b.buffer;
    }

    /** Entries return to the free list and leave the buffer, one by one. */
    method ReleaseEach(ii: nat, gone: seq<Entry>)
      requires ii < banks.Length
      modifies banks, this`total
      ensures banks[..] == old(banks[..])[ii := old(banks[ii]).(
        buffer := Without(old(banks[ii]).buffer, gone), free := old(banks[ii]).free + Map(SlotOf, gone))]
      ensures total == old(total) - |gone|
    {
      ghost var b := banks[ii];
      WithoutNone(b.buffer);
      assert b.free + Map(SlotOf, []) == b.free;
      for k := 0 to |gone|
        invariant total == old(total) - k
        invariant banks[ii] == b.(buffer := Without(b.buffer, gone[..k]), free := b.free + Map(SlotOf, gone[..k]))
        invariant forall j :: 0 <= j < banks.Length && j != ii ==> banks[j] == old(banks[j])
      {
        WithoutStep(b.buffer, gone[..k], gone[k]);
        assert gone[..k] + [gone[k]] == gone[..k + 1];
        assert Map(SlotOf, gone[..k + 1]) == Map(SlotOf, gone[..k]) + [gone[k].slot];
        banks[ii] := banks[ii].(free := banks[ii].free + [gone[k].slot],
                                buffer := Without(banks[ii].buffer, [gone[k]]));
        total := total - 1;
      }
      assert gone[..|gone|] == gone;
    }

    /** Completes and releases the entries merged with the current one. */
    method CompleteMerged(ii: nat) returns (merged: seq<Entry>, retired: seq<Req>)
      requires ii < banks.Length && banks[ii].current.Some?
      modifies banks, this`out, this`delay, this`total
      ensures merged == Merged(cfg, old(banks[ii]))
      ensures retired == Select(IsWriteBack, true, Map(ReqOf, merged))
      ensures banks[..] == old(banks[..])[ii := old(banks[ii]).(
        buffer := if cfg.merge
                  then Select(AtAddress(old(banks[ii]).current.value.req.addr), false, old(banks[ii]).buffer)
                  else old(banks[ii]).buffer,
        free := old(banks[ii]).free + Map(SlotOf, merged))]
      ensures State() == Deliver(cfg, old(State()), Select(IsWriteBack, false, Map(ReqOf, merged))).(
        banks := banks[..], total := old(total) - |merged|)
    {
      merged, retired := [], [];
      DeliverNone(cfg, State());
      assert banks[ii].free + Map(SlotOf, merged) == banks[ii].free;
      if cfg.merge {
        merged, retired := FinishMerged(ii);
        WithoutSelected(AtAddress(banks[ii].current.value.req.addr), banks[ii].buffer);
        ReleaseEach(ii, merged);
      }
    }

    /** The completion of one bank. */
    method CompleteBank(ii: nat) returns (retired: seq<Req>)
      requires ii < banks.Length && TimersAgree(banks[ii]) && cycle < NEVER
      modifies banks, this`out, this`delay, this`total
      ensures banks[ii] == Complete(cfg, old(banks[ii]), cycle)
      ensures forall j :: 0 <= j < banks.Length && j != ii ==> banks[j] == old(banks[j])
      ensures retired == Retired(cfg, old(banks[ii]), cycle)
      ensures DeliveredSince(cfg, old(State()), State(), Delivered(cfg, old(banks[ii]), cycle))
      ensures total == old(total) - |Done(cfg, old(banks[ii]), cycle)|
    {
      retired := [];
      ghost var s0, b := State(), banks[ii];
      if banks[ii].current.None? || banks[ii].dataReady > cycle {
        DeliverNone(cfg, s0);
        return;
      }
      assert banks[ii].current.value.phase == DataWait;
      var merged;
      merged, retired := CompleteMerged(ii);
      var e := banks[ii].current.value;
      ghost var s1, done := State(), Map(ReqOf, merged);
      var r := FinishRequest(e.req);
      retired := retired + r;
      FinishBoth(cfg, s0, s1, merged, e);
      assert (b.free + Map(SlotOf, merged)) + [e.slot] == b.free + Map(SlotOf, merged + [e]);
      banks[ii] := banks[ii].(free := banks[ii].free + [e.slot], current := None, dataReady := NEVER);
      total := total - 1;
      assert banks[ii] == Complete(cfg, b, cycle);
    }

    /** bank_schedule_complete */
    method ScheduleComplete() returns (retired: seq<Req>)
      requires forall j :: 0 <= j < banks.Length ==> TimersAgree(banks[j])
      requires cycle < NEVER
      modifies banks, this`out, this`delay, this`total
      ensures State() == AfterComplete(cfg, old(State()))
      ensures retired == Concat(RetiredBy(cfg, old(banks[..]), cycle), banks.Length)
    {
      hide CompletedUpTo, Retired;
      retired := [];
      ghost var s0 := State();
      NoneCompleted(cfg, s0);
      for ii := 0 to banks.Length
        invariant cycle == s0.cycle && CompletedUpTo(cfg, s0, State(), ii)
        invariant retired == Concat(RetiredBy(cfg, s0.banks, s0.cycle), ii)
      {
        var r := CompleteNext(ii, s0);
        retired := retired + r;
      }
      AllCompleted(cfg, s0, State());
    }

    method CompleteNext(ii: nat, ghost s0: Ctrl) returns (retired: seq<Req>)
      requires ii < banks.Length && cycle == s0.cycle < NEVER
      requires CompletedUpTo(cfg, s0, State(), ii) && TimersAgree(s0.banks[ii])
      modifies banks, this`out, this`delay, this`total
      ensures CompletedUpTo(cfg, s0, State(), ii + 1)
      ensures retired == Retired(cfg, s0.banks[ii], s0.cycle)
    {
      ghost var before := State();
      assert banks[ii] == before.banks[ii];
      retired := CompleteBank(ii);
      CompletedNext(cfg, s0, before, State(), ii);
    }

    /** bank_schedule_new */
    method ScheduleNew()
      modifies banks
      ensures banks[..] == AfterAdvance(cfg, old(State())).banks
    {
      for ii := 0 to banks.Length
        invariant forall j :: 0 <= j < ii ==> banks[j] == Advance(cfg, old(banks[j]), cycle)
        invariant forall j :: ii <= j < banks.Length ==> banks[j] == old(banks[j])
      {
        var b := banks[ii];
        if b.buffer == [] && b.current.None? {
          continue;
        }
        if b.current.None? {
          var queue := SchedulePolicy(b);
          var entry := queue[0];
          b := b.(current := Some(entry.(phase := Cmd, scheduled := cycle)), buffer := queue[1..],
                  bankReady := NEVER, timestamp := cycle);
        } else if b.bankReady <= cycle && b.current.value.phase == CmdWait {
          b := b.(bankReady := NEVER, current := Some(b.current.value.(phase := Cmd)), timestamp := cycle);
        }
        banks[ii] := b;
      }
    }

    /** schedule(): the policy's choice comes to the front. */
    method SchedulePolicy(b: Bank) returns (queue: seq<Entry>)
      requires b.buffer != []
      ensures queue == Ordered(cfg.frfcfs, b.openRow, b.buffer) && |queue| == |b.buffer|
    {
      OrderedPermutes(cfg.frfcfs, b.openRow, b.buffer);
      queue := b.buffer;
      if cfg.frfcfs {
        queue := SortInPlace(b.openRow, b.buffer);
      }
    }

    /** list::sort with the FR-FCFS comparator, by stable insertion. */
    method SortInPlace(openRow: nat, buffer: seq<Entry>) returns (queue: seq<Entry>)
      ensures queue == SortEntries(openRow, buffer)
    {
      queue := [];
      for i := 0 to |buffer|
        invariant queue == SortEntries(openRow, buffer[..i])
      {
        assert buffer[..i + 1][..i] == buffer[..i];
        queue := Place(openRow, queue, buffer[i]);
      }
      assert buffer[..|buffer|] == buffer;
    }

    /** flush_prefetch */
    method FlushPrefetch(bid: nat) returns (flushed: seq<Req>)
      requires bid < banks.Length
      modifies banks, this`total
      ensures banks[..] == old(banks[..])[bid := Flush(old(banks[bid]))]
      ensures flushed == Flushed(old(banks[bid])) && total == old(total) - |flushed|
    {
      ghost var b := banks[bid];
      var done: seq<Entry> := [];
      for k := 0 to |banks[bid].buffer|
        invariant done == Select(IsPrefetch, true, b.buffer[..k])
      {
        var e := banks[bid].buffer[k];
        assert b.buffer[..k + 1][..k] == b.buffer[..k];
        if e.req.kind == Prefetch {
          done := done + [e];
        }
      }
      assert b.buffer[..|b.buffer|] == b.buffer;
      WithoutSelected(IsPrefetch, b.buffer);
      flushed := Map(ReqOf, done);
      ReleaseEach(bid, done);
    }

    /** insert_new_req at the parsed location. */
    method InsertNewReq(r: Req, loc: DramAddress.Location) returns (accepted: bool, flushed: seq<Req>)
      requires loc.bank < banks.Length
      modifies banks, this`total, this`nextId
      ensures var o := InsertAt(old(State()), r, loc);
        State() == o.next && flushed == o.flushed && o.accepted == if accepted then [r] else []
    {
      flushed := [];
      if banks[loc.bank].free == [] {
        flushed := FlushPrefetch(loc.bank);
        if banks[loc.bank].free == [] {
          accepted := false;
          return;
        }
      }
      var b := banks[loc.bank];
      var e := Entry(b.free[0], nextId, r, loc.row, cycle, 0, Init);
      banks[loc.bank] := b.(free := b.free[1..], buffer := b.buffer + [e]);
      nextId := nextId + 1;
      total := total + 1;
      accepted := true;
    }

    /** receive: the request stays in the network when it is refused. */
    method Receive(arrival: Option<Req>) returns (accepted: seq<Req>, flushed: seq<Req>)
      requires cfg.addressMap.numMc > 0 && banks.Length == cfg.numBanks
      requires arrival.Some? ==> DramAddress.ParseAddr(cfg.addressMap, arrival.value.addr).bank < cfg.numBanks
      modifies banks, this`total, this`nextId
      ensures var o := AfterReceive(cfg, old(State()), arrival);
        State() == o.next && flushed == o.flushed && accepted == o.accepted
    {
      accepted, flushed := [], [];
      if arrival.Some? {
        var loc := DramAddress.ParseAddr(cfg.addressMap, arrival.value.addr);
        var ok;
        ok, flushed := InsertNewReq(arrival.value, loc);
        accepted := if ok then [arrival.value] else [];
      }
    }

    method RunOutput(accepts: seq<bool>) returns (sent: seq<Req>)
      requires NoDup(delay)
      modifies this`out, this`delay
      ensures State() == AfterOutput(cfg, old(State()), accepts)
      ensures sent == Sent(cfg, old(out), accepts)
    {
      sent := Send(accepts);
      if cfg.extra > 0 {
        DelayPacket();
      }
    }

    /** channel_schedule */
    method RunChannels()
      requires Wired(cfg) && cfg.busWidth > 0 && Shaped(cfg, State())
      requires forall j :: 0 <= j < banks.Length && banks[j].current.Some? ==> banks[j].timestamp < NEVER
      modifies banks, buses
      ensures State() == AfterData(cfg, AfterCmd(cfg, old(State())))
    {
      CommandsKeepStamps(cfg, banks[..], cycle);
      ScheduleCommands();
      ScheduleData();
    }

    /** The second half of a cycle: banks and reception. */
    method RunBanks(arrival: Option<Req>) returns (accepted: seq<Req>, retired: seq<Req>, flushed: seq<Req>)
      requires cfg.addressMap.numMc > 0 && banks.Length == cfg.numBanks && cycle < NEVER
      requires arrival.Some? ==> DramAddress.ParseAddr(cfg.addressMap, arrival.value.addr).bank < cfg.numBanks
      requires forall j :: 0 <= j < banks.Length ==> TimersAgree(banks[j])
      modifies this`out, this`delay, this`total, this`nextId, banks
      ensures var o := Finish(cfg, old(State()), arrival);
        State() == o.next && accepted == o.accepted && flushed == o.flushed
      ensures retired == Concat(RetiredBy(cfg, old(banks[..]), cycle), banks.Length)
    {
      retired := ScheduleComplete();
      ScheduleNew();
      accepted, flushed := Receive(arrival);
    }

    /** An unlocked cycle. */
    method RunUnlocked(input: Input) returns (accepted: seq<Req>, sent: seq<Req>, retired: seq<Req>, flushed: seq<Req>)
      requires cfg.Valid() && Wired(cfg) && Shaped(cfg, State()) && WellRouted(cfg, input) && !input.locked
      requires cycle < NEVER && Ready(cfg, State(), input.accepts)
      modifies this, banks, buses
      ensures Outcome(State(), accepted, sent, retired, flushed) == Tick(cfg, old(State()), input)
    {
      hide Tick, Finish, Sent, AfterOutput, AfterData, AfterCmd, TimersAgree, RetiredBy;
      sent := RunOutput(input.accepts);
      RunChannels();
      ghost var s1 := State();
      assert s1 == BeforeComplete(cfg, old(State()), input.accepts);
      assert forall j :: 0 <= j < banks.Length ==> banks[j] == s1.banks[j];
      accepted, retired, flushed := RunBanks(input.arrival);
      ghost var r := Finish(cfg, s1, input.arrival);
      TickIs(cfg, old(State()), input, s1, r);
      cycle := cycle + 1;
      assert State() == r.next.(cycle := r.next.cycle + 1);
    }

    /** run_a_cycle: refines Tick and keeps the controller invariant. */
    method RunACycle(input: Input) returns (accepted: seq<Req>, sent: seq<Req>, retired: seq<Req>, flushed: seq<Req>)
      requires Valid() && cycle < NEVER && WellRouted(cfg, input) && Fresh(State(), input)
      modifies this, banks, buses
      ensures Valid()
      ensures Outcome(State(), accepted, sent, retired, flushed) == Tick(cfg, old(State()), input)
    {
      TickConserves(cfg, State(), input);
      AllOkTick(cfg, State(), input);
      if input.locked {
        accepted, sent, retired, flushed := [], [], [], [];
        cycle := cycle + 1;
      } else {
        InvIsReady(cfg, State(), input);
        accepted, sent, retired, flushed := RunUnlocked(input);
      }
    }
  }

  /** What the methods of a cycle rely on. */
  ghost predicate Ready(cfg: Config, s: Ctrl, accepts: seq<bool>)
    requires cfg.Valid() && Wired(cfg) && Shaped(cfg, s)
  {
    && NoDup(s.delay)
    && (forall j :: 0 <= j < |s.banks| && s.banks[j].current.Some? ==> s.banks[j].timestamp < NEVER)
    && (forall j :: 0 <= j < cfg.numBanks ==> TimersAgree(BeforeComplete(cfg, s, accepts).banks[j]))
  }

  lemma InvIsReady(cfg: Config, s: Ctrl, input: Input)
    requires cfg.Valid() && Wired(cfg) && CtrlInv(cfg, s) && AllOk(s) && WellRouted(cfg, input) && !input.locked
    requires s.cycle < NEVER
    ensures Ready(cfg, s, input.accepts)
  {
    DelayIsDistinct(s);
    TimersBeforeComplete(cfg, s, input);
  }

  lemma TickIs(cfg: Config, s: Ctrl, input: Input, s1: Ctrl, r: Outcome)
    requires cfg.Valid() && Wired(cfg) && Shaped(cfg, s) && WellRouted(cfg, input) && !input.locked
    requires s1 == BeforeComplete(cfg, s, input.accepts) && r == Finish(cfg, s1, input.arrival)
    ensures Tick(cfg, s, input) ==
      Outcome(r.next.(cycle := r.next.cycle + 1), r.accepted, Sent(cfg, s.out, input.accepts),
              Concat(RetiredBy(cfg, s1.banks, s1.cycle), |s1.banks|), r.flushed)
  {
  }

  lemma DelayIsDistinct(s: Ctrl)
    requires Distinct(Pending(s))
    ensures NoDup(s.delay)
  {
    var m := Map(ReqOfDelayed, s.delay);
    forall r | r in m
      ensures multiset(m)[r] <= 1
    {
      assert multiset(m)[r] <= Pending(s)[r];
    }
    NoDupByCount(m);
    assert forall i :: 0 <= i < |s.delay| ==> m[i] == s.delay[i].req;
  }

  /** Issuing commands leaves the time stamps alone. */
  lemma CommandsKeepStamps(cfg: Config, banks: seq<Bank>, cycle: nat)
    requires Wired(cfg) && |banks| == cfg.numBanks
    ensures forall j :: 0 <= j < |banks| ==>
      var b := CmdChannels(cfg, banks, cycle, cfg.numChannels)[j];
      b.timestamp == banks[j].timestamp && (b.current.Some? <==> banks[j].current.Some?)
  {
    forall j | 0 <= j < |banks|
      ensures var b := CmdChannels(cfg, banks, cycle, cfg.numChannels)[j];
        b.timestamp == banks[j].timestamp && (b.current.Some? <==> banks[j].current.Some?)
    {
      CmdEffect(cfg, banks, cycle, cfg.numChannels, j);
    }
  }

  lemma TimersBeforeComplete(cfg: Config, s: Ctrl, input: Input)
    requires cfg.Valid() && Wired(cfg) && Shaped(cfg, s) && AllOk(s) && WellRouted(cfg, input) && !input.locked
    ensures forall j :: 0 <= j < cfg.numBanks ==> TimersAgree(BeforeComplete(cfg, s, input.accepts).banks[j])
  {
    forall j | 0 <= j < cfg.numBanks
      ensures TimersAgree(BeforeComplete(cfg, s, input.accepts).banks[j])
    {
      var t := BankTick(cfg, s, input, j);
      BankOkStep(cfg, s.banks[j], t, s.cycle, Commanded(cfg, s.banks, j), s.nextId, Tick(cfg, s, input).next.nextId);
    }
  }

  /** Delivering the merged requests and then the current one delivers all. */
  lemma FinishBoth(cfg: Config, s0: Ctrl, s1: Ctrl, merged: seq<Entry>, e: Entry)
    requires s1 ==
      Deliver(cfg, s0, Select(IsWriteBack, false, Map(ReqOf, merged))).(banks := s1.banks, total := s1.total)
    ensures Deliver(cfg, s1, Select(IsWriteBack, false, [e.req]))
         == Deliver(cfg, s0, Select(IsWriteBack, false, Map(ReqOf, merged + [e]))).(
              banks := s1.banks, total := s1.total)
    ensures Select(IsWriteBack, true, Map(ReqOf, merged + [e]))
         == Select(IsWriteBack, true, Map(ReqOf, merged)) + Select(IsWriteBack, true, [e.req])
    ensures Map(SlotOf, merged + [e]) == Map(SlotOf, merged) + [e.slot]
  {
    var done := Map(ReqOf, merged);
    assert Map(ReqOf, merged + [e]) == done + [e.req];
    SelectAppend(IsWriteBack, true, done, [e.req]);
    SelectAppend(IsWriteBack, false, done, [e.req]);
    DeliverTwice(cfg, s0, Select(IsWriteBack, false, done), Select(IsWriteBack, false, [e.req]));
  }

  /** From s0 to s the requests were delivered; banks and total may differ. */
  ghost predicate DeliveredSince(cfg: Config, s0: Ctrl, s: Ctrl, reqs: seq<Req>) {
    s == Deliver(cfg, s0, reqs).(banks := s.banks, total := s.total)
  }

  /** The first n banks have completed. */
  ghost predicate CompletedUpTo(cfg: Config, s0: Ctrl, s: Ctrl, n: nat) {
    && n <= |s.banks| == |s0.banks|
    && (forall j :: 0 <= j < n ==> s.banks[j] == Complete(cfg, s0.banks[j], s0.cycle))
    && (forall j :: n <= j < |s.banks| ==> s.banks[j] == s0.banks[j])
    && s.total == s0.total - SumNat(DoneBy(cfg, s0.banks, s0.cycle), n)
    && DeliveredSince(cfg, s0, s, Concat(DeliveredBy(cfg, s0.banks, s0.cycle), n))
  }

  lemma NoneCompleted(cfg: Config, s: Ctrl)
    ensures CompletedUpTo(cfg, s, s, 0)
  {
    DeliverNone(cfg, s);
  }

  lemma CompletedNext(cfg: Config, s0: Ctrl, s1: Ctrl, s2: Ctrl, n: nat)
    requires CompletedUpTo(cfg, s0, s1, n) && n < |s0.banks| == |s2.banks|
    requires s2.banks[n] == Complete(cfg, s0.banks[n], s0.cycle)
    requires forall j :: 0 <= j < |s2.banks| && j != n ==> s2.banks[j] == s1.banks[j]
    requires DeliveredSince(cfg, s1, s2, Delivered(cfg, s0.banks[n], s0.cycle))
    requires s2.total == s1.total - |Done(cfg, s0.banks[n], s0.cycle)|
    ensures CompletedUpTo(cfg, s0, s2, n + 1)
  {
    DeliverMore(cfg, s0, s1, s2, Concat(DeliveredBy(cfg, s0.banks, s0.cycle), n),
                Delivered(cfg, s0.banks[n], s0.cycle));
  }

  lemma AllCompleted(cfg: Config, s0: Ctrl, s: Ctrl)
    requires CompletedUpTo(cfg, s0, s, |s0.banks|)
    ensures s == AfterComplete(cfg, s0)
  {
    assert s.banks == AfterComplete(cfg, s0).banks;
  }

  lemma DeliverMore(cfg: Config, s0: Ctrl, s1: Ctrl, s2: Ctrl, a: seq<Req>, b: seq<Req>)
    requires DeliveredSince(cfg, s0, s1, a) && DeliveredSince(cfg, s1, s2, b)
    ensures DeliveredSince(cfg, s0, s2, a + b)
  {
    DeliverTwice(cfg, s0, a, b);
  }

  lemma DeliverNone(cfg: Config, s: Ctrl)
    ensures Deliver(cfg, s, []) == s
  {
    assert Map(Delay(s.cycle + cfg.extra), []) == [];
  }

  lemma DeliverTwice(cfg: Config, s: Ctrl, a: seq<Req>, b: seq<Req>)
    ensures Deliver(cfg, Deliver(cfg, s, a), b) == Deliver(cfg, s, a + b)
  {
    MapAppend(Delay(s.cycle + cfg.extra), a, b);
  }
}
