/** No bank waits for the data bus longer than the transfers ahead of it take. */
module DramDataBus {
  import opened Arith
  import opened Lists
  import opened DramTypes
  import opened DramBank
  import opened DramArbiter
  import opened DramModel
  import opened DramRun
  import opened DramService
  import opened DramStarvation
  import DramHistory

  /** In service and not granted the bus yet. */
  predicate Ungranted(b: Bank) {
    b.current.Some? && b.current.value.phase != Init && b.current.value.phase != DataWait
  }

  /** The banks of the range that may get the bus before bank j. */
  ghost function AheadForData(banks: seq<Bank>, lo: nat, hi: nat, j: nat): set<nat>
    requires lo <= hi <= |banks| && j < |banks|
  {
    set i: nat | lo <= i < hi && Ungranted(banks[i]) && Older(banks, i, j)
  }

  /** Their transfers are not larger than max. */
  ghost predicate SizesAhead(banks: seq<Bank>, lo: nat, hi: nat, j: nat, max: nat)
    requires lo <= hi <= |banks| && j < |banks|
  {
    forall i :: i in AheadForData(banks, lo, hi, j) ==> banks[i].current.value.req.size <= max
  }

  /** The cycles a transfer of at most max bytes keeps the bus. */
  function Transfer(width: nat, max: nat): (t: nat)
    requires width > 0
    ensures t >= 1
  {
    max / width + 1
  }

  lemma AcquireBound(width: nat, bus: Bus, size: nat, max: nat, cycle: nat)
    requires width > 0 && BusInv(width, bus) && size <= max
    ensures Acquire(width, bus, size, cycle).ready <= cycle + Transfer(width, max)
  {
    if size >= bus.avail {
      QuotientGrows(size - bus.avail, max, width);
    }
  }

  lemma QuotientGrows(a: nat, b: nat, n: nat)
    requires n > 0 && a <= b
    ensures a / n <= b / n
  {
    hide Mul;
    DivMod(a, n);
    DivMod(b, n);
    var p, q := a / n, b / n;
    Spread(n, p, q);
    Spread(n, p - q, 1);
    Unit(n);
    Arith.Smaller(n, p - q - 1);
  }

  // ----- the grants of one cycle

  /** If bank j has data pending and is not granted, everything granted is ahead of it;
      something is, when the bus is free, and the bus is then busy for at most one
      transfer. */
  lemma {:induction false} GrantsAhead(cfg: Config, banks: seq<Bank>, bus: Bus, cycle: nat, lo: nat, hi: nat, j: nat,
                                       max: nat)
    requires lo <= j < hi <= |banks| && cfg.busWidth > 0 && BusInv(cfg.busWidth, bus) && DataPending(banks[j], cycle)
    requires j !in DataChannel(cfg, banks, bus, cycle, lo, hi).order
    requires forall i :: lo <= i < hi && DataPending(banks[i], cycle) && Older(banks, i, j) ==>
      banks[i].current.value.req.size <= max
    ensures var r := DataChannel(cfg, banks, bus, cycle, lo, hi);
      && (forall k :: k in r.order ==> lo <= k < hi && Older(banks, k, j))
      && (bus.ready <= cycle <==> r.order != [])
      && (if r.order == [] then r.bus == bus else r.bus.ready <= cycle + Transfer(cfg.busWidth, max))
    decreases Count(ForData(cycle), banks, lo, hi)
  {
    hide Acquire, Transfer;
    if bus.ready <= cycle {
      var k := Oldest(ForData(cycle), banks, lo, hi).value;
      var (banks', bus') := GrantTo(cfg, banks, bus, cycle, k);
      CountDrops(ForData(cycle), banks, lo, hi, k, banks'[k]);
      var size := banks[k].current.value.req.size;
      AcquireAdvances(cfg.busWidth, bus, size, cycle);
      AcquireBound(cfg.busWidth, bus, size, max, cycle);
      var rest := DataChannel(cfg, banks', bus', cycle, lo, hi);
      assert forall x :: x in [k] + rest.order <==> x == k || x in rest.order;
      GrantsAhead(cfg, banks', bus', cycle, lo, hi, j, max);
    }
  }

  lemma AcquireReady(width: nat, bus: Bus, size: nat, cycle: nat)
    requires width > 0 && BusInv(width, bus)
    ensures var b := Acquire(width, bus, size, cycle);
      && b.ready == cycle + (width - bus.avail + size) / width
      && (b.ready <= cycle ==> width - b.avail == width - bus.avail + size)
  {
    hide Mul;
    var used := width - bus.avail + size;
    Unit(width);
    if size < bus.avail {
      Ends(width, used, 0, used);
    } else {
      var over := size - bus.avail;
      DivMod(over, width);
      Spread(width, over / width, 1);
      Ends(width, used, over / width + 1, over % width);
    }
  }

  lemma Ends(width: nat, used: nat, q: nat, r: nat)
    requires r < width && used == Mul(width, q) + r
    ensures used / width == q
  {
    hide Mul;
    DivMod(used, width);
    RemainderIs(used, width, q, r);
    Cancel(width, used / width, q);
  }

  /** The data of a granted bank is ready when the bus, from where it stood, has carried
      the transfers granted up to and including its own. */
  lemma {:induction false} GrantTimes(cfg: Config, banks: seq<Bank>, bus: Bus, cycle: nat, lo: nat, hi: nat, i: nat)
    requires lo <= hi <= |banks| && cfg.busWidth > 0 && BusInv(cfg.busWidth, bus)
    requires i < |DataChannel(cfg, banks, bus, cycle, lo, hi).order|
    ensures var r := DataChannel(cfg, banks, bus, cycle, lo, hi);
      && r.order[i] < |banks|
      && r.banks[r.order[i]].dataReady ==
         cycle + (cfg.busWidth - bus.avail + BytesOf(banks, r.order[..i + 1])) / cfg.busWidth
    decreases Count(ForData(cycle), banks, lo, hi)
  {
    hide DataChannel, GrantData, Oldest;
    var k, banks', bus' := FirstGrant(cfg, banks, bus, cycle, lo, hi);
    var r, rest := DataChannel(cfg, banks, bus, cycle, lo, hi), DataChannel(cfg, banks', bus', cycle, lo, hi);
    var head := r.order[..i + 1];
    assert head[0] == k && head[1..] == rest.order[..i];
    BytesFrame(banks, banks', rest.order[..i]);
    if i == 0 {
      assert rest.order[..0] == [];
    } else {
      GrantTimes(cfg, banks', bus', cycle, lo, hi, i - 1);
    }
  }

  /** The first grant of a cycle and what is left to the others. */
  lemma FirstGrant(cfg: Config, banks: seq<Bank>, bus: Bus, cycle: nat, lo: nat, hi: nat)
    returns (k: nat, banks': seq<Bank>, bus': Bus)
    requires lo <= hi <= |banks| && cfg.busWidth > 0 && BusInv(cfg.busWidth, bus)
    requires DataChannel(cfg, banks, bus, cycle, lo, hi).order != []
    ensures k < |banks| == |banks'| && banks[k].current.Some? && BusInv(cfg.busWidth, bus')
    ensures Count(ForData(cycle), banks', lo, hi) < Count(ForData(cycle), banks, lo, hi)
    ensures forall j :: 0 <= j < |banks| ==>
      banks[j].current.Some? == banks'[j].current.Some? &&
      (banks[j].current.Some? ==> banks[j].current.value.req.size == banks'[j].current.value.req.size)
    ensures
      var r, rest := DataChannel(cfg, banks, bus, cycle, lo, hi), DataChannel(cfg, banks', bus', cycle, lo, hi);
      var used := cfg.busWidth - bus.avail + banks[k].current.value.req.size;
      && r.banks == rest.banks && r.order == [k] + rest.order
      && r.banks[k].dataReady == cycle + used / cfg.busWidth
      && (rest.order != [] ==> cfg.busWidth - bus'.avail == used)
  {
    hide Acquire, Oldest;
    k := Oldest(ForData(cycle), banks, lo, hi).value;
    var size := banks[k].current.value.req.size;
    banks', bus' := GrantTo(cfg, banks, bus, cycle, k).0, GrantTo(cfg, banks, bus, cycle, k).1;
    CountDrops(ForData(cycle), banks, lo, hi, k, banks'[k]);
    AcquireAdvances(cfg.busWidth, bus, size, cycle);
    AcquireReady(cfg.busWidth, bus, size, cycle);
    DataChannelEffect(cfg, banks', bus', cycle, lo, hi);
    assert k !in DataChannel(cfg, banks', bus', cycle, lo, hi).order;
  }

  /** A channel's banks are touched only in its own turn. */
  lemma {:induction false} BanksInTurn(cfg: Config, banks: seq<Bank>, buses: seq<Bus>, cycle: nat, n: nat, ch: nat,
                                       i: nat)
    requires Wired(cfg) && cfg.busWidth > 0 && n <= cfg.numChannels && ch < cfg.numChannels
    requires |banks| == cfg.numBanks && |buses| == cfg.numChannels && Owns(cfg, ch, i) && i < |banks|
    requires forall bus :: bus in buses ==> BusInv(cfg.busWidth, bus)
    ensures Lo(cfg, ch) <= Lo(cfg, ch + 1) <= cfg.numBanks
    ensures DataChannels(cfg, banks, buses, cycle, n).0[i] ==
      if n <= ch then banks[i]
      else
        var (b, bs) := DataChannels(cfg, banks, buses, cycle, ch);
        DataChannel(cfg, b, bs[ch], cycle, Lo(cfg, ch), Lo(cfg, ch + 1)).banks[i]
  {
    hide DataChannel, Lo;
    ChannelsFit(cfg, ch);
    if n > 0 {
      ChannelsFit(cfg, n - 1);
      BanksInTurn(cfg, banks, buses, cycle, n - 1, ch, i);
      if n - 1 != ch {
        var (b, bs) := DataChannels(cfg, banks, buses, cycle, n - 1);
        if n - 1 < ch {
          LoMonotone(cfg, n, ch);
        } else {
          LoMonotone(cfg, ch + 1, n - 1);
        }
        OutsideIsUntouched(cfg, b, bs[n - 1], cycle, Lo(cfg, n - 1), Lo(cfg, n), i);
      }
    }
  }

  lemma OutsideIsUntouched(cfg: Config, banks: seq<Bank>, bus: Bus, cycle: nat, lo: nat, hi: nat, i: nat)
    requires lo <= hi <= |banks| && cfg.busWidth > 0 && BusInv(cfg.busWidth, bus) && i < |banks| && (i < lo || hi <= i)
    ensures DataChannel(cfg, banks, bus, cycle, lo, hi).banks[i] == banks[i]
  {
    hide DataChannel;
    DataChannelEffect(cfg, banks, bus, cycle, lo, hi);
  }

  // ----- one cycle

  /** Bank j gets the data bus in this cycle. */
  ghost predicate DataGranted(cfg: Config, s: Ctrl, input: Input, j: nat)
    requires Wired(cfg) && cfg.busWidth > 0 && Shaped(cfg, s) && j < |s.banks|
  {
    var d := BeforeComplete(cfg, s, input.accepts).banks[j];
    !input.locked && DataPending(s.banks[j], s.cycle) && d.current.Some? && d.current.value.phase == DataWait
  }

  /** A bank that is still ungranted after the cycle, with an older time stamp, was so
      before it, for the same request, and did not get the bus. */
  lemma WasUngranted(cfg: Config, b: Bank, t: Stages, cycle: nat, commanded: bool, id: nat, id': nat)
    requires BankOk(b, cycle) && cycle < NEVER && BankStep(cfg, b, t, cycle, commanded, id, id')
    requires Ungranted(t.end) && t.end.timestamp < cycle
    ensures Ungranted(b) && t.end.timestamp == b.timestamp && t.data == t.cmd
    ensures t.end.current.value.req == b.current.value.req
  {
    BankOkStep(cfg, b, t, cycle, commanded, id, id');
    ReceiveRows(t.next, t.end, cycle, id, id');
    AdvanceRows(cfg, t.done, cycle);
  }

  /** A bank with pending data that is not granted keeps it, with its time stamp. */
  lemma StillPending(cfg: Config, b: Bank, t: Stages, cycle: nat, id: nat, id': nat)
    requires BankOk(b, cycle) && cycle < NEVER && DataPending(b, cycle) && BankStep(cfg, b, t, cycle, false, id, id')
    requires t.data == b
    ensures DataPending(t.end, cycle + 1) && t.end.timestamp == b.timestamp
  {
    BankOkStep(cfg, b, t, cycle, false, id, id');
    ReceiveRows(t.next, t.end, cycle, id, id');
  }

  /** The channel's turn in a cycle: its banks after the commands, its bus, and what the
      grants make of them. */
  lemma ChannelTurn(cfg: Config, s: Ctrl, input: Input, ch: nat) returns (b: seq<Bank>)
    requires cfg.Valid() && Wired(cfg) && Shaped(cfg, s) && WellRouted(cfg, input) && !input.locked
    requires ch < cfg.numChannels
    ensures Lo(cfg, ch) <= Lo(cfg, ch + 1) <= cfg.numBanks == |b|
    ensures forall i :: Lo(cfg, ch) <= i < Lo(cfg, ch + 1) ==>
      b[i] == CmdResult(cfg, s.banks, s.cycle, cfg.numChannels, i)
    ensures BusInv(cfg.busWidth, s.buses[ch])
    ensures var r := DataChannel(cfg, b, s.buses[ch], s.cycle, Lo(cfg, ch), Lo(cfg, ch + 1));
      && Tick(cfg, s, input).next.buses[ch] == r.bus
      && forall i :: Lo(cfg, ch) <= i < Lo(cfg, ch + 1) ==> BeforeComplete(cfg, s, input.accepts).banks[i] == r.banks[i]
  {
    hide DataChannel, Lo, CmdResult, CmdChannels;
    ChannelsFit(cfg, ch);
    var banks := CmdChannels(cfg, s.banks, s.cycle, cfg.numChannels);
    DramHistory.BusInTurn(cfg, banks, s.buses, s.cycle, cfg.numChannels, ch);
    DramHistory.BusInTurn(cfg, banks, s.buses, s.cycle, ch, ch);
    b := DataChannels(cfg, banks, s.buses, s.cycle, ch).0;
    forall i | Lo(cfg, ch) <= i < Lo(cfg, ch + 1)
      ensures b[i] == CmdResult(cfg, s.banks, s.cycle, cfg.numChannels, i)
      ensures BeforeComplete(cfg, s, input.accepts).banks[i] ==
        DataChannel(cfg, b, s.buses[ch], s.cycle, Lo(cfg, ch), Lo(cfg, ch + 1)).banks[i]
    {
      CmdEffect(cfg, s.banks, s.cycle, cfg.numChannels, i);
      BanksInTurn(cfg, banks, s.buses, s.cycle, ch, ch, i);
      BanksInTurn(cfg, banks, s.buses, s.cycle, cfg.numChannels, ch, i);
    }
  }

  lemma CommandKeepsStamp(cfg: Config, banks: seq<Bank>, cycle: nat, i: nat)
    requires Wired(cfg) && |banks| == cfg.numBanks && i < |banks|
    ensures var b := CmdResult(cfg, banks, cycle, cfg.numChannels, i);
      && b.timestamp == banks[i].timestamp && (b.current.Some? <==> banks[i].current.Some?)
      && (b.current.Some? ==> b.current.value.req == banks[i].current.value.req)
      && (DataPending(b, cycle) ==> Ungranted(banks[i]))
      && (DataPending(banks[i], cycle) ==> b == banks[i])
  {
  }

  /** What the grants of a channel leave bank j, if it is not granted. */
  lemma PassedOver(cfg: Config, s: Ctrl, input: Input, ch: nat, j: nat, max: nat, b: seq<Bank>)
    requires cfg.Valid() && Wired(cfg) && Shaped(cfg, s) && WellRouted(cfg, input) && !input.locked
    requires ch < cfg.numChannels && Owns(cfg, ch, j) && j < cfg.numBanks == |b| && Lo(cfg, ch + 1) <= cfg.numBanks
    requires forall i :: Lo(cfg, ch) <= i < Lo(cfg, ch + 1) ==>
      b[i] == CmdResult(cfg, s.banks, s.cycle, cfg.numChannels, i)
    requires BusInv(cfg.busWidth, s.buses[ch]) && DataPending(s.banks[j], s.cycle)
    requires SizesAhead(s.banks, Lo(cfg, ch), Lo(cfg, ch + 1), j, max)
    requires j !in DataChannel(cfg, b, s.buses[ch], s.cycle, Lo(cfg, ch), Lo(cfg, ch + 1)).order
    ensures var lo, hi := Lo(cfg, ch), Lo(cfg, ch + 1);
      var r := DataChannel(cfg, b, s.buses[ch], s.cycle, lo, hi);
      && (forall k :: k in r.order ==> k in AheadForData(s.banks, lo, hi, j))
      && (s.buses[ch].ready <= s.cycle <==> r.order != [])
      && (if r.order == [] then r.bus == s.buses[ch] else r.bus.ready <= s.cycle + Transfer(cfg.busWidth, max))
  {
    hide DataChannel, Lo, CmdResult, Transfer;
    var lo, hi := Lo(cfg, ch), Lo(cfg, ch + 1);
    forall i | lo <= i < hi
      ensures b[i].timestamp == s.banks[i].timestamp && (DataPending(b[i], s.cycle) ==> Ungranted(s.banks[i]))
      ensures b[i].current.Some? ==> s.banks[i].current.Some? && b[i].current.value.req == s.banks[i].current.value.req
    {
      CommandKeepsStamp(cfg, s.banks, s.cycle, i);
    }
    CommandKeepsStamp(cfg, s.banks, s.cycle, j);
    forall i | lo <= i < hi && DataPending(b[i], s.cycle) && Older(b, i, j)
      ensures b[i].current.value.req.size <= max && i in AheadForData(s.banks, lo, hi, j)
    {
      assert i in AheadForData(s.banks, lo, hi, j);
    }
    GrantsAhead(cfg, b, s.buses[ch], s.cycle, lo, hi, j, max);
    DataChannelEffect(cfg, b, s.buses[ch], s.cycle, lo, hi);
  }

  /** A cycle in which bank j is not granted the bus: nobody new gets ahead of it, and
      when the bus was free somebody ahead took it for at most one transfer. */
  lemma {:induction false} DataRankDrops(cfg: Config, s: Ctrl, input: Input, ch: nat, j: nat, max: nat)
    requires cfg.Valid() && Wired(cfg) && Shaped(cfg, s) && WellRouted(cfg, input) && !input.locked
    requires AllOk(s) && s.cycle < NEVER && ch < cfg.numChannels && Owns(cfg, ch, j) && j < cfg.numBanks
    requires Lo(cfg, ch) <= Lo(cfg, ch + 1) <= cfg.numBanks
    requires DataPending(s.banks[j], s.cycle) && !DataGranted(cfg, s, input, j)
    requires SizesAhead(s.banks, Lo(cfg, ch), Lo(cfg, ch + 1), j, max)
    ensures var lo, hi, t := Lo(cfg, ch), Lo(cfg, ch + 1), Tick(cfg, s, input).next;
      && DataPending(t.banks[j], s.cycle + 1) && SizesAhead(t.banks, lo, hi, j, max)
      && if s.buses[ch].ready <= s.cycle
         then |AheadForData(t.banks, lo, hi, j)| < |AheadForData(s.banks, lo, hi, j)|
              && t.buses[ch].ready <= s.cycle + Transfer(cfg.busWidth, max)
         else |AheadForData(t.banks, lo, hi, j)| <= |AheadForData(s.banks, lo, hi, j)| && t.buses[ch] == s.buses[ch]
  {
    hide DataChannel, Lo, CmdResult, Transfer, Tick, BeforeComplete, DataPending, Ungranted, BankOk;
    var lo, hi, t := Lo(cfg, ch), Lo(cfg, ch + 1), Tick(cfg, s, input).next;
    var b := ChannelTurn(cfg, s, input, ch);
    var r := DataChannel(cfg, b, s.buses[ch], s.cycle, lo, hi);
    NotGranted(cfg, s, input, ch, j, b);
    PassedOver(cfg, s, input, ch, j, max, b);
    PendingAfter(cfg, s, input, j);
    var before, after := AheadForData(s.banks, lo, hi, j), AheadForData(t.banks, lo, hi, j);
    forall i | i in after
      ensures i in before && i !in r.order && t.banks[i].current.Some? && s.banks[i].current.Some?
      ensures t.banks[i].current.value.req == s.banks[i].current.value.req
    {
      AheadAfter(cfg, s, input, ch, j, i, b);
    }
    SubsetSize(after, before);
    if s.buses[ch].ready <= s.cycle {
      var k := r.order[0];
      assert k in r.order;
      DramStarvation.Smaller(after, before, k);
    }
  }

  lemma NotGranted(cfg: Config, s: Ctrl, input: Input, ch: nat, j: nat, b: seq<Bank>)
    requires cfg.Valid() && Wired(cfg) && Shaped(cfg, s) && WellRouted(cfg, input) && !input.locked
    requires ch < cfg.numChannels && Owns(cfg, ch, j) && j < cfg.numBanks == |b|
    requires Lo(cfg, ch) <= Lo(cfg, ch + 1) <= cfg.numBanks && BusInv(cfg.busWidth, s.buses[ch])
    requires BeforeComplete(cfg, s, input.accepts).banks[j] ==
      DataChannel(cfg, b, s.buses[ch], s.cycle, Lo(cfg, ch), Lo(cfg, ch + 1)).banks[j]
    requires DataPending(s.banks[j], s.cycle) && !DataGranted(cfg, s, input, j)
    ensures j !in DataChannel(cfg, b, s.buses[ch], s.cycle, Lo(cfg, ch), Lo(cfg, ch + 1)).order
  {
    hide DataChannel, Lo, BeforeComplete;
    DataChannelEffect(cfg, b, s.buses[ch], s.cycle, Lo(cfg, ch), Lo(cfg, ch + 1));
  }

  lemma PendingAfter(cfg: Config, s: Ctrl, input: Input, j: nat)
    requires cfg.Valid() && Wired(cfg) && Shaped(cfg, s) && WellRouted(cfg, input) && !input.locked
    requires AllOk(s) && s.cycle < NEVER && j < cfg.numBanks
    requires DataPending(s.banks[j], s.cycle) && !DataGranted(cfg, s, input, j)
    ensures var t := Tick(cfg, s, input).next;
      && DataPending(t.banks[j], s.cycle + 1)
      && t.banks[j].timestamp == s.banks[j].timestamp && s.banks[j].timestamp < s.cycle
  {
    hide Tick, BeforeComplete, Commanded;
    var t := BankTick(cfg, s, input, j);
    StillPending(cfg, s.banks[j], t, s.cycle, s.nextId, Tick(cfg, s, input).next.nextId);
  }

  /** A bank ahead of j after the cycle was ahead of it before and was not granted. */
  lemma AheadAfter(cfg: Config, s: Ctrl, input: Input, ch: nat, j: nat, i: nat, b: seq<Bank>)
    requires cfg.Valid() && Wired(cfg) && Shaped(cfg, s) && WellRouted(cfg, input) && !input.locked
    requires AllOk(s) && s.cycle < NEVER && ch < cfg.numChannels && j < cfg.numBanks == |b|
    requires Lo(cfg, ch) <= Lo(cfg, ch + 1) <= cfg.numBanks && BusInv(cfg.busWidth, s.buses[ch])
    requires forall k :: Lo(cfg, ch) <= k < Lo(cfg, ch + 1) ==>
      && b[k] == CmdResult(cfg, s.banks, s.cycle, cfg.numChannels, k)
      && BeforeComplete(cfg, s, input.accepts).banks[k] ==
         DataChannel(cfg, b, s.buses[ch], s.cycle, Lo(cfg, ch), Lo(cfg, ch + 1)).banks[k]
    requires var t := Tick(cfg, s, input).next;
      && t.banks[j].timestamp == s.banks[j].timestamp && s.banks[j].timestamp < s.cycle
      && i in AheadForData(t.banks, Lo(cfg, ch), Lo(cfg, ch + 1), j)
    ensures i in AheadForData(s.banks, Lo(cfg, ch), Lo(cfg, ch + 1), j)
    ensures i !in DataChannel(cfg, b, s.buses[ch], s.cycle, Lo(cfg, ch), Lo(cfg, ch + 1)).order
    ensures Tick(cfg, s, input).next.banks[i].current.Some? && s.banks[i].current.Some?
    ensures Tick(cfg, s, input).next.banks[i].current.value.req == s.banks[i].current.value.req
  {
    hide DataChannel, Lo, Tick, BeforeComplete, CmdResult, Issue;
    var t := BankTick(cfg, s, input, i);
    WasUngranted(cfg, s.banks[i], t, s.cycle, Commanded(cfg, s.banks, i), s.nextId, Tick(cfg, s, input).next.nextId);
    CommandedIs(cfg, s.banks, s.cycle, i);
    DataChannelEffect(cfg, b, s.buses[ch], s.cycle, Lo(cfg, ch), Lo(cfg, ch + 1));
  }

  lemma CommandedIs(cfg: Config, banks: seq<Bank>, cycle: nat, i: nat)
    requires Wired(cfg) && |banks| == cfg.numBanks && i < |banks|
    ensures CmdResult(cfg, banks, cycle, cfg.numChannels, i) ==
      if Commanded(cfg, banks, i) then Issue(cfg, banks[i], cycle) else banks[i]
  {
  }

  // ----- runs

  function Busy(bus: Bus, cycle: nat): nat {
    if bus.ready > cycle then bus.ready - cycle else 0
  }

  /** The most unlocked cycles bank j can still be passed over: the transfers ahead of it,
      each with the cycle in which it is granted, and what is left of the current one. */
  ghost function Wait(cfg: Config, s: Ctrl, ch: nat, j: nat, max: nat): nat
    requires cfg.busWidth > 0 && ch < |s.buses| && Lo(cfg, ch) <= Lo(cfg, ch + 1) <= |s.banks| && j < |s.banks|
  {
    var ahead := AheadForData(s.banks, Lo(cfg, ch), Lo(cfg, ch + 1), j);
    Mul(|ahead|, Transfer(cfg.busWidth, max) + 1) + Busy(s.buses[ch], s.cycle)
  }

  lemma LessToWait(r: nat, w: nat, r': nat, w': nat, t: nat)
    requires if w == 0 then r' < r && w' < t else r' <= r && w' + 1 == w
    ensures Mul(r', t + 1) + w' < Mul(r, t + 1) + w
  {
    hide Mul;
    Regroup(r, t + 1, 0);
    Regroup(r', t + 1, 0);
    Spread(t + 1, r, r');
    Spread(t + 1, r - r', 1);
    Unit(t + 1);
    Arith.Smaller(t + 1, r - r');
    Arith.Smaller(t + 1, r - r' - 1);
  }

  /** Each cycle in which bank j is not granted leaves it less to wait for; a locked
      cycle leaves it no more. */
  lemma WaitDrops(cfg: Config, s: Ctrl, input: Input, ch: nat, j: nat, max: nat)
    requires cfg.Valid() && Wired(cfg) && Shaped(cfg, s) && WellRouted(cfg, input)
    requires AllOk(s) && s.cycle < NEVER && ch < cfg.numChannels && Owns(cfg, ch, j) && j < cfg.numBanks
    requires Lo(cfg, ch) <= Lo(cfg, ch + 1) <= cfg.numBanks
    requires DataPending(s.banks[j], s.cycle) && !DataGranted(cfg, s, input, j)
    requires SizesAhead(s.banks, Lo(cfg, ch), Lo(cfg, ch + 1), j, max)
    ensures var t := Tick(cfg, s, input).next;
      && DataPending(t.banks[j], t.cycle) && SizesAhead(t.banks, Lo(cfg, ch), Lo(cfg, ch + 1), j, max)
      && Wait(cfg, t, ch, j, max) + (if input.locked then 0 else 1) <= Wait(cfg, s, ch, j, max)
  {
    hide Tick, Lo, AheadForData, SizesAhead, DataGranted, DataPending, Transfer, Mul;
    if input.locked {
      LockedWaits(cfg, s, input, ch, j, max);
    } else {
      DataRankDrops(cfg, s, input, ch, j, max);
      var lo, hi, t := Lo(cfg, ch), Lo(cfg, ch + 1), Tick(cfg, s, input).next;
      assert t.cycle == s.cycle + 1;
      LessToWait(|AheadForData(s.banks, lo, hi, j)|, Busy(s.buses[ch], s.cycle), |AheadForData(t.banks, lo, hi, j)|,
                 Busy(t.buses[ch], t.cycle), Transfer(cfg.busWidth, max));
    }
  }

  lemma LockedWaits(cfg: Config, s: Ctrl, input: Input, ch: nat, j: nat, max: nat)
    requires cfg.Valid() && Wired(cfg) && Shaped(cfg, s) && WellRouted(cfg, input) && input.locked
    requires ch < cfg.numChannels && j < cfg.numBanks && Lo(cfg, ch) <= Lo(cfg, ch + 1) <= cfg.numBanks
    requires DataPending(s.banks[j], s.cycle)
    ensures var t := Tick(cfg, s, input).next;
      && t.banks == s.banks && DataPending(t.banks[j], t.cycle) && Wait(cfg, t, ch, j, max) <= Wait(cfg, s, ch, j, max)
  {
    hide Mul, Lo, Transfer, AheadForData;
  }

  /** Bank j gets the data bus in some step of the run. */
  ghost predicate GetsBus(cfg: Config, s: Ctrl, inputs: seq<Input>, j: nat)
    requires Runnable(cfg, s, inputs) && j < cfg.numBanks
  {
    exists k :: 0 <= k < |inputs| && DataGranted(cfg, At(cfg, s, inputs, k), inputs[k], j)
  }

  lemma GetsBusEarlier(cfg: Config, s: Ctrl, inputs: seq<Input>, j: nat)
    requires Runnable(cfg, s, inputs) && inputs != [] && j < cfg.numBanks && GetsBus(cfg, s, inputs[..|inputs| - 1], j)
    ensures GetsBus(cfg, s, inputs, j)
  {
    hide DataGranted;
    var n := |inputs| - 1;
    var k :| 0 <= k < n && DataGranted(cfg, At(cfg, s, inputs[..n], k), inputs[..n][k], j);
    AtPrefix(cfg, s, inputs, n, k);
    assert DataGranted(cfg, At(cfg, s, inputs, k), inputs[k], j);
  }

  lemma {:induction false} BusProgress(cfg: Config, s: Ctrl, inputs: seq<Input>, ch: nat, j: nat, max: nat)
    requires Runnable(cfg, s, inputs) && AllOk(s) && s.cycle + |inputs| <= NEVER
    requires ch < cfg.numChannels && Owns(cfg, ch, j) && j < cfg.numBanks && Lo(cfg, ch + 1) <= cfg.numBanks
    requires DataPending(s.banks[j], s.cycle) && SizesAhead(s.banks, Lo(cfg, ch), Lo(cfg, ch + 1), j, max)
    ensures var t := Run(cfg, s, inputs).next;
      GetsBus(cfg, s, inputs, j) ||
      (&& DataPending(t.banks[j], t.cycle) && SizesAhead(t.banks, Lo(cfg, ch), Lo(cfg, ch + 1), j, max)
       && Wait(cfg, t, ch, j, max) + Unlocked(inputs) <= Wait(cfg, s, ch, j, max))
  {
    hide Tick, DataGranted, DataPending, SizesAhead, Wait, Lo;
    if inputs != [] {
      var n := |inputs| - 1;
      BusProgress(cfg, s, inputs[..n], ch, j, max);
      if GetsBus(cfg, s, inputs[..n], j) {
        GetsBusEarlier(cfg, s, inputs, j);
      } else {
        var mid := Run(cfg, s, inputs[..n]).next;
        AllOkRun(cfg, s, inputs[..n]);
        if DataGranted(cfg, mid, inputs[n], j) {
          assert DataGranted(cfg, At(cfg, s, inputs, n), inputs[n], j);
        } else {
          WaitDrops(cfg, mid, inputs[n], ch, j, max);
        }
      }
    }
  }

  /** A bank with data pending gets the bus before more unlocked cycles have passed than
      the current transfer and those of the banks ahead of it take, in every run. */
  lemma {:induction false} NoDataStarvation(cfg: Config, s: Ctrl, inputs: seq<Input>, ch: nat, j: nat, max: nat)
    requires Runnable(cfg, s, inputs) && AllOk(s) && s.cycle + |inputs| <= NEVER
    requires ch < cfg.numChannels && Owns(cfg, ch, j) && j < cfg.numBanks && Lo(cfg, ch + 1) <= cfg.numBanks
    requires DataPending(s.banks[j], s.cycle) && SizesAhead(s.banks, Lo(cfg, ch), Lo(cfg, ch + 1), j, max)
    requires Unlocked(inputs) > Wait(cfg, s, ch, j, max)
    ensures GetsBus(cfg, s, inputs, j)
  {
    hide Run, DataGranted, GetsBus, Lo, Wait;
    BusProgress(cfg, s, inputs, ch, j, max);
  }

  /** The bound in numbers: the other banks of the channel, one transfer and one cycle
      each, and the rest of the current transfer. */
  lemma {:induction false} WaitBound(cfg: Config, s: Ctrl, ch: nat, j: nat, max: nat)
    requires cfg.Valid() && Wired(cfg) && Shaped(cfg, s) && ch < cfg.numChannels && Owns(cfg, ch, j)
    requires Lo(cfg, ch + 1) <= cfg.numBanks && j < cfg.numBanks
    ensures
      var others := Lo(cfg, ch + 1) - Lo(cfg, ch) - 1;
      Wait(cfg, s, ch, j, max) <= Mul(others, Transfer(cfg.busWidth, max) + 1) + Busy(s.buses[ch], s.cycle)
  {
    var lo, hi, k := Lo(cfg, ch), Lo(cfg, ch + 1), Transfer(cfg.busWidth, max) + 1;
    var ahead := AheadForData(s.banks, lo, hi, j);
    RangeBound(ahead + {j}, lo, hi);
    hide Mul, Lo, AheadForData, Transfer;
    var r, n := |ahead|, hi - lo - 1;
    Regroup(r, k, 0);
    Regroup(n, k, 0);
    Spread(k, n, r);
    Arith.Smaller(k, n - r);
  }
}
