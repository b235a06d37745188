/** What happens to one bank over a run: commands, order of service, starvation. */
module DramService {
  import opened Lists
  import opened DramTypes
  import opened DramPolicy
  import opened DramBank
  import opened DramArbiter
  import opened DramSend
  import opened DramModel
  import opened DramRun
  import DramAddress

  /** The stations of one bank through a cycle. */
  datatype Stages = Stages(cmd: Bank, data: Bank, done: Bank, next: Bank, end: Bank)

  /** A request is appended to the bank, which was not full. */
  ghost predicate Enqueued(b: Bank, b': Bank, cycle: nat, id: nat) {
    b.free != [] && exists r: Req, row: nat :: row < NEVER && b' == Enqueue(b, r, row, cycle, id)
  }

  /** What reception does to a bank; id and id' are the next entry number before
      and after. */
  ghost predicate ReceiveEffect(b: Bank, b': Bank, cycle: nat, id: nat, id': nat) {
    && id <= id'
    && (b' == b || b' == Flush(b) || (id < id' && (Enqueued(b, b', cycle, id) || Enqueued(Flush(b), b', cycle, id))))
  }

  /** A cycle as one bank sees it. */
  ghost predicate BankStep(cfg: Config, b: Bank, t: Stages, cycle: nat, commanded: bool, id: nat, id': nat) {
    && (commanded ==> Waiting(b))
    && t.cmd == (if commanded then Issue(cfg, b, cycle) else b)
    && (t.data == t.cmd
        || (DataPending(t.cmd, cycle) && t.data == GrantData(t.cmd, t.data.dataReady) && t.data.dataReady >= cycle))
    && t.done == Complete(cfg, t.data, cycle)
    && t.next == Advance(cfg, t.done, cycle)
    && ReceiveEffect(t.next, t.end, cycle, id, id')
  }

  lemma {:induction false} DataChannelsEffect(cfg: Config, banks: seq<Bank>, buses: seq<Bus>, cycle: nat, n: nat,
                                              j: nat)
    requires Wired(cfg) && cfg.busWidth > 0 && n <= cfg.numChannels
    requires |banks| == cfg.numBanks && |buses| == cfg.numChannels && j < |banks|
    requires forall bus :: bus in buses ==> BusInv(cfg.busWidth, bus)
    ensures var b := DataChannels(cfg, banks, buses, cycle, n).0[j];
      b == banks[j] || (DataPending(banks[j], cycle) && b == GrantData(banks[j], b.dataReady) && b.dataReady >= cycle)
  {
    if n > 0 {
      DataChannelsEffect(cfg, banks, buses, cycle, n - 1, j);
      ChannelsFit(cfg, n - 1);
      var (prev, prevBuses) := DataChannels(cfg, banks, buses, cycle, n - 1);
      DataChannelEffect(cfg, prev, prevBuses[n - 1], cycle, Lo(cfg, n - 1), Lo(cfg, n));
    }
  }

  lemma FirstHalf(cfg: Config, s: Ctrl, accepts: seq<bool>, j: nat)
    requires Wired(cfg) && cfg.busWidth > 0 && Shaped(cfg, s) && j < |s.banks|
    ensures var b, d := CmdResult(cfg, s.banks, s.cycle, cfg.numChannels, j), BeforeComplete(cfg, s, accepts).banks[j];
      d == b || (DataPending(b, s.cycle) && d == GrantData(b, d.dataReady) && d.dataReady >= s.cycle)
    ensures BeforeComplete(cfg, s, accepts).cycle == s.cycle && BeforeComplete(cfg, s, accepts).nextId == s.nextId
  {
    CmdEffect(cfg, s.banks, s.cycle, cfg.numChannels, j);
    var banks := CmdChannels(cfg, s.banks, s.cycle, cfg.numChannels);
    DataChannelsEffect(cfg, banks, s.buses, s.cycle, cfg.numChannels, j);
  }

  lemma InsertEffect(s: Ctrl, r: Req, loc: DramAddress.Location, j: nat)
    requires loc.bank < |s.banks| && j < |s.banks| && loc.row < NEVER
    ensures ReceiveEffect(s.banks[j], InsertAt(s, r, loc).next.banks[j], s.cycle, s.nextId,
                          InsertAt(s, r, loc).next.nextId)
  {
  }

  lemma SecondHalf(cfg: Config, s1: Ctrl, input: Input, j: nat)
    requires cfg.Valid() && WellRouted(cfg, input) && |s1.banks| == cfg.numBanks && j < |s1.banks|
    ensures
      var b := Advance(cfg, Complete(cfg, s1.banks[j], s1.cycle), s1.cycle);
      var o := Finish(cfg, s1, input.arrival).next;
      |o.banks| == |s1.banks| && ReceiveEffect(b, o.banks[j], s1.cycle, s1.nextId, o.nextId)
  {
    var s2 := AfterAdvance(cfg, AfterComplete(cfg, s1));
    if input.arrival.Some? {
      var r := input.arrival.value;
      DramAddress.RowIsNeverTheClosedMarker(cfg.addressMap, r.addr, NEVER);
      InsertEffect(s2, r, DramAddress.ParseAddr(cfg.addressMap, r.addr), j);
    }
  }

  /** Every unlocked cycle takes every bank through these stages. */
  lemma {:induction false} BankTick(cfg: Config, s: Ctrl, input: Input, j: nat) returns (t: Stages)
    requires cfg.Valid() && Wired(cfg) && Shaped(cfg, s) && WellRouted(cfg, input) && !input.locked && j < cfg.numBanks
    ensures t.end == Tick(cfg, s, input).next.banks[j] && t.data == BeforeComplete(cfg, s, input.accepts).banks[j]
    ensures BankStep(cfg, s.banks[j], t, s.cycle, Commanded(cfg, s.banks, j), s.nextId, Tick(cfg, s, input).next.nextId)
  {
    var s1 := BeforeComplete(cfg, s, input.accepts);
    FirstHalf(cfg, s, input.accepts, j);
    SecondHalf(cfg, s1, input, j);
    var done := Complete(cfg, s1.banks[j], s1.cycle);
    t := Stages(CmdResult(cfg, s.banks, s.cycle, cfg.numChannels, j), s1.banks[j], done,
                Advance(cfg, done, s1.cycle), Tick(cfg, s, input).next.banks[j]);
  }

  // ----- the state of a bank between cycles

  /** The timers agree, and a bank in service was last touched before this cycle. */
  ghost predicate BankOk(b: Bank, cycle: nat) {
    TimersAgree(b) && (b.current.Some? ==> b.timestamp < cycle)
  }

  ghost predicate AllOk(s: Ctrl) {
    forall i :: 0 <= i < |s.banks| ==> BankOk(s.banks[i], s.cycle)
  }

  lemma AdvanceRows(cfg: Config, b: Bank, cycle: nat)
    requires TimersAgree(b)
    ensures TimersAgree(Advance(cfg, b, cycle))
    ensures Advance(cfg, b, cycle).current.Some? ==>
      Advance(cfg, b, cycle).timestamp == cycle || (b.current.Some? && Advance(cfg, b, cycle).timestamp == b.timestamp)
  {
    OrderedPermutes(cfg.frfcfs, b.openRow, b.buffer);
  }

  lemma ReceiveRows(b: Bank, b': Bank, cycle: nat, id: nat, id': nat)
    requires TimersAgree(b) && ReceiveEffect(b, b', cycle, id, id')
    ensures TimersAgree(b') && b'.current == b.current && b'.timestamp == b.timestamp && b'.openRow == b.openRow
    ensures b'.bankReady == b.bankReady && b'.dataAvail == b.dataAvail && b'.dataReady == b.dataReady
  {
  }

  lemma BankOkStep(cfg: Config, b: Bank, t: Stages, cycle: nat, commanded: bool, id: nat, id': nat)
    requires BankOk(b, cycle) && BankStep(cfg, b, t, cycle, commanded, id, id')
    ensures BankOk(t.end, cycle + 1)
    ensures TimersAgree(t.cmd) && TimersAgree(t.data) && TimersAgree(t.done) && TimersAgree(t.next)
  {
    assert TimersAgree(t.cmd);
    assert TimersAgree(t.data);
    assert TimersAgree(t.done);
    AdvanceRows(cfg, t.done, cycle);
    ReceiveRows(t.next, t.end, cycle, id, id');
  }

  lemma AllOkTick(cfg: Config, s: Ctrl, input: Input)
    requires cfg.Valid() && Wired(cfg) && Shaped(cfg, s) && WellRouted(cfg, input) && AllOk(s)
    ensures AllOk(Tick(cfg, s, input).next)
  {
    if !input.locked {
      forall j | 0 <= j < cfg.numBanks
        ensures BankOk(Tick(cfg, s, input).next.banks[j], s.cycle + 1)
      {
        var t := BankTick(cfg, s, input, j);
        BankOkStep(cfg, s.banks[j], t, s.cycle, Commanded(cfg, s.banks, j), s.nextId, Tick(cfg, s, input).next.nextId);
      }
    }
  }

  lemma {:induction false} AllOkRun(cfg: Config, s: Ctrl, inputs: seq<Input>)
    requires Runnable(cfg, s, inputs) && AllOk(s)
    ensures AllOk(Run(cfg, s, inputs).next)
  {
    if inputs != [] {
      var n := |inputs| - 1;
      AllOkRun(cfg, s, inputs[..n]);
      AllOkTick(cfg, Run(cfg, s, inputs[..n]).next, inputs[n]);
    }
  }

  /** The state after the first k inputs. */
  function At(cfg: Config, s: Ctrl, inputs: seq<Input>, k: nat): Ctrl
    requires Runnable(cfg, s, inputs) && k <= |inputs|
  {
    Run(cfg, s, inputs[..k]).next
  }

  lemma AtPrefix(cfg: Config, s: Ctrl, inputs: seq<Input>, n: nat, k: nat)
    requires Runnable(cfg, s, inputs) && k <= n <= |inputs|
    ensures At(cfg, s, inputs[..n], k) == At(cfg, s, inputs, k)
  {
    assert inputs[..n][..k] == inputs[..k];
  }
}
