/** One controller cycle and whole runs, as functions of the controller state. */
module DramModel {
  import opened Lists
  import opened DramTypes
  import opened DramBank
  import opened DramArbiter
  import opened DramSend
  import DramAddress

  /** What the environment contributes to a cycle: whether the clock is locked,
      the network's answers to send attempts, and the request it offers. */
  datatype Input = Input(locked: bool, accepts: seq<bool>, arrival: Option<Req>)

  /** The next state, the request taken in, and the requests that leave: sent to
      the network, retired write-backs, flushed prefetches. */
  datatype Outcome = Outcome(next: Ctrl, accepted: seq<Req>, sent: seq<Req>, retired: seq<Req>, flushed: seq<Req>)

  predicate Shaped(cfg: Config, s: Ctrl) {
    && |s.banks| == cfg.numBanks && |s.buses| == cfg.numChannels
    && (forall bus :: bus in s.buses ==> BusInv(cfg.busWidth, bus))
  }

  // ----- phases

  /** The length of the leading part of the delay buffer that is due. */
  function DueCount(delay: seq<Delayed>, cycle: nat): (n: nat)
    ensures n <= |delay|
    ensures forall i :: 0 <= i < n ==> delay[i].ready <= cycle
    ensures n < |delay| ==> delay[n].ready > cycle
  {
    if delay == [] || delay[0].ready > cycle then 0 else 1 + DueCount(delay[1..], cycle)
  }

  function ReqOfDelayed(d: Delayed): Req { d.req }

  function AfterDelay(s: Ctrl): Ctrl {
    var n := DueCount(s.delay, s.cycle);
    s.(out := s.out + Map(ReqOfDelayed, s.delay[..n]), delay := s.delay[n..])
  }

  function AfterCmd(cfg: Config, s: Ctrl): Ctrl
    requires Wired(cfg) && Shaped(cfg, s)
  {
    s.(banks := CmdChannels(cfg, s.banks, s.cycle, cfg.numChannels))
  }

  function AfterData(cfg: Config, s: Ctrl): Ctrl
    requires Wired(cfg) && cfg.busWidth > 0 && Shaped(cfg, s)
  {
    var (banks, buses) := DataChannels(cfg, s.banks, s.buses, s.cycle, cfg.numChannels);
    s.(banks := banks, buses := buses)
  }

  /** What each bank completes: delivered requests, retired write-backs, and
      the number of entries. */
  function DeliveredBy(cfg: Config, banks: seq<Bank>, cycle: nat): seq<seq<Req>> {
    seq(|banks|, i requires 0 <= i < |banks| => Delivered(cfg, banks[i], cycle))
  }

  function RetiredBy(cfg: Config, banks: seq<Bank>, cycle: nat): seq<seq<Req>> {
    seq(|banks|, i requires 0 <= i < |banks| => Retired(cfg, banks[i], cycle))
  }

  function DoneBy(cfg: Config, banks: seq<Bank>, cycle: nat): seq<nat> {
    seq(|banks|, i requires 0 <= i < |banks| => |Done(cfg, banks[i], cycle)|)
  }

  function Delay(ready: nat): Req -> Delayed { (r: Req) => Delayed(r, ready) }

  /** Completed requests enter the delay buffer when there is an additional
      latency, and the output buffer otherwise. */
  function Deliver(cfg: Config, s: Ctrl, reqs: seq<Req>): Ctrl {
    if cfg.extra > 0 then s.(delay := s.delay + Map(Delay(s.cycle + cfg.extra), reqs))
    else s.(out := s.out + reqs)
  }

  function AfterComplete(cfg: Config, s: Ctrl): Ctrl {
    var n := |s.banks|;
    Deliver(cfg, s, Concat(DeliveredBy(cfg, s.banks, s.cycle), n)).(
      banks := seq(n, i requires 0 <= i < n => Complete(cfg, s.banks[i], s.cycle)),
      total := s.total - SumNat(DoneBy(cfg, s.banks, s.cycle), n))
  }

  function AfterAdvance(cfg: Config, s: Ctrl): Ctrl {
    s.(banks := seq(|s.banks|, i requires 0 <= i < |s.banks| => Advance(cfg, s.banks[i], s.cycle)))
  }

  /** insert_new_req once the address is parsed: a full bank first drops its
      prefetches, and refuses the request when that frees nothing. */
  function InsertAt(s: Ctrl, r: Req, loc: DramAddress.Location): Outcome
    requires loc.bank < |s.banks|
  {
    var b := s.banks[loc.bank];
    var flushed := if b.free == [] then Flushed(b) else [];
    var b1 := if b.free == [] then Flush(b) else b;
    if b1.free == [] then
      Outcome(s.(banks := s.banks[loc.bank := b1], total := s.total - |flushed|), [], [], [], flushed)
    else
      Outcome(s.(banks := s.banks[loc.bank := Enqueue(b1, r, loc.row, s.cycle, s.nextId)],
                 total := s.total - |flushed| + 1, nextId := s.nextId + 1),
              [r], [], [], flushed)
  }

  function AfterReceive(cfg: Config, s: Ctrl, arrival: Option<Req>): Outcome
    requires cfg.addressMap.numMc > 0 && |s.banks| == cfg.numBanks
    requires arrival.Some? ==> DramAddress.ParseAddr(cfg.addressMap, arrival.value.addr).bank < cfg.numBanks
  {
    match arrival
    case None => Outcome(s, [], [], [], [])
    case Some(r) => InsertAt(s, r, DramAddress.ParseAddr(cfg.addressMap, r.addr))
  }

  /** After send and delay_packet; the banks are untouched. */
  function AfterOutput(cfg: Config, s: Ctrl, accepts: seq<bool>): Ctrl {
    var sent := s.(out := Without(s.out, Sent(cfg, s.out, accepts)));
    if cfg.extra > 0 then AfterDelay(sent) else sent
  }

  /** The first half of a cycle: output, commands, data transfers. */
  function BeforeComplete(cfg: Config, s: Ctrl, accepts: seq<bool>): Ctrl
    requires Wired(cfg) && cfg.busWidth > 0 && Shaped(cfg, s)
  {
    AfterData(cfg, AfterCmd(cfg, AfterOutput(cfg, s, accepts)))
  }

  predicate WellRouted(cfg: Config, input: Input)
    requires cfg.addressMap.numMc > 0
  {
    input.arrival.Some? ==>
      input.arrival.value.addr <= NEVER &&
      DramAddress.ParseAddr(cfg.addressMap, input.arrival.value.addr).bank < cfg.numBanks
  }

  /** run_a_cycle */
  function Tick(cfg: Config, s: Ctrl, input: Input): (o: Outcome)
    requires cfg.Valid() && Wired(cfg) && Shaped(cfg, s) && WellRouted(cfg, input)
    ensures Shaped(cfg, o.next) && o.next.cycle == s.cycle + 1
  {
    if input.locked then Outcome(s.(cycle := s.cycle + 1), [], [], [], [])
    else
      var s1 := BeforeComplete(cfg, s, input.accepts);
      var s2 := AfterAdvance(cfg, AfterComplete(cfg, s1));
      var o := AfterReceive(cfg, s2, input.arrival);
      o.(next := o.next.(cycle := o.next.cycle + 1),
         sent := Sent(cfg, s.out, input.accepts),
         retired := Concat(RetiredBy(cfg, s1.banks, s1.cycle), |s1.banks|))
  }

  // ----- the invariant

  ghost function HeldBy(banks: seq<Bank>): seq<multiset<Req>> {
    seq(|banks|, i requires 0 <= i < |banks| => Held(banks[i]))
  }

  function Loads(banks: seq<Bank>): seq<nat> {
    seq(|banks|, i requires 0 <= i < |banks| => Load(banks[i]))
  }

  /** All requests inside the controller, with multiplicity. */
  ghost function Pending(s: Ctrl): multiset<Req> {
    SumTo(HeldBy(s.banks), |s.banks|) + (multiset(s.out) + multiset(Map(ReqOfDelayed, s.delay)))
  }

  function TotalLoad(s: Ctrl): nat {
    SumNat(Loads(s.banks), |s.banks|)
  }

  /** Every place holds distinct requests and no request is in two places. */
  ghost predicate Distinct(m: multiset<Req>) {
    forall r :: r in m ==> m[r] <= 1
  }

  ghost predicate BanksInv(cfg: Config, banks: seq<Bank>) {
    forall i :: 0 <= i < |banks| ==> BankInv(cfg, banks[i])
  }

  ghost predicate CtrlInv(cfg: Config, s: Ctrl) {
    && Shaped(cfg, s)
    && BanksInv(cfg, s.banks)
    && s.total == TotalLoad(s)
    && Distinct(Pending(s))
  }

  // ----- conservation, phase by phase

  lemma CommandsKeep(cfg: Config, s: Ctrl)
    requires Wired(cfg) && Shaped(cfg, s) && BanksInv(cfg, s.banks)
    ensures var t := AfterCmd(cfg, s);
      Shaped(cfg, t) && BanksInv(cfg, t.banks) && Pending(t) == Pending(s) && TotalLoad(t) == TotalLoad(s)
  {
    var banks := AfterCmd(cfg, s).banks;
    forall i | 0 <= i < |banks|
      ensures BankInv(cfg, banks[i]) && Held(banks[i]) == Held(s.banks[i]) && Load(banks[i]) == Load(s.banks[i])
    {
      CmdEffect(cfg, s.banks, s.cycle, cfg.numChannels, i);
      if PickedBelow(cfg, s.banks, cfg.numChannels, i) {
        IssueKeeps(cfg, s.banks[i], s.cycle);
      }
    }
    assert HeldBy(banks) == HeldBy(s.banks) && Loads(banks) == Loads(s.banks);
  }

  lemma {:induction false} TransfersKeep(cfg: Config, banks: seq<Bank>, buses: seq<Bus>, cycle: nat, n: nat)
    requires Wired(cfg) && cfg.busWidth > 0 && n <= cfg.numChannels
    requires |banks| == cfg.numBanks && |buses| == cfg.numChannels
    requires forall bus :: bus in buses ==> BusInv(cfg.busWidth, bus)
    requires BanksInv(cfg, banks)
    ensures var r := DataChannels(cfg, banks, buses, cycle, n).0;
      BanksInv(cfg, r) && HeldBy(r) == HeldBy(banks) && Loads(r) == Loads(banks)
  {
    if n > 0 {
      TransfersKeep(cfg, banks, buses, cycle, n - 1);
      ChannelsFit(cfg, n - 1);
      var (prev, prevBuses) := DataChannels(cfg, banks, buses, cycle, n - 1);
      ChannelKeeps(cfg, prev, prevBuses[n - 1], cycle, Lo(cfg, n - 1), Lo(cfg, n));
    }
  }

  lemma ChannelKeeps(cfg: Config, banks: seq<Bank>, bus: Bus, cycle: nat, lo: nat, hi: nat)
    requires lo <= hi <= |banks| && cfg.busWidth > 0 && BusInv(cfg.busWidth, bus)
    requires BanksInv(cfg, banks)
    ensures var g := DataChannel(cfg, banks, bus, cycle, lo, hi);
      BanksInv(cfg, g.banks) && HeldBy(g.banks) == HeldBy(banks) && Loads(g.banks) == Loads(banks)
  {
    DataChannelEffect(cfg, banks, bus, cycle, lo, hi);
    GrantsKeep(cfg, cycle, banks, DataChannel(cfg, banks, bus, cycle, lo, hi), lo, hi);
  }

  lemma GrantsKeep(cfg: Config, cycle: nat, banks: seq<Bank>, g: Granted, lo: nat, hi: nat)
    requires lo <= hi <= |banks| == |g.banks| && GrantEffect(cycle, banks, g, lo, hi)
    requires BanksInv(cfg, banks)
    ensures BanksInv(cfg, g.banks) && HeldBy(g.banks) == HeldBy(banks) && Loads(g.banks) == Loads(banks)
  {
    forall i | 0 <= i < |banks|
      ensures BankInv(cfg, g.banks[i]) && Held(g.banks[i]) == Held(banks[i]) && Load(g.banks[i]) == Load(banks[i])
    {
      if i in g.order {
        GrantKeeps(cfg, banks[i], g.banks[i].dataReady);
      }
    }
  }

  /** What leaves each bank on completion. */
  ghost function LeavingBy(cfg: Config, banks: seq<Bank>, cycle: nat): seq<multiset<Req>> {
    var d, r := Bags(DeliveredBy(cfg, banks, cycle)), Bags(RetiredBy(cfg, banks, cycle));
    seq(|banks|, i requires 0 <= i < |banks| => d[i] + r[i])
  }

  lemma LeavingIsDelivered(cfg: Config, banks: seq<Bank>, cycle: nat)
    ensures SumTo(LeavingBy(cfg, banks, cycle), |banks|)
         == multiset(Concat(DeliveredBy(cfg, banks, cycle), |banks|))
            + multiset(Concat(RetiredBy(cfg, banks, cycle), |banks|))
  {
    var d, r := DeliveredBy(cfg, banks, cycle), RetiredBy(cfg, banks, cycle);
    ConcatIsSum(d, |banks|);
    ConcatIsSum(r, |banks|);
    SumToSplits(LeavingBy(cfg, banks, cycle), Bags(d), Bags(r), |banks|);
  }

  lemma CompletionsKeep(cfg: Config, s: Ctrl)
    requires BanksInv(cfg, s.banks)
    ensures var t := AfterComplete(cfg, s);
      && BanksInv(cfg, t.banks)
      && Pending(s) == Pending(t) + multiset(Concat(RetiredBy(cfg, s.banks, s.cycle), |s.banks|))
      && TotalLoad(s) - s.total == TotalLoad(t) - t.total
  {
    var n, t := |s.banks|, AfterComplete(cfg, s);
    forall i | 0 <= i < n
      ensures BankInv(cfg, t.banks[i])
      ensures HeldBy(s.banks)[i] == HeldBy(t.banks)[i] + LeavingBy(cfg, s.banks, s.cycle)[i]
      ensures Loads(s.banks)[i] == Loads(t.banks)[i] + DoneBy(cfg, s.banks, s.cycle)[i]
    {
      CompleteKeeps(cfg, s.banks[i], s.cycle);
      CompleteAccounts(cfg, s.banks[i], s.cycle);
      Assoc(Held(t.banks[i]), multiset(Delivered(cfg, s.banks[i], s.cycle)),
            multiset(Retired(cfg, s.banks[i], s.cycle)));
    }
    SumToSplits(HeldBy(s.banks), HeldBy(t.banks), LeavingBy(cfg, s.banks, s.cycle), n);
    SumNatSplits(Loads(s.banks), Loads(t.banks), DoneBy(cfg, s.banks, s.cycle), n);
    LeavingIsDelivered(cfg, s.banks, s.cycle);
    var d := Concat(DeliveredBy(cfg, s.banks, s.cycle), n);
    DeliverAdds(cfg, s, d);
    Shuffle(SumTo(HeldBy(t.banks), n), multiset(d), multiset(Concat(RetiredBy(cfg, s.banks, s.cycle), n)),
            multiset(s.out) + multiset(Map(ReqOfDelayed, s.delay)));
  }

  lemma Assoc<T>(a: multiset<T>, b: multiset<T>, c: multiset<T>)
    ensures a + b + c == a + (b + c)
  {
  }

  lemma Shuffle<T>(a: multiset<T>, b: multiset<T>, c: multiset<T>, x: multiset<T>)
    ensures (a + (b + c)) + x == (a + (x + b)) + c
  {
  }

  lemma DelayKeeps(s: Ctrl)
    ensures Pending(AfterDelay(s)) == Pending(s)
  {
    var n := DueCount(s.delay, s.cycle);
    assert s.delay == s.delay[..n] + s.delay[n..];
    MapAppend(ReqOfDelayed, s.delay[..n], s.delay[n..]);
  }

  lemma DeliverAdds(cfg: Config, s: Ctrl, reqs: seq<Req>)
    ensures var t := Deliver(cfg, s, reqs);
      multiset(t.out) + multiset(Map(ReqOfDelayed, t.delay))
      == multiset(s.out) + multiset(Map(ReqOfDelayed, s.delay)) + multiset(reqs)
  {
    var d := Map(Delay(s.cycle + cfg.extra), reqs);
    MapAppend(ReqOfDelayed, s.delay, d);
    assert Map(ReqOfDelayed, d) == reqs;
  }
}
