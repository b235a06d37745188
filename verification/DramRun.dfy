/** Conservation of requests and pool entries over every run of the controller. */
module DramRun {
  import opened Lists
  import opened DramTypes
  import opened DramBank
  import opened DramArbiter
  import opened DramSend
  import opened DramModel
  import DramAddress

  function InitialBank(cfg: Config): Bank {
    Bank([], seq(cfg.poolSize, i => i), None, NEVER, NEVER, NEVER, NEVER, 0)
  }

  /** The state built by the constructor. */
  function Initial(cfg: Config): Ctrl {
    Ctrl(seq(cfg.numBanks, _ => InitialBank(cfg)), seq(cfg.numChannels, _ => Bus(cfg.busWidth, 0)), [], [], 0, 0, 0)
  }

  lemma {:induction false} PoolList(n: nat)
    ensures multiset(seq(n, i => i)) == WholePool(n)
  {
    if n > 0 {
      PoolList(n - 1);
      assert seq(n, i => i) == seq(n - 1, i => i) + [n - 1];
    }
  }

  lemma {:induction false} EmptySums(ms: seq<multiset<Req>>, xs: seq<nat>, n: nat)
    requires n <= |ms| && n <= |xs|
    requires forall i :: 0 <= i < n ==> ms[i] == multiset{} && xs[i] == 0
    ensures SumTo(ms, n) == multiset{} && SumNat(xs, n) == 0
  {
    if n > 0 {
      EmptySums(ms, xs, n - 1);
    }
  }

  lemma {:induction false} InitialInv(cfg: Config)
    requires cfg.Valid()
    ensures CtrlInv(cfg, Initial(cfg)) && Pending(Initial(cfg)) == multiset{}
  {
    var s := Initial(cfg);
    PoolList(cfg.poolSize);
    EmptySums(HeldBy(s.banks), Loads(s.banks), |s.banks|);
  }

  lemma HeldByUpdate(banks: seq<Bank>, j: nat, b: Bank)
    requires j < |banks|
    ensures HeldBy(banks[j := b]) == HeldBy(banks)[j := Held(b)]
    ensures Loads(banks[j := b]) == Loads(banks)[j := Load(b)]
  {
  }

  lemma ReplaceBank(s: Ctrl, t: Ctrl, j: nat, b: Bank)
    requires j < |s.banks| && t.banks == s.banks[j := b] && t.out == s.out && t.delay == s.delay
    ensures Pending(t) + HeldBy(s.banks)[j] == Pending(s) + Held(b)
    ensures TotalLoad(t) + Load(s.banks[j]) == TotalLoad(s) + Load(b)
  {
    var ms, n := HeldBy(s.banks), |s.banks|;
    SumToUpdate(ms, j, Held(b), n);
    SumNatUpdate(Loads(s.banks), j, Load(b), n);
    HeldByUpdate(s.banks, j, b);
    Swap(SumTo(HeldBy(t.banks), n), SumTo(ms, n), ms[j], Held(b),
         multiset(s.out) + multiset(Map(ReqOfDelayed, s.delay)));
  }

  /** What insertion does to the addressed bank. */
  lemma ReceiveBank(cfg: Config, b: Bank, r: Req, row: nat, cycle: nat, id: nat, b1: Bank, flushed: seq<Req>)
    requires BankInv(cfg, b) && row < NEVER
    requires flushed == if b.free == [] then Flushed(b) else []
    requires b1 == if b.free == [] then Flush(b) else b
    ensures BankInv(cfg, b1) && Held(b) == Held(b1) + multiset(flushed) && Load(b) == Load(b1) + |flushed|
    ensures b1.free != [] ==>
      var b2 := Enqueue(b1, r, row, cycle, id);
      BankInv(cfg, b2) && Held(b2) == Held(b1) + multiset{r} && Load(b2) == Load(b1) + 1
  {
    FlushKeeps(cfg, b);
    if b1.free != [] {
      EnqueueKeeps(cfg, b1, r, row, cycle, id);
      EnqueueAccounts(b1, r, row, cycle, id);
    }
  }

  /** The addressed bank after insertion. */
  function BankAfterInsert(s: Ctrl, r: Req, loc: DramAddress.Location): Bank
    requires loc.bank < |s.banks|
  {
    InsertAt(s, r, loc).next.banks[loc.bank]
  }

  lemma InsertKeeps(cfg: Config, s: Ctrl, r: Req, loc: DramAddress.Location)
    requires loc.bank < |s.banks| && loc.row < NEVER && BanksInv(cfg, s.banks)
    ensures var o, b, b2 := InsertAt(s, r, loc), s.banks[loc.bank], BankAfterInsert(s, r, loc);
      && BankInv(cfg, b2)
      && Held(b) + multiset(o.accepted) == Held(b2) + multiset(o.flushed)
      && Load(b) + |o.accepted| == Load(b2) + |o.flushed|
  {
    hide Held, BankInv, Flush, Flushed, Enqueue, Load;
    var o, b := InsertAt(s, r, loc), s.banks[loc.bank];
    var b1 := if b.free == [] then Flush(b) else b;
    ReceiveBank(cfg, b, r, loc.row, s.cycle, s.nextId, b1, o.flushed);
    if b1.free != [] {
      var k, f := Held(b1), multiset(o.flushed);
      assert (k + f) + multiset{r} == (k + multiset{r}) + f;
    }
  }

  /** Exchanging one bank for another that balances with the environment. */
  lemma ExchangeConserves(cfg: Config, s: Ctrl, o: Outcome, j: nat, b2: Bank)
    requires j < |s.banks| && o.next.banks == s.banks[j := b2] && o.next.out == s.out && o.next.delay == s.delay
    requires BanksInv(cfg, s.banks) && BankInv(cfg, b2)
    requires HeldBy(s.banks)[j] + multiset(o.accepted) == Held(b2) + multiset(o.flushed)
    requires Load(s.banks[j]) + |o.accepted| == Load(b2) + |o.flushed|
    requires o.next.total == s.total - |o.flushed| + |o.accepted|
    ensures BanksInv(cfg, o.next.banks)
    ensures Pending(s) + multiset(o.accepted) == Pending(o.next) + multiset(o.flushed)
    ensures TotalLoad(s) - s.total == TotalLoad(o.next) - o.next.total
  {
    ReplaceBank(s, o.next, j, b2);
    Balance(Pending(o.next), Pending(s), multiset(o.flushed), multiset(o.accepted), HeldBy(s.banks)[j], Held(b2));
  }

  lemma InsertConserves(cfg: Config, s: Ctrl, r: Req, loc: DramAddress.Location)
    requires loc.bank < |s.banks| && loc.row < NEVER && BanksInv(cfg, s.banks)
    ensures var o := InsertAt(s, r, loc);
      && BanksInv(cfg, o.next.banks)
      && Pending(s) + multiset(o.accepted) == Pending(o.next) + multiset(o.flushed)
      && TotalLoad(s) - s.total == TotalLoad(o.next) - o.next.total
  {
    InsertKeeps(cfg, s, r, loc);
    ExchangeConserves(cfg, s, InsertAt(s, r, loc), loc.bank, BankAfterInsert(s, r, loc));
  }

  lemma Balance<T>(after: multiset<T>, before: multiset<T>, gone: multiset<T>, new_: multiset<T>,
                   old_: multiset<T>, now: multiset<T>)
    requires after + old_ == before + now && old_ + new_ == now + gone
    ensures before + new_ == after + gone
  {
    forall e
      ensures (before + new_)[e] == (after + gone)[e]
    {
      assert (after + old_)[e] == (before + now)[e];
      assert (old_ + new_)[e] == (now + gone)[e];
    }
  }

  // ----- one cycle

  lemma TransfersConserve(cfg: Config, s: Ctrl)
    requires Wired(cfg) && cfg.busWidth > 0 && Shaped(cfg, s) && BanksInv(cfg, s.banks)
    ensures var t := AfterData(cfg, s);
      Shaped(cfg, t) && BanksInv(cfg, t.banks) && Pending(t) == Pending(s) && TotalLoad(t) == TotalLoad(s)
  {
    TransfersKeep(cfg, s.banks, s.buses, s.cycle, cfg.numChannels);
  }

  lemma AdvanceConserves(cfg: Config, s: Ctrl)
    requires BanksInv(cfg, s.banks)
    ensures var t := AfterAdvance(cfg, s);
      BanksInv(cfg, t.banks) && Pending(t) == Pending(s) && TotalLoad(t) == TotalLoad(s)
  {
    var t := AfterAdvance(cfg, s);
    forall i | 0 <= i < |s.banks|
      ensures BankInv(cfg, t.banks[i]) && HeldBy(t.banks)[i] == HeldBy(s.banks)[i]
      ensures Loads(t.banks)[i] == Loads(s.banks)[i]
    {
      AdvanceKeeps(cfg, s.banks[i], s.cycle);
      AdvanceAccounts(cfg, s.banks[i], s.cycle);
    }
    assert HeldBy(t.banks) == HeldBy(s.banks) && Loads(t.banks) == Loads(s.banks);
  }

  lemma OutIsDistinct(s: Ctrl)
    requires Distinct(Pending(s))
    ensures NoDup(s.out)
  {
    forall r | r in s.out
      ensures multiset(s.out)[r] <= 1
    {
      assert multiset(s.out)[r] <= Pending(s)[r];
    }
    NoDupByCount(s.out);
  }

  lemma SendConserves(cfg: Config, s: Ctrl, accepts: seq<bool>)
    requires Distinct(Pending(s))
    ensures var sent := Sent(cfg, s.out, accepts);
      Pending(s) == Pending(s.(out := Without(s.out, sent))) + multiset(sent)
  {
    OutIsDistinct(s);
    SendsOnce(cfg, s.out, accepts);
    var sent := Sent(cfg, s.out, accepts);
    var h, o, d := SumTo(HeldBy(s.banks), |s.banks|), multiset(Without(s.out, sent)),
      multiset(Map(ReqOfDelayed, s.delay));
    assert h + ((o + multiset(sent)) + d) == (h + (o + d)) + multiset(sent);
  }

  lemma BeforeCompleteConserves(cfg: Config, s: Ctrl, accepts: seq<bool>)
    requires Wired(cfg) && cfg.busWidth > 0 && CtrlInv(cfg, s)
    ensures var t := BeforeComplete(cfg, s, accepts);
      && Shaped(cfg, t) && BanksInv(cfg, t.banks)
      && Pending(s) == Pending(t) + multiset(Sent(cfg, s.out, accepts))
      && TotalLoad(t) == t.total && t.cycle == s.cycle
  {
    SendConserves(cfg, s, accepts);
    var moved := AfterOutput(cfg, s, accepts);
    DelayKeeps(s.(out := Without(s.out, Sent(cfg, s.out, accepts))));
    CommandsKeep(cfg, moved);
    TransfersConserve(cfg, AfterCmd(cfg, moved));
  }

  /** A request may be offered only while the controller does not hold it. */
  ghost predicate Fresh(s: Ctrl, input: Input) {
    input.arrival.Some? ==> input.arrival.value !in Pending(s)
  }

  lemma ReceiveConserves(cfg: Config, s: Ctrl, input: Input)
    requires cfg.Valid() && |s.banks| == cfg.numBanks && BanksInv(cfg, s.banks) && WellRouted(cfg, input)
    ensures var o := AfterReceive(cfg, s, input.arrival);
      && BanksInv(cfg, o.next.banks)
      && Pending(s) + multiset(o.accepted) == Pending(o.next) + multiset(o.flushed)
      && TotalLoad(s) - s.total == TotalLoad(o.next) - o.next.total
      && (forall r :: r in o.accepted ==> Some(r) == input.arrival) && |o.accepted| <= 1
  {
    if input.arrival.Some? {
      var r := input.arrival.value;
      DramAddress.RowIsNeverTheClosedMarker(cfg.addressMap, r.addr, NEVER);
      InsertConserves(cfg, s, r, DramAddress.ParseAddr(cfg.addressMap, r.addr));
    }
  }

  /** Every cycle keeps the invariant, and what it takes in and lets go balances
      exactly, for every input. */
  lemma {:induction false} TickConserves(cfg: Config, s: Ctrl, input: Input)
    requires cfg.Valid() && Wired(cfg) && CtrlInv(cfg, s) && WellRouted(cfg, input) && Fresh(s, input)
    ensures var o := Tick(cfg, s, input);
      && CtrlInv(cfg, o.next)
      && Pending(s) + multiset(o.accepted)
         == Pending(o.next) + multiset(o.sent) + multiset(o.retired) + multiset(o.flushed)
  {
    if input.locked {
      assert Pending(Tick(cfg, s, input).next) == Pending(s);
    } else {
      var s1 := BeforeComplete(cfg, s, input.accepts);
      BeforeCompleteConserves(cfg, s, input.accepts);
      FinishConserves(cfg, s1, input);
      Assemble(cfg, s, s1, Finish(cfg, s1, input.arrival), input, Tick(cfg, s, input));
    }
  }

  /** The second half of a cycle: completion, scheduling, reception. */
  function Finish(cfg: Config, s1: Ctrl, arrival: Option<Req>): Outcome
    requires cfg.addressMap.numMc > 0 && |s1.banks| == cfg.numBanks
    requires arrival.Some? ==> DramAddress.ParseAddr(cfg.addressMap, arrival.value.addr).bank < cfg.numBanks
  {
    AfterReceive(cfg, AfterAdvance(cfg, AfterComplete(cfg, s1)), arrival)
  }

  lemma FinishConserves(cfg: Config, s1: Ctrl, input: Input)
    requires cfg.Valid() && WellRouted(cfg, input)
    requires |s1.banks| == cfg.numBanks && BanksInv(cfg, s1.banks) && TotalLoad(s1) == s1.total
    ensures var r := Finish(cfg, s1, input.arrival);
      && BanksInv(cfg, r.next.banks) && TotalLoad(r.next) == r.next.total
      && Pending(s1) + multiset(r.accepted)
         == Pending(r.next) + multiset(Concat(RetiredBy(cfg, s1.banks, s1.cycle), |s1.banks|)) + multiset(r.flushed)
      && (forall q :: q in r.accepted ==> Some(q) == input.arrival) && |r.accepted| <= 1
  {
    CompletionsKeep(cfg, s1);
    AdvanceConserves(cfg, AfterComplete(cfg, s1));
    var s2, r := AfterAdvance(cfg, AfterComplete(cfg, s1)), Finish(cfg, s1, input.arrival);
    ReceiveConserves(cfg, s2, input);
    Link(Pending(s1), Pending(s2), multiset(Concat(RetiredBy(cfg, s1.banks, s1.cycle), |s1.banks|)),
         multiset(r.accepted), Pending(r.next), multiset(r.flushed));
  }

  lemma Link<T>(p1: multiset<T>, p2: multiset<T>, retired: multiset<T>, a: multiset<T>, p3: multiset<T>,
                flushed: multiset<T>)
    requires p1 == p2 + retired && p2 + a == p3 + flushed
    ensures p1 + a == p3 + retired + flushed
  {
    assert p1 + a == (p2 + a) + retired;
  }

  lemma Assemble(cfg: Config, s: Ctrl, s1: Ctrl, r: Outcome, input: Input, o: Outcome)
    requires Distinct(Pending(s)) && Fresh(s, input) && Shaped(cfg, o.next)
    requires Pending(s) == Pending(s1) + multiset(o.sent)
    requires BanksInv(cfg, r.next.banks) && TotalLoad(r.next) == r.next.total
    requires Pending(s1) + multiset(r.accepted) == Pending(r.next) + multiset(o.retired) + multiset(r.flushed)
    requires (forall q :: q in r.accepted ==> Some(q) == input.arrival) && |r.accepted| <= 1
    requires o.next == r.next.(cycle := o.next.cycle) && o.accepted == r.accepted && o.flushed == r.flushed
    ensures CtrlInv(cfg, o.next)
    ensures Pending(s) + multiset(o.accepted)
         == Pending(o.next) + multiset(o.sent) + multiset(o.retired) + multiset(o.flushed)
  {
    Settle(Pending(s), o.accepted, Pending(s1), Pending(o.next),
           multiset(o.sent), multiset(o.retired), multiset(o.flushed), input.arrival);
  }

  /** Both halves together, on the multisets alone. */
  lemma Settle(p: multiset<Req>, a: seq<Req>, p1: multiset<Req>, p3: multiset<Req>,
               sent: multiset<Req>, retired: multiset<Req>, flushed: multiset<Req>, arrival: Option<Req>)
    requires p == p1 + sent && p1 + multiset(a) == p3 + retired + flushed
    requires Distinct(p) && |a| <= 1 && (forall r :: r in a ==> Some(r) == arrival)
    requires arrival.Some? ==> arrival.value !in p
    ensures p + multiset(a) == p3 + sent + retired + flushed && Distinct(p3)
  {
    Chain(p, multiset(a), p1, p3, sent, retired, flushed);
    assert forall r :: r in multiset(a) ==> r in a;
    StaysDistinct(p, multiset(a), p3);
  }

  lemma Chain<T>(p: multiset<T>, a: multiset<T>, p1: multiset<T>, p3: multiset<T>,
                 sent: multiset<T>, retired: multiset<T>, flushed: multiset<T>)
    requires p == p1 + sent && p1 + a == p3 + retired + flushed
    ensures p + a == p3 + sent + retired + flushed
    ensures forall e {:trigger p3[e]} :: p3[e] <= p[e] + a[e]
  {
    assert p + a == (p1 + a) + sent;
    forall e
      ensures p3[e] <= p[e] + a[e]
    {
      assert (p1 + a)[e] == (p3 + retired + flushed)[e];
    }
  }

  lemma StaysDistinct(p: multiset<Req>, a: multiset<Req>, q: multiset<Req>)
    requires Distinct(p) && |a| <= 1 && forall r :: r in a ==> r !in p
    requires forall r {:trigger q[r]} :: q[r] <= p[r] + a[r]
    ensures Distinct(q)
  {
    forall r | r in q
      ensures q[r] <= 1
    {
      if r in a {
        assert |a| >= a[r] by { assert a == (a - multiset{r}) + multiset{r}; }
        assert a[r] <= 1;
      }
    }
  }

  // ----- whole runs

  predicate Runnable(cfg: Config, s: Ctrl, inputs: seq<Input>) {
    && cfg.Valid() && Wired(cfg) && Shaped(cfg, s)
    && forall i :: 0 <= i < |inputs| ==> WellRouted(cfg, inputs[i])
  }

  /** The state after the inputs, with everything taken in and let go on the way. */
  function Run(cfg: Config, s: Ctrl, inputs: seq<Input>): (o: Outcome)
    requires Runnable(cfg, s, inputs)
    ensures Shaped(cfg, o.next) && o.next.cycle == s.cycle + |inputs|
  {
    if inputs == [] then Outcome(s, [], [], [], [])
    else
      var n := |inputs| - 1;
      var p := Run(cfg, s, inputs[..n]);
      var o := Tick(cfg, p.next, inputs[n]);
      Outcome(o.next, p.accepted + o.accepted, p.sent + o.sent, p.retired + o.retired, p.flushed + o.flushed)
  }

  /** The network offers no request that the controller still holds. */
  ghost predicate FreshRun(cfg: Config, s: Ctrl, inputs: seq<Input>)
    requires Runnable(cfg, s, inputs)
  {
    forall i :: 0 <= i < |inputs| ==> Fresh(Run(cfg, s, inputs[..i]).next, inputs[i])
  }

  ghost function Left(o: Outcome): multiset<Req> {
    multiset(o.sent) + multiset(o.retired) + multiset(o.flushed)
  }

  /** Over every run: what was inside plus what came in is what is inside plus
      what left, and the invariant holds at the end. */
  lemma {:induction false} RunConserves(cfg: Config, s: Ctrl, inputs: seq<Input>)
    requires Runnable(cfg, s, inputs) && CtrlInv(cfg, s) && FreshRun(cfg, s, inputs)
    ensures var o := Run(cfg, s, inputs);
      CtrlInv(cfg, o.next) && Pending(s) + multiset(o.accepted) == Pending(o.next) + Left(o)
  {
    if inputs != [] {
      var n := |inputs| - 1;
      PrefixIsFresh(cfg, s, inputs, n);
      RunConserves(cfg, s, inputs[..n]);
      var p := Run(cfg, s, inputs[..n]);
      TickConserves(cfg, p.next, inputs[n]);
      Extend(Pending(s), p, Tick(cfg, p.next, inputs[n]), Run(cfg, s, inputs));
    }
  }

  lemma PrefixIsFresh(cfg: Config, s: Ctrl, inputs: seq<Input>, n: nat)
    requires Runnable(cfg, s, inputs) && FreshRun(cfg, s, inputs) && n <= |inputs|
    ensures FreshRun(cfg, s, inputs[..n])
  {
    forall i | 0 <= i < n
      ensures Fresh(Run(cfg, s, inputs[..n][..i]).next, inputs[..n][i])
    {
      assert inputs[..n][..i] == inputs[..i];
    }
  }

  lemma Extend(p0: multiset<Req>, p: Outcome, o: Outcome, all: Outcome)
    requires p0 + multiset(p.accepted) == Pending(p.next) + Left(p)
    requires Pending(p.next) + multiset(o.accepted)
          == Pending(o.next) + multiset(o.sent) + multiset(o.retired) + multiset(o.flushed)
    requires all ==
      Outcome(o.next, p.accepted + o.accepted, p.sent + o.sent, p.retired + o.retired, p.flushed + o.flushed)
    ensures p0 + multiset(all.accepted) == Pending(all.next) + Left(all)
  {
    SumLeft(p, o, all);
    Splice(p0, multiset(p.accepted), multiset(o.accepted), Pending(p.next), Pending(o.next), Left(p), Left(o));
    assert multiset(all.accepted) == multiset(p.accepted) + multiset(o.accepted);
    assert Pending(o.next) + multiset(o.sent) + multiset(o.retired) + multiset(o.flushed) == Pending(o.next) + Left(o);
  }

  lemma SumLeft(p: Outcome, o: Outcome, all: Outcome)
    requires all.sent == p.sent + o.sent && all.retired == p.retired + o.retired && all.flushed == p.flushed + o.flushed
    ensures Left(all) == Left(p) + Left(o)
  {
  }

  lemma Splice<T>(p0: multiset<T>, a: multiset<T>, b: multiset<T>, p1: multiset<T>, p2: multiset<T>, l: multiset<T>,
                  m: multiset<T>)
    ensures p0 + a == p1 + l && p1 + b == p2 + m ==> p0 + (a + b) == p2 + (l + m)
  {
    if p0 + a == p1 + l && p1 + b == p2 + m {
      assert p0 + (a + b) == (p0 + a) + b == (p1 + b) + l == (p2 + m) + l;
    }
  }

  /** A request that was accepted once since power-up is in exactly one place:
      still inside, or sent, or retired, or flushed, and only once; the pool of
      every bank is complete and the request counter is the number of entries
      in use. */
  lemma {:induction false} AcceptedExactlyOnce(cfg: Config, inputs: seq<Input>, r: Req)
    requires cfg.Valid()
    requires Runnable(cfg, Initial(cfg), inputs) && FreshRun(cfg, Initial(cfg), inputs)
    ensures var o := Run(cfg, Initial(cfg), inputs);
      && multiset(o.accepted)[r] ==
           Pending(o.next)[r] + multiset(o.sent)[r] + multiset(o.retired)[r] + multiset(o.flushed)[r]
      && Pending(o.next)[r] <= 1
      && o.next.total == TotalLoad(o.next)
      && forall i :: 0 <= i < cfg.numBanks ==> |o.next.banks[i].free| + Load(o.next.banks[i]) == cfg.poolSize
  {
    InitialInv(cfg);
    RunConserves(cfg, Initial(cfg), inputs);
    var o := Run(cfg, Initial(cfg), inputs);
    assert (multiset{} + multiset(o.accepted))[r] == (Pending(o.next) + Left(o))[r];
    forall i | 0 <= i < cfg.numBanks
      ensures |o.next.banks[i].free| + Load(o.next.banks[i]) == cfg.poolSize
    {
      PoolIsConstant(cfg, o.next.banks[i]);
    }
  }
}
