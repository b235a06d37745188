/** Which requests leave the controller, and through which door. */
module DramOutcome {
  import opened Lists
  import opened DramTypes
  import opened DramBank
  import opened DramArbiter
  import opened DramSend
  import opened DramModel
  import opened DramRun
  import opened DramService
  import DramAddress

  // ----- one bank

  /** The completion of the bank's current request answers r: r is that request or, with
      merging, a buffered one for the same address. */
  ghost predicate Answers(cfg: Config, b: Bank, r: Req) {
    && b.current.Some? && r.addr == b.current.value.req.addr
    && (r == b.current.value.req || (cfg.merge && exists e :: e in b.buffer && e.req == r))
  }

  /** What a bank completes is exactly what its finished request answers. */
  lemma {:induction false} DoneIsAnswered(cfg: Config, b: Bank, cycle: nat, r: Req)
    ensures r in Map(ReqOf, Done(cfg, b, cycle)) <==> Finished(b, cycle) && Answers(cfg, b, r)
    ensures r in Delivered(cfg, b, cycle) <==> Finished(b, cycle) && Answers(cfg, b, r) && r.kind != WriteBack
    ensures r in Retired(cfg, b, cycle) <==> Finished(b, cycle) && Answers(cfg, b, r) && r.kind == WriteBack
  {
    var done := Done(cfg, b, cycle);
    if Finished(b, cycle) {
      var merged := Merged(cfg, b);
      assert forall e :: e in done <==> e in merged || e == b.current.value;
      if r in Map(ReqOf, done) {
        var k :| 0 <= k < |done| && Map(ReqOf, done)[k] == r;
        assert done[k] in done;
      }
      if Answers(cfg, b, r) {
        var e := if r == b.current.value.req then b.current.value else var e :| e in b.buffer && e.req == r; e;
        assert e in done;
        var k :| 0 <= k < |done| && done[k] == e;
        assert Map(ReqOf, done)[k] == r;
      }
    }
  }

  /** What stays buffered is exactly what is not answered. */
  lemma {:induction false} BufferAfterComplete(cfg: Config, b: Bank, cycle: nat, e: Entry)
    ensures e in Complete(cfg, b, cycle).buffer <==>
      e in b.buffer && !(Finished(b, cycle) && cfg.merge && e.req.addr == b.current.value.req.addr)
    ensures Complete(cfg, b, cycle).current == if Finished(b, cycle) then None else b.current
  {
  }

  /** What a flush drops is exactly the bank's buffered prefetches. */
  lemma {:induction false} FlushedArePrefetches(b: Bank, e: Entry, r: Req)
    ensures e in Flush(b).buffer <==> e in b.buffer && e.req.kind != Prefetch
    ensures r in Flushed(b) <==> r.kind == Prefetch && exists x :: x in b.buffer && x.req == r
  {
    var gone := Select(IsPrefetch, true, b.buffer);
    if r in Flushed(b) {
      var k :| 0 <= k < |gone| && Map(ReqOf, gone)[k] == r;
      assert gone[k] in gone;
    }
    if r.kind == Prefetch {
      if x :| x in b.buffer && x.req == r {
        assert x in gone;
        var k :| 0 <= k < |gone| && gone[k] == x;
        assert Map(ReqOf, gone)[k] == r;
      }
    }
  }

  // ----- one cycle

  lemma {:induction false} InConcat<T>(ss: seq<seq<T>>, n: nat, x: T)
    requires n <= |ss|
    ensures x in Concat(ss, n) <==> exists i :: 0 <= i < n && x in ss[i]
  {
    if n > 0 {
      InConcat(ss, n - 1, x);
    }
  }

  /** Some bank finishes in this cycle, and its completion answers r. */
  ghost predicate AnsweredIn(cfg: Config, s: Ctrl, input: Input, r: Req)
    requires Wired(cfg) && cfg.busWidth > 0 && Shaped(cfg, s)
  {
    var banks := BeforeComplete(cfg, s, input.accepts).banks;
    !input.locked && exists j :: 0 <= j < |banks| && Finished(banks[j], s.cycle) && Answers(cfg, banks[j], r)
  }

  ghost predicate Waits(s: Ctrl, r: Req) {
    r in s.out || r in Map(ReqOfDelayed, s.delay)
  }

  lemma BanksAnswer(cfg: Config, banks: seq<Bank>, cycle: nat, r: Req)
    ensures r in Concat(DeliveredBy(cfg, banks, cycle), |banks|) <==>
      r.kind != WriteBack && exists j :: 0 <= j < |banks| && Finished(banks[j], cycle) && Answers(cfg, banks[j], r)
    ensures r in Concat(RetiredBy(cfg, banks, cycle), |banks|) <==>
      r.kind == WriteBack && exists j :: 0 <= j < |banks| && Finished(banks[j], cycle) && Answers(cfg, banks[j], r)
  {
    hide Delivered, Retired, Answers;
    InConcat(DeliveredBy(cfg, banks, cycle), |banks|, r);
    InConcat(RetiredBy(cfg, banks, cycle), |banks|, r);
    forall j | 0 <= j < |banks|
      ensures r in Delivered(cfg, banks[j], cycle) <==>
        Finished(banks[j], cycle) && Answers(cfg, banks[j], r) && r.kind != WriteBack
      ensures r in Retired(cfg, banks[j], cycle) <==>
        Finished(banks[j], cycle) && Answers(cfg, banks[j], r) && r.kind == WriteBack
    {
      DoneIsAnswered(cfg, banks[j], cycle, r);
    }
    assert forall j :: 0 <= j < |banks| ==> DeliveredBy(cfg, banks, cycle)[j] == Delivered(cfg, banks[j], cycle);
    assert forall j :: 0 <= j < |banks| ==> RetiredBy(cfg, banks, cycle)[j] == Retired(cfg, banks[j], cycle);
  }

  lemma OutputPhase(cfg: Config, s: Ctrl, accepts: seq<bool>, r: Req, d: Delayed)
    requires Wired(cfg) && cfg.busWidth > 0 && Shaped(cfg, s)
    ensures var b, sent := BeforeComplete(cfg, s, accepts), Sent(cfg, s.out, accepts);
      && b.cycle == s.cycle
      && (Waits(b, r) ==> Waits(s, r)) && (Waits(s, r) ==> Waits(b, r) || r in sent)
      && (d in b.delay ==> d in s.delay) && (d in s.delay ==> d in b.delay || (d.ready <= s.cycle && d.req in b.out))
  {
    hide Sent, CmdChannels, DataChannels;
    var sent := Sent(cfg, s.out, accepts);
    var rest := Without(s.out, sent);
    if cfg.extra > 0 {
      DuePart(s.delay, s.cycle, rest, r, d);
    }
  }

  /** Moving the due part of the delay buffer to the output. */
  lemma DuePart(delay: seq<Delayed>, cycle: nat, out: seq<Req>, r: Req, d: Delayed)
    ensures var n := DueCount(delay, cycle);
      var out', delay' := out + Map(ReqOfDelayed, delay[..n]), delay[n..];
      && ((r in out' || r in Map(ReqOfDelayed, delay')) <==> r in out || r in Map(ReqOfDelayed, delay))
      && (d in delay' ==> d in delay) && (d in delay ==> d in delay' || (d.ready <= cycle && d.req in out'))
  {
    var n := DueCount(delay, cycle);
    var head := delay[..n];
    MapAppend(ReqOfDelayed, head, delay[n..]);
    assert delay == head + delay[n..];
    if d in head {
      var k :| 0 <= k < n && head[k] == d;
      assert Map(ReqOfDelayed, head)[k] == d.req;
    }
  }

  lemma DeliveryPhase(cfg: Config, b: Ctrl, reqs: seq<Req>, r: Req, d: Delayed)
    ensures var t := Deliver(cfg, b, reqs);
      && (Waits(t, r) <==> Waits(b, r) || r in reqs)
      && (d in t.delay <==> d in b.delay || (cfg.extra > 0 && d.req in reqs && d.ready == b.cycle + cfg.extra))
      && forall q :: q in b.out ==> q in t.out
  {
    var ready := b.cycle + cfg.extra;
    if cfg.extra > 0 {
      var more := Map(Delay(ready), reqs);
      MapAppend(ReqOfDelayed, b.delay, more);
      assert Map(ReqOfDelayed, more) == reqs;
      if d.req in reqs && d.ready == ready {
        var k :| 0 <= k < |reqs| && reqs[k] == d.req;
        assert more[k] == d;
      }
      if d in more {
        var k :| 0 <= k < |more| && more[k] == d;
        assert reqs[k] in reqs;
      }
    }
  }

  /** What one cycle lets go and keeps. A write-back is retired exactly when it is answered;
      any other answered request waits to be sent, for exactly the additional latency in
      the delay buffer; what waited before is sent or still waits; only prefetches are
      flushed. */
  lemma {:induction false} TickAnswers(cfg: Config, s: Ctrl, input: Input, r: Req, d: Delayed)
    requires cfg.Valid() && Wired(cfg) && Shaped(cfg, s) && WellRouted(cfg, input)
    ensures var o := Tick(cfg, s, input);
      && (r in o.retired <==> AnsweredIn(cfg, s, input, r) && r.kind == WriteBack)
      && (Waits(o.next, r) ==> Waits(s, r) || (AnsweredIn(cfg, s, input, r) && r.kind != WriteBack))
      && (AnsweredIn(cfg, s, input, r) && r.kind != WriteBack ==> Waits(o.next, r))
      && (Waits(s, r) ==> Waits(o.next, r) || r in o.sent)
      && (r in o.sent ==> r in s.out) && (r in o.flushed ==> r.kind == Prefetch)
      && (d in o.next.delay && d !in s.delay ==> d.ready == s.cycle + cfg.extra)
      && (d in s.delay && d !in o.next.delay ==> d.ready <= s.cycle && d.req in o.next.out)
  {
    if !input.locked {
      hide Sent, BeforeComplete, AfterAdvance, InsertAt, Deliver, Answers, Waits;
      var b := BeforeComplete(cfg, s, input.accepts);
      OutputPhase(cfg, s, input.accepts, r, d);
      var reqs := Concat(DeliveredBy(cfg, b.banks, b.cycle), |b.banks|);
      BanksAnswer(cfg, b.banks, b.cycle, r);
      DeliveryPhase(cfg, b, reqs, r, d);
      KeepsOutput(cfg, b, input, r);
      SentWasOut(cfg, s.out, input.accepts, r);
    }
  }

  lemma SentWasOut(cfg: Config, out: seq<Req>, accepts: seq<bool>, r: Req)
    ensures r in Sent(cfg, out, accepts) ==> r in out
  {
    var k, g, second := SentHasShape(cfg, out, accepts);
    hide Sent;
    assert forall x :: x in second ==> x in Select(IsGpu, g, out);
  }

  /** Advancing the banks and receiving leave the outgoing requests alone. */
  lemma KeepsOutput(cfg: Config, b: Ctrl, input: Input, r: Req)
    requires cfg.Valid() && WellRouted(cfg, input) && |b.banks| == cfg.numBanks
    ensures
      var t := Deliver(cfg, b, Concat(DeliveredBy(cfg, b.banks, b.cycle), |b.banks|));
      var o := Finish(cfg, b, input.arrival);
      && o.next.out == t.out && o.next.delay == t.delay && (r in o.flushed ==> r.kind == Prefetch)
  {
    hide Concat;
    var a := AfterAdvance(cfg, AfterComplete(cfg, b));
    if input.arrival.Some? {
      var loc := DramAddress.ParseAddr(cfg.addressMap, input.arrival.value.addr);
      var e := Entry(0, 0, r, 0, 0, 0, Init);
      FlushedArePrefetches(a.banks[loc.bank], e, r);
    }
  }

  // ----- runs

  ghost predicate AnsweredInRun(cfg: Config, s: Ctrl, inputs: seq<Input>, r: Req)
    requires Runnable(cfg, s, inputs)
  {
    exists k :: 0 <= k < |inputs| && AnsweredIn(cfg, At(cfg, s, inputs, k), inputs[k], r)
  }

  lemma AnsweredSnoc(cfg: Config, s: Ctrl, inputs: seq<Input>, r: Req)
    requires Runnable(cfg, s, inputs) && inputs != []
    ensures var n := |inputs| - 1;
      AnsweredInRun(cfg, s, inputs, r) <==>
        AnsweredInRun(cfg, s, inputs[..n], r) || AnsweredIn(cfg, Run(cfg, s, inputs[..n]).next, inputs[n], r)
  {
    hide AnsweredIn, Run;
    var n := |inputs| - 1;
    forall k | 0 <= k < n
      ensures At(cfg, s, inputs[..n], k) == At(cfg, s, inputs, k) && inputs[..n][k] == inputs[k]
    {
      AtPrefix(cfg, s, inputs, n, k);
    }
    if AnsweredInRun(cfg, s, inputs, r) {
      var k :| 0 <= k < |inputs| && AnsweredIn(cfg, At(cfg, s, inputs, k), inputs[k], r);
      if k < n {
        assert AnsweredIn(cfg, At(cfg, s, inputs[..n], k), inputs[..n][k], r);
      }
    }
    if AnsweredInRun(cfg, s, inputs[..n], r) {
      var k :| 0 <= k < n && AnsweredIn(cfg, At(cfg, s, inputs[..n], k), inputs[..n][k], r);
      assert AnsweredIn(cfg, At(cfg, s, inputs, k), inputs[k], r);
    }
  }

  /** Over every run: what is retired is a write-back and what is sent is not, and both were
      answered by the completion of a request for their address, unless they were on their
      way out from the start. Whatever is answered is retired, sent or on its way out, and
      only prefetches are flushed. */
  lemma {:induction false} RunAnswers(cfg: Config, s: Ctrl, inputs: seq<Input>, r: Req)
    requires Runnable(cfg, s, inputs)
    ensures var o := Run(cfg, s, inputs);
      && (r in o.retired ==> r.kind == WriteBack && AnsweredInRun(cfg, s, inputs, r))
      && (r in o.sent || Waits(o.next, r) ==> Waits(s, r) || (r.kind != WriteBack && AnsweredInRun(cfg, s, inputs, r)))
      && (AnsweredInRun(cfg, s, inputs, r) ==> r in o.retired || r in o.sent || Waits(o.next, r))
      && (r in o.flushed ==> r.kind == Prefetch)
  {
    hide Tick, AnsweredIn, AnsweredInRun, Waits;
    if inputs == [] {
      NeverAnswered(cfg, s, r);
    } else {
      var n := |inputs| - 1;
      RunAnswers(cfg, s, inputs[..n], r);
      AnsweredSnoc(cfg, s, inputs, r);
      var p := Run(cfg, s, inputs[..n]);
      TickAnswers(cfg, p.next, inputs[n], r, Delayed(r, 0));
      OutIsWaiting(p.next, r);
    }
  }

  lemma NeverAnswered(cfg: Config, s: Ctrl, r: Req)
    requires Runnable(cfg, s, [])
    ensures !AnsweredInRun(cfg, s, [], r)
  {
  }

  lemma OutIsWaiting(s: Ctrl, r: Req)
    ensures r in s.out ==> Waits(s, r)
  {
  }

  // ----- rows

  /** The entry is in the bank, and for the row, of its request's address. */
  predicate InPlace(cfg: Config, j: nat, e: Entry)
    requires cfg.addressMap.numMc > 0
  {
    var loc := DramAddress.ParseAddr(cfg.addressMap, e.req.addr);
    loc.bank == j && loc.row == e.row
  }

  ghost predicate AllInPlace(cfg: Config, j: nat, b: Bank)
    requires cfg.addressMap.numMc > 0
  {
    (forall e :: e in b.buffer ==> InPlace(cfg, j, e)) && (b.current.Some? ==> InPlace(cfg, j, b.current.value))
  }

  lemma PhasesKeepPlace(cfg: Config, j: nat, b: Bank, t: Stages, cycle: nat, commanded: bool, id: nat, id': nat)
    requires cfg.addressMap.numMc > 0 && AllInPlace(cfg, j, b) && BankStep(cfg, b, t, cycle, commanded, id, id')
    ensures AllInPlace(cfg, j, t.next)
  {
    hide DramAddress.ParseAddr;
    assert AllInPlace(cfg, j, t.data);
    assert AllInPlace(cfg, j, t.done) by {
      forall e | e in t.done.buffer
        ensures InPlace(cfg, j, e)
      {
        BufferAfterComplete(cfg, t.data, cycle, e);
      }
    }
    AdvanceKeepsPlace(cfg, j, t.done, cycle);
  }

  lemma AdvanceKeepsPlace(cfg: Config, j: nat, b: Bank, cycle: nat)
    requires cfg.addressMap.numMc > 0 && AllInPlace(cfg, j, b)
    ensures AllInPlace(cfg, j, Advance(cfg, b, cycle))
  {
    hide DramAddress.ParseAddr;
    if b.current.None? && b.buffer != [] {
      var queue := DramPolicy.Ordered(cfg.frfcfs, b.openRow, b.buffer);
      DramPolicy.OrderedPermutes(cfg.frfcfs, b.openRow, b.buffer);
      assert queue[0] in queue && forall e :: e in queue[1..] ==> e in queue;
    }
  }

  lemma ReceiveKeepsPlace(cfg: Config, a: Ctrl, arrival: Option<Req>, j: nat)
    requires cfg.addressMap.numMc > 0 && |a.banks| == cfg.numBanks && j < |a.banks| && AllInPlace(cfg, j, a.banks[j])
    requires arrival.Some? ==> DramAddress.ParseAddr(cfg.addressMap, arrival.value.addr).bank < cfg.numBanks
    ensures AllInPlace(cfg, j, AfterReceive(cfg, a, arrival).next.banks[j])
  {
    hide DramAddress.ParseAddr;
  }

  lemma TickKeepsPlace(cfg: Config, s: Ctrl, input: Input, j: nat)
    requires cfg.Valid() && Wired(cfg) && Shaped(cfg, s) && WellRouted(cfg, input) && j < cfg.numBanks
    requires AllInPlace(cfg, j, s.banks[j])
    ensures AllInPlace(cfg, j, Tick(cfg, s, input).next.banks[j])
  {
    hide AllInPlace, BeforeComplete, AfterComplete, DramAddress.ParseAddr;
    if !input.locked {
      var t := BankTick(cfg, s, input, j);
      PhasesKeepPlace(cfg, j, s.banks[j], t, s.cycle, Commanded(cfg, s.banks, j), s.nextId,
                      Tick(cfg, s, input).next.nextId);
      var s2 := AfterAdvance(cfg, AfterComplete(cfg, BeforeComplete(cfg, s, input.accepts)));
      NextIs(cfg, s, input, j);
      ReceiveKeepsPlace(cfg, s2, input.arrival, j);
    }
  }

  lemma NextIs(cfg: Config, s: Ctrl, input: Input, j: nat)
    requires cfg.Valid() && Wired(cfg) && Shaped(cfg, s) && !input.locked && j < cfg.numBanks
    ensures var s1 := BeforeComplete(cfg, s, input.accepts);
      && |s1.banks| == cfg.numBanks && s1.cycle == s.cycle
      && |AfterAdvance(cfg, AfterComplete(cfg, s1)).banks| == cfg.numBanks
      && AfterAdvance(cfg, AfterComplete(cfg, s1)).banks[j] ==
        Advance(cfg, Complete(cfg, s1.banks[j], s.cycle), s.cycle)
  {
    FirstHalf(cfg, s, input.accepts, j);
  }

  /** Over every run each buffered request is in the bank of its address with the row of its
      address, and data is transferred only while that row is open. */
  lemma {:induction false} ServedFromItsRow(cfg: Config, s: Ctrl, inputs: seq<Input>, j: nat)
    requires Runnable(cfg, s, inputs) && AllOk(s) && j < cfg.numBanks && AllInPlace(cfg, j, s.banks[j])
    ensures var b := Run(cfg, s, inputs).next.banks[j];
      && AllInPlace(cfg, j, b)
      && (b.current.Some? && b.current.value.phase in {Data, DataWait} ==>
            b.openRow == DramAddress.ParseAddr(cfg.addressMap, b.current.value.req.addr).row)
  {
    hide DramAddress.ParseAddr, Tick;
    AllOkRun(cfg, s, inputs);
    PlaceRun(cfg, s, inputs, j);
  }

  lemma {:induction false} PlaceRun(cfg: Config, s: Ctrl, inputs: seq<Input>, j: nat)
    requires Runnable(cfg, s, inputs) && j < cfg.numBanks && AllInPlace(cfg, j, s.banks[j])
    ensures AllInPlace(cfg, j, Run(cfg, s, inputs).next.banks[j])
  {
    hide AllInPlace, Tick;
    if inputs != [] {
      var n := |inputs| - 1;
      PlaceRun(cfg, s, inputs[..n], j);
      TickKeepsPlace(cfg, Run(cfg, s, inputs[..n]).next, inputs[n], j);
    }
  }

  lemma {:induction false} InitiallyInPlace(cfg: Config, j: nat)
    requires cfg.Valid() && j < cfg.numBanks
    ensures AllInPlace(cfg, j, Initial(cfg).banks[j])
  {
  }
}
