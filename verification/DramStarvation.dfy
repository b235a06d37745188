/** No bank waits for its command longer than its channel has banks. */
module DramStarvation {
  import opened Lists
  import opened DramTypes
  import opened DramBank
  import opened DramArbiter
  import opened DramModel
  import opened DramRun
  import opened DramService

  /** The waiting banks of the range that are served before bank j. */
  ghost function Ahead(banks: seq<Bank>, lo: nat, hi: nat, j: nat): set<nat>
    requires lo <= hi <= |banks| && j < |banks|
  {
    set i: nat | lo <= i < hi && Waiting(banks[i]) && Older(banks, i, j)
  }

  lemma {:induction false} RangeBound(s: set<nat>, lo: nat, hi: nat)
    requires lo <= hi && forall i :: i in s ==> lo <= i < hi
    ensures |s| <= hi - lo
  {
    if lo < hi {
      RangeBound(s - {hi - 1}, lo, hi - 1);
    } else {
      assert s == {};
    }
  }

  lemma AheadBound(banks: seq<Bank>, lo: nat, hi: nat, j: nat)
    requires lo <= j < hi <= |banks|
    ensures |Ahead(banks, lo, hi, j)| < hi - lo
  {
    var s := Ahead(banks, lo, hi, j);
    assert j !in s;
    RangeBound(s + {j}, lo, hi);
  }

  /** A waiting bank that is passed over keeps waiting with its time stamp. */
  lemma StillWaiting(cfg: Config, b: Bank, t: Stages, cycle: nat, id: nat, id': nat)
    requires BankOk(b, cycle) && cycle < NEVER && Waiting(b) && BankStep(cfg, b, t, cycle, false, id, id')
    ensures Waiting(t.end) && t.end.timestamp == b.timestamp
  {
    BankOkStep(cfg, b, t, cycle, false, id, id');
    ReceiveRows(t.next, t.end, cycle, id, id');
  }

  /** A bank that waits after the cycle with an older time stamp was waiting
      before it and did not get the command. */
  lemma WasWaiting(cfg: Config, b: Bank, t: Stages, cycle: nat, commanded: bool, id: nat, id': nat)
    requires BankOk(b, cycle) && cycle < NEVER && BankStep(cfg, b, t, cycle, commanded, id, id')
    requires Waiting(t.end) && t.end.timestamp < cycle
    ensures !commanded && Waiting(b) && t.end.timestamp == b.timestamp
  {
    BankOkStep(cfg, b, t, cycle, commanded, id, id');
    ReceiveRows(t.next, t.end, cycle, id, id');
    AdvanceRows(cfg, t.done, cycle);
  }

  /** The ranking: each unlocked cycle that does not serve j serves a bank ahead
      of it, and nobody new gets ahead. */
  lemma {:induction false} RankDrops(cfg: Config, s: Ctrl, input: Input, ch: nat, j: nat)
    requires cfg.Valid() && Wired(cfg) && Shaped(cfg, s) && WellRouted(cfg, input) && !input.locked
    requires AllOk(s) && s.cycle < NEVER && ch < cfg.numChannels && Owns(cfg, ch, j) && j < cfg.numBanks
    requires Waiting(s.banks[j]) && !Commanded(cfg, s.banks, j)
    ensures Lo(cfg, ch) <= Lo(cfg, ch + 1) <= cfg.numBanks
    ensures var t := Tick(cfg, s, input).next;
      && Waiting(t.banks[j])
      && |Ahead(t.banks, Lo(cfg, ch), Lo(cfg, ch + 1), j)| < |Ahead(s.banks, Lo(cfg, ch), Lo(cfg, ch + 1), j)|
  {
    var lo, hi, t := Lo(cfg, ch), Lo(cfg, ch + 1), Tick(cfg, s, input).next;
    ChannelsFit(cfg, ch);
    var pick := CmdPick(cfg, s.banks, ch).value;
    assert Commanded(cfg, s.banks, pick);
    var tj := BankTick(cfg, s, input, j);
    StillWaiting(cfg, s.banks[j], tj, s.cycle, s.nextId, t.nextId);
    var before, after := Ahead(s.banks, lo, hi, j), Ahead(t.banks, lo, hi, j);
    forall i | i in after
      ensures i in before && i != pick
    {
      var ti := BankTick(cfg, s, input, i);
      WasWaiting(cfg, s.banks[i], ti, s.cycle, Commanded(cfg, s.banks, i), s.nextId, t.nextId);
    }
    Smaller(after, before, pick);
  }

  lemma Smaller(a: set<nat>, b: set<nat>, x: nat)
    requires x in b && forall i :: i in a ==> i in b && i != x
    ensures |a| < |b|
  {
    SubsetSize(a, b - {x});
  }

  lemma {:induction false} SubsetSize(a: set<nat>, b: set<nat>)
    requires a <= b
    ensures |a| <= |b|
  {
    if a != {} {
      var x :| x in a;
      SubsetSize(a - {x}, b - {x});
    }
  }

  function Unlocked(inputs: seq<Input>): nat {
    if inputs == [] then 0
    else Unlocked(inputs[..|inputs| - 1]) + if inputs[|inputs| - 1].locked then 0 else 1
  }

  /** Bank j gets a command in step k of the run. */
  ghost predicate CommandAt(cfg: Config, s: Ctrl, inputs: seq<Input>, k: nat, j: nat)
    requires Runnable(cfg, s, inputs) && k < |inputs|
  {
    !inputs[k].locked && Commanded(cfg, At(cfg, s, inputs, k).banks, j)
  }

  ghost predicate Served(cfg: Config, s: Ctrl, inputs: seq<Input>, j: nat)
    requires Runnable(cfg, s, inputs)
  {
    exists k :: 0 <= k < |inputs| && CommandAt(cfg, s, inputs, k, j)
  }

  lemma ServedEarlier(cfg: Config, s: Ctrl, inputs: seq<Input>, j: nat)
    requires Runnable(cfg, s, inputs) && inputs != [] && Served(cfg, s, inputs[..|inputs| - 1], j)
    ensures Served(cfg, s, inputs, j)
  {
    var n := |inputs| - 1;
    var k :| 0 <= k < n && CommandAt(cfg, s, inputs[..n], k, j);
    AtPrefix(cfg, s, inputs, n, k);
    assert CommandAt(cfg, s, inputs, k, j);
  }

  lemma {:induction false} Progress(cfg: Config, s: Ctrl, inputs: seq<Input>, ch: nat, j: nat)
    requires Runnable(cfg, s, inputs) && AllOk(s) && s.cycle + |inputs| <= NEVER
    requires ch < cfg.numChannels && Owns(cfg, ch, j) && j < cfg.numBanks && Waiting(s.banks[j])
    ensures Lo(cfg, ch) <= Lo(cfg, ch + 1) <= cfg.numBanks
    ensures var t := Run(cfg, s, inputs).next;
      Served(cfg, s, inputs, j) ||
      (Waiting(t.banks[j]) &&
       |Ahead(t.banks, Lo(cfg, ch), Lo(cfg, ch + 1), j)| + Unlocked(inputs)
         <= |Ahead(s.banks, Lo(cfg, ch), Lo(cfg, ch + 1), j)|)
  {
    ChannelsFit(cfg, ch);
    if inputs != [] {
      var n := |inputs| - 1;
      Progress(cfg, s, inputs[..n], ch, j);
      if Served(cfg, s, inputs[..n], j) {
        ServedEarlier(cfg, s, inputs, j);
      } else {
        var mid := Run(cfg, s, inputs[..n]).next;
        AllOkRun(cfg, s, inputs[..n]);
        if !inputs[n].locked {
          if Commanded(cfg, mid.banks, j) {
            assert CommandAt(cfg, s, inputs, n, j);
          } else {
            RankDrops(cfg, mid, inputs[n], ch, j);
          }
        }
      }
    }
  }

  /** A bank of a channel that waits for a command gets one within as many
      unlocked cycles as the channel has banks, whatever else happens. */
  lemma {:induction false} NoStarvation(cfg: Config, s: Ctrl, inputs: seq<Input>, ch: nat, j: nat)
    requires Runnable(cfg, s, inputs) && AllOk(s) && s.cycle + |inputs| <= NEVER
    requires ch < cfg.numChannels && Owns(cfg, ch, j) && j < cfg.numBanks && Waiting(s.banks[j])
    requires Unlocked(inputs) >= cfg.perChannel
    ensures Served(cfg, s, inputs, j)
  {
    Progress(cfg, s, inputs, ch, j);
    AheadBound(s.banks, Lo(cfg, ch), Lo(cfg, ch + 1), j);
  }

  /** A bank beyond the last channel never gets one: when the number of banks is
      not a multiple of the number of channels, the remainder is unreachable. */
  lemma {:induction false} LeftoverBankNeverServed(cfg: Config, s: Ctrl, inputs: seq<Input>, j: nat)
    requires Runnable(cfg, s, inputs) && Lo(cfg, cfg.numChannels) <= j < cfg.numBanks
    ensures !Served(cfg, s, inputs, j)
  {
    forall k | 0 <= k < |inputs|
      ensures !CommandAt(cfg, s, inputs, k, j)
    {
      forall ch: nat | ch < cfg.numChannels && CmdPick(cfg, At(cfg, s, inputs, k).banks, ch) == Some(j)
        ensures false
      {
        LoMonotone(cfg, ch + 1, cfg.numChannels);
      }
    }
  }

  /** Every bank below the last channel boundary belongs to a channel. */
  lemma {:induction false} OwnerExists(cfg: Config, n: nat, j: nat) returns (ch: nat)
    requires j < Lo(cfg, n)
    ensures ch < n && Owns(cfg, ch, j)
  {
    if j < Lo(cfg, n - 1) {
      ch := OwnerExists(cfg, n - 1, j);
    } else {
      ch := n - 1;
    }
  }

  /** Exactly the banks below the last channel boundary are served. */
  lemma {:induction false} ServedIffWired(cfg: Config, s: Ctrl, inputs: seq<Input>, j: nat)
    requires Runnable(cfg, s, inputs) && AllOk(s) && s.cycle + |inputs| <= NEVER
    requires j < cfg.numBanks && Waiting(s.banks[j]) && Unlocked(inputs) >= cfg.perChannel
    ensures Served(cfg, s, inputs, j) <==> j < cfg.numChannels * (cfg.numBanks / cfg.numChannels)
  {
    LoIsMultiple(cfg, cfg.numChannels);
    if j < Lo(cfg, cfg.numChannels) {
      var ch := OwnerExists(cfg, cfg.numChannels, j);
      NoStarvation(cfg, s, inputs, ch, j);
    } else {
      LeftoverBankNeverServed(cfg, s, inputs, j);
    }
  }
}
