/** The command bus and the data bus of the channels: oldest-first arbitration
    and byte-level accounting of the data bus. */
module DramArbiter {
  import opened Lists
  import opened DramTypes
  import opened DramBank

  /** What a channel looks for: a bank that waits for a command, or a bank whose
      data may be transferred. */
  datatype Want = ForCommand | ForData(cycle: nat)

  predicate Eligible(w: Want, b: Bank) {
    match w
    case ForCommand => Waiting(b)
    case ForData(cycle) => DataPending(b, cycle)
  }

  /** Earlier time stamp, ties broken by the lower index. */
  predicate Older(banks: seq<Bank>, i: nat, j: nat)
    requires i < |banks| && j < |banks|
  {
    banks[i].timestamp < banks[j].timestamp || (banks[i].timestamp == banks[j].timestamp && i < j)
  }

  /** The oldest eligible bank of the range lo..hi. */
  function Oldest(w: Want, banks: seq<Bank>, lo: nat, hi: nat): (r: Option<nat>)
    requires lo <= hi <= |banks|
    ensures r.None? <==> forall j :: lo <= j < hi ==> !Eligible(w, banks[j])
    ensures r.Some? ==> lo <= r.value < hi && Eligible(w, banks[r.value])
    ensures r.Some? ==>
      forall j :: lo <= j < hi && Eligible(w, banks[j]) && j != r.value ==> Older(banks, r.value, j)
  {
    if lo == hi then None
    else
      var best := Oldest(w, banks, lo, hi - 1);
      if Eligible(w, banks[hi - 1]) && (best.None? || banks[hi - 1].timestamp < banks[best.value].timestamp)
      then Some(hi - 1) else best
  }

  /** The choice depends on the range only. */
  lemma {:induction false} OldestFrame(w: Want, a: seq<Bank>, b: seq<Bank>, lo: nat, hi: nat)
    requires lo <= hi <= |a| && hi <= |b|
    requires forall j :: lo <= j < hi ==> a[j] == b[j]
    ensures Oldest(w, a, lo, hi) == Oldest(w, b, lo, hi)
  {
    if lo < hi {
      OldestFrame(w, a, b, lo, hi - 1);
    }
  }

  // ----- command bus

  /** First bank of channel ch: the multiple ch * m_num_bank_per_channel. */
  function Lo(cfg: Config, ch: nat): nat {
    if ch == 0 then 0 else Lo(cfg, ch - 1) + cfg.perChannel
  }

  lemma {:induction false} LoIsMultiple(cfg: Config, ch: nat)
    ensures Lo(cfg, ch) == ch * cfg.perChannel
  {
    if ch > 0 {
      LoIsMultiple(cfg, ch - 1);
    }
  }

  lemma {:induction false} LoMonotone(cfg: Config, c: nat, d: nat)
    requires c <= d
    ensures Lo(cfg, c) <= Lo(cfg, d)
  {
    if c < d {
      LoMonotone(cfg, c, d - 1);
    }
  }

  /** The channels' ranges lie within the banks. */
  predicate Wired(cfg: Config) {
    Lo(cfg, cfg.numChannels) <= cfg.numBanks
  }

  lemma ValidIsWired(cfg: Config)
    requires cfg.Valid()
    ensures Wired(cfg)
  {
    LoIsMultiple(cfg, cfg.numChannels);
  }

  predicate Owns(cfg: Config, ch: nat, j: nat) {
    Lo(cfg, ch) <= j < Lo(cfg, ch + 1)
  }

  lemma ChannelsFit(cfg: Config, ch: nat)
    requires Wired(cfg) && ch < cfg.numChannels
    ensures Lo(cfg, ch) <= Lo(cfg, ch + 1) <= cfg.numBanks
  {
    LoMonotone(cfg, ch + 1, cfg.numChannels);
  }

  /** Command selection over the first n channels. */
  function CmdChannels(cfg: Config, banks: seq<Bank>, cycle: nat, n: nat): (r: seq<Bank>)
    requires Wired(cfg) && n <= cfg.numChannels && |banks| == cfg.numBanks
    ensures |r| == |banks|
  {
    if n == 0 then banks
    else
      ChannelsFit(cfg, n - 1);
      var prev := CmdChannels(cfg, banks, cycle, n - 1);
      match Oldest(ForCommand, prev, Lo(cfg, n - 1), Lo(cfg, n))
      case None => prev
      case Some(j) => prev[j := Issue(cfg, prev[j], cycle)]
  }

  /** The bank that channel ch gives its command slot to. */
  function CmdPick(cfg: Config, banks: seq<Bank>, ch: nat): (r: Option<nat>)
    requires Wired(cfg) && ch < cfg.numChannels && |banks| == cfg.numBanks
    ensures r.Some? ==> Owns(cfg, ch, r.value) && r.value < |banks| && Waiting(banks[r.value])
  {
    ChannelsFit(cfg, ch);
    Oldest(ForCommand, banks, Lo(cfg, ch), Lo(cfg, ch + 1))
  }

  /** One of the first n channels picks bank j. */
  ghost predicate PickedBelow(cfg: Config, banks: seq<Bank>, n: nat, j: nat)
    requires Wired(cfg) && n <= cfg.numChannels && |banks| == cfg.numBanks
  {
    exists ch: nat :: ch < n && CmdPick(cfg, banks, ch) == Some(j)
  }

  /** Bank j receives a command in this cycle. */
  ghost predicate Commanded(cfg: Config, banks: seq<Bank>, j: nat)
    requires Wired(cfg) && |banks| == cfg.numBanks
  {
    PickedBelow(cfg, banks, cfg.numChannels, j)
  }

  lemma OwnerIsUnique(cfg: Config, c: nat, d: nat, j: nat)
    requires Owns(cfg, c, j) && Owns(cfg, d, j)
    ensures c == d
  {
    if c < d {
      LoMonotone(cfg, c + 1, d);
    } else if d < c {
      LoMonotone(cfg, d + 1, c);
    }
  }

  lemma PickedByOwner(cfg: Config, banks: seq<Bank>, n: nat, ch: nat, j: nat)
    requires Wired(cfg) && n <= cfg.numChannels && |banks| == cfg.numBanks
    requires ch < cfg.numChannels && Owns(cfg, ch, j)
    ensures PickedBelow(cfg, banks, n, j) <==> ch < n && CmdPick(cfg, banks, ch) == Some(j)
  {
    forall c: nat | c < n && CmdPick(cfg, banks, c) == Some(j)
      ensures c == ch
    {
      OwnerIsUnique(cfg, c, ch, j);
    }
  }

  /** Bank j after the first n channels have issued their commands. */
  ghost function CmdResult(cfg: Config, banks: seq<Bank>, cycle: nat, n: nat, j: nat): Bank
    requires Wired(cfg) && n <= cfg.numChannels && |banks| == cfg.numBanks && j < |banks|
  {
    if PickedBelow(cfg, banks, n, j) then Issue(cfg, banks[j], cycle) else banks[j]
  }

  /** One pass over the channels issues exactly one command to each picked bank,
      as seen before the pass, and leaves every other bank alone. */
  lemma {:induction false} CmdEffect(cfg: Config, banks: seq<Bank>, cycle: nat, n: nat, j: nat)
    requires Wired(cfg) && n <= cfg.numChannels && |banks| == cfg.numBanks && j < |banks|
    ensures CmdChannels(cfg, banks, cycle, n)[j] == CmdResult(cfg, banks, cycle, n, j)
    decreases n, 1
  {
    if n > 0 {
      CmdEffect(cfg, banks, cycle, n - 1, j);
      CmdStepPick(cfg, banks, cycle, n);
      CmdUnfold(cfg, banks, cycle, n, CmdPick(cfg, banks, n - 1));
      CmdResultStep(cfg, banks, cycle, n, j);
    }
  }

  lemma CmdResultStep(cfg: Config, banks: seq<Bank>, cycle: nat, n: nat, j: nat)
    requires Wired(cfg) && 0 < n <= cfg.numChannels && |banks| == cfg.numBanks && j < |banks|
    ensures CmdPick(cfg, banks, n - 1) == Some(j) ==>
      && CmdResult(cfg, banks, cycle, n - 1, j) == banks[j]
      && CmdResult(cfg, banks, cycle, n, j) == Issue(cfg, banks[j], cycle)
    ensures CmdPick(cfg, banks, n - 1) != Some(j) ==>
      CmdResult(cfg, banks, cycle, n, j) == CmdResult(cfg, banks, cycle, n - 1, j)
  {
    PickedStep(cfg, banks, n, j);
    if CmdPick(cfg, banks, n - 1) == Some(j) {
      PickedByOwner(cfg, banks, n - 1, n - 1, j);
    }
  }

  lemma CmdNone(cfg: Config, banks: seq<Bank>, cycle: nat)
    requires Wired(cfg) && |banks| == cfg.numBanks
    ensures CmdChannels(cfg, banks, cycle, 0) == banks
  {
  }

  lemma CmdUnfold(cfg: Config, banks: seq<Bank>, cycle: nat, n: nat, pick: Option<nat>)
    requires Wired(cfg) && 0 < n <= cfg.numChannels && |banks| == cfg.numBanks
    requires Lo(cfg, n - 1) <= Lo(cfg, n) <= |banks|
    requires Oldest(ForCommand, CmdChannels(cfg, banks, cycle, n - 1), Lo(cfg, n - 1), Lo(cfg, n)) == pick
    ensures pick.None? ==> CmdChannels(cfg, banks, cycle, n) == CmdChannels(cfg, banks, cycle, n - 1)
    ensures pick.Some? ==>
      var prev := CmdChannels(cfg, banks, cycle, n - 1);
      CmdChannels(cfg, banks, cycle, n) == prev[pick.value := Issue(cfg, prev[pick.value], cycle)]
  {
  }

  lemma PickedStep(cfg: Config, banks: seq<Bank>, n: nat, j: nat)
    requires Wired(cfg) && 0 < n <= cfg.numChannels && |banks| == cfg.numBanks
    ensures PickedBelow(cfg, banks, n, j) <==>
      PickedBelow(cfg, banks, n - 1, j) || CmdPick(cfg, banks, n - 1) == Some(j)
  {
  }

  /** Earlier channels do not influence the choice of a later one. */
  lemma {:induction false} CmdStepPick(cfg: Config, banks: seq<Bank>, cycle: nat, n: nat)
    requires Wired(cfg) && 0 < n <= cfg.numChannels && |banks| == cfg.numBanks
    ensures Lo(cfg, n - 1) <= Lo(cfg, n) <= |banks|
    ensures Oldest(ForCommand, CmdChannels(cfg, banks, cycle, n - 1), Lo(cfg, n - 1), Lo(cfg, n)) ==
      CmdPick(cfg, banks, n - 1)
    decreases n, 0
  {
    hide CmdChannels, Oldest;
    ChannelsFit(cfg, n - 1);
    var prev := CmdChannels(cfg, banks, cycle, n - 1);
    forall i | Lo(cfg, n - 1) <= i < Lo(cfg, n)
      ensures prev[i] == banks[i]
    {
      CmdEffect(cfg, banks, cycle, n - 1, i);
      PickedByOwner(cfg, banks, n - 1, n - 1, i);
    }
    OldestFrame(ForCommand, prev, banks, Lo(cfg, n - 1), Lo(cfg, n));
  }

  // ----- data bus

  /** acquire_data_bus */
  function Acquire(width: nat, bus: Bus, size: nat, cycle: nat): Bus
    requires width > 0 && bus.avail <= width
  {
    if size < bus.avail then Bus(bus.avail - size, cycle)
    else Bus(width - (size - bus.avail) % width, cycle + (size - bus.avail) / width + 1)
  }

  predicate BusInv(width: nat, bus: Bus) {
    0 < bus.avail <= width
  }

  /** The absolute position of the bus: bytes it could have carried up to the
      end of its last transfer. */
  function Position(width: nat, bus: Bus): int {
    bus.ready * width + (width - bus.avail)
  }

  /** Each transfer moves the bus forward by exactly its size, counted from the
      cycle in which it starts. */
  lemma {:induction false} AcquireAdvances(width: nat, bus: Bus, size: nat, cycle: nat)
    requires width > 0 && BusInv(width, bus)
    ensures BusInv(width, Acquire(width, bus, size, cycle))
    ensures Position(width, Acquire(width, bus, size, cycle)) == Position(width, bus.(ready := cycle)) + size
    ensures Acquire(width, bus, size, cycle).ready >= cycle
  {
    if size >= bus.avail {
      var over := size - bus.avail;
      assert over == (over / width) * width + over % width;
      assert (cycle + over / width + 1) * width == cycle * width + (over / width) * width + width;
    }
  }

  function Count(w: Want, banks: seq<Bank>, lo: nat, hi: nat): nat
    requires lo <= hi <= |banks|
  {
    if lo == hi then 0
    else Count(w, banks, lo, hi - 1) + if Eligible(w, banks[hi - 1]) then 1 else 0
  }

  lemma {:induction false} CountDrops(w: Want, banks: seq<Bank>, lo: nat, hi: nat, k: nat, b: Bank)
    requires lo <= hi <= |banks| && lo <= k < |banks|
    requires Eligible(w, banks[k]) && !Eligible(w, b)
    ensures Count(w, banks[k := b], lo, hi) == Count(w, banks, lo, hi) - if k < hi then 1 else 0
  {
    if lo < hi {
      CountDrops(w, banks, lo, hi - 1, k, b);
    }
  }

  /** The banks and the bus after the grants of one channel, and the banks that
      were granted, in order. */
  datatype Granted = Granted(banks: seq<Bank>, bus: Bus, order: seq<nat>)

  /** Give bank k the data bus. */
  function GrantTo(cfg: Config, banks: seq<Bank>, bus: Bus, cycle: nat, k: nat): (seq<Bank>, Bus)
    requires cfg.busWidth > 0 && bus.avail <= cfg.busWidth && k < |banks| && banks[k].current.Some?
  {
    var bus' := Acquire(cfg.busWidth, bus, banks[k].current.value.req.size, cycle);
    (banks[k := GrantData(banks[k], bus'.ready)], bus')
  }

  /** While the bus is free in this cycle, the oldest bank with pending data
      takes it. Every grant ends one bank's data phase, so the loop ends. */
  function DataChannel(cfg: Config, banks: seq<Bank>, bus: Bus, cycle: nat, lo: nat, hi: nat): (r: Granted)
    requires lo <= hi <= |banks| && cfg.busWidth > 0 && BusInv(cfg.busWidth, bus)
    ensures |r.banks| == |banks| && BusInv(cfg.busWidth, r.bus)
    decreases Count(ForData(cycle), banks, lo, hi)
  {
    if cycle < bus.ready then Granted(banks, bus, [])
    else
      match Oldest(ForData(cycle), banks, lo, hi)
      case None => Granted(banks, bus, [])
      case Some(k) =>
        var (banks', bus') := GrantTo(cfg, banks, bus, cycle, k);
        CountDrops(ForData(cycle), banks, lo, hi, k, banks'[k]);
        AcquireAdvances(cfg.busWidth, bus, banks[k].current.value.req.size, cycle);
        var rest := DataChannel(cfg, banks', bus', cycle, lo, hi);
        Granted(rest.banks, rest.bus, [k] + rest.order)
  }

  /** The bytes that the granted banks transfer. */
  function BytesOf(banks: seq<Bank>, order: seq<nat>): nat {
    if order == [] then 0
    else
      BytesOf(banks, order[1..]) +
        if order[0] < |banks| && banks[order[0]].current.Some? then banks[order[0]].current.value.req.size else 0
  }

  /** What the grants of one channel do: each granted bank had pending data and
      is granted once, moving to the wait phase; nothing else changes. */
  ghost predicate GrantEffect(cycle: nat, banks: seq<Bank>, r: Granted, lo: nat, hi: nat)
    requires lo <= hi <= |banks| == |r.banks|
  {
    && NoDup(r.order)
    && (forall k :: k in r.order ==> lo <= k < hi && DataPending(banks[k], cycle))
    && (forall j :: 0 <= j < |banks| ==>
          if j in r.order
          then DataPending(banks[j], cycle) && r.banks[j] == GrantData(banks[j], r.banks[j].dataReady)
               && r.banks[j].dataReady >= cycle
          else r.banks[j] == banks[j])
  }

  lemma {:induction false} DataChannelEffect(cfg: Config, banks: seq<Bank>, bus: Bus, cycle: nat, lo: nat, hi: nat)
    requires lo <= hi <= |banks| && cfg.busWidth > 0 && BusInv(cfg.busWidth, bus)
    ensures GrantEffect(cycle, banks, DataChannel(cfg, banks, bus, cycle, lo, hi), lo, hi)
    decreases Count(ForData(cycle), banks, lo, hi)
  {
    if bus.ready <= cycle && Oldest(ForData(cycle), banks, lo, hi).Some? {
      var k := Oldest(ForData(cycle), banks, lo, hi).value;
      var (banks', bus') := GrantTo(cfg, banks, bus, cycle, k);
      CountDrops(ForData(cycle), banks, lo, hi, k, banks'[k]);
      AcquireAdvances(cfg.busWidth, bus, banks[k].current.value.req.size, cycle);
      DataChannelEffect(cfg, banks', bus', cycle, lo, hi);
      var rest := DataChannel(cfg, banks', bus', cycle, lo, hi);
      assert k !in rest.order;
    }
  }

  /** No byte is transferred twice or for free: over the grants of a cycle the
      bus advances by at least the bytes granted. */
  lemma {:induction false} DataChannelBandwidth(cfg: Config, banks: seq<Bank>, bus: Bus, cycle: nat, lo: nat, hi: nat)
    requires lo <= hi <= |banks| && cfg.busWidth > 0 && BusInv(cfg.busWidth, bus)
    ensures var r := DataChannel(cfg, banks, bus, cycle, lo, hi);
      BytesOf(banks, r.order) <= Position(cfg.busWidth, r.bus) - Position(cfg.busWidth, bus)
    decreases Count(ForData(cycle), banks, lo, hi)
  {
    if bus.ready <= cycle && Oldest(ForData(cycle), banks, lo, hi).Some? {
      var k := Oldest(ForData(cycle), banks, lo, hi).value;
      var (banks', bus') := GrantTo(cfg, banks, bus, cycle, k);
      CountDrops(ForData(cycle), banks, lo, hi, k, banks'[k]);
      AcquireAdvances(cfg.busWidth, bus, banks[k].current.value.req.size, cycle);
      LaterIsFurther(cfg.busWidth, bus, cycle);
      DataChannelBandwidth(cfg, banks', bus', cycle, lo, hi);
      var rest := DataChannel(cfg, banks', bus', cycle, lo, hi);
      BytesFrame(banks, banks', rest.order);
      assert ([k] + rest.order)[1..] == rest.order;
    }
  }

  lemma LaterIsFurther(width: nat, bus: Bus, cycle: nat)
    requires bus.ready <= cycle
    ensures Position(width, bus) <= Position(width, bus.(ready := cycle))
  {
    assert (cycle - bus.ready) * width >= 0;
  }

  /** Granting does not change the size of a request. */
  lemma {:induction false} BytesFrame(a: seq<Bank>, b: seq<Bank>, order: seq<nat>)
    requires |a| == |b|
    requires forall j :: 0 <= j < |a| ==>
      a[j].current.Some? == b[j].current.Some? &&
      (a[j].current.Some? ==> a[j].current.value.req.size == b[j].current.value.req.size)
    ensures BytesOf(a, order) == BytesOf(b, order)
  {
    if order != [] {
      BytesFrame(a, b, order[1..]);
    }
  }

  /** Data transfer over the first n channels. */
  function DataChannels(cfg: Config, banks: seq<Bank>, buses: seq<Bus>, cycle: nat, n: nat): (r: (seq<Bank>, seq<Bus>))
    requires Wired(cfg) && cfg.busWidth > 0 && n <= cfg.numChannels
    requires |banks| == cfg.numBanks && |buses| == cfg.numChannels
    requires forall bus :: bus in buses ==> BusInv(cfg.busWidth, bus)
    ensures |r.0| == |banks| && |r.1| == |buses|
    ensures forall bus :: bus in r.1 ==> BusInv(cfg.busWidth, bus)
  {
    if n == 0 then (banks, buses)
    else
      ChannelsFit(cfg, n - 1);
      var (banks', buses') := DataChannels(cfg, banks, buses, cycle, n - 1);
      var g := DataChannel(cfg, banks', buses'[n - 1], cycle, Lo(cfg, n - 1), Lo(cfg, n));
      (g.banks, buses'[n - 1 := g.bus])
  }
}
