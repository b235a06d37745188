/** Cache sets as values: address split, look-up and the choice of a way to replace. */
module CacheModel {
  import opened Bits

  /** cache_entry_c, with the dirty bit of its data. */
  datatype Line = Line(valid: bool, tag: nat, base: nat, time: nat, gpu: bool, dirty: bool)

  const EMPTY := Line(false, 0, 0, 0, false, false)

  /** MAX_INT: where the search for the least recent time starts. */
  const MAX_INT: nat := 0x7fff_ffff

  /** ULLONG_MAX: where the search among lines of one type starts. */
  const FOREVER: nat := 0xffff_ffff_ffff_ffff

  datatype Geometry = Geometry(setBits: nat, shift: nat, assoc: nat)

  // ----- addresses (one tile)

  function SetOf(g: Geometry, addr: nat): (s: nat)
    ensures s < Pow2(g.setBits)
  {
    LowBound(Shr(addr, g.shift), g.setBits);
    Low(Shr(addr, g.shift), g.setBits)
  }

  /** The line number with its set bits cleared. */
  function TagOf(g: Geometry, addr: nat): nat {
    LowAtMost(Shr(addr, g.shift), g.setBits);
    Shr(addr, g.shift) - Low(Shr(addr, g.shift), g.setBits)
  }

  /** base_cache_line */
  function BaseOf(g: Geometry, addr: nat): nat {
    LowAtMost(addr, g.shift);
    addr - Low(addr, g.shift)
  }

  /** Set and tag together name the line, no more and no less. */
  lemma {:induction false} TagAndSetNameTheLine(g: Geometry, a: nat, b: nat)
    ensures (SetOf(g, a) == SetOf(g, b) && TagOf(g, a) == TagOf(g, b)) <==> BaseOf(g, a) == BaseOf(g, b)
  {
    HighBits(a, b, g.shift);
  }

  /** The set is the field of the address right above the line offset, the tag what lies
      above it, in place, and the base the address without its offset. */
  lemma {:induction false} AddressBits(g: Geometry, a: nat, i: nat)
    ensures Bit(SetOf(g, a), i) == if i < g.setBits then Bit(a, g.shift + i) else 0
    ensures Bit(TagOf(g, a), i) == if i < g.setBits then 0 else Bit(a, g.shift + i)
    ensures Bit(BaseOf(g, a), i) == if i < g.shift then 0 else Bit(a, i)
  {
    var l := Shr(a, g.shift);
    ShrShr(a, g.shift, i);
    LowAtMost(l, g.setBits);
    LowAtMost(a, g.shift);
    BitOfLow(l, g.setBits, i);
    BitOfCleared(l, g.setBits, i);
    BitOfCleared(a, g.shift, i);
  }

  /** Consecutive lines, as many as there are sets, lie in different sets. */
  lemma {:induction false} NeighboursLieInDifferentSets(g: Geometry, a: nat, b: nat)
    requires Shr(a, g.shift) < Shr(b, g.shift) < Shr(a, g.shift) + Pow2(g.setBits)
    ensures SetOf(g, a) != SetOf(g, b)
  {
    NearbyDiffer(Shr(a, g.shift), Shr(b, g.shift), g.setBits);
  }

  // ----- several tiles

  /** The address within a tile: the bits that select the tile divided out. */
  function LocalAddr(tiles: nat, interleaveBits: nat, addr: nat): nat
    requires tiles > 0
  {
    Join(Quotient(Shr(addr, interleaveBits), tiles), addr, interleaveBits)
  }

  /** The shift used for a power-of-two number of tiles is this division. */
  lemma {:induction false} TileShiftIsDivision(tileBits: nat, interleaveBits: nat, addr: nat)
    ensures LocalAddr(Pow2(tileBits), interleaveBits, addr) ==
            Join(Shr(addr, interleaveBits + tileBits), addr, interleaveBits)
  {
    ShrShr(addr, interleaveBits, tileBits);
    ShrIsQuotient(Shr(addr, interleaveBits), tileBits);
  }

  /** The bits below the tile number stay, those from it on are the quotient's. */
  lemma {:induction false} LocalAddressBits(tiles: nat, interleaveBits: nat, a: nat, i: nat)
    requires tiles > 0
    ensures Bit(LocalAddr(tiles, interleaveBits, a), i) ==
      if i < interleaveBits then Bit(a, i) else Bit(Quotient(Shr(a, interleaveBits), tiles), i - interleaveBits)
  {
    BitOfJoin(Quotient(Shr(a, interleaveBits), tiles), a, interleaveBits, i);
  }

  lemma LocalBits(tiles: nat, k: nat, a: nat, b: nat, s: nat)
    requires tiles > 0 && s <= k
    requires Remainder(Shr(a, k), tiles) == Remainder(Shr(b, k), tiles)
    ensures Shr(LocalAddr(tiles, k, a), s) == Shr(LocalAddr(tiles, k, b), s) <==> Shr(a, s) == Shr(b, s)
  {
    var x, y := LocalAddr(tiles, k, a), LocalAddr(tiles, k, b);
    var p, q := Quotient(Shr(a, k), tiles), Quotient(Shr(b, k), tiles);
    hide LocalAddr, Bit, Join, Shr;
    LocalIsJoin(tiles, k, a);
    LocalIsJoin(tiles, k, b);
    forall i: nat
      ensures Bit(x, i) == if i < k then Bit(a, i) else Bit(p, i - k)
      ensures Bit(y, i) == if i < k then Bit(b, i) else Bit(q, i - k)
    {
      BitOfJoin(p, a, k, i);
      BitOfJoin(q, b, k, i);
    }
    AgreeFrom(x, y, s);
    AgreeFrom(a, b, s);
    AgreeFrom(a, b, k);
    if Shr(x, s) == Shr(y, s) {
      forall i: nat
        ensures Bit(p, i) == Bit(q, i)
      {
        assert Bit(x, i + k) == Bit(y, i + k);
      }
      SameBits(p, q);
      SameQuotient(Shr(a, k), Shr(b, k), tiles);
    }
  }

  lemma LocalIsJoin(tiles: nat, k: nat, a: nat)
    requires tiles > 0
    ensures LocalAddr(tiles, k, a) == Join(Quotient(Shr(a, k), tiles), a, k)
  {
  }

  /** Set and tag of the address within its tile name the line among the addresses of
      that tile, when lines are not split over tiles. */
  lemma {:induction false} TagAndSetNameTheLineOfATile(g: Geometry, tiles: nat, interleaveBits: nat, a: nat, b: nat)
    requires tiles > 0 && g.shift <= interleaveBits
    requires Remainder(Shr(a, interleaveBits), tiles) == Remainder(Shr(b, interleaveBits), tiles)
    ensures
      var x, y := LocalAddr(tiles, interleaveBits, a), LocalAddr(tiles, interleaveBits, b);
      (SetOf(g, x) == SetOf(g, y) && TagOf(g, x) == TagOf(g, y)) <==> BaseOf(g, a) == BaseOf(g, b)
  {
    var x, y := LocalAddr(tiles, interleaveBits, a), LocalAddr(tiles, interleaveBits, b);
    TagAndSetNameTheLine(g, x, y);
    HighBits(x, y, g.shift);
    HighBits(a, b, g.shift);
    LocalBits(tiles, interleaveBits, a, b, g.shift);
  }

  // ----- look-up

  predicate Holds(lines: seq<Line>, tag: nat, w: nat) {
    w < |lines| && lines[w].valid && lines[w].tag == tag
  }

  function LookupFrom(lines: seq<Line>, tag: nat, i: nat): (w: nat)
    requires i <= |lines|
    ensures i <= w <= |lines|
    ensures w < |lines| ==> Holds(lines, tag, w)
    ensures forall j :: i <= j < w ==> !Holds(lines, tag, j)
    decreases |lines| - i
  {
    if i == |lines| || Holds(lines, tag, i) then i else LookupFrom(lines, tag, i + 1)
  }

  /** The way access_cache finds; the number of ways on a miss. */
  function Lookup(lines: seq<Line>, tag: nat): nat {
    LookupFrom(lines, tag, 0)
  }

  predicate Hit(lines: seq<Line>, tag: nat) {
    Lookup(lines, tag) < |lines|
  }

  /** No tag is held twice. */
  ghost predicate Unique(lines: seq<Line>) {
    forall w, v :: 0 <= w < v < |lines| && lines[w].valid && lines[v].valid ==> lines[w].tag != lines[v].tag
  }

  lemma LookupIs(lines: seq<Line>, tag: nat, w: nat)
    requires Unique(lines) && Holds(lines, tag, w)
    ensures Lookup(lines, tag) == w
  {
    var v := Lookup(lines, tag);
    assert Holds(lines, tag, v);
  }

  // ----- replacement

  function FreeFrom(lines: seq<Line>, i: nat): (w: nat)
    requires i <= |lines|
    ensures i <= w <= |lines|
    ensures w < |lines| ==> !lines[w].valid
    ensures forall j :: i <= j < w ==> lines[j].valid
    decreases |lines| - i
  {
    if i == |lines| || !lines[i].valid then i else FreeFrom(lines, i + 1)
  }

  /** The scan of find_replacement_line over the first n ways. */
  function LeastRecent(lines: seq<Line>, n: nat): (r: (nat, nat))
    requires n <= |lines|
    ensures r.1 <= MAX_INT && (forall j :: 0 <= j < n ==> r.1 <= lines[j].time)
    ensures if r.1 == MAX_INT then r.0 == 0 else r.0 < n && lines[r.0].time == r.1
  {
    if n == 0 then (0, MAX_INT)
    else
      var (w, t) := LeastRecent(lines, n - 1);
      if lines[n - 1].time < t then (n - 1, lines[n - 1].time) else (w, t)
  }

  /** The way find_replacement_line gives. */
  function ReplacementWay(lines: seq<Line>): (w: nat)
    requires lines != []
    ensures w < |lines|
  {
    var free := FreeFrom(lines, 0);
    if free < |lines| then free else LeastRecent(lines, |lines|).0
  }

  /** A valid line is replaced only when there is no free way. */
  lemma {:induction false} FreeWayFirst(lines: seq<Line>)
    requires lines != []
    ensures lines[ReplacementWay(lines)].valid <==> forall w :: 0 <= w < |lines| ==> lines[w].valid
  {
  }

  ghost predicate IsLeastRecent(lines: seq<Line>, w: nat) {
    w < |lines| && forall j :: 0 <= j < |lines| ==> lines[w].time <= lines[j].time
  }

  /** In a full set the victim is a least recently used line exactly when some line
      was last used before cycle MAX_INT, or way 0 happens to be one: from that
      cycle on the search settles for way 0. */
  lemma {:induction false} VictimIsLeastRecent(lines: seq<Line>)
    requires lines != [] && forall w :: 0 <= w < |lines| ==> lines[w].valid
    ensures IsLeastRecent(lines, ReplacementWay(lines)) <==>
      IsLeastRecent(lines, 0) || exists j :: 0 <= j < |lines| && lines[j].time < MAX_INT
  {
    var (w, t) := LeastRecent(lines, |lines|);
    if t < MAX_INT {
      assert lines[w].time < MAX_INT;
    }
  }

  /** A set of two lines, both used after MAX_INT, of which the newer one goes. */
  lemma {:induction false} LateVictimIsNotLeastRecent()
    ensures var lines := [Line(true, 1, 64, MAX_INT + 2, false, false), Line(true, 2, 128, MAX_INT + 1, false, false)];
      ReplacementWay(lines) == 0 && !IsLeastRecent(lines, 0)
  {
    var lines := [Line(true, 1, 64, MAX_INT + 2, false, false), Line(true, 2, 128, MAX_INT + 1, false, false)];
    assert lines[1].time < lines[0].time;
    assert LeastRecent(lines, 2) == (0, MAX_INT);
  }

  /** initialize_cache_line in way w; the data, and with it the dirty bit, is the
      victim's until the caller overwrites it. */
  function Inserted(lines: seq<Line>, w: nat, tag: nat, base: nat, gpu: bool, now: nat): seq<Line>
    requires w < |lines|
  {
    lines[w := Line(true, tag, base, now, gpu, lines[w].dirty)]
  }

  /** update_line_on_hit */
  function Used(lines: seq<Line>, w: nat, now: nat): seq<Line>
    requires w < |lines|
  {
    lines[w := lines[w].(time := now)]
  }
}
