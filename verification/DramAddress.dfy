/** Splitting a physical address into bank, row and column (dram_ctrl_c::parse_addr). */
module DramAddress {
  import opened Bits

  /** The shifts and masks set up by the controller's constructor. */
  datatype AddressMap = AddressMap(
    colBits: nat,    // width of m_cid_mask
    bankBits: nat,   // width of m_bid_mask, also m_rid_shift
    bidShift: nat,   // m_bid_shift
    xorShift: nat,   // m_bid_xor_shift
    xorIndex: bool,  // KNOB_DRAM_BANK_XOR_INDEX
    numMc: nat)      // KNOB_DRAM_NUM_MC

  datatype Location = Location(bank: nat, row: nat, col: nat)

  /** (n & (n - 1)) == 0 for a positive count */
  predicate PowerOfTwo(n: nat) {
    n == 1 || (n > 1 && n % 2 == 0 && PowerOfTwo(n / 2))
  }

  /** The address above the column field, as seen by this controller. */
  function Upper(m: AddressMap, addr: nat): nat
    requires m.numMc > 0
  {
    if PowerOfTwo(m.numMc) then Shr(addr, m.bidShift) else Quotient(Shr(addr, m.bidShift), m.numMc)
  }

  function ParseAddr(m: AddressMap, addr: nat): (loc: Location)
    requires m.numMc > 0
  {
    var xorField := Low(Shr(addr, m.xorShift), m.bankBits);
    var col := Low(addr, m.colBits);
    var upper := Upper(m, addr);
    var bank := Low(upper, m.bankBits);
    Location(if m.xorIndex then Xor(bank, xorField) else bank, Shr(upper, m.bankBits), col)
  }

  /** The bank index is always within the mask, with or without the permutation. */
  lemma {:induction false} BankInRange(m: AddressMap, addr: nat)
    requires m.numMc > 0
    ensures ParseAddr(m, addr).bank < Pow2(m.bankBits)
  {
    var upper := Upper(m, addr);
    LowBound(Shr(addr, m.xorShift), m.bankBits);
    LowBound(upper, m.bankBits);
    XorBound(Low(upper, m.bankBits), Low(Shr(addr, m.xorShift), m.bankBits), m.bankBits);
  }

  lemma QuotientShrinks(a: nat, n: nat)
    requires n > 0
    ensures Quotient(a, n) <= a
  {
    var q := a / n;
    assert a == q * n + a % n;
    assert q <= q * n by {
      MulGrows(q, n);
    }
  }

  lemma MulGrows(q: nat, n: nat)
    requires n > 0
    ensures q <= q * n
  {
  }

  lemma UpperShrinks(m: AddressMap, addr: nat)
    requires m.numMc > 0
    ensures Upper(m, addr) <= addr
    ensures m.bidShift >= 1 && addr >= 1 ==> Upper(m, addr) < addr
  {
    ShrShrinks(addr, m.bidShift);
    QuotientShrinks(Shr(addr, m.bidShift), m.numMc);
  }

  /** As soon as one address bit selects a column or a bank, no 64-bit address
      parses to the row id that marks a closed row. */
  lemma {:induction false} RowIsNeverTheClosedMarker(m: AddressMap, addr: nat, closed: nat)
    requires m.numMc > 0 && m.bidShift + m.bankBits > 0
    requires addr <= closed && closed > 0
    ensures ParseAddr(m, addr).row < closed
  {
    var upper := Upper(m, addr);
    UpperShrinks(m, addr);
    ShrShrinks(upper, m.bankBits);
  }

  /** Column, bank and row are fields of the address, in this order: the column from the
      bottom of it, bank and row from what lies above m_bid_shift, divided by the number
      of controllers unless that is a power of two. The permutation flips the bank bits
      that are set in the field at m_bid_xor_shift. */
  lemma {:induction false} LocationBits(m: AddressMap, addr: nat, i: nat)
    requires m.numMc > 0
    ensures
      var loc := ParseAddr(m, addr);
      var share := if PowerOfTwo(m.numMc) then Shr(addr, m.bidShift) else Shr(addr, m.bidShift) / m.numMc;
      && Bit(loc.col, i) == (if i < m.colBits then Bit(addr, i) else 0)
      && Bit(loc.row, i) == Bit(share, m.bankBits + i)
      && Bit(loc.bank, i) == if i >= m.bankBits then 0
                             else (Bit(share, i) + if m.xorIndex then Bit(addr, m.xorShift + i) else 0) % 2
  {
    hide Low, Xor, Shr, Pow2;
    var share := Upper(m, addr);
    ShrShr(share, m.bankBits, i);
    ShrShr(addr, m.xorShift, i);
    BitOfLow(addr, m.colBits, i);
    BitOfLow(share, m.bankBits, i);
    BitOfLow(Shr(addr, m.xorShift), m.bankBits, i);
    BitOfXor(Low(share, m.bankBits), Low(Shr(addr, m.xorShift), m.bankBits), i);
  }

  lemma RawBits(m: AddressMap, addr: nat, i: nat)
    requires m.numMc > 0 && PowerOfTwo(m.numMc)
    ensures Bit(ParseAddr(m, addr).row, i) == Bit(addr, m.bidShift + m.bankBits + i)
    ensures Bit(ParseAddr(m, addr).col, i) == if i < m.colBits then Bit(addr, i) else 0
    ensures i < m.bankBits ==>
      Bit(ParseAddr(m, addr).bank, i) ==
        (Bit(addr, m.bidShift + i) + if m.xorIndex then Bit(addr, m.xorShift + i) else 0) % 2
  {
    LocationBits(m, addr, i);
    ShrShr(addr, m.bidShift, m.bankBits + i);
    ShrShr(addr, m.bidShift, i);
  }

  /** The two addresses carry the same controller-selection bits, the ones
      between the column field and the bank field. */
  ghost predicate SameController(m: AddressMap, a: nat, b: nat) {
    forall i :: m.colBits <= i < m.bidShift ==> Bit(a, i) == Bit(b, i)
  }

  lemma OutsideBankField(m: AddressMap, a: nat, b: nat, i: nat)
    requires m.numMc > 0 && PowerOfTwo(m.numMc) && m.colBits <= m.bidShift
    requires ParseAddr(m, a) == ParseAddr(m, b) && SameController(m, a, b)
    requires i < m.bidShift || m.bidShift + m.bankBits <= i
    ensures Bit(a, i) == Bit(b, i)
  {
    if i < m.bidShift {
      RawBits(m, a, i);
      RawBits(m, b, i);
    } else {
      RawBits(m, a, i - m.bidShift - m.bankBits);
      RawBits(m, b, i - m.bidShift - m.bankBits);
    }
  }

  /** A bank bit is recovered from the permuted bank and the bit it was mixed
      with, which lies strictly on one side of it. */
  lemma {:induction false} InsideBankField(m: AddressMap, a: nat, b: nat, i: nat)
    requires m.numMc > 0 && PowerOfTwo(m.numMc) && m.colBits <= m.bidShift
    requires ParseAddr(m, a) == ParseAddr(m, b) && SameController(m, a, b)
    requires m.xorIndex ==> m.xorShift != m.bidShift
    ensures Bit(a, i) == Bit(b, i)
    decreases if m.xorShift > m.bidShift then m.bidShift + m.bankBits - i else i
  {
    if i < m.bidShift || m.bidShift + m.bankBits <= i {
      OutsideBankField(m, a, b, i);
    } else {
      RawBits(m, a, i - m.bidShift);
      RawBits(m, b, i - m.bidShift);
      if m.xorIndex {
        InsideBankField(m, a, b, m.xorShift + i - m.bidShift);
      }
    }
  }

  /** Bank, row and column determine the address within one controller. */
  lemma {:induction false} LocationIsUnique(m: AddressMap, a: nat, b: nat)
    requires m.numMc > 0 && PowerOfTwo(m.numMc) && m.colBits <= m.bidShift
    requires m.xorIndex && m.bankBits > 0 ==> m.xorShift != m.bidShift
    requires ParseAddr(m, a) == ParseAddr(m, b) && SameController(m, a, b)
    ensures a == b
  {
    forall i: nat
      ensures Bit(a, i) == Bit(b, i)
    {
      if m.bankBits == 0 {
        OutsideBankField(m, a, b, i);
      } else {
        InsideBankField(m, a, b, i);
      }
    }
    SameBits(a, b);
  }

  /** The excluded case always collides: mixing the bank field with itself puts
      every address of a row in bank 0. */
  lemma {:induction false} SelfPermutationCollides(m: AddressMap)
    requires m.numMc > 0 && PowerOfTwo(m.numMc) && m.colBits <= m.bidShift
    requires m.xorIndex && m.bankBits > 0 && m.xorShift == m.bidShift
    ensures 0 != Pow2(m.bidShift) && SameController(m, 0, Pow2(m.bidShift))
    ensures ParseAddr(m, 0) == ParseAddr(m, Pow2(m.bidShift))
  {
    hide ParseAddr, Shr, Low, Xor, Pow2, PowerOfTwo;
    var p := Pow2(m.bidShift);
    forall i: nat
      ensures Bit(0, i) == 0 && Bit(p, i) == if i == m.bidShift then 1 else 0
    {
      BitOfPower(m.bidShift, i);
    }
    hide Bit;
    var l0, lp := ParseAddr(m, 0), ParseAddr(m, p);
    forall i: nat
      ensures Bit(l0.row, i) == Bit(lp.row, i) && Bit(l0.col, i) == Bit(lp.col, i)
    {
      RawBits(m, 0, i);
      RawBits(m, p, i);
    }
    SameBits(l0.row, lp.row);
    SameBits(l0.col, lp.col);
    SelfBank(m, 0);
    SelfBank(m, p);
  }

  lemma BitOfPower(k: nat, i: nat)
    ensures Bit(0, i) == 0 && Bit(Pow2(k), i) == if i == k then 1 else 0
  {
    ShrShrinks(0, i);
    ShrPow2(k, i);
  }

  lemma SelfBank(m: AddressMap, addr: nat)
    requires m.numMc > 0 && PowerOfTwo(m.numMc) && m.xorIndex && m.xorShift == m.bidShift
    ensures ParseAddr(m, addr).bank == 0
  {
    XorSelf(Low(Shr(addr, m.bidShift), m.bankBits));
  }

  /** With a controller count that is not a power of two the controller's share of the
      address is divided out, and together with the remainder of that division the
      location determines the address; alone it does not. */
  lemma {:induction false} LocationAndRemainderAreUnique(m: AddressMap, a: nat, b: nat)
    requires m.numMc > 0 && !PowerOfTwo(m.numMc) && m.colBits == m.bidShift && !m.xorIndex
    requires ParseAddr(m, a) == ParseAddr(m, b)
    ensures a == b <==> Remainder(Shr(a, m.bidShift), m.numMc) == Remainder(Shr(b, m.bidShift), m.numMc)
  {
    SplitAt(Upper(m, a), Upper(m, b), m.bankBits);
    if Remainder(Shr(a, m.bidShift), m.numMc) == Remainder(Shr(b, m.bidShift), m.numMc) {
      SameQuotient(Shr(a, m.bidShift), Shr(b, m.bidShift), m.numMc);
      SplitAt(a, b, m.bidShift);
    }
  }

  lemma {:induction false} XorSelf(a: nat)
    ensures Xor(a, a) == 0
  {
    if a > 0 {
      XorSelf(a / 2);
    }
  }
}
