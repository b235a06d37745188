/** Requests, buffer entries and banks of the DRAM controller. */
module DramTypes {
  import opened Lists
  import Bits
  import DramAddress

  /** ULLONG_MAX: a timer that is not running, and the mark of a closed row. */
  const NEVER: nat := 0xFFFF_FFFF_FFFF_FFFF

  /** The request types the controller tells apart: MRT_DPRF, MRT_WB, the rest. */
  datatype Kind = Fetch | Prefetch | WriteBack

  /** mem_req_s as the controller sees it; id stands for its identity. */
  datatype Req = Req(id: nat, addr: nat, kind: Kind, size: nat, gpu: bool)

  /** DRAM_INIT, DRAM_CMD, DRAM_CMD_WAIT, DRAM_DATA, DRAM_DATA_WAIT */
  datatype Phase = Init | Cmd | CmdWait | Data | DataWait

  /** drb_entry_s; slot stands for the entry's own address in the pool. */
  datatype Entry = Entry(slot: nat, id: nat, req: Req, row: nat, timestamp: nat, scheduled: nat, phase: Phase)

  datatype Bank = Bank(
    buffer: seq<Entry>,      // m_buffer[bank]
    free: seq<nat>,          // m_buffer_free_list[bank]
    current: Option<Entry>,  // m_current_list[bank]
    openRow: nat,            // m_current_rid[bank]
    bankReady: nat,
    dataAvail: nat,
    dataReady: nat,
    timestamp: nat)          // m_bank_timestamp[bank]

  datatype Bus = Bus(avail: nat, ready: nat)

  /** A request in the delay buffer with its m_rdy_cycle. */
  datatype Delayed = Delayed(req: Req, ready: nat)

  datatype Config = Config(
    numBanks: nat, numChannels: nat,
    perChannel: nat,    // m_num_bank_per_channel
    poolSize: nat, busWidth: nat,
    precharge: nat, activate: nat, column: nat,
    extra: nat,         // KNOB_DRAM_ADDITIONAL_LATENCY
    merge: bool,        // KNOB_DRAM_MERGE_REQUESTS
    frfcfs: bool,       // scheduling policy: FR-FCFS or FCFS
    partition: bool,    // KNOB_ENABLE_NOC_VC_PARTITION
    addressMap: DramAddress.AddressMap)
  {
    predicate Valid() {
      && numChannels > 0 && busWidth > 0
      && perChannel == numBanks / numChannels
      && addressMap.numMc > 0
      && addressMap.bidShift + addressMap.bankBits > 0
      && Bits.Pow2(addressMap.bankBits) <= numBanks
    }
  }

  /** The whole controller. */
  datatype Ctrl = Ctrl(
    banks: seq<Bank>, buses: seq<Bus>,
    out: seq<Req>,       // m_output_buffer
    delay: seq<Delayed>, // m_tmp_output_buffer
    total: int,          // m_total_req
    cycle: nat, nextId: nat)

  predicate Waiting(b: Bank) {
    b.current.Some? && b.current.value.phase == Cmd
  }
}
