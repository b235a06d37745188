/** The memory management unit as a state machine: translation, page table
    walks, page faults and batched fault handling. */
module MmuModel {
  import opened Lists
  import opened Recency

  /** A memory operation with its virtual page and the offset within it. */
  datatype Uop = Uop(id: nat, page: Page, offset: nat)

  datatype Config = Config(
    frames: nat,        // physical frames, m_memory_size >> m_offset_bits
    nonswap: bool,      // KNOB_NO_PAGE_SWAP
    erases: bool,       // getVictim erases the victim's key: false as written, true as intended
    bufferSize: nat,    // m_fault_buffer_size
    walkLatency: nat, faultLatency: nat, evictLatency: nat, overhead: nat)

  /** Mappings and frames. */
  datatype Memory = Memory(
    table: map<Page, nat>,  // m_page_table
    tlb: map<Page, nat>,
    free: seq<bool>,        // m_free_frames
    remaining: int,         // m_free_frames_remaining
    toAllocate: nat,        // m_frame_to_allocate
    dimm: nat,              // m_frame_dimm
    recency: seq<Page>,     // replacement unit: listed pages
    stale: set<Page>)       // replacement unit: keys left behind by evictions

  /** A page waiting for its walk. */
  datatype Walk = Walk(due: nat, page: Page)

  /** The collections a translating uop can wait in. */
  datatype Queues = Queues(
    walkQueue: seq<Walk>,             // m_walk_queue_cycle, in order of its keys
    walks: map<Page, seq<Uop>>,       // m_walk_queue_page
    retry: seq<Uop>,                  // m_retry_queue
    faultRetry: seq<Uop>,             // m_fault_retry_queue
    faults: set<Page>,                // m_fault_buffer
    faultUops: map<Page, seq<Uop>>,   // m_fault_uops
    current: seq<Page>,               // m_fault_buffer_processing
    currentUops: map<Page, seq<Uop>>) // m_fault_uops_processing

  datatype State = State(
    mem: Memory, q: Queues,
    batch: bool, started: bool,  // m_batch_processing, ..._first_transfer_started
    transferStart: nat, nextEvent: nat,
    cycle: nat,
    translated: map<Uop, nat>)   // m_translated with the frame of m_paddr

  function Initial(cfg: Config): State {
    State(
      Memory(map[], map[], if cfg.nonswap then [] else seq(cfg.frames, _ => true),
             if cfg.nonswap then 0x7FFF_FFFF_FFFF_FFFF else cfg.frames, 0, 0, [], {}),
      Queues([], map[], [], [], {}, map[], [], map[]),
      false, false, 0, 0, 0, map[])
  }

  /** Answers of the surroundings during one cycle: whether the data cache takes
      a retried uop, whether a faulting uop may exceed the fault buffer because
      its parent already has faults pending, and which entries a TLB insertion
      displaces. */
  datatype Oracle = Oracle(accepts: Uop -> bool, exempt: Uop -> bool, displaced: Uop -> set<Page>)

  function Listed(m: map<Page, seq<Uop>>, p: Page): seq<Uop> {
    if p in m then m[p] else []
  }

  // ----- translation

  /** A TLB miss joins the walk of the same page or queues one. */
  function QueueWalk(cfg: Config, q: Queues, u: Uop, cycle: nat): Queues {
    q.(walks := q.walks[u.page := Listed(q.walks, u.page) + [u]],
       walkQueue := if u.page in q.walks then q.walkQueue
                    else q.walkQueue + [Walk(cycle + cfg.walkLatency, u.page)])
  }

  predicate Hits(s: State, u: Uop) {
    u in s.translated || u.page in s.mem.tlb
  }

  /** translate: a hit fixes the frame; a miss queues a walk. */
  function Translate(cfg: Config, s: State, u: Uop): State {
    if u in s.translated then s
    else if u.page in s.mem.tlb then s.(translated := s.translated[u := s.mem.tlb[u.page]])
    else s.(q := QueueWalk(cfg, s.q, u, s.cycle))
  }

  // ----- walks

  /** The mappings after a walk that finds the page. */
  function TouchMemory(cfg: Config, m: Memory, u: Uop, displaced: set<Page>): Memory
    requires u.page in m.table
  {
    m.(tlb := if u.page in m.tlb then m.tlb else (m.tlb - displaced)[u.page := m.table[u.page]],
       recency := if cfg.nonswap then m.recency else Touched(m.recency, u.page))
  }

  /** Where a walked uop goes: retry on a hit, otherwise the fault buffer or, when
      that is full, the fault retry queue. */
  function Dispatch(cfg: Config, q: Queues, u: Uop, hit: bool, exempt: bool): Queues {
    if hit then q.(retry := q.retry + [u])
    else if !exempt && u.page !in q.faults && |q.faults| >= cfg.bufferSize then q.(faultRetry := q.faultRetry + [u])
    else AddFault(q, u)
  }

  /** Put the fault request into the fault buffer. */
  function AddFault(q: Queues, u: Uop): Queues {
    q.(faults := q.faults + {u.page}, faultUops := q.faultUops[u.page := Listed(q.faultUops, u.page) + [u]])
  }

  /** do_page_table_walks */
  function WalkOne(cfg: Config, s: State, u: Uop, o: Oracle): State {
    var hit := u.page in s.mem.table;
    s.(q := Dispatch(cfg, s.q, u, hit, o.exempt(u)),
       mem := if hit then TouchMemory(cfg, s.mem, u, o.displaced(u)) else s.mem,
       translated := if hit then s.translated[u := s.mem.table[u.page]] else s.translated)
  }

  function WalkAll(cfg: Config, s: State, us: seq<Uop>, o: Oracle): State {
    if us == [] then s else WalkOne(cfg, WalkAll(cfg, s, us[..|us| - 1], o), us[|us| - 1], o)
  }

  /** One uop of the retry queue: it stays when the data cache refuses it. */
  function RetryOne(cfg: Config, s: State, u: Uop, o: Oracle): State {
    var t := Translate(cfg, s, u);
    if Hits(s, u) && !o.accepts(u) then t.(q := t.q.(retry := t.q.retry + [u])) else t
  }

  function RetryAll(cfg: Config, s: State, us: seq<Uop>, o: Oracle): State {
    if us == [] then s else RetryOne(cfg, RetryAll(cfg, s, us[..|us| - 1], o), us[|us| - 1], o)
  }

  /** The retry loop of run_a_cycle. */
  function AfterRetry(cfg: Config, s: State, o: Oracle): State {
    RetryAll(cfg, s.(q := s.q.(retry := [])), s.q.retry, o)
  }

  /** Faults that found the buffer full are walked again once it has drained. */
  function AfterFaultRetry(cfg: Config, s: State, o: Oracle): State {
    if s.q.faults == {} && s.q.faultRetry != [] then WalkAll(cfg, s.(q := s.q.(faultRetry := [])), s.q.faultRetry, o)
    else s
  }

  /** Take the walk at the head of the queue out of it. */
  function PopWalk(q: Queues): Queues
    requires q.walkQueue != []
  {
    q.(walks := q.walks - {q.walkQueue[0].page}, walkQueue := q.walkQueue[1..])
  }

  function WalkHead(cfg: Config, s: State, o: Oracle): State
    requires s.q.walkQueue != []
  {
    WalkAll(cfg, s.(q := PopWalk(s.q)), Listed(s.q.walks, s.q.walkQueue[0].page), o)
  }

  predicate SameBatch(s: State, t: State) {
    && t.batch == s.batch && t.started == s.started && t.transferStart == s.transferStart && t.nextEvent == s.nextEvent
    && t.cycle == s.cycle
  }

  /** A walk leaves the queue of walks, the page table, the batch and the clock alone. */
  predicate SameWalks(s: State, t: State) {
    t.q.walkQueue == s.q.walkQueue && t.q.walks == s.q.walks && t.mem.table == s.mem.table && SameBatch(s, t)
  }

  lemma WalkOneKeepsQueue(cfg: Config, s: State, u: Uop, o: Oracle)
    ensures SameWalks(s, WalkOne(cfg, s, u, o))
  {
  }

  lemma {:induction false} WalkAllKeepsQueue(cfg: Config, s: State, us: seq<Uop>, o: Oracle)
    ensures SameWalks(s, WalkAll(cfg, s, us, o))
  {
    hide WalkOne;
    if us != [] {
      WalkAllKeepsQueue(cfg, s, us[..|us| - 1], o);
      WalkOneKeepsQueue(cfg, WalkAll(cfg, s, us[..|us| - 1], o), us[|us| - 1], o);
    }
  }

  predicate WalkDue(s: State) {
    s.q.walkQueue != [] && s.q.walkQueue[0].due <= s.cycle
  }

  /** All walks that are due, in order. */
  function AfterWalks(cfg: Config, s: State, o: Oracle): State
    decreases |s.q.walkQueue|
  {
    if !WalkDue(s) then s
    else
      WalkAllKeepsQueue(cfg, s.(q := PopWalk(s.q)), Listed(s.q.walks, s.q.walkQueue[0].page), o);
      AfterWalks(cfg, WalkHead(cfg, s, o), o)
  }

  /** run_a_cycle */
  function RunCycle(cfg: Config, s: State, locked: bool, o: Oracle): State {
    var t := if locked then s else AfterWalks(cfg, AfterFaultRetry(cfg, AfterRetry(cfg, s, o), o), o);
    t.(cycle := t.cycle + 1)
  }

  // ----- frames

  /** The first free frame of lo..hi, or hi. */
  function FirstFree(free: seq<bool>, lo: nat, hi: nat): (r: nat)
    requires lo <= hi <= |free|
    ensures lo <= r <= hi && (r < hi ==> free[r])
    ensures forall k :: lo <= k < r ==> !free[k]
    decreases hi - lo
  {
    if lo == hi || free[lo] then lo else FirstFree(free, lo + 1, hi)
  }

  /** The circular search: from `start` to the end, then from 0 up to `start`. */
  function Search(free: seq<bool>, start: nat): (r: nat)
    requires start < |free|
    ensures r < |free|
    ensures free[r] <==> exists k :: 0 <= k < |free| && free[k]
    ensures free[r] && r >= start ==> forall k :: start <= k < r ==> !free[k]
    ensures free[r] && r < start ==> forall k :: 0 <= k < r || start <= k < |free| ==> !free[k]
  {
    var a := FirstFree(free, start, |free|);
    if a < |free| then a else FirstFree(free, 0, start)
  }

  /** A victim can be taken: the list is not empty and its last page is mapped. */
  predicate CanEvict(m: Memory) {
    m.recency != [] && m.recency[|m.recency| - 1] in m.table && m.table[m.recency[|m.recency| - 1]] < |m.free|
  }

  /** Give up the least recently used page and its frame. */
  function EvictPage(cfg: Config, m: Memory): Memory
    requires CanEvict(m)
  {
    var victim := m.recency[|m.recency| - 1];
    var frame := m.table[victim];
    m.(recency := m.recency[..|m.recency| - 1], stale := if cfg.erases then m.stale else m.stale + {victim},
       table := m.table - {victim}, tlb := m.tlb - {victim},
       free := m.free[frame := true], remaining := m.remaining + 1, toAllocate := frame)
  }

  /** The replacement unit does not hold the page's key yet, as insert asserts. */
  predicate Insertable(cfg: Config, m: Memory, p: Page) {
    cfg.nonswap || (p !in m.recency && p !in m.stale)
  }

  /** Map the page of the fault being handled. */
  function MapPage(cfg: Config, m: Memory, p: Page): Memory
    requires cfg.nonswap || m.toAllocate < |m.free|
  {
    if cfg.nonswap then
      m.(table := if p in m.table then m.table else m.table[p := m.dimm], toAllocate := m.dimm, dimm := m.dimm + 1)
    else
      var frame := Search(m.free, m.toAllocate);
      m.(table := if p in m.table then m.table else m.table[p := frame],
         recency := Added(m.recency, p, m.recency != [] && |m.recency| == cfg.frames),
         free := m.free[frame := false], remaining := m.remaining - 1, toAllocate := frame)
  }

  // ----- batches of page faults

  /** Get a frame for the next fault, evicting a page when memory is full. */
  function Prepare(cfg: Config, s: State): State
    requires s.mem.remaining > 0 || CanEvict(s.mem)
  {
    if s.mem.remaining > 0 then s.(nextEvent := s.cycle + cfg.faultLatency)
    else s.(mem := EvictPage(cfg, s.mem), nextEvent := s.cycle + cfg.evictLatency + cfg.faultLatency)
  }

  /** The uops that wait for the page, in this batch and for the next one, are
      released to the retry queue. */
  function Release(q: Queues, p: Page): Queues {
    q.(retry := q.retry + Listed(q.currentUops, p) + Listed(q.faultUops, p),
       currentUops := q.currentUops - {p},
       faultUops := q.faultUops - {p},
       faults := if p in q.faultUops then q.faults - {p} else q.faults)
  }

  /** The fault at the head of the batch is served. */
  function Resolve(cfg: Config, s: State): State
    requires s.q.current != [] && (cfg.nonswap || s.mem.toAllocate < |s.mem.free|)
  {
    var p := s.q.current[0];
    s.(mem := MapPage(cfg, s.mem, p), q := Release(s.q.(current := s.q.current[1..]), p))
  }

  /** What the step of a batch relies on. */
  predicate Steppable(cfg: Config, s: State) {
    && s.q.current != []
    && (cfg.nonswap || s.mem.toAllocate < |s.mem.free|)
    && (s.mem.remaining > 0 || CanEvict(s.mem))
  }

  /** do_batch_processing. None is a failed assertion: the page was evicted
      earlier and the replacement unit still has its key. */
  function BatchStep(cfg: Config, s: State): Option<State>
    requires Steppable(cfg, s)
  {
    if s.cycle < s.transferStart then Some(s)
    else if !s.started then Some(Prepare(cfg, s).(started := true))
    else if s.cycle < s.nextEvent then Some(s)
    else if !Insertable(cfg, s.mem, s.q.current[0]) then None
    else
      var r := Resolve(cfg, s);
      if r.q.current == [] then Some(r.(batch := false, started := false))
      else if r.mem.remaining > 0 || CanEvict(r.mem) then Some(Prepare(cfg, r))
      else None
  }

  /** The buffered faults in the order of the batch: sorted by page number. */
  ghost predicate BatchOrder(faults: set<Page>, order: seq<Page>) {
    && (forall p :: p in order <==> p in faults)
    && NoDup(order)
    && (forall i, j :: 0 <= i < j < |order| ==> order[i].number <= order[j].number)
  }

  /** begin_batch_processing */
  function BeginBatch(cfg: Config, s: State, order: seq<Page>): State {
    s.(q := s.q.(current := s.q.current + order, currentUops := s.q.faultUops, faults := {}, faultUops := map[]),
       batch := true, started := false, transferStart := s.cycle + cfg.overhead)
  }

  /** handle_page_faults */
  function HandleFaults(cfg: Config, s: State, order: seq<Page>): Option<State>
    requires s.batch ==> Steppable(cfg, s)
  {
    var r := if s.batch then BatchStep(cfg, s) else Some(s);
    match r
    case None => None
    case Some(t) => Some(if !t.batch && t.q.faults != {} then BeginBatch(cfg, t, order) else t)
  }
}
