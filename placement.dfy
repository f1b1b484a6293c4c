/** The move_pages() system call: the flag checks, the walk over the
    caller's (address, node) requests that groups consecutive requests for
    one node into one migration batch, the status array it fills, and the
    query path that only reports each page's node.

    What the address lookups find (the VMA, the page, whether it can be
    isolated), the user-memory faults and the result of every batch handed
    to the orchestrators are inputs. */
module MovePages {
  import opened Errno
  import opened Wrappers
  import opened Frames
  import opened Modes

  const NUMA_NO_NODE: int := -1
  const DO_PAGES_STAT_CHUNK_NR: nat := 16

  // ---------------------------------------------------------------------
  // Flag checks of kernel_move_pages()

  /** The bits of the `flags` word: the five move_pages() accepts, and
      whether any other bit is set. */
  datatype MoveFlags = MoveFlags(move: bool, moveAll: bool, moveDma: bool, moveMt: bool, moveConcur: bool, other: bool)

  /** The flag checks: an unknown bit is -EINVAL, MPOL_MF_MOVE_ALL without
      CAP_SYS_NICE is -EPERM, in that order; anything else passes. */
  function CheckFlags(f: MoveFlags, capable: bool): (r: int)
    ensures r == -EINVAL <==> f.other
    ensures r == -EPERM <==> !f.other && f.moveAll && !capable
    ensures r == 0 <==> !f.other && (f.moveAll ==> capable)
  {
    if f.other then -EINVAL
    else if f.moveAll && !capable then -EPERM
    else 0
  }

  // ---------------------------------------------------------------------
  // Looking a user address up

  /** find_vma() for the address: none, or one that may start above the
      address (`covers` false) and may not allow migration. */
  datatype Vma = NoVma | Vma(covers: bool, migratable: bool)

  /** A kernel error number, as IS_ERR() recognises it. */
  type ErrorNumber = x: int | 1 <= x <= 4095 witness 1

  /** What follow_page() finds in the VMA: an error pointer, nothing, or a
      page. */
  datatype PageRef = PageError(errno: ErrorNumber) | NoPage | Page(p: FoundPage)

  /** A page found at the address: its node, how many page tables map it,
      whether it is a hugetlbfs page and a head page, the head of its
      compound page, and how isolating it would go. */
  datatype FoundPage = FoundPage(
    nid: int,
    mapcount: int,
    huge: bool,
    isHead: bool,
    head: Pfn,
    lruIsolated: bool,    // isolate_lru_page(head) succeeds
    hugeIsolated: bool,   // isolate_huge_page() put the page on the list
    swapBacked: bool,     // !page_is_file_cache(head)
    nrPages: nat)         // hpage_nr_pages(head)

  datatype Lookup = Lookup(vma: Vma, page: PageRef)

  /** The result of add_page_for_migration(): its code, the page it put on
      the list, and how many base pages it added to the node's isolated
      counter (NR_ISOLATED_ANON or NR_ISOLATED_FILE). */
  datatype Added = Added(rc: int, queued: Option<Pfn>, isolated: nat)

  /** add_page_for_migration(): 0 when the page is already on the target
      node, 1 when it was queued, a negative code otherwise. */
  function AddPageForMigration(l: Lookup, node: int, migrateAll: bool): Added {
    if l.vma.NoVma? || !l.vma.covers || !l.vma.migratable then Added(-EFAULT, None, 0)
    else match l.page
      case PageError(errno) => Added(-(errno as int), None, 0)
      case NoPage => Added(-ENOENT, None, 0)
      case Page(p) =>
        if p.nid == node then Added(0, None, 0)
        else if p.mapcount > 1 && !migrateAll then Added(-EACCES, None, 0)
        else if p.huge then
          // a tail page of a hugetlbfs page keeps the -EACCES set above
          if p.isHead then Added(1, if p.hugeIsolated then Some(p.head) else None, 0)
          else Added(-EACCES, None, 0)
        else if !p.lruIsolated then Added(-EBUSY, None, 0)
        else Added(1, Some(p.head), p.nrPages)
  }

  /** The outcomes of add_page_for_migration(): a page already on the
      target node is never queued; a page mapped more than once is refused
      unless MPOL_MF_MOVE_ALL; only a result of 1 queues a page, and an LRU
      page is then always queued; only a queued LRU page raises the
      isolated counter, by its number of base pages. */
  lemma AddPageCases(l: Lookup, node: int, migrateAll: bool)
    ensures var a := AddPageForMigration(l, node, migrateAll);
      && (a.queued.Some? ==> a.rc == 1)
      && (a.rc == 0 <==> l.vma.Vma? && l.vma.covers && l.vma.migratable && l.page.Page? && l.page.p.nid == node)
      && (l.vma.Vma? && l.vma.covers && l.vma.migratable && l.page.Page? ==>
            var p := l.page.p;
            && (p.nid != node && p.mapcount > 1 && !migrateAll ==> a.rc == -EACCES)
            && (p.nid != node && (p.mapcount <= 1 || migrateAll) && !p.huge ==>
                  a == (if p.lruIsolated then Added(1, Some(p.head), p.nrPages) else Added(-EBUSY, None, 0))))
      && (a.isolated > 0 ==> a.queued.Some? && l.page.Page? && !l.page.p.huge)
      && (a.rc > 0 ==> a.rc == 1)
      && (l.vma.NoVma? || !l.vma.covers || !l.vma.migratable ==> a.rc == -EFAULT)
  {
  }

  // ---------------------------------------------------------------------
  // store_status()

  /** The user status array at position `k` is written by a store of `nr`
      values from `start`: it is in range and no fault came before it. */
  predicate Written(bad: set<nat>, start: nat, nr: int, k: int) {
    start <= k < start + nr && forall m | start <= m <= k :: m !in bad
  }

  /** The status array after store_status(): `value` up to the first
      position that faults (`bad`), the rest as it was. */
  function Stored(s: seq<int>, bad: set<nat>, start: nat, value: int, nr: int): (r: seq<int>)
    ensures |r| == |s|
  {
    seq(|s|, k requires 0 <= k < |s| => if Written(bad, start, nr, k) then value else s[k])
  }

  /** store_status()'s result: -EFAULT when a position in the range
      faults. */
  function StoreRc(bad: set<nat>, start: nat, nr: int): int {
    if exists m | start <= m < start + nr :: m in bad then -EFAULT else 0
  }

  /** store_status() succeeds exactly when it writes the whole range, and
      fails with -EFAULT otherwise. */
  lemma StoreRcWritten(bad: set<nat>, start: nat, nr: int)
    ensures StoreRc(bad, start, nr) == 0 <==> forall k :: start <= k < start + nr ==> Written(bad, start, nr, k)
    ensures StoreRc(bad, start, nr) != 0 ==> StoreRc(bad, start, nr) == -EFAULT
  {
    if m :| start <= m < start + nr && m in bad {
      assert !Written(bad, start, nr, m);
    }
  }

  /** store_status(): put `value` at `nr` positions from `start`, one
      put_user() at a time, stopping at the first fault. */
  method StoreStatus(status: array<int>, bad: set<nat>, start: nat, value: int, nr: int) returns (rc: int)
    requires start + nr <= status.Length
    modifies status
    ensures status[..] == Stored(old(status[..]), bad, start, value, nr)
    ensures rc == StoreRc(bad, start, nr)
  {
    var n := nr;
    var pos := start;
    while n > 0
      invariant nr > 0 ==> 0 <= n && pos - start + n == nr
      invariant nr <= 0 ==> n == nr && pos == start
      invariant forall m | start <= m < pos :: m !in bad
      invariant forall k :: 0 <= k < status.Length ==>
        status[k] == (if start <= k < pos then value else old(status[k]))
    {
      if pos in bad {
        rc := -EFAULT;
        forall k | 0 <= k < status.Length
          ensures status[k] == Stored(old(status[..]), bad, start, value, nr)[k]
        {
          if start <= k < pos {
            assert Written(bad, start, nr, k);
          }
        }
        return;
      }
      status[pos] := value;
      pos := pos + 1;
      n := n - 1;
    }
    rc := 0;
    forall k | 0 <= k < status.Length
      ensures status[k] == Stored(old(status[..]), bad, start, value, nr)[k]
    {
      if start <= k < start + nr {
        assert Written(bad, start, nr, k);
      }
    }
  }

  // ---------------------------------------------------------------------
  // do_pages_move()

  /** One request: whether its entries of `pages` and `nodes` could be
      read, the node asked for, and what the address lookup finds. */
  datatype Request = Request(readable: bool, node: int, lookup: Lookup)

  /** What the walk depends on: MAX_NUMNODES, the nodes with memory, the
      task's allowed nodes, the MPOL_MF_MOVE_ALL, MPOL_MF_MOVE_MT,
      MPOL_MF_MOVE_DMA and MPOL_MF_MOVE_CONCUR flags, the positions of the
      status array that fault, and what each batch handed to the
      orchestrator returns, in order (a batch beyond the list returns 0). */
  datatype MoveEnv = MoveEnv(maxNodes: int, memoryNodes: set<int>, allowed: set<int>, moveAll: bool,
                             moveMt: bool, moveDma: bool, moveConcur: bool,
                             badStatus: set<nat>, flushRc: seq<int>)

  /** A batch handed to migrate_pages() or migrate_pages_concur(): its
      target node, its pages in list order, the migrate mode, whether it
      went to migrate_pages_concur(), and the result. */
  datatype Batch = Batch(node: int, pages: seq<Pfn>, mode: Mode, concur: bool, rc: int)

  /** do_move_pages_to_node()'s call: the mode built from the request's
      MT and DMA flags, and the orchestrator MPOL_MF_MOVE_CONCUR picks. */
  function ToNode(e: MoveEnv, node: int, pages: seq<Pfn>, rc: int): Batch {
    Batch(node, pages, RequestMode(e.moveMt, e.moveDma), e.moveConcur, rc)
  }

  /** Every batch runs in full MIGRATE_SYNC mode (no "no copy" bit), with
      the MT and DMA backend bits exactly as the caller's flags asked, on
      the orchestrator MPOL_MF_MOVE_CONCUR selects. */
  ghost predicate AsRequested(e: MoveEnv, bs: seq<Batch>) {
    forall b :: 0 <= b < |bs| ==>
      IsFullSync(bs[b].mode) && bs[b].mode.mt == e.moveMt && bs[b].mode.dma == e.moveDma
      && bs[b].concur == e.moveConcur
  }

  /** The walk's variables: current_node, start, the page list, the status
      array, the batches flushed so far, and err. */
  datatype MoveState = MoveState(current: int, start: nat, pending: seq<Pfn>, status: seq<int>,
                                 batches: seq<Batch>, err: int)

  /** Where the walk goes after a request: on to the next one, to the
      out_flush label, or to the out label. */
  datatype Exit = Continue | OutFlush | Out

  datatype Moved = Moved(exit: Exit, s: MoveState)

  function FlushRc(e: MoveEnv, k: nat): int {
    if k < |e.flushRc| then e.flushRc[k] else 0
  }

  /** do_move_pages_to_node(): an empty list is 0; otherwise the list is
      handed over as one batch to the current node and comes back empty
      (migrated, or put back on failure). */
  function Flush(e: MoveEnv, s: MoveState): (r: (int, MoveState))
    ensures r.1.pending == [] && r.1.status == s.status
    ensures AsRequested(e, s.batches) ==> AsRequested(e, r.1.batches)
  {
    if s.pending == [] then (0, s)
    else
      var rc := FlushRc(e, |s.batches|);
      (rc, s.(pending := [], batches := s.batches + [ToNode(e, s.current, s.pending, rc)]))
  }

  /** A failed batch ends the walk; a positive count of pages that did not
      migrate grows by the requests not yet attempted. */
  function Unattempted(rc: int, n: nat, i: nat): int {
    if rc > 0 then rc + (n - i - 1) else rc
  }

  /** The checks on a request's node: -ENODEV outside [0, MAX_NUMNODES) or
      without memory, -EACCES outside the target process's allowed nodes. */
  function NodeCheck(e: MoveEnv, node: int): (r: int)
    ensures r == -ENODEV <==> node < 0 || node >= e.maxNodes || node !in e.memoryNodes
    ensures r == -EACCES <==> 0 <= node < e.maxNodes && node in e.memoryNodes && node !in e.allowed
    ensures r == 0 <==> 0 <= node < e.maxNodes && node in e.memoryNodes && node in e.allowed
  {
    if node < 0 || node >= e.maxNodes || node !in e.memoryNodes then -ENODEV
    else if node !in e.allowed then -EACCES
    else 0
  }

  /** The first half of an iteration: a request for another node than the
      current one flushes the list and stores the current node for the
      requests since `start`. */
  function SwitchNode(e: MoveEnv, n: nat, i: nat, node: int, s: MoveState): Moved {
    if s.current == NUMA_NO_NODE then Moved(Continue, s.(current := node, start := i))
    else if node != s.current then
      var (rc, f) := Flush(e, s);
      if rc != 0 then Moved(Out, f.(err := Unattempted(rc, n, i)))
      else
        var st := StoreRc(e.badStatus, s.start, i - s.start);
        var f2 := f.(status := Stored(f.status, e.badStatus, s.start, s.current, i - s.start), err := st);
        if st != 0 then Moved(Out, f2)
        else Moved(Continue, f2.(start := i, current := node))
    else Moved(Continue, s)
  }

  /** The pages a request puts on the list. */
  function QueuedBy(e: MoveEnv, r: Request): seq<Pfn> {
    var a := AddPageForMigration(r.lookup, r.node, e.moveAll);
    if a.queued.Some? then [a.queued.value] else []
  }

  /** The second half: add the page; a page already on the node gets its
      status at once, a queued page waits for its batch, and a failure is
      stored as the page's status and flushes the list, storing the node
      for the requests before it. */
  function AddStep(e: MoveEnv, n: nat, i: nat, r: Request, s: MoveState): Moved {
    var a := AddPageForMigration(r.lookup, s.current, e.moveAll);
    var s2 := s.(pending := s.pending + (if a.queued.Some? then [a.queued.value] else []));
    if a.rc == 0 then
      var st := StoreRc(e.badStatus, i, 1);
      var s3 := s2.(status := Stored(s2.status, e.badStatus, i, s.current, 1), err := st);
      if st != 0 then Moved(OutFlush, s3) else Moved(Continue, s3)
    else if a.rc > 0 then Moved(Continue, s2.(err := a.rc))
    else
      var st := StoreRc(e.badStatus, i, 1);
      var s3 := s2.(status := Stored(s2.status, e.badStatus, i, a.rc, 1), err := st);
      if st != 0 then Moved(OutFlush, s3)
      else
        var (rc, f) := Flush(e, s3);
        if rc != 0 then Moved(Out, f.(err := Unattempted(rc, n, i)))
        else if i > s.start then
          var st2 := StoreRc(e.badStatus, s.start, i - s.start);
          var f2 := f.(status := Stored(f.status, e.badStatus, s.start, s.current, i - s.start), err := st2);
          if st2 != 0 then Moved(Out, f2) else Moved(Continue, f2.(current := NUMA_NO_NODE))
        else Moved(Continue, f.(current := NUMA_NO_NODE, err := 0))
  }

  /** One iteration of the walk over request `i`. */
  function Step(e: MoveEnv, reqs: seq<Request>, i: nat, s: MoveState): Moved
    requires i < |reqs|
  {
    var r := reqs[i];
    if !r.readable then Moved(OutFlush, s.(err := -EFAULT))
    else if NodeCheck(e, r.node) != 0 then Moved(OutFlush, s.(err := NodeCheck(e, r.node)))
    else
      var m := SwitchNode(e, |reqs|, i, r.node, s);
      if m.exit != Continue then m else AddStep(e, |reqs|, i, r, m.s)
  }

  /** The out_flush label, reached with `i` requests walked: flush what is
      left and store the current node for the requests since `start`; an
      error already in `err` is kept. */
  function Finish(e: MoveEnv, i: nat, s: MoveState): (int, MoveState) {
    if s.pending == [] then (s.err, s)
    else
      var (rc1, f) := Flush(e, s);
      if rc1 == 0 then
        var st := StoreRc(e.badStatus, s.start, i - s.start);
        var f2 := f.(status := Stored(f.status, e.badStatus, s.start, s.current, i - s.start));
        (if s.err >= 0 then st else s.err, f2)
      else (if s.err >= 0 then rc1 else s.err, f)
  }

  /** The walk from request `i` on: its result and final state. */
  function Run(e: MoveEnv, reqs: seq<Request>, i: nat, s: MoveState): (int, MoveState)
    requires i <= |reqs|
    decreases |reqs| - i
  {
    if i == |reqs| then Finish(e, i, s)
    else
      var m := Step(e, reqs, i, s);
      match m.exit
      case Continue => Run(e, reqs, i + 1, m.s)
      case OutFlush => Finish(e, i, m.s)
      case Out => (m.s.err, m.s)
  }

  function InitialState(status: seq<int>): MoveState {
    MoveState(NUMA_NO_NODE, 0, [], status, [], 0)
  }

  /** do_pages_move() on a status array holding `status`. */
  function PagesMove(e: MoveEnv, reqs: seq<Request>, status: seq<int>): (int, MoveState) {
    Run(e, reqs, 0, InitialState(status))
  }

  // --- What the walk promises

  /** The status do_pages_move() reports for a request that was walked
      through: its error when the page could not be added, else the node,
      whether the page was already there or has been migrated. */
  function Expected(e: MoveEnv, r: Request): int {
    var a := AddPageForMigration(r.lookup, r.node, e.moveAll);
    if a.rc < 0 then a.rc else r.node
  }

  /** A request the walk gets through without an abort: it is readable,
      its node is valid and allowed, and a page it adds with result 1 is
      on the list (a hugetlbfs head that could not be isolated is not). */
  predicate Clean(e: MoveEnv, r: Request) {
    && r.readable && NodeCheck(e, r.node) == 0
    && (AddPageForMigration(r.lookup, r.node, e.moveAll).rc == 1 ==>
          AddPageForMigration(r.lookup, r.node, e.moveAll).queued.Some?)
  }

  /** The status array never faults and every batch migrates all its
      pages. */
  predicate Smooth(e: MoveEnv) {
    e.badStatus == {} && forall k :: 0 <= k < |e.flushRc| ==> e.flushRc[k] == 0
  }

  /** The pages requests [0, k) put on the list, in request order. */
  function QueuedUpTo(e: MoveEnv, reqs: seq<Request>, k: nat): seq<Pfn>
    requires k <= |reqs|
  {
    if k == 0 then [] else QueuedUpTo(e, reqs, k - 1) + QueuedBy(e, reqs[k - 1])
  }

  /** The pages the batches carried, in order. */
  function Flat(bs: seq<Batch>): seq<Pfn> {
    if bs == [] then [] else Flat(bs[..|bs| - 1]) + bs[|bs| - 1].pages
  }

  /** The pages queued by requests for `node`. */
  ghost function QueuedFor(e: MoveEnv, reqs: seq<Request>, node: int): set<Pfn> {
    set j, p | 0 <= j < |reqs| && reqs[j].node == node && p in QueuedBy(e, reqs[j]) :: p
  }

  /** add_page_for_migration()'s result for a request, on its own node. */
  function AddRc(e: MoveEnv, r: Request): int {
    AddPageForMigration(r.lookup, r.node, e.moveAll).rc
  }

  /** Requests [0, k) have their final status in `st`. */
  ghost predicate Final(e: MoveEnv, reqs: seq<Request>, st: seq<int>, k: nat) {
    k <= |reqs| && k <= |st| && forall j :: 0 <= j < k ==> st[j] == Expected(e, reqs[j])
  }

  /** Positions from i on hold what they held before the walk. */
  ghost predicate Untouched(st: seq<int>, status0: seq<int>, i: nat) {
    |st| == |status0| && forall j :: i <= j < |st| ==> st[j] == status0[j]
  }

  /** Requests [start, i) asked for `node` and had their page added or
      found on it already. */
  ghost predicate Members(e: MoveEnv, reqs: seq<Request>, node: int, start: nat, i: nat) {
    i <= |reqs| && forall j :: start <= j < i ==> reqs[j].node == node && AddRc(e, reqs[j]) >= 0
  }

  /** Of requests [start, i), those whose page was already on the node have
      their status. */
  ghost predicate FoundReported(e: MoveEnv, reqs: seq<Request>, st: seq<int>, start: nat, i: nat) {
    i <= |reqs| && i <= |st| && forall j :: start <= j < i && AddRc(e, reqs[j]) == 0 ==> st[j] == Expected(e, reqs[j])
  }

  /** No request of [start, i) queued a page. */
  ghost predicate NoneQueued(e: MoveEnv, reqs: seq<Request>, start: nat, i: nat) {
    i <= |reqs| && forall j :: start <= j < i ==> AddRc(e, reqs[j]) == 0
  }

  /** Every page of `ps` was queued by a request for `node`. */
  ghost predicate QueuedForNode(e: MoveEnv, reqs: seq<Request>, ps: seq<Pfn>, node: int) {
    forall p :: p in ps ==> p in QueuedFor(e, reqs, node)
  }

  /** The requests of the open group [start, i) all asked for `node` and
      had their page added or found on it already; those found have their
      status, those before the group have their final status, and the
      list holds only pages queued for `node` (and is empty only when no
      request of the group queued one). */
  ghost predicate Group(e: MoveEnv, reqs: seq<Request>, i: nat, s: MoveState, node: int) {
    && s.start <= i <= |reqs| == |s.status|
    && Final(e, reqs, s.status, s.start)
    && Members(e, reqs, node, s.start, i)
    && FoundReported(e, reqs, s.status, s.start, i)
    && (s.pending == [] ==> NoneQueued(e, reqs, s.start, i))
    && QueuedForNode(e, reqs, s.pending, node)
  }

  /** Every batch holds only pages queued for its node. */
  ghost predicate BatchesFor(e: MoveEnv, reqs: seq<Request>, bs: seq<Batch>) {
    forall b, p :: 0 <= b < |bs| && p in bs[b].pages ==> p in QueuedFor(e, reqs, bs[b].node)
  }

  /** Every page queued by requests [0, i) is in a batch or on the list,
      in request order; a batch holds only pages queued for its node. */
  ghost predicate Carried(e: MoveEnv, reqs: seq<Request>, i: nat, s: MoveState)
    requires i <= |reqs|
  {
    Flat(s.batches) + s.pending == QueuedUpTo(e, reqs, i) && BatchesFor(e, reqs, s.batches)
  }

  /** The invariant of a walk in which requests [0, i) were clean: with no
      group open every walked request has its final status; otherwise the
      open group is as `Group` says; later positions are untouched; the
      queued pages are carried; err is 0, or 1 with pages on the list. */
  ghost predicate Walking(e: MoveEnv, reqs: seq<Request>, status0: seq<int>, i: nat, s: MoveState) {
    && i <= |reqs| == |status0| == |s.status| && s.start <= i
    && (s.err == 0 || (s.err == 1 && s.pending != []))
    && (s.current == NUMA_NO_NODE ==> s.pending == [] && Final(e, reqs, s.status, i))
    && (s.current != NUMA_NO_NODE ==> Group(e, reqs, i, s, s.current))
    && Untouched(s.status, status0, i)
    && Carried(e, reqs, i, s)
  }

  lemma FlatAppend(bs: seq<Batch>, b: Batch)
    ensures Flat(bs + [b]) == Flat(bs) + b.pages
  {
    assert (bs + [b])[..|bs|] == bs;
  }

  /** A store of one value into a status array that never faults. */
  lemma StoredOne(st: seq<int>, i: nat, v: int)
    requires i < |st|
    ensures Stored(st, {}, i, v, 1) == st[i := v]
  {
    assert forall k :: 0 <= k < |st| ==> (Written({}, i, 1, k) <==> k == i);
  }

  /** Flushing the list of a group for `node` carries its pages into a
      batch for `node`, which migrates. */
  lemma FlushCarried(e: MoveEnv, reqs: seq<Request>, i: nat, s: MoveState)
    requires Smooth(e) && i <= |reqs| && Carried(e, reqs, i, s)
    requires QueuedForNode(e, reqs, s.pending, s.current)
    ensures Flush(e, s).0 == 0 && Carried(e, reqs, i, Flush(e, s).1)
    ensures Flush(e, s).1 == s.(pending := [], batches := Flush(e, s).1.batches)
  {
    if s.pending != [] {
      FlatAppend(s.batches, ToNode(e, s.current, s.pending, FlushRc(e, |s.batches|)));
    }
  }

  /** Storing the node of an open group over [start, i) gives every
      request before i its final status and touches nothing from i on. */
  lemma StoreGroup(e: MoveEnv, reqs: seq<Request>, i: nat, s: MoveState, node: int)
    requires e.badStatus == {} && s.start <= i <= |reqs| == |s.status|
    requires Final(e, reqs, s.status, s.start) && Members(e, reqs, node, s.start, i)
    requires FoundReported(e, reqs, s.status, s.start, i)
    ensures var st := Stored(s.status, e.badStatus, s.start, node, i - s.start);
      Final(e, reqs, st, i) && forall j :: i <= j < |st| ==> st[j] == s.status[j]
  {
    var st := Stored(s.status, e.badStatus, s.start, node, i - s.start);
    forall j | 0 <= j < i
      ensures st[j] == Expected(e, reqs[j])
    {
      if s.start <= j {
        assert Written(e.badStatus, s.start, i - s.start, j);
      }
    }
  }

  /** The node switch of a clean request for another node than the open
      group's: the list goes out as a batch for the old node, the group's
      statuses are stored, and a new group opens at `i`. */
  lemma SwitchToNew(e: MoveEnv, reqs: seq<Request>, status0: seq<int>, i: nat, s: MoveState, node: int)
    requires Smooth(e) && i < |reqs| && Walking(e, reqs, status0, i, s)
    requires s.current != NUMA_NO_NODE && node != s.current
    ensures var m := SwitchNode(e, |reqs|, i, node, s);
      && m.exit == Continue && m.s.current == node && m.s.start == i && m.s.err == 0 && m.s.pending == []
      && Final(e, reqs, m.s.status, i) && Untouched(m.s.status, status0, i)
      && Carried(e, reqs, i, m.s)
  {
    FlushCarried(e, reqs, i, s);
    StoreGroup(e, reqs, i, s, s.current);
  }

  /** A walk at request i with a group open for the current node. */
  ghost predicate Opened(e: MoveEnv, reqs: seq<Request>, status0: seq<int>, i: nat, s: MoveState) {
    && i <= |reqs| == |status0| == |s.status| && s.start <= i
    && (s.err == 0 || (s.err == 1 && s.pending != []))
    && Group(e, reqs, i, s, s.current)
    && Untouched(s.status, status0, i)
    && Carried(e, reqs, i, s)
  }

  /** The node switch of a clean request keeps a group for the request's
      node open. */
  lemma SwitchWalking(e: MoveEnv, reqs: seq<Request>, status0: seq<int>, i: nat, s: MoveState)
    requires Smooth(e) && i < |reqs| && Clean(e, reqs[i]) && Walking(e, reqs, status0, i, s)
    ensures var m := SwitchNode(e, |reqs|, i, reqs[i].node, s);
      && m.exit == Continue && m.s.current == reqs[i].node && Opened(e, reqs, status0, i, m.s)
  {
    var node := reqs[i].node;
    if s.current != NUMA_NO_NODE && node != s.current {
      SwitchToNew(e, reqs, status0, i, s, node);
    }
  }

  /** The pages request i queues are queued for its node. */
  lemma QueuedByFor(e: MoveEnv, reqs: seq<Request>, i: nat)
    requires i < |reqs|
    ensures QueuedForNode(e, reqs, QueuedBy(e, reqs[i]), reqs[i].node)
  {
  }

  /** A clean request whose page cannot be added: its error is stored, the
      list goes out, the group's statuses are stored and the group
      closes. */
  lemma AddFailed(e: MoveEnv, reqs: seq<Request>, status0: seq<int>, i: nat, s: MoveState)
    requires Smooth(e) && i < |reqs| && Clean(e, reqs[i]) && s.current == reqs[i].node
    requires Opened(e, reqs, status0, i, s) && AddRc(e, reqs[i]) < 0
    ensures var m := AddStep(e, |reqs|, i, reqs[i], s);
      m.exit == Continue && Walking(e, reqs, status0, i + 1, m.s)
  {
    FailedStep(e, |reqs|, i, reqs[i], s);
    FailedWalking(e, reqs, status0, i, s);
  }

  /** The step itself for a page that cannot be added: its error is
      stored, the list goes out as a batch, the node is stored for the
      requests before it in the group, and the group closes. */
  lemma FailedStep(e: MoveEnv, n: nat, i: nat, r: Request, s: MoveState)
    requires Smooth(e) && s.start <= i < |s.status|
    requires AddPageForMigration(r.lookup, s.current, e.moveAll).rc < 0
    ensures var f := Flush(e, s.(status := s.status[i := AddPageForMigration(r.lookup, s.current, e.moveAll).rc], err := 0)).1;
      AddStep(e, n, i, r, s) == Moved(Continue, FailedClose(e, i, s, f))
  {
    var a := AddPageForMigration(r.lookup, s.current, e.moveAll);
    StoredOne(s.status, i, a.rc);
    assert s.(pending := s.pending + []) == s;
    var s3 := s.(status := s.status[i := a.rc], err := 0);
    assert Flush(e, s3).0 == 0;
  }

  /** The state after a failed add once the list went out as `f`. */
  function FailedClose(e: MoveEnv, i: nat, s: MoveState, f: MoveState): MoveState
    requires s.start <= i
  {
    if i > s.start
    then f.(status := Stored(f.status, e.badStatus, s.start, s.current, i - s.start), err := 0, current := NUMA_NO_NODE)
    else f.(current := NUMA_NO_NODE, err := 0)
  }

  /** The state a failed add at request i leaves behind. */
  function FailedState(e: MoveEnv, reqs: seq<Request>, i: nat, s: MoveState): MoveState
    requires s.start <= i < |reqs| && i < |s.status|
  {
    FailedClose(e, i, s, Flush(e, s.(status := s.status[i := AddRc(e, reqs[i])], err := 0)).1)
  }

  /** A failed add closes the group with every walked request final. */
  lemma FailedWalking(e: MoveEnv, reqs: seq<Request>, status0: seq<int>, i: nat, s: MoveState)
    requires Smooth(e) && i < |reqs| && s.current == reqs[i].node
    requires Opened(e, reqs, status0, i, s) && AddRc(e, reqs[i]) < 0
    ensures Walking(e, reqs, status0, i + 1, FailedState(e, reqs, i, s))
  {
    FailedCarried(e, reqs, status0, i, s);
    FailedFinal(e, reqs, status0, i, s);
    ClosedWalking(e, reqs, status0, i + 1, FailedState(e, reqs, i, s));
  }

  /** The list of a group closed by a failed add goes out whole, and the
      pages stay carried. */
  lemma FailedCarried(e: MoveEnv, reqs: seq<Request>, status0: seq<int>, i: nat, s: MoveState)
    requires Smooth(e) && i < |reqs| && s.current == reqs[i].node
    requires Opened(e, reqs, status0, i, s) && AddRc(e, reqs[i]) < 0
    ensures var c := FailedState(e, reqs, i, s);
      && c.pending == [] && c.err == 0 && c.current == NUMA_NO_NODE && c.start <= i + 1
      && Carried(e, reqs, i + 1, c)
  {
    var s3 := s.(status := s.status[i := AddRc(e, reqs[i])], err := 0);
    assert QueuedUpTo(e, reqs, i + 1) == QueuedUpTo(e, reqs, i);
    FlushCarried(e, reqs, i, s3);
  }

  /** The requests of a group closed by a failed add have their final
      status, the failed one its error; later positions are untouched. */
  lemma FailedFinal(e: MoveEnv, reqs: seq<Request>, status0: seq<int>, i: nat, s: MoveState)
    requires Smooth(e) && i < |reqs| && s.current == reqs[i].node
    requires Opened(e, reqs, status0, i, s) && AddRc(e, reqs[i]) < 0
    ensures var c := FailedState(e, reqs, i, s);
      |c.status| == |reqs| && Final(e, reqs, c.status, i + 1) && Untouched(c.status, status0, i + 1)
  {
    var s3 := s.(status := s.status[i := AddRc(e, reqs[i])], err := 0);
    assert Group(e, reqs, i, s3, s.current);
    FlushCarried(e, reqs, i, s3);
    StoreGroup(e, reqs, i, s3, s.current);
  }

  /** A walk with no group open, every walked request final and the
      pages carried. */
  lemma ClosedWalking(e: MoveEnv, reqs: seq<Request>, status0: seq<int>, k: nat, c: MoveState)
    requires k <= |reqs| == |status0| == |c.status| && c.start <= k
    requires c.err == 0 && c.current == NUMA_NO_NODE && c.pending == []
    requires Final(e, reqs, c.status, k) && Untouched(c.status, status0, k) && Carried(e, reqs, k, c)
    ensures Walking(e, reqs, status0, k, c)
  {
  }

  /** A clean request whose page is already on its node: its status is
      stored and the group stays open. */
  lemma AddFound(e: MoveEnv, reqs: seq<Request>, status0: seq<int>, i: nat, s: MoveState)
    requires Smooth(e) && i < |reqs| && Clean(e, reqs[i]) && s.current == reqs[i].node
    requires Opened(e, reqs, status0, i, s) && AddRc(e, reqs[i]) == 0
    ensures var m := AddStep(e, |reqs|, i, reqs[i], s);
      m.exit == Continue && Walking(e, reqs, status0, i + 1, m.s)
  {
    FoundStep(e, |reqs|, i, reqs[i], s);
    FoundWalking(e, reqs, status0, i, s);
  }

  /** The step itself for a page already on the node: its status is the
      node and nothing else changes. */
  lemma FoundStep(e: MoveEnv, n: nat, i: nat, r: Request, s: MoveState)
    requires e.badStatus == {} && i < |s.status| && AddPageForMigration(r.lookup, s.current, e.moveAll).rc == 0
    ensures AddStep(e, n, i, r, s) == Moved(Continue, s.(status := s.status[i := s.current], err := 0))
  {
    StoredOne(s.status, i, s.current);
    assert s.(pending := s.pending + []) == s;
  }

  /** The group stays open over a request whose page was already on the
      node. */
  lemma FoundWalking(e: MoveEnv, reqs: seq<Request>, status0: seq<int>, i: nat, s: MoveState)
    requires i < |reqs| && s.current == reqs[i].node && s.current != NUMA_NO_NODE
    requires Opened(e, reqs, status0, i, s) && AddRc(e, reqs[i]) == 0
    ensures Walking(e, reqs, status0, i + 1, s.(status := s.status[i := s.current], err := 0))
  {
    var s3 := s.(status := s.status[i := s.current], err := 0);
    FoundGroup(e, reqs, i, s);
    FoundCarried(e, reqs, i, s);
    OpenWalking(e, reqs, status0, i + 1, s3);
  }

  /** The open group takes in a request whose page was already on the
      node, with its status. */
  lemma FoundGroup(e: MoveEnv, reqs: seq<Request>, i: nat, s: MoveState)
    requires i < |reqs| && s.current == reqs[i].node && AddRc(e, reqs[i]) == 0
    requires s.start <= i && Group(e, reqs, i, s, s.current)
    ensures Group(e, reqs, i + 1, s.(status := s.status[i := s.current], err := 0), s.current)
  {
  }

  /** Such a request queues nothing: the pages stay carried, and the
      positions after it untouched. */
  lemma FoundCarried(e: MoveEnv, reqs: seq<Request>, i: nat, s: MoveState)
    requires i < |reqs| && i < |s.status| && AddRc(e, reqs[i]) == 0 && Carried(e, reqs, i, s)
    ensures Carried(e, reqs, i + 1, s.(status := s.status[i := s.current], err := 0))
  {
    assert QueuedUpTo(e, reqs, i + 1) == QueuedUpTo(e, reqs, i);
  }

  /** A walk with a group open for the current node. */
  lemma OpenWalking(e: MoveEnv, reqs: seq<Request>, status0: seq<int>, k: nat, c: MoveState)
    requires k <= |reqs| == |status0| == |c.status| && c.start <= k
    requires c.err == 0 || (c.err == 1 && c.pending != [])
    requires c.current != NUMA_NO_NODE && Group(e, reqs, k, c, c.current)
    requires Untouched(c.status, status0, k) && Carried(e, reqs, k, c)
    ensures Walking(e, reqs, status0, k, c)
  {
  }

  /** A clean request whose page is queued: the page joins the list and
      the group stays open. */
  lemma AddQueued(e: MoveEnv, reqs: seq<Request>, status0: seq<int>, i: nat, s: MoveState)
    requires Smooth(e) && i < |reqs| && Clean(e, reqs[i]) && s.current == reqs[i].node
    requires Opened(e, reqs, status0, i, s) && AddRc(e, reqs[i]) > 0
    ensures var m := AddStep(e, |reqs|, i, reqs[i], s);
      m.exit == Continue && Walking(e, reqs, status0, i + 1, m.s)
  {
    assert AddStep(e, |reqs|, i, reqs[i], s) == Moved(Continue, s.(pending := s.pending + QueuedBy(e, reqs[i]), err := 1));
    QueuedWalking(e, reqs, status0, i, s);
  }

  /** The group stays open over a request whose page joined the list. */
  lemma QueuedWalking(e: MoveEnv, reqs: seq<Request>, status0: seq<int>, i: nat, s: MoveState)
    requires i < |reqs| && Clean(e, reqs[i]) && s.current == reqs[i].node && s.current != NUMA_NO_NODE
    requires Opened(e, reqs, status0, i, s) && AddRc(e, reqs[i]) > 0
    ensures Walking(e, reqs, status0, i + 1, s.(pending := s.pending + QueuedBy(e, reqs[i]), err := 1))
  {
    var q := QueuedBy(e, reqs[i]);
    var s2 := s.(pending := s.pending + q, err := 1);
    QueuedGroup(e, reqs, i, s);
    QueuedCarried(e, reqs, i, s);
    OpenWalking(e, reqs, status0, i + 1, s2);
  }

  /** The open group takes in a request whose page joined the list. */
  lemma QueuedGroup(e: MoveEnv, reqs: seq<Request>, i: nat, s: MoveState)
    requires i < |reqs| && Clean(e, reqs[i]) && s.current == reqs[i].node && AddRc(e, reqs[i]) > 0
    requires s.start <= i && Group(e, reqs, i, s, s.current)
    ensures Group(e, reqs, i + 1, s.(pending := s.pending + QueuedBy(e, reqs[i]), err := 1), s.current)
    ensures QueuedBy(e, reqs[i]) != []
  {
    QueuedByFor(e, reqs, i);
  }

  /** Its page is carried on the list, after those queued before it. */
  lemma QueuedCarried(e: MoveEnv, reqs: seq<Request>, i: nat, s: MoveState)
    requires i < |reqs| && Carried(e, reqs, i, s)
    ensures Carried(e, reqs, i + 1, s.(pending := s.pending + QueuedBy(e, reqs[i]), err := 1))
  {
    var s2 := s.(pending := s.pending + QueuedBy(e, reqs[i]), err := 1);
    assert QueuedUpTo(e, reqs, i + 1) == QueuedUpTo(e, reqs, i) + QueuedBy(e, reqs[i]);
    assert Flat(s2.batches) + s2.pending == QueuedUpTo(e, reqs, i + 1);
  }

  /** A clean request keeps the walk going and the invariant. */
  lemma CleanStep(e: MoveEnv, reqs: seq<Request>, status0: seq<int>, i: nat, s: MoveState)
    requires Smooth(e) && i < |reqs| && Clean(e, reqs[i]) && Walking(e, reqs, status0, i, s)
    ensures Step(e, reqs, i, s).exit == Continue && Walking(e, reqs, status0, i + 1, Step(e, reqs, i, s).s)
  {
    var r := reqs[i];
    SwitchWalking(e, reqs, status0, i, s);
    var m := SwitchNode(e, |reqs|, i, r.node, s);
    if AddRc(e, r) < 0 {
      AddFailed(e, reqs, status0, i, m.s);
    } else if AddRc(e, r) == 0 {
      AddFound(e, reqs, status0, i, m.s);
    } else {
      AddQueued(e, reqs, status0, i, m.s);
    }
  }

  /** What a walk that got through requests [0, k) leaves: each of them
      has its final status, later positions are untouched, every page they
      queued went to exactly one batch, in request order, and only in a
      batch for its request's node. */
  ghost predicate WalkedThrough(e: MoveEnv, reqs: seq<Request>, status0: seq<int>, k: nat, f: MoveState) {
    && k <= |reqs| == |status0| == |f.status|
    && Final(e, reqs, f.status, k)
    && Untouched(f.status, status0, k)
    && Flat(f.batches) == QueuedUpTo(e, reqs, k)
    && BatchesFor(e, reqs, f.batches)
  }

  /** The out_flush label after clean requests [0, k): the last group is
      flushed and stored; the result is the error that ended the walk, or
      0. */
  lemma FinishWalking(e: MoveEnv, reqs: seq<Request>, status0: seq<int>, k: nat, s: MoveState, err: int)
    requires Smooth(e) && Walking(e, reqs, status0, k, s) && (err < 0 || err == s.err)
    ensures Finish(e, k, s.(err := err)).0 == (if err < 0 then err else 0)
    ensures WalkedThrough(e, reqs, status0, k, Finish(e, k, s.(err := err)).1)
  {
    var s1 := s.(err := err);
    if s.pending != [] {
      FlushCarried(e, reqs, k, s1);
      StoreGroup(e, reqs, k, Flush(e, s1).1, s.current);
    }
  }

  /** The walk stops at a request that cannot be read or names a node it
      may not use, and goes to out_flush with that error. */
  lemma RunStops(e: MoveEnv, reqs: seq<Request>, k: nat, s: MoveState)
    requires k < |reqs| && (!reqs[k].readable || NodeCheck(e, reqs[k].node) != 0)
    ensures Run(e, reqs, k, s) ==
      Finish(e, k, s.(err := if !reqs[k].readable then -EFAULT else NodeCheck(e, reqs[k].node)))
  {
  }

  /** The walk goes on past a request it continues from. */
  lemma RunContinues(e: MoveEnv, reqs: seq<Request>, i: nat, s: MoveState)
    requires i < |reqs| && Step(e, reqs, i, s).exit == Continue
    ensures Run(e, reqs, i, s) == Run(e, reqs, i + 1, Step(e, reqs, i, s).s)
  {
  }

  /** The state after the steps over requests [i, k). */
  function Advance(e: MoveEnv, reqs: seq<Request>, i: nat, s: MoveState, k: nat): MoveState
    requires i <= k <= |reqs|
    decreases k - i
  {
    if i == k then s else Advance(e, reqs, i + 1, Step(e, reqs, i, s).s, k)
  }

  /** Every step over requests [i, k) continues the walk. */
  ghost predicate Continues(e: MoveEnv, reqs: seq<Request>, i: nat, s: MoveState, k: nat)
    requires i <= k <= |reqs|
    decreases k - i
  {
    i == k || (Step(e, reqs, i, s).exit == Continue && Continues(e, reqs, i + 1, Step(e, reqs, i, s).s, k))
  }

  /** Steps that continue can be skipped over in the walk. */
  lemma {:induction false} RunSkip(e: MoveEnv, reqs: seq<Request>, i: nat, s: MoveState, k: nat)
    requires i <= k <= |reqs| && Continues(e, reqs, i, s, k)
    ensures Run(e, reqs, i, s) == Run(e, reqs, k, Advance(e, reqs, i, s, k))
    decreases k - i
  {
    if i < k {
      RunContinues(e, reqs, i, s);
      RunSkip(e, reqs, i + 1, Step(e, reqs, i, s).s, k);
    }
  }

  /** Clean requests [i, k) keep the walk going and its invariant true. */
  lemma {:induction false} CleanWalk(e: MoveEnv, reqs: seq<Request>, status0: seq<int>, i: nat, s: MoveState, k: nat)
    requires Smooth(e) && i <= k <= |reqs| && Walking(e, reqs, status0, i, s)
    requires forall j {:trigger Clean(e, reqs[j])} :: i <= j < k ==> Clean(e, reqs[j])
    ensures Continues(e, reqs, i, s, k) && Walking(e, reqs, status0, k, Advance(e, reqs, i, s, k))
    decreases k - i
  {
    if i < k {
      CleanStep(e, reqs, status0, i, s);
      CleanWalk(e, reqs, status0, i + 1, Step(e, reqs, i, s).s, k);
    }
  }

  /** The walk from request i, when requests [i, k) are clean and request
      k, if there is one, is not. */
  lemma RunWalking(e: MoveEnv, reqs: seq<Request>, status0: seq<int>, i: nat, s: MoveState, k: nat)
    requires Smooth(e) && i <= k <= |reqs| && Walking(e, reqs, status0, i, s)
    requires forall j {:trigger Clean(e, reqs[j])} :: i <= j < k ==> Clean(e, reqs[j])
    requires k < |reqs| ==> !reqs[k].readable || NodeCheck(e, reqs[k].node) != 0
    ensures Run(e, reqs, i, s).0 ==
      (if k == |reqs| then 0 else if !reqs[k].readable then -EFAULT else NodeCheck(e, reqs[k].node))
    ensures WalkedThrough(e, reqs, status0, k, Run(e, reqs, i, s).1)
  {
    CleanWalk(e, reqs, status0, i, s, k);
    RunSkip(e, reqs, i, s, k);
    WalkEnds(e, reqs, status0, Advance(e, reqs, i, s, k), k);
  }

  /** The walk at request k: the end of the requests, or a request that
      cannot be read or names a node that cannot be used. */
  lemma WalkEnds(e: MoveEnv, reqs: seq<Request>, status0: seq<int>, s: MoveState, k: nat)
    requires Smooth(e) && k <= |reqs| && Walking(e, reqs, status0, k, s)
    requires k < |reqs| ==> !reqs[k].readable || NodeCheck(e, reqs[k].node) != 0
    ensures Run(e, reqs, k, s).0 ==
      (if k == |reqs| then 0 else if !reqs[k].readable then -EFAULT else NodeCheck(e, reqs[k].node))
    ensures WalkedThrough(e, reqs, status0, k, Run(e, reqs, k, s).1)
  {
    if k == |reqs| {
      FinishWalking(e, reqs, status0, k, s, s.err);
      assert s.(err := s.err) == s;
      assert Run(e, reqs, k, s) == Finish(e, k, s);
    } else {
      var err := if !reqs[k].readable then -EFAULT else NodeCheck(e, reqs[k].node);
      RunStops(e, reqs, k, s);
      FinishWalking(e, reqs, status0, k, s, err);
    }
  }

  /** do_pages_move() when the status array never faults and every batch
      migrates: the walk stops at the first request that cannot be read
      (-EFAULT) or names a node that is not valid (-ENODEV) or not allowed
      (-EACCES), and returns 0 when there is none. Every request before
      that point reports its node, or its error when its page could not be
      added; the rest of the status array is untouched; each page queued
      went to exactly one batch, for its own request's node, in request
      order. */
  lemma PagesMoveReports(e: MoveEnv, reqs: seq<Request>, status0: seq<int>, k: nat)
    requires Smooth(e) && k <= |reqs| == |status0|
    requires forall j {:trigger Clean(e, reqs[j])} :: 0 <= j < k ==> Clean(e, reqs[j])
    requires k < |reqs| ==> !reqs[k].readable || NodeCheck(e, reqs[k].node) != 0
    ensures PagesMove(e, reqs, status0).0 ==
      (if k == |reqs| then 0 else if !reqs[k].readable then -EFAULT else NodeCheck(e, reqs[k].node))
    ensures WalkedThrough(e, reqs, status0, k, PagesMove(e, reqs, status0).1)
  {
    RunWalking(e, reqs, status0, 0, InitialState(status0), k);
  }

  /** The walk from request i keeps every batch in the mode the caller's
      flags ask for. */
  lemma {:induction false} RunModes(e: MoveEnv, reqs: seq<Request>, i: nat, s: MoveState)
    requires i <= |reqs| && AsRequested(e, s.batches)
    ensures AsRequested(e, Run(e, reqs, i, s).1.batches)
    decreases |reqs| - i
  {
    if i < |reqs| {
      var m := Step(e, reqs, i, s);
      if m.exit == Continue {
        RunModes(e, reqs, i + 1, m.s);
      }
    }
  }

  /** Every batch do_pages_move() hands to an orchestrator migrates in
      full MIGRATE_SYNC mode, carries exactly the MT and DMA bits of the
      caller's flags, and goes to migrate_pages_concur() exactly when
      MPOL_MF_MOVE_CONCUR is set; for every input, faults and failed
      batches included. */
  lemma BatchModes(e: MoveEnv, reqs: seq<Request>, status0: seq<int>)
    ensures forall b :: 0 <= b < |PagesMove(e, reqs, status0).1.batches| ==>
      var x := PagesMove(e, reqs, status0).1.batches[b];
      IsFullSync(x.mode) && x.mode.mt == e.moveMt && x.mode.dma == e.moveDma && x.concur == e.moveConcur
  {
    RunModes(e, reqs, 0, InitialState(status0));
  }

  /** A lone request for a hugetlbfs head that add_page_for_migration()
      reports as added but did not isolate: err is 1, the list is empty at
      out_flush, so the call returns 1 without storing any status. */
  lemma HugeHeadReturnsOne(e: MoveEnv, r: Request, status0: seq<int>)
    requires r.readable && NodeCheck(e, r.node) == 0 && |status0| == 1
    requires AddPageForMigration(r.lookup, r.node, e.moveAll) == Added(1, None, 0)
    ensures PagesMove(e, [r], status0).0 == 1
    ensures PagesMove(e, [r], status0).1.status == status0
    ensures PagesMove(e, [r], status0).1.batches == []
  {
    var s0 := InitialState(status0);
    var m := SwitchNode(e, 1, 0, r.node, s0);
    assert m == Moved(Continue, s0.(current := r.node, start := 0));
    var s1 := m.s.(err := 1);
    assert AddStep(e, 1, 0, r, m.s) == Moved(Continue, s1);
    assert Step(e, [r], 0, s0) == Moved(Continue, s1);
    assert Run(e, [r], 1, s1) == Finish(e, 1, s1) == (1, s1);
  }

  /** A batch that fails with a positive count ends the walk at request
      i, and the count returned also covers the requests after i that were
      never attempted. */
  lemma FailedBatchCounts(e: MoveEnv, reqs: seq<Request>, i: nat, s: MoveState)
    requires i < |reqs|
    requires var m := Step(e, reqs, i, s);
      |m.s.batches| > |s.batches| && m.s.batches[|m.s.batches| - 1].rc > 0
    ensures var m := Step(e, reqs, i, s);
      m.exit == Out && m.s.err == m.s.batches[|m.s.batches| - 1].rc + (|reqs| - i - 1)
  {
    var r := reqs[i];
    if r.readable && NodeCheck(e, r.node) == 0 {
      var m := SwitchNode(e, |reqs|, i, r.node, s);
      SwitchBatchCounts(e, |reqs|, i, r.node, s);
      if m.exit == Continue {
        AddBatchCounts(e, |reqs|, i, r, m.s);
      }
    }
  }

  /** The node switch: a batch it sends that fails with a positive count
      ends the walk with that count grown by the requests not attempted;
      when the walk goes on, any batch it sent migrated. */
  lemma SwitchBatchCounts(e: MoveEnv, n: nat, i: nat, node: int, s: MoveState)
    requires i < n
    ensures var m := SwitchNode(e, n, i, node, s);
      && |s.batches| <= |m.s.batches| && m.s.batches[..|s.batches|] == s.batches
      && (|m.s.batches| > |s.batches| && m.s.batches[|m.s.batches| - 1].rc > 0 ==>
            m.exit == Out && m.s.err == m.s.batches[|m.s.batches| - 1].rc + (n - i - 1))
      && (|m.s.batches| > |s.batches| && m.exit == Continue ==> m.s.batches[|m.s.batches| - 1].rc == 0)
  {
  }

  /** Adding a page: a batch it sends that fails with a positive count
      ends the walk with that count grown by the requests not attempted;
      when it sends none the batches stay as they were. */
  lemma AddBatchCounts(e: MoveEnv, n: nat, i: nat, r: Request, s: MoveState)
    requires i < n
    ensures var m := AddStep(e, n, i, r, s);
      && (|m.s.batches| > |s.batches| && m.s.batches[|m.s.batches| - 1].rc > 0 ==>
            m.exit == Out && m.s.err == m.s.batches[|m.s.batches| - 1].rc + (n - i - 1))
      && (|m.s.batches| <= |s.batches| ==> m.s.batches == s.batches)
  {
  }

  // --- The walk, step by step, on the user's status array

  /** do_move_pages_to_node(): hand a non-empty list to the orchestrator
      as one batch for `node`; the list comes back empty. */
  method MovePagesToNode(e: MoveEnv, node: int, pending: seq<Pfn>, batches: seq<Batch>)
    returns (rc: int, pending': seq<Pfn>, batches': seq<Batch>)
    ensures pending' == []
    ensures pending == [] ==> rc == 0 && batches' == batches
    ensures pending != [] ==> rc == FlushRc(e, |batches|) && batches' == batches + [ToNode(e, node, pending, rc)]
    ensures AsRequested(e, batches) ==> AsRequested(e, batches')
  {
    if pending == [] {
      return 0, [], batches;
    }
    rc := FlushRc(e, |batches|);
    pending' := [];
    batches' := batches + [ToNode(e, node, pending, rc)];
  }

  /** The first half of an iteration of do_pages_move()'s loop: open a
      group for the request's node, or flush the group of another node and
      store that node as the status of its requests. */
  method SwitchStep(e: MoveEnv, n: nat, i: nat, node: int, status: array<int>,
                    current: int, start: nat, pending: seq<Pfn>, batches: seq<Batch>, err: int)
    returns (exit: Exit, current': int, start': nat, pending': seq<Pfn>, batches': seq<Batch>, err': int)
    requires start <= i <= status.Length
    modifies status
    ensures start' <= i
    ensures Moved(exit, MoveState(current', start', pending', status[..], batches', err'))
         == SwitchNode(e, n, i, node, MoveState(current, start, pending, old(status[..]), batches, err))
  {
    current', start', pending', batches', err' := current, start, pending, batches, err;
    exit := Continue;
    if current == NUMA_NO_NODE {
      current', start' := node, i;
    } else if node != current {
      var rc;
      rc, pending', batches' := MovePagesToNode(e, current, pending, batches);
      if rc != 0 {
        return Out, current', start', pending', batches', Unattempted(rc, n, i);
      }
      err' := StoreStatus(status, e.badStatus, start, current, i - start);
      if err' != 0 {
        return Out, current', start', pending', batches', err';
      }
      start', current' := i, node;
    }
  }

  /** The second half: add the request's page, store its status at once
      when it is already on the node, and on a failure store the error,
      flush the group and store the node for the requests before it. */
  method AddPageStep(e: MoveEnv, n: nat, i: nat, r: Request, status: array<int>,
                     current: int, start: nat, pending: seq<Pfn>, batches: seq<Batch>, err: int)
    returns (exit: Exit, current': int, start': nat, pending': seq<Pfn>, batches': seq<Batch>, err': int)
    requires start <= i < status.Length
    modifies status
    ensures start' == start
    ensures Moved(exit, MoveState(current', start', pending', status[..], batches', err'))
         == AddStep(e, n, i, r, MoveState(current, start, pending, old(status[..]), batches, err))
  {
    current', start', pending', batches', err' := current, start, pending, batches, err;
    var a := AddPageForMigration(r.lookup, current, e.moveAll);
    if a.queued.Some? {
      pending' := pending' + [a.queued.value];
    }
    if a.rc == 0 {
      err' := StoreStatus(status, e.badStatus, i, current, 1);
      exit := if err' != 0 then OutFlush else Continue;
      return;
    } else if a.rc > 0 {
      return Continue, current', start', pending', batches', a.rc;
    }
    err' := StoreStatus(status, e.badStatus, i, a.rc, 1);
    if err' != 0 {
      return OutFlush, current', start', pending', batches', err';
    }
    ghost var s0 := MoveState(current, start, pending, old(status[..]), batches, err);
    ghost var s3 := MoveState(current', start', pending', status[..], batches', err');
    assert s3 == s0.(pending := s0.pending + (if a.queued.Some? then [a.queued.value] else []),
                     status := Stored(old(status[..]), e.badStatus, i, a.rc, 1), err := err');
    var rc;
    rc, pending', batches' := MovePagesToNode(e, current', pending', batches');
    assert Flush(e, s3) == (rc, MoveState(current', start', pending', status[..], batches', err'));
    if rc != 0 {
      return Out, current', start', pending', batches', Unattempted(rc, n, i);
    }
    if i > start {
      err' := StoreStatus(status, e.badStatus, start, current, i - start);
      exit := if err' != 0 then Out else Continue;
      if err' == 0 {
        current' := NUMA_NO_NODE;
      }
    } else {
      exit, current', err' := Continue, NUMA_NO_NODE, 0;
    }
  }

  /** One iteration of do_pages_move()'s loop over request i: the walk's
      variables before and after, and where the loop goes next. */
  method MoveStep(e: MoveEnv, reqs: seq<Request>, i: nat, status: array<int>,
                  current: int, start: nat, pending: seq<Pfn>, batches: seq<Batch>, err: int)
    returns (exit: Exit, current': int, start': nat, pending': seq<Pfn>, batches': seq<Batch>, err': int)
    requires start <= i < |reqs| == status.Length
    modifies status
    ensures start' <= i
    ensures Moved(exit, MoveState(current', start', pending', status[..], batches', err'))
         == Step(e, reqs, i, MoveState(current, start, pending, old(status[..]), batches, err))
  {
    var r := reqs[i];
    current', start', pending', batches', err' := current, start, pending, batches, err;
    if !r.readable {
      return OutFlush, current', start', pending', batches', -EFAULT;
    }
    var check := NodeCheck(e, r.node);
    if check != 0 {
      return OutFlush, current', start', pending', batches', check;
    }
    exit, current', start', pending', batches', err' :=
      SwitchStep(e, |reqs|, i, r.node, status, current, start, pending, batches, err);
    if exit != Continue {
      return;
    }
    exit, current', start', pending', batches', err' :=
      AddPageStep(e, |reqs|, i, r, status, current', start', pending', batches', err');
  }

  /** The out_flush label of do_pages_move(), reached with `i` requests
      walked: flush the list and store its node for the requests since
      `start`; an earlier error in `err` wins over the flush's result. */
  method FlushRest(e: MoveEnv, i: nat, status: array<int>,
                   current: int, start: nat, pending: seq<Pfn>, batches: seq<Batch>, err: int)
    returns (rc: int, batches': seq<Batch>)
    requires start <= i <= status.Length
    modifies status
    ensures var (r, f) := Finish(e, i, MoveState(current, start, pending, old(status[..]), batches, err));
      rc == r && status[..] == f.status && batches' == f.batches
  {
    if pending == [] {
      return err, batches;
    }
    var rc1, pending';
    rc1, pending', batches' := MovePagesToNode(e, current, pending, batches);
    if rc1 == 0 {
      rc1 := StoreStatus(status, e.badStatus, start, current, i - start);
    }
    rc := if err >= 0 then rc1 else err;
  }

  /** Where the walk stands after a step left it at request `i` with exit
      `m.exit`: still walking, about to flush and return, or returning. */
  function Resume(e: MoveEnv, reqs: seq<Request>, i: nat, m: Moved): (int, MoveState)
    requires i <= |reqs|
  {
    match m.exit
    case Continue => Run(e, reqs, i, m.s)
    case OutFlush => Finish(e, i, m.s)
    case Out => (m.s.err, m.s)
  }

  /** One step of the walk does not change where it ends. */
  lemma ResumeStep(e: MoveEnv, reqs: seq<Request>, i: nat, s: MoveState)
    requires i < |reqs|
    ensures var m := Step(e, reqs, i, s);
      Resume(e, reqs, if m.exit == Continue then i + 1 else i, m) == Run(e, reqs, i, s)
  {
  }

  /** A walk that ran out of requests, or left for out_flush, ends with the
      flush. */
  lemma ResumeFinish(e: MoveEnv, reqs: seq<Request>, i: nat, m: Moved)
    requires i <= |reqs| && m.exit != Out && (m.exit == Continue ==> i == |reqs|)
    ensures Resume(e, reqs, i, m) == Finish(e, i, m.s)
  {
  }

  /** One turn of do_pages_move()'s loop, at request `i`: the walk from the
      new position ends where the walk from `i` did. */
  method WalkStep(e: MoveEnv, reqs: seq<Request>, i: nat, status: array<int>,
                  current: int, start: nat, pending: seq<Pfn>, batches: seq<Batch>, err: int)
    returns (exit: Exit, i': nat, current': int, start': nat, pending': seq<Pfn>, batches': seq<Batch>, err': int)
    requires start <= i < |reqs| == status.Length
    modifies status
    ensures start' <= i' <= |reqs|
    ensures if exit == Continue then i' == i + 1 else i' == i
    ensures Resume(e, reqs, i', Moved(exit, MoveState(current', start', pending', status[..], batches', err')))
         == Run(e, reqs, i, MoveState(current, start, pending, old(status[..]), batches, err))
  {
    ghost var before := MoveState(current, start, pending, status[..], batches, err);
    exit, current', start', pending', batches', err' := MoveStep(e, reqs, i, status, current, start, pending, batches, err);
    ResumeStep(e, reqs, i, before);
    i' := if exit == Continue then i + 1 else i;
  }

  /** do_pages_move(): walk the requests, grouping consecutive requests
      for one node into one batch, and fill the status array; the result
      and the array are what the walk `PagesMove` gives, and `batches`
      lists the batches handed to the orchestrator. */
  method DoPagesMove(e: MoveEnv, reqs: seq<Request>, status: array<int>) returns (rc: int, batches: seq<Batch>)
    requires status.Length == |reqs|
    modifies status
    ensures var (r, s) := PagesMove(e, reqs, old(status[..]));
      rc == r && status[..] == s.status && batches == s.batches
  {
    ghost var total := PagesMove(e, reqs, status[..]);
    var current: int, start: nat, pending: seq<Pfn>, err: int := NUMA_NO_NODE, 0, [], 0;
    batches := [];
    var i: nat := 0;
    var exit := Continue;
    while i < |reqs| && exit == Continue
      invariant start <= i <= |reqs|
      invariant Resume(e, reqs, i, Moved(exit, MoveState(current, start, pending, status[..], batches, err))) == total
      decreases |reqs| - i, if exit == Continue then 1 else 0
    {
      exit, i, current, start, pending, batches, err := WalkStep(e, reqs, i, status, current, start, pending, batches, err);
    }
    if exit == Out {
      return err, batches;
    }
    ResumeFinish(e, reqs, i, Moved(exit, MoveState(current, start, pending, status[..], batches, err)));
    rc, batches := FlushRest(e, i, status, current, start, pending, batches, err);
  }

  // ---------------------------------------------------------------------
  // do_pages_stat()

  /** What do_pages_stat_array() reports for an address: the node of its
      page, or the error of the lookup. Unlike add_page_for_migration() it
      does not ask whether the VMA allows migration. */
  function PageNode(l: Lookup): int {
    if l.vma.NoVma? || !l.vma.covers then -EFAULT
    else match l.page
      case PageError(errno) => -(errno as int)
      case NoPage => -ENOENT
      case Page(p) => p.nid
  }

  /** The query agrees with the move: a page the move found already on
      the target node is reported on that node, and the move's lookup
      errors are the query's, for a VMA that allows migration. */
  lemma PageNodeAgrees(l: Lookup, node: int, migrateAll: bool)
    ensures AddPageForMigration(l, node, migrateAll).rc == 0 ==> PageNode(l) == node
    ensures l.vma.Vma? && l.vma.covers && l.vma.migratable && !l.page.Page? ==>
              PageNode(l) == AddPageForMigration(l, node, migrateAll).rc < 0
    ensures l.page.Page? && l.vma.Vma? && l.vma.covers ==> PageNode(l) == l.page.p.nid
  {
  }

  /** do_pages_stat_array(): the node of each address, or its error. */
  method PagesStatArray(pages: seq<Lookup>, status: array<int>)
    requires |pages| <= status.Length
    modifies status
    ensures forall j :: 0 <= j < |pages| ==> status[j] == PageNode(pages[j])
  {
    var i := 0;
    while i < |pages|
      invariant 0 <= i <= |pages|
      invariant forall j :: 0 <= j < i ==> status[j] == PageNode(pages[j])
    {
      status[i] := PageNode(pages[i]);
      i := i + 1;
    }
  }

  /** Chunks [0, c] were read from and copied back to user memory. */
  predicate ChunksCopied(readFault: set<nat>, writeFault: set<nat>, c: nat) {
    forall d | 0 <= d <= c :: d !in readFault && d !in writeFault
  }

  /** The copy_to_user() of one chunk of statuses back to the caller's
      array, at the chunk's place. */
  method StoreChunk(status: array<int>, lookups: seq<Lookup>, done: nat, chunk: nat, chunkStatus: array<int>)
    requires status != chunkStatus
    requires done + chunk <= |lookups| == status.Length && chunk <= chunkStatus.Length
    requires forall k :: 0 <= k < chunk ==> chunkStatus[k] == PageNode(lookups[done..done + chunk][k])
    modifies status
    ensures forall j :: 0 <= j < status.Length ==>
      status[j] == if done <= j < done + chunk then PageNode(lookups[j]) else old(status[j])
  {
    forall k | 0 <= k < chunk {
      status[done + k] := chunkStatus[k];
    }
    forall j | done <= j < done + chunk
      ensures status[j] == PageNode(lookups[j])
    {
      assert lookups[done..done + chunk][j - done] == lookups[j];
    }
  }

  /** do_pages_stat(): the addresses go through in chunks of
      DO_PAGES_STAT_CHUNK_NR; a chunk whose addresses cannot be read
      (`readFault`) or whose statuses cannot be copied back (`writeFault`)
      stops the walk with -EFAULT. Each address of a chunk that went
      through reports its node or error; the rest of the array is left as
      it was. */
  method DoPagesStat(lookups: seq<Lookup>, status: array<int>, readFault: set<nat>, writeFault: set<nat>)
    returns (rc: int)
    requires status.Length == |lookups|
    modifies status
    ensures forall j :: 0 <= j < |lookups| ==>
      status[j] == if ChunksCopied(readFault, writeFault, j / DO_PAGES_STAT_CHUNK_NR) then PageNode(lookups[j]) else old(status[j])
    ensures rc == 0 <==> forall j :: 0 <= j < |lookups| ==> ChunksCopied(readFault, writeFault, j / DO_PAGES_STAT_CHUNK_NR)
    ensures rc != 0 ==> rc == -EFAULT
  {
    var chunkStatus := new int[DO_PAGES_STAT_CHUNK_NR];
    var done := 0;
    var left := |lookups|;
    var c := 0;  // the chunk being copied
    ghost var stopped := false;
    while left > 0
      invariant 0 <= done && 0 <= left && done + left == |lookups|
      invariant done <= c * DO_PAGES_STAT_CHUNK_NR && (left > 0 ==> done == c * DO_PAGES_STAT_CHUNK_NR)
      invariant c > 0 ==> ChunksCopied(readFault, writeFault, c - 1)
      invariant forall j :: 0 <= j < done ==> status[j] == PageNode(lookups[j])
      invariant forall j :: done <= j < |lookups| ==> status[j] == old(status[j])
    {
      var chunk := if left > DO_PAGES_STAT_CHUNK_NR then DO_PAGES_STAT_CHUNK_NR else left;
      if c in readFault {
        stopped := true;
        break;
      }
      PagesStatArray(lookups[done..done + chunk], chunkStatus);
      if c in writeFault {
        stopped := true;
        break;
      }
      StoreChunk(status, lookups, done, chunk, chunkStatus);
      done, left, c := done + chunk, left - chunk, c + 1;
    }
    rc := if left != 0 then -EFAULT else 0;
    forall j | 0 <= j < |lookups|
      ensures ChunksCopied(readFault, writeFault, j / DO_PAGES_STAT_CHUNK_NR) <==> j < done
    {
      if j < done {
        assert j / DO_PAGES_STAT_CHUNK_NR <= c - 1;
      } else {
        assert stopped && c <= j / DO_PAGES_STAT_CHUNK_NR;
      }
    }
    if left != 0 {
      assert !ChunksCopied(readFault, writeFault, done / DO_PAGES_STAT_CHUNK_NR);
    }
  }

  // ---------------------------------------------------------------------
  // kernel_move_pages()

  /** What kernel_move_pages() finds about its caller and target: whether
      the caller has CAP_SYS_NICE, whether the pid names a task, whether
      ptrace access is allowed, the security hook's result, and whether the
      task has an address space. */
  datatype Caller = Caller(capable: bool, taskFound: bool, mayAccess: bool, securityRc: int, hasMm: bool)

  /** Where kernel_move_pages() goes: an early error, do_pages_move() when
      a nodes array is given, do_pages_stat() otherwise. */
  datatype Path = Rejected(rc: int) | MovePath | StatPath

  function MovePagesPath(f: MoveFlags, c: Caller, nodesGiven: bool): Path {
    var check := CheckFlags(f, c.capable);
    if check != 0 then Rejected(check)
    else if !c.taskFound then Rejected(-ESRCH)
    else if !c.mayAccess then Rejected(-EPERM)
    else if c.securityRc != 0 then Rejected(c.securityRc)
    else if !c.hasMm then Rejected(-EINVAL)
    else if nodesGiven then MovePath
    else StatPath
  }

  /** The flag checks come before anything else: an unknown bit is -EINVAL
      and MPOL_MF_MOVE_ALL without CAP_SYS_NICE is -EPERM whoever the
      target is; a call that passes every check moves pages when given
      nodes and only queries them otherwise. */
  lemma MovePagesPathCases(f: MoveFlags, c: Caller, nodesGiven: bool)
    ensures f.other ==> MovePagesPath(f, c, nodesGiven) == Rejected(-EINVAL)
    ensures !f.other && f.moveAll && !c.capable ==> MovePagesPath(f, c, nodesGiven) == Rejected(-EPERM)
    ensures !MovePagesPath(f, c, nodesGiven).Rejected? <==>
      CheckFlags(f, c.capable) == 0 && c.taskFound && c.mayAccess && c.securityRc == 0 && c.hasMm
    ensures MovePagesPath(f, c, nodesGiven) == MovePath ==> nodesGiven
    ensures MovePagesPath(f, c, nodesGiven) == StatPath ==> !nodesGiven
  {
  }
}
