/** The reference-count gate and the page-cache handoff:
    migrate_page_move_mapping() and the zone accounting that goes with it. */
module MoveMapping {
  import opened Errno
  import opened Frames

  /** The part of `struct address_space` the handoff touches: the page-cache
      slots (`i_pages`) and whether the mapping accounts dirty pages. */
  class AddressSpace {
    var iPages: map<nat, Pfn>
    const accountsDirty: bool

    constructor (accountsDirty: bool)
      ensures this.accountsDirty == accountsDirty && iPages == map[]
    {
      this.accountsDirty := accountsDirty;
      iPages := map[];
    }
  }

  /** The page-cache slots a frame occupies: HPAGE_PMD_NR for a compound
      page, one otherwise. */
  function SlotSpan(page: Frame): nat {
    if PageTransHuge(page) then HPAGE_PMD_NR else 1
  }

  /** The slots after storing `p` at every index of [base, base + span). */
  function Repoint(slots: map<nat, Pfn>, base: nat, span: nat, p: Pfn): (r: map<nat, Pfn>)
    ensures forall k :: k in r <==> k in slots || base <= k < base + span
    ensures forall k :: base <= k < base + span ==> r[k] == p
    ensures forall k :: k in slots && !(base <= k < base + span) ==> r[k] == slots[k]
  {
    if span == 0 then slots else Repoint(slots, base, span - 1, p)[base + span - 1 := p]
  }

  /** One more slot stored. */
  lemma RepointNext(slots: map<nat, Pfn>, base: nat, i: nat, p: Pfn)
    ensures Repoint(slots, base, i + 1, p) == Repoint(slots, base, i, p)[base + i := p]
  {
  }

  /** Does the slot at `index` hold `page` (xas_load(&xas) == page)? */
  predicate SlotHolds(slots: map<nat, Pfn>, index: nat, page: Pfn) {
    index in slots && slots[index] == page
  }

  /** Moves `d` from counter `src` to counter `dst`. */
  function Transfer(m: map<StatItem, int>, src: StatItem, dst: StatItem, d: int): (r: map<StatItem, int>)
    ensures Stat(r, src) + Stat(r, dst) == Stat(m, src) + Stat(m, dst)
    ensures src != dst ==> Stat(r, src) == Stat(m, src) - d && Stat(r, dst) == Stat(m, dst) + d
    ensures forall k :: k != src && k != dst ==> Stat(r, k) == Stat(m, k)
  {
    Bump(Bump(m, src, -d), dst, d)
  }

  /** The node counters moved from `o`'s node to `n`'s node when the frame
      changes zone: NR_FILE_PAGES, NR_SHMEM for a swap-backed page outside
      the swap cache, and NR_FILE_DIRTY for a dirty page of a mapping that
      accounts dirty pages. */
  function NodeTransfers(vmstat: map<StatItem, int>, o: Frame, n: Frame, dirty: bool, accountsDirty: bool)
    : map<StatItem, int>
  {
    var s1 := Transfer(vmstat, NodeStat(o.node, NrFilePages), NodeStat(n.node, NrFilePages), 1);
    var s2 := if SwapBacked in o.flags && SwapCache !in o.flags
      then Transfer(s1, NodeStat(o.node, NrShmem), NodeStat(n.node, NrShmem), 1)
      else s1;
    if dirty && accountsDirty then Transfer(s2, NodeStat(o.node, NrFileDirty), NodeStat(n.node, NrFileDirty), 1)
    else s2
  }

  /** The per-node and per-zone counters after a frame moved from `o`'s zone
      to `n`'s zone (the tail of migrate_page_move_mapping): the node
      counters, and NR_ZONE_WRITE_PENDING with the dirty count. */
  function ZoneAccounting(vmstat: map<StatItem, int>, o: Frame, n: Frame, dirty: bool, accountsDirty: bool)
    : (r: map<StatItem, int>)
    ensures o.zone == n.zone ==> r == vmstat
  {
    if o.zone == n.zone then vmstat
    else
      var s := NodeTransfers(vmstat, o, n, dirty, accountsDirty);
      if dirty && accountsDirty then
        Transfer(s, ZoneStat(o.zone, NrZoneWritePending), ZoneStat(n.zone, NrZoneWritePending), 1)
      else s
  }

  /** Zone accounting only moves counts between the two frames' nodes: a
      counter of any other node keeps its value, and the sum over the two
      frames' nodes is unchanged. */
  lemma NodeAccountingBalanced(vmstat: map<StatItem, int>, o: Frame, n: Frame, dirty: bool, accountsDirty: bool,
                               nd: nat, it: NodeItem)
    ensures var r := ZoneAccounting(vmstat, o, n, dirty, accountsDirty);
      && (nd != o.node && nd != n.node ==> Stat(r, NodeStat(nd, it)) == Stat(vmstat, NodeStat(nd, it)))
      && Stat(r, NodeStat(o.node, it)) + Stat(r, NodeStat(n.node, it))
           == Stat(vmstat, NodeStat(o.node, it)) + Stat(vmstat, NodeStat(n.node, it))
  {
    if o.zone != n.zone {
      NodeTransfersBalanced(vmstat, o, n, dirty, accountsDirty, nd, it);
      if dirty && accountsDirty {
        ZoneTransferKeepsNodes(NodeTransfers(vmstat, o, n, dirty, accountsDirty), o.zone, n.zone, NrZoneWritePending, it);
      }
    }
  }

  /** The node transfers keep a third node's counters and the two nodes' sum. */
  lemma NodeTransfersBalanced(vmstat: map<StatItem, int>, o: Frame, n: Frame, dirty: bool, accountsDirty: bool,
                              nd: nat, it: NodeItem)
    ensures var r := NodeTransfers(vmstat, o, n, dirty, accountsDirty);
      && (nd != o.node && nd != n.node ==> Stat(r, NodeStat(nd, it)) == Stat(vmstat, NodeStat(nd, it)))
      && Stat(r, NodeStat(o.node, it)) + Stat(r, NodeStat(n.node, it))
           == Stat(vmstat, NodeStat(o.node, it)) + Stat(vmstat, NodeStat(n.node, it))
  {
    var s1 := Transfer(vmstat, NodeStat(o.node, NrFilePages), NodeStat(n.node, NrFilePages), 1);
    TransferNodePair(vmstat, o.node, n.node, NrFilePages, it, nd);
    var s2 := if SwapBacked in o.flags && SwapCache !in o.flags
      then Transfer(s1, NodeStat(o.node, NrShmem), NodeStat(n.node, NrShmem), 1)
      else s1;
    TransferNodePair(s1, o.node, n.node, NrShmem, it, nd);
    TransferNodePair(s2, o.node, n.node, NrFileDirty, it, nd);
  }

  /** One Transfer between the same item of two nodes keeps every counter
      of a third node and the two nodes' sum of any item. */
  lemma TransferNodePair(m: map<StatItem, int>, a: nat, b: nat, moved: NodeItem, it: NodeItem, nd: nat)
    ensures var r := Transfer(m, NodeStat(a, moved), NodeStat(b, moved), 1);
      && (nd != a && nd != b ==> Stat(r, NodeStat(nd, it)) == Stat(m, NodeStat(nd, it)))
      && Stat(r, NodeStat(a, it)) + Stat(r, NodeStat(b, it)) == Stat(m, NodeStat(a, it)) + Stat(m, NodeStat(b, it))
  {
  }

  /** A Transfer between zone counters leaves every node counter alone. */
  lemma ZoneTransferKeepsNodes(m: map<StatItem, int>, a: nat, b: nat, moved: ZoneItem, it: NodeItem)
    ensures var r := Transfer(m, ZoneStat(a, moved), ZoneStat(b, moved), 1);
      forall x :: Stat(r, NodeStat(x, it)) == Stat(m, NodeStat(x, it))
  {
  }

  /** The same for zone counters. */
  lemma ZoneCounterBalanced(vmstat: map<StatItem, int>, o: Frame, n: Frame, dirty: bool, accountsDirty: bool,
                            z: nat, zi: ZoneItem)
    ensures var r := ZoneAccounting(vmstat, o, n, dirty, accountsDirty);
      && (z != o.zone && z != n.zone ==> Stat(r, ZoneStat(z, zi)) == Stat(vmstat, ZoneStat(z, zi)))
      && Stat(r, ZoneStat(o.zone, zi)) + Stat(r, ZoneStat(n.zone, zi))
           == Stat(vmstat, ZoneStat(o.zone, zi)) + Stat(vmstat, ZoneStat(n.zone, zi))
  {
    if o.zone != n.zone {
      NodeTransfersKeepZones(vmstat, o, n, dirty, accountsDirty, z, zi);
      NodeTransfersKeepZones(vmstat, o, n, dirty, accountsDirty, o.zone, zi);
      NodeTransfersKeepZones(vmstat, o, n, dirty, accountsDirty, n.zone, zi);
    }
  }

  /** The node transfers leave every zone counter alone. */
  lemma NodeTransfersKeepZones(vmstat: map<StatItem, int>, o: Frame, n: Frame, dirty: bool, accountsDirty: bool,
                               z: nat, zi: ZoneItem)
    ensures Stat(NodeTransfers(vmstat, o, n, dirty, accountsDirty), ZoneStat(z, zi)) == Stat(vmstat, ZoneStat(z, zi))
  {
  }

  /** Which counters move, and by how much, when the frame changes node:
      one cached page always, one shmem page for swap-backed pages outside
      the swap cache, one dirty page only for a dirty page of a mapping that
      accounts dirty pages. */
  lemma ZoneAccountingMoves(vmstat: map<StatItem, int>, o: Frame, n: Frame, dirty: bool, accountsDirty: bool)
    requires o.zone != n.zone && o.node != n.node
    ensures var r := ZoneAccounting(vmstat, o, n, dirty, accountsDirty);
      && Stat(r, NodeStat(n.node, NrFilePages)) == Stat(vmstat, NodeStat(n.node, NrFilePages)) + 1
      && Stat(r, NodeStat(n.node, NrShmem))
           == Stat(vmstat, NodeStat(n.node, NrShmem)) + (if SwapBacked in o.flags && SwapCache !in o.flags then 1 else 0)
      && Stat(r, NodeStat(n.node, NrFileDirty))
           == Stat(vmstat, NodeStat(n.node, NrFileDirty)) + (if dirty && accountsDirty then 1 else 0)
      && Stat(r, ZoneStat(n.zone, NrZoneWritePending))
           == Stat(vmstat, ZoneStat(n.zone, NrZoneWritePending)) + (if dirty && accountsDirty then 1 else 0)
  {
    var s := NodeTransfers(vmstat, o, n, dirty, accountsDirty);
    NodeTransfersKeepZones(vmstat, o, n, dirty, accountsDirty, n.zone, NrZoneWritePending);
    ZoneTransferKeepsNodes(s, o.zone, n.zone, NrZoneWritePending, NrFilePages);
    ZoneTransferKeepsNodes(s, o.zone, n.zone, NrZoneWritePending, NrShmem);
    ZoneTransferKeepsNodes(s, o.zone, n.zone, NrZoneWritePending, NrFileDirty);
  }

  /** The new frame after an anonymous page without a mapping is handed
      over: it takes the index, the mapping and the swap-backed bit. */
  function AnonTakeover(o: Frame, n: Frame): Frame
  {
    n.(index := o.index, mapping := o.mapping,
       flags := if SwapBacked in o.flags then n.flags + {SwapBacked} else n.flags)
  }

  /** The new frame after a page-cache page is handed over: it also takes
      one cache reference per sub-page, the swap-cache state and the dirty
      bit. */
  function CacheTakeover(o: Frame, n: Frame): Frame
  {
    var swapCache := SwapBacked in o.flags && SwapCache in o.flags;
    var f1 := if SwapBacked in o.flags then n.flags + {SwapBacked} else n.flags;
    var f2 := if swapCache then f1 + {SwapCache} else f1;
    n.(index := o.index, mapping := o.mapping, count := n.count + HPageNrPages(o),
       flags := if Dirty in o.flags then f2 + {Dirty} else f2,
       private := if swapCache then o.private else n.private)
  }

  /** The old frame after the handoff: unfrozen to one reference less per
      sub-page than the frozen count, and clean. */
  function CacheRelease(o: Frame, expected: int): Frame
  {
    o.(count := expected - HPageNrPages(o), flags := o.flags - {Dirty})
  }

  /** Result of the handoff: return code and the new frames, slots and counters. */
  datatype Handoff = Handoff(rc: int, frames: map<Pfn, Frame>, slots: map<nat, Pfn>, vmstat: map<StatItem, int>)

  /** The handoff as a function of the state before it. `hasMapping` says
      whether an address_space was passed; `slots` are its i_pages. */
  function Handoffs(frames: map<Pfn, Frame>, hasMapping: bool, slots: map<nat, Pfn>, accountsDirty: bool,
                    vmstat: map<StatItem, int>, newpage: Pfn, page: Pfn, extraCount: int): Handoff
    requires page in frames && newpage in frames && page != newpage
  {
    var o := frames[page];
    var n := frames[newpage];
    var expected := ExpectedPageRefs(hasMapping, o) + extraCount;
    if !hasMapping then
      if o.count != expected then Handoff(-EAGAIN, frames, slots, vmstat)
      else Handoff(MIGRATEPAGE_SUCCESS, frames[newpage := AnonTakeover(o, n)], slots, vmstat)
    else if o.count != expected || !SlotHolds(slots, o.index, page) then
      Handoff(-EAGAIN, frames, slots, vmstat)
    else
      Handoff(MIGRATEPAGE_SUCCESS, frames[newpage := CacheTakeover(o, n)][page := CacheRelease(o, expected)],
              Repoint(slots, o.index, SlotSpan(o), newpage),
              ZoneAccounting(vmstat, o, n, Dirty in o.flags, accountsDirty))
  }

  /** What migrate_page_move_mapping promises: the reference-count gate
      decides between exactly two outcomes and a refused handoff changes
      nothing; only the two frames change, and never their content. */
  lemma HandoffGate(frames: map<Pfn, Frame>, hasMapping: bool, slots: map<nat, Pfn>, accountsDirty: bool,
                    vmstat: map<StatItem, int>, newpage: Pfn, page: Pfn, extraCount: int)
    requires page in frames && newpage in frames && page != newpage
    ensures var r := Handoffs(frames, hasMapping, slots, accountsDirty, vmstat, newpage, page, extraCount);
      && (r.rc == MIGRATEPAGE_SUCCESS || r.rc == -EAGAIN)
      && (r.rc == -EAGAIN <==>
            frames[page].count != ExpectedPageRefs(hasMapping, frames[page]) + extraCount
            || (hasMapping && !SlotHolds(slots, frames[page].index, page)))
      && (r.rc == -EAGAIN ==> r.frames == frames && r.slots == slots && r.vmstat == vmstat)
      && r.frames.Keys == frames.Keys
      && (forall q :: q in frames && q != page && q != newpage ==> r.frames[q] == frames[q])
      && r.frames[newpage].content == frames[newpage].content
      && r.frames[page].content == frames[page].content
  {
  }

  /** An accepted handoff gives the new frame the old frame's identity. For
      an anonymous page without a mapping nothing else moves. */
  lemma HandoffIdentity(frames: map<Pfn, Frame>, hasMapping: bool, slots: map<nat, Pfn>, accountsDirty: bool,
                        vmstat: map<StatItem, int>, newpage: Pfn, page: Pfn, extraCount: int)
    requires page in frames && newpage in frames && page != newpage
    requires Handoffs(frames, hasMapping, slots, accountsDirty, vmstat, newpage, page, extraCount).rc == MIGRATEPAGE_SUCCESS
    ensures var r := Handoffs(frames, hasMapping, slots, accountsDirty, vmstat, newpage, page, extraCount);
      && r.frames[newpage].index == frames[page].index
      && r.frames[newpage].mapping == frames[page].mapping
      && (SwapBacked in frames[page].flags ==> SwapBacked in r.frames[newpage].flags)
      && (!hasMapping ==>
            r.frames[page] == frames[page] && r.slots == slots && r.vmstat == vmstat
            && r.frames[newpage].count == frames[newpage].count)
  {
  }

  /** An accepted handoff of a page with a mapping: every slot of the page
      now names the new frame and the other slots are untouched; the cache's
      references move across (the old frame keeps expected - nr_pages); the
      dirty bit moves; a swap-cache page hands its swap entry over. */
  lemma HandoffWithMapping(frames: map<Pfn, Frame>, slots: map<nat, Pfn>, accountsDirty: bool,
                           vmstat: map<StatItem, int>, newpage: Pfn, page: Pfn, extraCount: int)
    requires page in frames && newpage in frames && page != newpage
    requires Handoffs(frames, true, slots, accountsDirty, vmstat, newpage, page, extraCount).rc == MIGRATEPAGE_SUCCESS
    ensures var r := Handoffs(frames, true, slots, accountsDirty, vmstat, newpage, page, extraCount);
      var o := frames[page];
      && (forall k :: o.index <= k < o.index + SlotSpan(o) ==> k in r.slots && r.slots[k] == newpage)
      && (forall k :: k in slots && !(o.index <= k < o.index + SlotSpan(o)) ==> k in r.slots && r.slots[k] == slots[k])
      && r.frames[newpage].count == frames[newpage].count + HPageNrPages(o)
      && r.frames[page].count == ExpectedPageRefs(true, o) + extraCount - HPageNrPages(o)
      && r.frames[page].flags == o.flags - {Dirty}
      && r.frames[page].index == o.index && r.frames[page].mapping == o.mapping
      && (Dirty in r.frames[newpage].flags <==> Dirty in o.flags || Dirty in frames[newpage].flags)
      && (SwapBacked in o.flags && SwapCache in o.flags ==>
            SwapCache in r.frames[newpage].flags && r.frames[newpage].private == o.private)
  {
  }

  /** xas_store() of `p` at `base`, then xas_next()/xas_store() for the
      remaining `span - 1` slots. */
  method StoreSlots(mapping: AddressSpace, base: nat, span: nat, p: Pfn)
    requires span >= 1
    modifies mapping
    ensures mapping.iPages == Repoint(old(mapping.iPages), base, span, p)
  {
    ghost var slots0 := mapping.iPages;
    RepointNext(slots0, base, 0, p);
    var slots := mapping.iPages[base := p];
    var i := 1;
    while i < span
      invariant 1 <= i <= span
      invariant slots == Repoint(slots0, base, i, p)
    {
      RepointNext(slots0, base, i, p);
      slots := slots[base + i := p];
      i := i + 1;
    }
    mapping.iPages := slots;
  }

  /** migrate_page_move_mapping(): the handoff on the live state. The slot
      stores walk the page's slots one at a time, as xas_next() does. */
  method MigratePageMoveMapping(mem: Memory, mapping: AddressSpace?, newpage: Pfn, page: Pfn, extraCount: int)
    returns (rc: int)
    requires page in mem.frames && newpage in mem.frames && page != newpage
    modifies mem, mapping
    ensures var h := Handoffs(old(mem.frames), mapping != null, if mapping != null then old(mapping.iPages) else map[],
                              mapping != null && mapping.accountsDirty, old(mem.vmstat), newpage, page, extraCount);
      rc == h.rc && mem.frames == h.frames && mem.vmstat == h.vmstat
      && (mapping != null ==> mapping.iPages == h.slots)
    ensures mem.events == old(mem.events)
  {
    var o := mem.frames[page];
    var n := mem.frames[newpage];
    var expected := ExpectedPageRefs(mapping != null, o) + extraCount;

    if mapping == null {
      // anonymous page without a mapping
      if o.count != expected {
        return -EAGAIN;
      }
      mem.frames := mem.frames[newpage := AnonTakeover(o, n)];
      return MIGRATEPAGE_SUCCESS;
    }

    if o.count != expected || !SlotHolds(mapping.iPages, o.index, page) {
      return -EAGAIN;
    }
    // the count is frozen at `expected`; nobody else can look at the page now
    var n1 := CacheTakeover(o, n);
    StoreSlots(mapping, o.index, SlotSpan(o), newpage);
    // unfreeze to one less than the frozen count per sub-page: the cache's references moved
    mem.frames := mem.frames[newpage := n1][page := CacheRelease(o, expected)];
    mem.vmstat := ZoneAccounting(mem.vmstat, o, n, Dirty in o.flags, mapping.accountsDirty);
    rc := MIGRATEPAGE_SUCCESS;
  }
}
