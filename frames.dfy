/** Physical frames (`struct page`) and the machine-wide state they live in.

    A frame is a value; the kernel's array of `struct page` together with the
    per-node and per-zone statistics is the one mutable object `Memory`. */
module Frames {
  import opened Errno

  /** Page frame number: identity of a frame. */
  type Pfn = nat

  /** The bytes of one base page. */
  type Subpage = seq<bv8>

  /** Sub-pages of a transparent huge page (a PMD-sized page). */
  const HPAGE_PMD_NR: nat := 512

  /** Page flag bits (PG_*), plus the page_ext young/idle bits. */
  datatype PG =
    | Locked | Error | Referenced | Uptodate | Dirty | Lru | Active | Unevictable
    | Workingset | Checked | MappedToDisk | SwapBacked | SwapCache | Private | Private2
    | Writeback | Young | Idle | Isolated

  /** What `page->mapping` points at; the low tag bits of the pointer become
      the constructor. */
  datatype MappingRef =
    | NoMapping
    | Anon(anonVma: nat)        // PAGE_MAPPING_ANON
    | Ksm(stableNode: nat)      // PAGE_MAPPING_ANON | PAGE_MAPPING_KSM
    | File(space: nat)          // a file's address_space
    | Movable(space: nat)       // PAGE_MAPPING_MOVABLE: driver-managed, non-LRU

  /** Head-page kind: a base page, a transparent huge page, or a hugetlbfs
      page made of `nr` base pages. */
  datatype Kind = Base | TransHuge | HugeTlb(nr: nat)

  datatype Frame = Frame(
    count: int,            // _refcount
    mapcount: int,         // number of page-table entries mapping the frame
    mapping: MappingRef,
    index: nat,            // offset in the owning mapping
    flags: set<PG>,
    private: int,          // page_private()
    cpupid: int,           // last cpu/pid that accessed it (NUMA balancing)
    kind: Kind,
    devicePrivate: bool,   // ZONE_DEVICE private page
    node: nat,             // page_to_nid()
    zone: nat,             // page_zone(), a machine-wide zone number
    content: seq<Subpage>) // one entry per base sub-page

  /** Number of base pages the frame's content spans. */
  function Subpages(f: Frame): nat {
    match f.kind
    case Base => 1
    case TransHuge => HPAGE_PMD_NR
    case HugeTlb(n) => n
  }

  predicate WellFormed(f: Frame) {
    Subpages(f) >= 1 && |f.content| == Subpages(f)
  }

  predicate PageHuge(f: Frame) { f.kind.HugeTlb? }

  /** A compound head page (hugetlbfs pages included, as in the kernel). */
  predicate PageTransHuge(f: Frame) { !f.kind.Base? }

  /** hpage_nr_pages(): HPAGE_PMD_NR for a compound head, 1 otherwise. */
  function HPageNrPages(f: Frame): nat {
    if PageTransHuge(f) then HPAGE_PMD_NR else 1
  }

  predicate PageAnon(f: Frame) { f.mapping.Anon? || f.mapping.Ksm? }

  predicate PageKsm(f: Frame) { f.mapping.Ksm? }

  /** __PageMovable(): a non-LRU page owned by a driver. */
  predicate PageMovableTag(f: Frame) { f.mapping.Movable? }

  /** PageMappingFlags(): any tag bit set in page->mapping. */
  predicate PageMappingFlags(f: Frame) { PageAnon(f) || PageMovableTag(f) }

  /** page_mapping() != NULL: a file or driver mapping, or the swap cache
      for an anonymous page that is in it. */
  predicate HasPageMapping(f: Frame) {
    f.mapping.File? || f.mapping.Movable? || (PageAnon(f) && SwapCache in f.flags)
  }

  /** page_has_private(): PG_private or PG_private_2. */
  predicate PageHasPrivate(f: Frame) { Private in f.flags || Private2 in f.flags }

  predicate PageMapped(f: Frame) { f.mapcount > 0 }

  /** Per-node and per-zone statistics items touched by migration. */
  datatype NodeItem = NrFilePages | NrShmem | NrFileDirty | NrIsolatedAnon | NrIsolatedFile
  datatype ZoneItem = NrZoneWritePending
  datatype StatItem = NodeStat(node: nat, item: NodeItem) | ZoneStat(zone: nat, zitem: ZoneItem)

  /** vm event counters. */
  datatype VmEvent = PgmigrateSuccess | PgmigrateFail

  function Stat<K(!new)>(m: map<K, int>, k: K): int {
    if k in m then m[k] else 0
  }

  function Bump<K(!new)>(m: map<K, int>, k: K, d: int): (r: map<K, int>)
    ensures Stat(r, k) == Stat(m, k) + d
    ensures forall j :: j != k ==> Stat(r, j) == Stat(m, j)
  {
    m[k := Stat(m, k) + d]
  }

  /** NR_ISOLATED_ANON + page_is_file_cache(page). */
  function IsolatedItem(f: Frame): NodeItem {
    if SwapBacked in f.flags then NrIsolatedAnon else NrIsolatedFile
  }

  /** The kernel's frames and counters. */
  class Memory {
    var frames: map<Pfn, Frame>
    var vmstat: map<StatItem, int>
    var events: map<VmEvent, int>

    constructor (frames: map<Pfn, Frame>)
      ensures this.frames == frames && vmstat == map[] && events == map[]
    {
      this.frames := frames;
      vmstat := map[];
      events := map[];
    }
  }

  /** expected_page_refs(): the references a frame holds when nobody but the
      migration code and its mapping use it. */
  function ExpectedPageRefs(hasMapping: bool, page: Frame): (r: int)
    ensures r >= 1
    ensures !hasMapping ==> r == (if page.devicePrivate then 2 else 1)
    // the table in the comment above migrate_page_move_mapping, for a plain base page
    ensures !page.devicePrivate && page.kind.Base? ==>
      r == (if !hasMapping then 1 else if PageHasPrivate(page) then 3 else 2)
    // a mapping holds one reference per sub-page, plus one for private data
    ensures hasMapping ==>
      r - (if page.devicePrivate then 2 else 1) == HPageNrPages(page) + (if PageHasPrivate(page) then 1 else 0)
  {
    1 + (if page.devicePrivate then 1 else 0)
      + (if hasMapping then HPageNrPages(page) + (if PageHasPrivate(page) then 1 else 0) else 0)
  }
}
