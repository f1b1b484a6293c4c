/** The copy engine: which backend copies a page, and the plain copy that
    repairs whatever a failed backend left behind.

    The accelerated backends (multi-threaded copy and DMA, for one page or
    for a list of pages) are opaque: each call is given its outcome as an
    input. A call either copies everything or fails after copying a prefix
    of the sub-pages. */
module CopyEngine {
  import opened Errno
  import opened Frames
  import opened Modes
  import PageStates

  /** Largest buddy allocation, 1 << (MAX_ORDER - 1) base pages. */
  const MAX_ORDER_NR_PAGES: nat := 1024

  datatype Backend = MultiThread | Dma | NoBackend

  /** What one backend call did. */
  datatype Outcome = Copied | Failed(written: nat)

  /** The backend a huge page is copied with. `accel_page_copy` or the
      RPDAA sysctl force the multi-threaded backend; otherwise the mode's
      MT bit is tried before its DMA bit. */
  function HugeBackend(m: Mode, t: Tunables): Backend {
    if t.accelPageCopy != 0 || t.avoidRemotePmemWrite == 1 || m.mt then MultiThread
    else if m.dma then Dma
    else NoBackend
  }

  /** The backend a base page, or a batch of pages, is copied with: DMA is
      tried before MT. */
  function DmaFirst(m: Mode): Backend {
    if m.dma then Dma else if m.mt then MultiThread else NoBackend
  }

  /** A gigantic page is copied one sub-page at a time, by DMA if the mode
      asks for it. */
  function GiganticBackend(m: Mode): Backend {
    if m.dma then Dma else NoBackend
  }

  /** A page larger than the largest buddy allocation. */
  predicate Gigantic(f: Frame) { PageHuge(f) && Subpages(f) > MAX_ORDER_NR_PAGES }

  /** The backend migrate_page_copy() uses for a frame. */
  function CopyBackend(f: Frame, m: Mode, t: Tunables): Backend {
    if PageHuge(f) || PageTransHuge(f) then
      if Gigantic(f) then GiganticBackend(m) else HugeBackend(m, t)
    else DmaFirst(m)
  }

  /** How the backend is chosen: a huge page goes to the multi-threaded
      backend whenever `accel_page_copy` is set or the RPDAA sysctl is 1 (so
      always, with the default tunables); a base page and a batch try DMA
      before MT; a gigantic page only ever uses DMA. */
  lemma BackendChoice(f: Frame, m: Mode, t: Tunables)
    ensures (t.accelPageCopy != 0 || t.avoidRemotePmemWrite == 1) ==> HugeBackend(m, t) == MultiThread
    ensures HugeBackend(m, DEFAULT_TUNABLES) == MultiThread
    ensures t.accelPageCopy == 0 && t.avoidRemotePmemWrite != 1 ==>
              HugeBackend(m, t) == (if m.mt then MultiThread else if m.dma then Dma else NoBackend)
    ensures DmaFirst(m) == Dma <==> m.dma
    ensures DmaFirst(m) == MultiThread <==> !m.dma && m.mt
    ensures DmaFirst(m) == NoBackend <==> !m.dma && !m.mt
    ensures GiganticBackend(m) != MultiThread
    ensures !PageTransHuge(f) ==> CopyBackend(f, m, t) == DmaFirst(m)
    ensures PageTransHuge(f) && !Gigantic(f) ==> CopyBackend(f, m, t) == HugeBackend(m, t)
  {
  }

  /** One backend call over `s`, into `d`: its result code and what the
      destination holds afterwards. With no backend chosen the result keeps
      its initial -EFAULT and nothing is written. */
  function RunBackend(b: Backend, out: Outcome, d: seq<Subpage>, s: seq<Subpage>): (r: (int, seq<Subpage>))
    requires |d| == |s|
    ensures |r.1| == |s|
    ensures r.0 == 0 <==> b != NoBackend && out.Copied?
    ensures r.0 == 0 ==> r.1 == s
    ensures r.0 != 0 ==> r.0 == -EFAULT
  {
    if b == NoBackend then (-EFAULT, d)
    else match out
      case Copied => (0, s)
      case Failed(w) =>
        var k := if w < |s| then w else |s|;
        (-EFAULT, s[..k] + d[k..])
  }

  /** copy_highpage() on every sub-page in turn. */
  method CopyHighpages(d: seq<Subpage>, s: seq<Subpage>) returns (r: seq<Subpage>)
    requires |d| == |s|
    ensures r == s
  {
    r := d;
    var i := 0;
    while i < |s|
      invariant 0 <= i <= |s| && |r| == |s|
      invariant r[..i] == s[..i]
    {
      r := r[i := s[i]];
      i := i + 1;
    }
  }

  /** __copy_gigantic_page(): sub-page by sub-page, a DMA copy when the mode
      asks for one, and copy_highpage() whenever the last result is not 0.
      `subOut` gives each DMA call's outcome. */
  method CopyGiganticPage(d: seq<Subpage>, s: seq<Subpage>, m: Mode, subOut: seq<Outcome>) returns (r: seq<Subpage>)
    requires |d| == |s| == |subOut|
    ensures r == s
  {
    r := d;
    var rc := -EFAULT;
    var i := 0;
    while i < |s|
      invariant 0 <= i <= |s| && |r| == |s|
      invariant forall k :: 0 <= k < i ==> r[k] == s[k]
      invariant !m.dma ==> rc == -EFAULT
    {
      if m.dma {
        var res := RunBackend(Dma, subOut[i], [r[i]], [s[i]]);
        rc := res.0;
        r := r[i := res.1[0]];
      }
      if rc != 0 {
        r := r[i := s[i]];
      }
      i := i + 1;
    }
  }

  /** copy_huge_page(): a hugetlbfs page beyond MAX_ORDER_NR_PAGES goes
      through __copy_gigantic_page(); any other huge page is handed to the
      chosen backend in one call, and a non-zero result falls back to a
      plain copy of every sub-page. `used` is the backend that was tried. */
  method CopyHugePage(f: Frame, d: seq<Subpage>, s: seq<Subpage>, m: Mode, t: Tunables,
                      out: Outcome, subOut: seq<Outcome>) returns (r: seq<Subpage>, used: Backend)
    requires PageTransHuge(f)
    requires |d| == |s| == Subpages(f) == |subOut|
    ensures r == s
    ensures used == (if Gigantic(f) then GiganticBackend(m) else HugeBackend(m, t))
  {
    if Gigantic(f) {
      r := CopyGiganticPage(d, s, m, subOut);
      used := GiganticBackend(m);
      return;
    }
    used := HugeBackend(m, t);
    var res := RunBackend(used, out, d, s);
    r := res.1;
    if res.0 != 0 {
      r := CopyHighpages(r, s);
    }
  }

  /** The copy half of migrate_page_copy(): huge pages through
      copy_huge_page(), a base page by DMA or MT as the mode asks and by
      copy_highpage() when that fails or none is asked for. */
  method CopyPage(f: Frame, d: seq<Subpage>, s: seq<Subpage>, m: Mode, t: Tunables,
                  out: Outcome, subOut: seq<Outcome>) returns (r: seq<Subpage>, used: Backend)
    requires WellFormed(f)
    requires |d| == |s| == Subpages(f) == |subOut|
    ensures r == s
    ensures used == CopyBackend(f, m, t)
  {
    if PageHuge(f) || PageTransHuge(f) {
      r, used := CopyHugePage(f, d, s, m, t, out, subOut);
      return;
    }
    used := DmaFirst(m);
    var res := RunBackend(used, out, d, s);
    r := res.1;
    if res.0 != 0 {
      r := CopyHighpages(r, s);
    }
  }

  /** The frames after a page's content is copied and its state carried
      over: the new frame holds the old content and the carried states, the
      old frame has given its states up. */
  function Migrated(frames: map<Pfn, Frame>, newpage: Pfn, page: Pfn): map<Pfn, Frame>
    requires page in frames && newpage in frames
  {
    var o := frames[page];
    frames[newpage := PageStates.StatesNew(o, frames[newpage].(content := o.content))]
          [page := PageStates.StatesOld(o)]
  }

  /** migrate_page_copy(): copy the content, whichever backend runs and
      however it fails, then migrate_page_states(). */
  method MigratePageCopy(mem: Memory, newpage: Pfn, page: Pfn, m: Mode, t: Tunables,
                         out: Outcome, subOut: seq<Outcome>) returns (used: Backend)
    requires page in mem.frames && newpage in mem.frames && page != newpage
    requires WellFormed(mem.frames[page])
    requires |mem.frames[newpage].content| == |mem.frames[page].content| == |subOut|
    modifies mem
    ensures mem.frames == Migrated(old(mem.frames), newpage, page)
    ensures mem.frames[newpage].content == old(mem.frames[page].content)
    ensures used == CopyBackend(old(mem.frames[page]), m, t)
    ensures mem.vmstat == old(mem.vmstat) && mem.events == old(mem.events)
  {
    var o := mem.frames[page];
    var n := mem.frames[newpage];
    var content;
    content, used := CopyPage(o, n.content, o.content, m, t, out, subOut);
    mem.frames := mem.frames[newpage := n.(content := content)];
    PageStates.MigratePageStates(mem, newpage, page);
  }
}
