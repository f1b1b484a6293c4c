/** migrate_pages_concur(): the batched variant of migrate_pages().

    Every page of the caller's list gets a work item; the items move
    between four lists (work in progress, unmapped, serialized, failed).
    One pass unmaps every page it may and allocates its new page; the
    unmapped batch then has its mapping moved, is copied in one backend
    call and has its migration entries removed. Whatever is still on the
    caller's list afterwards is handed to the serial migrate_pages().

    The work items live in one array and carry the list they are on as a
    tag. The unmapped list is built by list_move(), which adds at the head,
    so the stages walk it from the last item to the first; the model walks
    the array downwards. */
module ConcurBatch {
  import opened Errno
  import opened Wrappers
  import opened Frames
  import opened Modes
  import opened UnmapStage
  import MoveMapping
  import PageStates
  import CopyEngine
  import SerialBatch

  /** The lists a work item can be on. `Unlisted`: the page was freed
      meanwhile and the item was taken off every list. */
  datatype ItemList = OnWip | OnUnmapped | OnSerialized | OnFailed | Unlisted

  /** struct page_migration_work_item. */
  datatype WorkItem = WorkItem(
    oldPage: Pfn,
    holdsOld: bool,          // old_page != NULL
    newPage: Option<Pfn>,    // new_page
    anonVma: bool,           // anon_vma != NULL
    pageWasMapped: bool,
    list: ItemList)

  /** The concurrent path makes a single pass (pass < 1), so the stage is
      never forced (pass > 2). */
  const CONCUR_PASS: nat := 0

  /** What the environment answers: the mode and tunables; each page's
      attempt conditions; the frame get_new_page() hands out for a page;
      PageTransHuge() of the `page` variable tested on -ENOMEM, which
      still holds whatever the list walk that built the items left in it;
      page_count() of an old page when its mapping is moved; the outcome
      of the batch copy; the backend outcome of a page's plain re-copy;
      and the serial fallback's attempt conditions and split results (its
      mode is not taken from `serial`: see FallbackEnv). */
  datatype ConcurEnv = ConcurEnv(
    m: Mode,
    t: Tunables,
    envOf: Pfn -> AttemptEnv,
    newPageOf: Pfn -> Pfn,
    staleThp: bool,
    refsAtMove: Pfn -> int,
    bulk: CopyEngine.Outcome,
    redo: Pfn -> CopyEngine.Outcome,
    serial: SerialBatch.SerialEnv)

  /** The caller's list without the pages in `d`, in its order (list_del()
      of each of them). */
  function Filter(l: seq<Pfn>, d: set<Pfn>): (r: seq<Pfn>)
    ensures forall q :: q in r <==> q in l && q !in d
  {
    if |l| == 0 then []
    else (if l[0] in d then [] else [l[0]]) + Filter(l[1..], d)
  }

  /** Taking pages off the list one batch after another is taking them all
      off at once. */
  lemma {:induction false} FilterTwice(l: seq<Pfn>, a: set<Pfn>, b: set<Pfn>)
    ensures Filter(Filter(l, a), b) == Filter(l, a + b)
  {
    if |l| > 0 {
      FilterTwice(l[1..], a, b);
      var rest := Filter(l[1..], a);
      if l[0] in a {
        assert Filter(l, a) == rest;
      } else {
        assert Filter(l, a) == [l[0]] + rest;
        assert ([l[0]] + rest)[0] == l[0] && ([l[0]] + rest)[1..] == rest;
      }
    }
  }

  /** Taking no page off leaves the list as it is. */
  lemma {:induction false} FilterNone(l: seq<Pfn>)
    ensures Filter(l, {}) == l
  {
    if |l| > 0 {
      FilterNone(l[1..]);
      assert l == [l[0]] + l[1..];
    }
  }

  // ---------------------------------------------------------------------
  // The unmapping pass

  /** The item built for a listed page: on the work list, with no new page. */
  function Fresh(p: Pfn): WorkItem { WorkItem(p, true, None, false, false, OnWip) }

  /** What unmap_pages_and_get_new_concur() (or the -ENODEV filter in front
      of it) does with a page. */
  function AttemptOf(frames: map<Pfn, Frame>, e: ConcurEnv, p: Pfn): ConcurAttempt
    requires p in frames
  {
    ConcurStage(frames[p], CONCUR_PASS > 2, e.m, e.envOf(p))
  }

  /** Where the switch on an item's result sends it. -ENODEV sends it to
      the serialized list; -ENOMEM does too when the stale page tests as a
      huge page, and ends the pass otherwise; -EAGAIN leaves it on the work
      list for a retry; a success moves it to the unmapped list or, when
      the page was freed meanwhile, drops it from every list; any other
      failure moves it to the failed list. */
  datatype Verdict = Verdict(list: ItemList, abort: bool)

  function Sort(a: ConcurAttempt, staleThp: bool): Verdict {
    if a.rc == -ENODEV then Verdict(OnSerialized, false)
    else if a.rc == -ENOMEM then (if staleThp then Verdict(OnSerialized, false) else Verdict(OnWip, true))
    else if a.rc == -EAGAIN then Verdict(OnWip, false)
    else if a.rc == MIGRATEPAGE_SUCCESS then Verdict(if a.keepsOld then OnUnmapped else Unlisted, false)
    else Verdict(OnFailed, false)
  }

  function VerdictOf(frames: map<Pfn, Frame>, e: ConcurEnv, p: Pfn): Verdict
    requires p in frames
  {
    Sort(AttemptOf(frames, e, p), e.staleThp)
  }

  /** The item once it lands on list `l`: on the unmapped list it holds its
      new page and what the unmapping reported; dropped, it holds no page. */
  function Land(e: ConcurEnv, it: WorkItem, a: ConcurAttempt, l: ItemList): (r: WorkItem)
    ensures r.list == l && r.oldPage == it.oldPage
  {
    if l == OnUnmapped then
      it.(list := l, newPage := Some(e.newPageOf(it.oldPage)), anonVma := a.anonVma, pageWasMapped := a.pageWasMapped)
    else if l == Unlisted then it.(list := l, holdsOld := false)
    else it.(list := l)
  }

  /** How many items the pass looks at: all of them, unless one of them
      cuts the pass short. */
  function Reach(frames: map<Pfn, Frame>, e: ConcurEnv, l: seq<Pfn>): (r: nat)
    requires forall p :: p in l ==> p in frames
    ensures r <= |l|
  {
    if |l| == 0 then 0
    else if VerdictOf(frames, e, l[0]).abort then 0
    else 1 + Reach(frames, e, l[1..])
  }

  /** Reach is the index of the first item that cuts the pass short, or the
      length of the list when none does. */
  lemma {:induction false} ReachAt(frames: map<Pfn, Frame>, e: ConcurEnv, l: seq<Pfn>, i: nat)
    requires forall p :: p in l ==> p in frames
    requires i <= |l|
    requires forall j :: 0 <= j < i ==> !VerdictOf(frames, e, l[j]).abort
    ensures i <= Reach(frames, e, l)
    ensures i < |l| && VerdictOf(frames, e, l[i]).abort ==> Reach(frames, e, l) == i
    ensures i == |l| ==> Reach(frames, e, l) == |l|
  {
    if i > 0 {
      ReachAt(frames, e, l[1..], i - 1);
    }
  }

  /** The items after the pass: those before the reach have landed where
      their result sends them, the others are as they were built. */
  function PassItems(frames: map<Pfn, Frame>, e: ConcurEnv, l: seq<Pfn>): (r: seq<WorkItem>)
    requires forall p :: p in l ==> p in frames
    ensures |r| == |l|
  {
    var n := Reach(frames, e, l);
    seq(|l|, j requires 0 <= j < |l| =>
      if j < n then Land(e, Fresh(l[j]), AttemptOf(frames, e, l[j]), VerdictOf(frames, e, l[j]).list)
      else Fresh(l[j]))
  }

  /** The pages of the first `n` items that the pass took off the list. */
  function Dropped(frames: map<Pfn, Frame>, e: ConcurEnv, l: seq<Pfn>, n: nat): set<Pfn>
    requires n <= |l| && forall p :: p in l ==> p in frames
  {
    if n == 0 then {}
    else Dropped(frames, e, l, n - 1) + (if AttemptOf(frames, e, l[n - 1]).dequeued then {l[n - 1]} else {})
  }

  /** The node counters after the first `n` items: each page taken off the
      list gives its isolation count back, unless a driver owns it. */
  function Isolation(frames: map<Pfn, Frame>, e: ConcurEnv, l: seq<Pfn>, vmstat: map<StatItem, int>, n: nat): map<StatItem, int>
    requires n <= |l| && forall p :: p in l ==> p in frames
  {
    if n == 0 then vmstat
    else
      var v := Isolation(frames, e, l, vmstat, n - 1);
      var f := frames[l[n - 1]];
      if AttemptOf(frames, e, l[n - 1]).dequeued && !PageMovableTag(f)
      then Bump(v, NodeStat(f.node, IsolatedItem(f)), -(HPageNrPages(f) as int))
      else v
  }

  function Tick(n: nat, hit: bool): nat { if hit then n + 1 else n }

  /** How many of the first `k` items are on each list. */
  datatype Tally = Tally(wip: nat, unmapped: nat, serialized: nat, failed: nat, unlisted: nat)

  function Count(t: Tally, l: ItemList): Tally {
    Tally(Tick(t.wip, l == OnWip), Tick(t.unmapped, l == OnUnmapped), Tick(t.serialized, l == OnSerialized),
          Tick(t.failed, l == OnFailed), Tick(t.unlisted, l == Unlisted))
  }

  function TallyUpTo(items: seq<WorkItem>, k: nat): Tally
    requires k <= |items|
  {
    if k == 0 then Tally(0, 0, 0, 0, 0) else Count(TallyUpTo(items, k - 1), items[k - 1].list)
  }

  /** The tally of a prefix only depends on the prefix. */
  lemma {:induction false} TallySamePrefix(a: seq<WorkItem>, b: seq<WorkItem>, k: nat)
    requires k <= |a| && k <= |b|
    requires forall j :: 0 <= j < k ==> a[j].list == b[j].list
    ensures TallyUpTo(a, k) == TallyUpTo(b, k)
  {
    if k > 0 {
      TallySamePrefix(a, b, k - 1);
    }
  }

  /** Setting the `k`-th item counts it on its list. */
  lemma TallyStep(a: seq<WorkItem>, b: seq<WorkItem>, k: nat, l: ItemList)
    requires k < |a| == |b| && b[k].list == l
    requires forall j :: 0 <= j < k ==> a[j] == b[j]
    ensures TallyUpTo(b, k + 1) == Count(TallyUpTo(a, k), l)
  {
    TallySamePrefix(a, b, k);
  }

  /** Every item is on exactly one list: the tally of `k` items adds up to `k`. */
  lemma {:induction false} TallyTotal(items: seq<WorkItem>, k: nat)
    requires k <= |items|
    ensures var t := TallyUpTo(items, k); t.wip + t.unmapped + t.serialized + t.failed + t.unlisted == k
  {
    if k > 0 {
      TallyTotal(items, k - 1);
    }
  }

  /** What the pass promises about the items it looks at: a page stays on
      the caller's list exactly when its item is on the work list, the
      serialized list or the unmapped list; an item on the unmapped list
      holds its old page and the new page allocated for it; a dropped item
      holds no page. Items the pass does not reach stay on the work list
      and keep their pages listed. */
  lemma PassPlaces(frames: map<Pfn, Frame>, e: ConcurEnv, l: seq<Pfn>, j: nat)
    requires forall p :: p in l ==> p in frames
    requires Distinct(l) && j < |l|
    ensures var it := PassItems(frames, e, l)[j];
      var n := Reach(frames, e, l);
      && it.oldPage == l[j]
      && (j < n ==>
            (l[j] !in Dropped(frames, e, l, n) <==> it.list in {OnWip, OnSerialized, OnUnmapped}))
      && (it.list == OnUnmapped ==> it.holdsOld && it.newPage == Some(e.newPageOf(l[j])))
      && (it.list == Unlisted ==> !it.holdsOld)
      && (j >= n ==> it == Fresh(l[j]))
  {
    var n := Reach(frames, e, l);
    ConcurStageCases(frames[l[j]], CONCUR_PASS > 2, e.m, e.envOf(l[j]));
    if j < n {
      DroppedHas(frames, e, l, n, j);
    }
  }

  /** Which pages are dropped, for a list without duplicates. */
  lemma {:induction false} DroppedHas(frames: map<Pfn, Frame>, e: ConcurEnv, l: seq<Pfn>, n: nat, j: nat)
    requires n <= |l| && forall p :: p in l ==> p in frames
    requires Distinct(l) && j < n
    ensures l[j] in Dropped(frames, e, l, n) <==> AttemptOf(frames, e, l[j]).dequeued
  {
    if n - 1 > j {
      DroppedHas(frames, e, l, n - 1, j);
      assert l[j] != l[n - 1];
    } else {
      DroppedLacks(frames, e, l, n - 1, l[j]);
    }
  }

  lemma {:induction false} DroppedLacks(frames: map<Pfn, Frame>, e: ConcurEnv, l: seq<Pfn>, n: nat, p: Pfn)
    requires n <= |l| && forall q :: q in l ==> q in frames
    requires forall j :: 0 <= j < n ==> l[j] != p
    ensures p !in Dropped(frames, e, l, n)
  {
    if n > 0 {
      DroppedLacks(frames, e, l, n - 1, p);
    }
  }

  /** A list without duplicates: a page is on the caller's list once. */
  predicate Distinct(l: seq<Pfn>) {
    forall i, j :: 0 <= i < j < |l| ==> l[i] != l[j]
  }

  /** Every item's new page is the one allocated for its old page. */
  predicate Allocated(e: ConcurEnv, items: seq<WorkItem>) {
    forall j :: 0 <= j < |items| && items[j].newPage.Some? ==>
      items[j].newPage.value == e.newPageOf(items[j].oldPage)
  }

  /** The items after the loop has looked at the first `i` pages, none of
      which cut the pass short: those have landed, the rest are as built. */
  predicate Landed(frames: map<Pfn, Frame>, e: ConcurEnv, l: seq<Pfn>, items: seq<WorkItem>, i: nat)
    requires forall p :: p in l ==> p in frames
  {
    && i <= |l| == |items|
    && (forall j :: 0 <= j < i ==> !VerdictOf(frames, e, l[j]).abort)
    && (forall j :: 0 <= j < i ==>
          items[j] == Land(e, Fresh(l[j]), AttemptOf(frames, e, l[j]), VerdictOf(frames, e, l[j]).list))
    && (forall j :: i <= j < |l| ==> items[j] == Fresh(l[j]))
  }

  lemma LandedStep(frames: map<Pfn, Frame>, e: ConcurEnv, l: seq<Pfn>, before: seq<WorkItem>, after: seq<WorkItem>, i: nat)
    requires forall p :: p in l ==> p in frames
    requires Landed(frames, e, l, before, i) && i < |l|
    requires !VerdictOf(frames, e, l[i]).abort
    requires after == before[i := Land(e, Fresh(l[i]), AttemptOf(frames, e, l[i]), VerdictOf(frames, e, l[i]).list)]
    ensures Landed(frames, e, l, after, i + 1)
  {
  }

  /** Once the loop stops, at the end of the list or at the item that cuts
      the pass short, the items are those of the pass. */
  lemma LandedPass(frames: map<Pfn, Frame>, e: ConcurEnv, l: seq<Pfn>, items: seq<WorkItem>, i: nat)
    requires forall p :: p in l ==> p in frames
    requires Landed(frames, e, l, items, i)
    requires i == |l| || VerdictOf(frames, e, l[i]).abort
    ensures Reach(frames, e, l) == i
    ensures items == PassItems(frames, e, l)
  {
    ReachAt(frames, e, l, i);
  }

  /** One item of the loop over the work list: unmap its page and
      allocate its new page, take the page off the caller's list when the
      result says so, and let the switch on the result move the item. A
      result that ends the pass leaves the item where it is. */
  method UnmapItem(mem: Memory, from: SerialBatch.PageList, items: array<WorkItem>, e: ConcurEnv,
                   l: seq<Pfn>, ghost vmstat0: map<StatItem, int>, i: nat) returns (v: Verdict)
    requires forall p :: p in l ==> p in mem.frames
    requires i < |l| == items.Length && items[i] == Fresh(l[i])
    requires from.pages == Filter(l, Dropped(mem.frames, e, l, i))
    requires mem.vmstat == Isolation(mem.frames, e, l, vmstat0, i)
    modifies mem`vmstat, from, items
    ensures v == VerdictOf(mem.frames, e, l[i])
    ensures v.abort ==> from.pages == old(from.pages) && mem.vmstat == old(mem.vmstat) && items[..] == old(items[..])
    ensures !v.abort ==>
      && from.pages == Filter(l, Dropped(mem.frames, e, l, i + 1))
      && mem.vmstat == Isolation(mem.frames, e, l, vmstat0, i + 1)
      && items[..] == old(items[..])[i := Land(e, Fresh(l[i]), AttemptOf(mem.frames, e, l[i]), v.list)]
  {
    var p := l[i];
    var f := mem.frames[p];
    var a := ConcurStage(f, CONCUR_PASS > 2, e.m, e.envOf(p));
    assert a == AttemptOf(mem.frames, e, p);
    IsolationNext(mem.frames, e, l, vmstat0, i);
    ConcurStageCases(f, CONCUR_PASS > 2, e.m, e.envOf(p));
    if a.dequeued {
      FilterTwice(l, Dropped(mem.frames, e, l, i), {p});
      from.pages := Filter(from.pages, {p});
      if !PageMovableTag(f) {
        mem.vmstat := Bump(mem.vmstat, NodeStat(f.node, IsolatedItem(f)), -(HPageNrPages(f) as int));
      }
    } else {
      assert Dropped(mem.frames, e, l, i + 1) == Dropped(mem.frames, e, l, i);
    }
    // the switch on the result
    v := Sort(a, e.staleThp);
    if !v.abort {
      items[i] := Land(e, items[i], a, v.list);
    }
  }

  /** The pages dropped and the node counters after one more item. */
  lemma IsolationNext(frames: map<Pfn, Frame>, e: ConcurEnv, l: seq<Pfn>, vmstat: map<StatItem, int>, i: nat)
    requires i < |l| && forall p :: p in l ==> p in frames
    ensures var f := frames[l[i]];
      Isolation(frames, e, l, vmstat, i + 1) ==
        if AttemptOf(frames, e, l[i]).dequeued && !PageMovableTag(f)
        then Bump(Isolation(frames, e, l, vmstat, i), NodeStat(f.node, IsolatedItem(f)), -(HPageNrPages(f) as int))
        else Isolation(frames, e, l, vmstat, i)
    ensures Dropped(frames, e, l, i + 1) ==
      Dropped(frames, e, l, i) + (if AttemptOf(frames, e, l[i]).dequeued then {l[i]} else {})
  {
  }

  /** The loop over the work list (pass 0). Each item is unmapped and
      sorted; -ENOMEM on a page that is not a huge page leaves the loop at
      once (goto out). `reach` is how many items were looked at. */
  method UnmapPass(mem: Memory, from: SerialBatch.PageList, items: array<WorkItem>, e: ConcurEnv)
    returns (succeeded: nat, failed: nat, retry: nat, reach: nat)
    requires forall p :: p in from.pages ==> p in mem.frames
    requires items.Length == |from.pages| && forall j :: 0 <= j < items.Length ==> items[j] == Fresh(from.pages[j])
    modifies mem`vmstat, from, items
    ensures reach == Reach(mem.frames, e, old(from.pages))
    ensures items[..] == PassItems(mem.frames, e, old(from.pages))
    ensures var t := TallyUpTo(items[..], reach);
      succeeded == t.unmapped && failed == t.failed && retry == t.wip
    ensures from.pages == Filter(old(from.pages), Dropped(mem.frames, e, old(from.pages), reach))
    ensures mem.vmstat == Isolation(mem.frames, e, old(from.pages), old(mem.vmstat), reach)
  {
    var l := from.pages;
    succeeded, failed, retry, reach := UnmapLoop(mem, from, items, e, l);
    LandedPass(mem.frames, e, l, items[..], reach);
  }

  /** What the loop over the work list keeps: the first `i` items are
      sorted, the counters tally them, and the caller's list and the node
      counters show the pages taken off so far. */
  ghost predicate Unmapped(frames: map<Pfn, Frame>, e: ConcurEnv, l: seq<Pfn>, items: seq<WorkItem>,
                           pages: seq<Pfn>, vmstat0: map<StatItem, int>, vmstat: map<StatItem, int>,
                           succeeded: nat, failed: nat, retry: nat, i: nat)
    requires forall p :: p in l ==> p in frames
  {
    && Landed(frames, e, l, items, i)
    && (var t := TallyUpTo(items, i); succeeded == t.unmapped && failed == t.failed && retry == t.wip)
    && pages == Filter(l, Dropped(frames, e, l, i))
    && vmstat == Isolation(frames, e, l, vmstat0, i)
  }

  /** One turn of the loop: the item is unmapped and sorted, and unless
      it cuts the pass short the counters and `i` move past it. */
  method UnmapTurn(mem: Memory, from: SerialBatch.PageList, items: array<WorkItem>, e: ConcurEnv,
                   l: seq<Pfn>, ghost vmstat0: map<StatItem, int>, succeeded: nat, failed: nat, retry: nat, i: nat)
    returns (v: Verdict, succeeded': nat, failed': nat, retry': nat)
    requires forall p :: p in l ==> p in mem.frames
    requires i < |l| == items.Length
    requires Unmapped(mem.frames, e, l, items[..], from.pages, vmstat0, mem.vmstat, succeeded, failed, retry, i)
    modifies mem`vmstat, from, items
    ensures v == VerdictOf(mem.frames, e, l[i])
    ensures Unmapped(mem.frames, e, l, items[..], from.pages, vmstat0, mem.vmstat, succeeded', failed', retry',
                     if v.abort then i else i + 1)
  {
    ghost var before := items[..];
    v := UnmapItem(mem, from, items, e, l, vmstat0, i);
    succeeded', failed', retry' := succeeded, failed, retry;
    if !v.abort {
      LandedStep(mem.frames, e, l, before, items[..], i);
      succeeded' := Tick(succeeded, v.list == OnUnmapped);
      failed' := Tick(failed, v.list == OnFailed);
      retry' := Tick(retry, v.list == OnWip);
      TallyStep(before, items[..], i, v.list);
    }
  }

  /** Before the loop nothing is sorted, counted or taken off. */
  lemma UnmappedStart(frames: map<Pfn, Frame>, e: ConcurEnv, l: seq<Pfn>, items: seq<WorkItem>, vmstat: map<StatItem, int>)
    requires forall p :: p in l ==> p in frames
    requires |items| == |l| && forall j :: 0 <= j < |items| ==> items[j] == Fresh(l[j])
    ensures Unmapped(frames, e, l, items, l, vmstat, vmstat, 0, 0, 0, 0)
  {
    FilterNone(l);
  }

  /** The loop itself: it stops at the end of the list or at the first
      item that cuts the pass short. */
  method UnmapLoop(mem: Memory, from: SerialBatch.PageList, items: array<WorkItem>, e: ConcurEnv, l: seq<Pfn>)
    returns (succeeded: nat, failed: nat, retry: nat, i: nat)
    requires l == from.pages && forall p :: p in l ==> p in mem.frames
    requires items.Length == |l| && forall j :: 0 <= j < items.Length ==> items[j] == Fresh(l[j])
    modifies mem`vmstat, from, items
    ensures Unmapped(mem.frames, e, l, items[..], from.pages, old(mem.vmstat), mem.vmstat, succeeded, failed, retry, i)
    ensures i == |l| || VerdictOf(mem.frames, e, l[i]).abort
  {
    UnmappedStart(mem.frames, e, l, items[..], mem.vmstat);
    succeeded, failed, retry := 0, 0, 0;
    i := 0;
    var abort := false;
    ghost var frames := mem.frames;
    while i < |l| && !abort
      invariant 0 <= i <= |l| && mem.frames == frames
      invariant Unmapped(frames, e, l, items[..], from.pages, old(mem.vmstat), mem.vmstat, succeeded, failed, retry, i)
      invariant abort ==> i < |l| && VerdictOf(frames, e, l[i]).abort
      decreases |l| - i, if abort then 0 else 1
    {
      var v;
      v, succeeded, failed, retry := UnmapTurn(mem, from, items, e, l, old(mem.vmstat), succeeded, failed, retry, i);
      if v.abort {
        abort := true;
      } else {
        i := i + 1;
      }
    }
  }

  // ---------------------------------------------------------------------
  // The batch: mapping, copy and states

  /** An item whose pages are in the batch: on the unmapped list, with a
      new page. */
  predicate Batched(it: WorkItem) { it.list == OnUnmapped && it.newPage.Some? }

  /** The frames a batched item works on exist, the old one is well formed
      and the new one has room for its content. */
  predicate Fits(frames: map<Pfn, Frame>, it: WorkItem) {
    Batched(it) ==>
      && it.oldPage in frames && it.newPage.value in frames
      && WellFormed(frames[it.oldPage])
      && |frames[it.newPage.value].content| == |frames[it.oldPage].content|
  }

  predicate AllFit(frames: map<Pfn, Frame>, items: seq<WorkItem>) {
    forall j :: 0 <= j < |items| ==> Fits(frames, items[j])
  }

  /** No frame is shared between two batched items, nor between an item's
      old and new page. */
  predicate Disjoint(items: seq<WorkItem>) {
    && (forall j :: 0 <= j < |items| && Batched(items[j]) ==> items[j].oldPage != items[j].newPage.value)
    && (forall i, j :: 0 <= i < |items| && 0 <= j < |items| && i != j && Batched(items[i]) && Batched(items[j]) ==>
          && items[i].oldPage != items[j].oldPage
          && items[i].newPage.value != items[j].newPage.value
          && items[i].oldPage != items[j].newPage.value)
  }

  /** The three stages of the batch that change frames. */
  datatype Stage = MoveStage | CopyStage | StatesStage

  /** What a stage does to the frames of one item. Moving the mapping gives
      the new frame the index, the mapping and the swap-backed bit unless
      the old page has other users (page_count() != 1); copying gives it
      the old content; the states stage is migrate_page_states(). */
  function Apply(s: Stage, e: ConcurEnv, frames: map<Pfn, Frame>, it: WorkItem): (r: map<Pfn, Frame>)
    requires Fits(frames, it)
    ensures r.Keys == frames.Keys
    ensures forall p :: p in frames ==> r[p].kind == frames[p].kind && |r[p].content| == |frames[p].content|
  {
    if !Batched(it) then frames
    else
      var o := frames[it.oldPage];
      var n := frames[it.newPage.value];
      match s
      case MoveStage =>
        if e.refsAtMove(it.oldPage) != 1 then frames
        else frames[it.newPage.value := MoveMapping.AnonTakeover(o, n)]
      case CopyStage => frames[it.newPage.value := n.(content := o.content)]
      case StatesStage =>
        frames[it.newPage.value := PageStates.StatesNew(o, n)][it.oldPage := PageStates.StatesOld(o)]
  }

  /** A stage over the items from the last down to the `k`-th. */
  function FoldDown(s: Stage, e: ConcurEnv, frames: map<Pfn, Frame>, items: seq<WorkItem>, k: nat): (r: map<Pfn, Frame>)
    requires k <= |items| && AllFit(frames, items)
    ensures r.Keys == frames.Keys
    ensures forall p :: p in frames ==> r[p].kind == frames[p].kind && |r[p].content| == |frames[p].content|
    ensures AllFit(r, items)
    decreases |items| - k
  {
    if k == |items| then frames
    else Apply(s, e, FoldDown(s, e, frames, items, k + 1), items[k])
  }

  /** One more item of the fold: it fits the frames the later items left. */
  lemma FoldStep(s: Stage, e: ConcurEnv, f: map<Pfn, Frame>, items: seq<WorkItem>, k: nat)
    requires k < |items| && AllFit(f, items)
    ensures Fits(FoldDown(s, e, f, items, k + 1), items[k])
    ensures FoldDown(s, e, f, items, k) == Apply(s, e, FoldDown(s, e, f, items, k + 1), items[k])
  {
  }

  /** A frame no batched item from the `k`-th on works on. */
  predicate Untouched(items: seq<WorkItem>, k: nat, p: Pfn) {
    forall j :: k <= j < |items| && Batched(items[j]) ==> p != items[j].oldPage && p != items[j].newPage.value
  }

  /** A stage on one item leaves every frame but that item's two as it was. */
  lemma ApplyOther(s: Stage, e: ConcurEnv, g: map<Pfn, Frame>, it: WorkItem, p: Pfn)
    requires Fits(g, it) && p in g
    requires Batched(it) ==> p != it.oldPage && p != it.newPage.value
    ensures Apply(s, e, g, it)[p] == g[p]
  {
  }

  /** What a stage writes into an item's two frames depends on those two
      frames alone. */
  lemma ApplySame(s: Stage, e: ConcurEnv, g: map<Pfn, Frame>, f: map<Pfn, Frame>, it: WorkItem)
    requires Fits(g, it) && Fits(f, it) && Batched(it)
    requires g[it.oldPage] == f[it.oldPage] && g[it.newPage.value] == f[it.newPage.value]
    ensures Apply(s, e, g, it)[it.oldPage] == Apply(s, e, f, it)[it.oldPage]
    ensures Apply(s, e, g, it)[it.newPage.value] == Apply(s, e, f, it)[it.newPage.value]
  {
  }

  /** A stage over the items leaves every frame outside the batch as it was. */
  lemma {:induction false} FoldOther(s: Stage, e: ConcurEnv, f: map<Pfn, Frame>, items: seq<WorkItem>, k: nat, p: Pfn)
    requires k <= |items| && AllFit(f, items) && p in f && Untouched(items, k, p)
    ensures FoldDown(s, e, f, items, k)[p] == f[p]
    decreases |items| - k
  {
    if k < |items| {
      FoldOther(s, e, f, items, k + 1, p);
      ApplyOther(s, e, FoldDown(s, e, f, items, k + 1), items[k], p);
    }
  }

  /** No batched item from the `k`-th on but the `j`-th works on frame `p`. */
  predicate OnlyTouches(items: seq<WorkItem>, k: nat, j: nat, p: Pfn) {
    forall i :: k <= i < |items| && i != j && Batched(items[i]) ==> p != items[i].oldPage && p != items[i].newPage.value
  }

  /** In a disjoint batch an item's two frames are its own. */
  lemma DisjointOwns(items: seq<WorkItem>, j: nat)
    requires Disjoint(items) && j < |items| && Batched(items[j])
    ensures OnlyTouches(items, 0, j, items[j].oldPage) && OnlyTouches(items, 0, j, items[j].newPage.value)
    ensures items[j].oldPage != items[j].newPage.value
  {
  }

  /** The fold reaching an item whose frames no later item works on acts
      on those frames as the item alone would. */
  lemma FoldHere(s: Stage, e: ConcurEnv, f: map<Pfn, Frame>, items: seq<WorkItem>, j: nat)
    requires j < |items| && AllFit(f, items) && Batched(items[j])
    requires OnlyTouches(items, j, j, items[j].oldPage) && OnlyTouches(items, j, j, items[j].newPage.value)
    ensures FoldDown(s, e, f, items, j)[items[j].oldPage] == Apply(s, e, f, items[j])[items[j].oldPage]
    ensures FoldDown(s, e, f, items, j)[items[j].newPage.value] == Apply(s, e, f, items[j])[items[j].newPage.value]
  {
    var it := items[j];
    var g := FoldDown(s, e, f, items, j + 1);
    FoldStep(s, e, f, items, j);
    assert Fits(f, it);
    FoldOther(s, e, f, items, j + 1, it.oldPage);
    FoldOther(s, e, f, items, j + 1, it.newPage.value);
    ApplySame(s, e, g, f, it);
  }

  /** An item whose frames are not `p` leaves frame `p` alone. */
  lemma FoldSkip(s: Stage, e: ConcurEnv, f: map<Pfn, Frame>, items: seq<WorkItem>, k: nat, p: Pfn)
    requires k < |items| && AllFit(f, items) && p in f
    requires Batched(items[k]) ==> p != items[k].oldPage && p != items[k].newPage.value
    ensures FoldDown(s, e, f, items, k)[p] == FoldDown(s, e, f, items, k + 1)[p]
  {
    FoldStep(s, e, f, items, k);
    ApplyOther(s, e, FoldDown(s, e, f, items, k + 1), items[k], p);
  }

  /** A stage acts on a batched item whose frames are its own as if that
      item were alone: the order of the walk does not matter. */
  lemma FoldAt(s: Stage, e: ConcurEnv, f: map<Pfn, Frame>, items: seq<WorkItem>, k: nat, j: nat)
    requires k <= j < |items| && AllFit(f, items) && Batched(items[j])
    requires OnlyTouches(items, k, j, items[j].oldPage) && OnlyTouches(items, k, j, items[j].newPage.value)
    ensures FoldDown(s, e, f, items, k)[items[j].oldPage] == Apply(s, e, f, items[j])[items[j].oldPage]
    ensures FoldDown(s, e, f, items, k)[items[j].newPage.value] == Apply(s, e, f, items[j])[items[j].newPage.value]
  {
    assert Fits(f, items[j]);
    FoldReach(s, e, f, items, k, j, items[j].oldPage);
    FoldReach(s, e, f, items, k, j, items[j].newPage.value);
    FoldHere(s, e, f, items, j);
  }

  /** The items before the `j`-th leave a frame only the `j`-th works on
      as the fold from the `j`-th on made it. */
  lemma {:induction false} FoldReach(s: Stage, e: ConcurEnv, f: map<Pfn, Frame>, items: seq<WorkItem>, k: nat, j: nat, p: Pfn)
    requires k <= j < |items| && AllFit(f, items) && p in f && OnlyTouches(items, k, j, p)
    ensures FoldDown(s, e, f, items, k)[p] == FoldDown(s, e, f, items, j)[p]
    decreases |items| - k
  {
    if k < j {
      FoldReach(s, e, f, items, k + 1, j, p);
      FoldSkip(s, e, f, items, k, p);
    }
  }

  /** An item sent back to the work list by the mapping stage: its old page
      has other users, so its new page is released. */
  function Bounce(e: ConcurEnv, it: WorkItem): WorkItem {
    if Batched(it) && e.refsAtMove(it.oldPage) != 1 then it.(list := OnWip, newPage := None) else it
  }

  function Bounced(e: ConcurEnv, items: seq<WorkItem>): (r: seq<WorkItem>)
    ensures |r| == |items|
    ensures forall j :: 0 <= j < |items| ==> r[j] == Bounce(e, items[j])
  {
    seq(|items|, j requires 0 <= j < |items| => Bounce(e, items[j]))
  }

  /** Bouncing only takes items out of the batch. */
  lemma BouncedFits(e: ConcurEnv, frames: map<Pfn, Frame>, items: seq<WorkItem>)
    requires AllFit(frames, items) && Disjoint(items)
    ensures AllFit(frames, Bounced(e, items)) && Disjoint(Bounced(e, items))
  {
    var b := Bounced(e, items);
    assert forall j :: 0 <= j < |b| && Batched(b[j]) ==> Batched(items[j]) && b[j] == items[j];
  }

  /** The frames after the mapping stage. */
  function MovedFrames(e: ConcurEnv, frames: map<Pfn, Frame>, items: seq<WorkItem>): (r: map<Pfn, Frame>)
    requires AllFit(frames, items) && Disjoint(items)
    ensures r.Keys == frames.Keys
    ensures AllFit(r, Bounced(e, items)) && Disjoint(Bounced(e, items))
  {
    var r := FoldDown(MoveStage, e, frames, items, 0);
    BouncedFits(e, r, items);
    r
  }

  /** The frames after the mapping and copy stages; the items the mapping
      stage sent back are not copied. */
  function CopiedFrames(e: ConcurEnv, frames: map<Pfn, Frame>, items: seq<WorkItem>): (r: map<Pfn, Frame>)
    requires AllFit(frames, items) && Disjoint(items)
    ensures r.Keys == frames.Keys
    ensures AllFit(r, Bounced(e, items))
  {
    FoldDown(CopyStage, e, MovedFrames(e, frames, items), Bounced(e, items), 0)
  }

  /** The frames after the mapping, copy and states stages. */
  function BatchFrames(e: ConcurEnv, frames: map<Pfn, Frame>, items: seq<WorkItem>): (r: map<Pfn, Frame>)
    requires AllFit(frames, items) && Disjoint(items)
    ensures r.Keys == frames.Keys
    ensures AllFit(r, Bounced(e, items))
  {
    FoldDown(StatesStage, e, CopiedFrames(e, frames, items), Bounced(e, items), 0)
  }

  /** The mapping stage on one item whose old page has no other user. */
  lemma ApplyMoveAt(e: ConcurEnv, g: map<Pfn, Frame>, it: WorkItem)
    requires Fits(g, it) && Batched(it) && it.oldPage != it.newPage.value && e.refsAtMove(it.oldPage) == 1
    ensures Apply(MoveStage, e, g, it)[it.newPage.value] == MoveMapping.AnonTakeover(g[it.oldPage], g[it.newPage.value])
    ensures Apply(MoveStage, e, g, it)[it.oldPage] == g[it.oldPage]
  {
  }

  /** The copy stage on one item. */
  lemma ApplyCopyAt(e: ConcurEnv, g: map<Pfn, Frame>, it: WorkItem)
    requires Fits(g, it) && Batched(it) && it.oldPage != it.newPage.value
    ensures Apply(CopyStage, e, g, it)[it.newPage.value] == g[it.newPage.value].(content := g[it.oldPage].content)
    ensures Apply(CopyStage, e, g, it)[it.oldPage] == g[it.oldPage]
  {
  }

  /** The states stage on one item, in terms of the item's two frames. */
  lemma ApplyStatesAt(e: ConcurEnv, g: map<Pfn, Frame>, it: WorkItem)
    requires Fits(g, it) && Batched(it) && it.oldPage != it.newPage.value
    ensures Apply(StatesStage, e, g, it)[it.newPage.value] == PageStates.StatesNew(g[it.oldPage], g[it.newPage.value])
    ensures Apply(StatesStage, e, g, it)[it.oldPage] == PageStates.StatesOld(g[it.oldPage])
  {
  }

  /** After the mapping stage, an item whose old page has no other user
      has its new frame take the index, the mapping and the swap-backed bit. */
  lemma MovedAt(e: ConcurEnv, frames: map<Pfn, Frame>, items: seq<WorkItem>, j: nat)
    requires AllFit(frames, items) && Disjoint(items)
    requires j < |items| && Batched(items[j]) && e.refsAtMove(items[j].oldPage) == 1
    ensures var r := MovedFrames(e, frames, items);
      && r[items[j].oldPage] == frames[items[j].oldPage]
      && r[items[j].newPage.value] == MoveMapping.AnonTakeover(frames[items[j].oldPage], frames[items[j].newPage.value])
  {
    var it := items[j];
    assert Fits(frames, it) && it.oldPage != it.newPage.value;
    DisjointOwns(items, j);
    FoldAt(MoveStage, e, frames, items, 0, j);
    ApplyMoveAt(e, frames, it);
  }

  /** ... and after the copy stage it also holds the old content. */
  lemma CopiedAt(e: ConcurEnv, frames: map<Pfn, Frame>, items: seq<WorkItem>, j: nat)
    requires AllFit(frames, items) && Disjoint(items)
    requires j < |items| && Batched(items[j]) && e.refsAtMove(items[j].oldPage) == 1
    ensures var r := CopiedFrames(e, frames, items);
      var o := frames[items[j].oldPage];
      && r[items[j].oldPage] == o
      && r[items[j].newPage.value] == MoveMapping.AnonTakeover(o, frames[items[j].newPage.value]).(content := o.content)
  {
    var it := items[j];
    var f1 := MovedFrames(e, frames, items);
    var b := Bounced(e, items);
    assert b[j] == it && Fits(f1, it) && it.oldPage != it.newPage.value;
    MovedAt(e, frames, items, j);
    DisjointOwns(b, j);
    FoldAt(CopyStage, e, f1, b, 0, j);
    ApplyCopyAt(e, f1, it);
  }

  /** What the batch does for one page that is migrated, as the kernel's
      migration of an anonymous page promises: the new frame holds the old
      content, the index, the mapping, the swap-backed bit and the carried
      page states; the old frame has given its states up. */
  lemma BatchMigrates(e: ConcurEnv, frames: map<Pfn, Frame>, items: seq<WorkItem>, j: nat)
    requires AllFit(frames, items) && Disjoint(items)
    requires j < |items| && Batched(items[j]) && e.refsAtMove(items[j].oldPage) == 1
    ensures var r := BatchFrames(e, frames, items);
      var o := frames[items[j].oldPage];
      var n := frames[items[j].newPage.value];
      && r[items[j].newPage.value] == PageStates.StatesNew(o, MoveMapping.AnonTakeover(o, n).(content := o.content))
      && r[items[j].oldPage] == PageStates.StatesOld(o)
  {
    var it := items[j];
    var f2 := CopiedFrames(e, frames, items);
    var b := Bounced(e, items);
    assert b[j] == it && Fits(f2, it) && it.oldPage != it.newPage.value;
    CopiedAt(e, frames, items, j);
    DisjointOwns(b, j);
    FoldAt(StatesStage, e, f2, b, 0, j);
    ApplyStatesAt(e, f2, it);
  }

  /** The frames of a bounced item are out of the rest of the batch. */
  lemma BouncedUntouched(e: ConcurEnv, items: seq<WorkItem>, j: nat, p: Pfn)
    requires Disjoint(items) && j < |items| && Batched(items[j]) && e.refsAtMove(items[j].oldPage) != 1
    requires p == items[j].oldPage || p == items[j].newPage.value
    ensures Untouched(Bounced(e, items), 0, p)
  {
    var b := Bounced(e, items);
    forall i | 0 <= i < |b| && Batched(b[i])
      ensures p != b[i].oldPage && p != b[i].newPage.value
    {
      assert b[i] == items[i] && i != j;
    }
  }

  /** A frame outside the batch is outside what is left of it after the
      mapping stage. */
  lemma BouncedKeepsOut(e: ConcurEnv, items: seq<WorkItem>, p: Pfn)
    requires Untouched(items, 0, p)
    ensures Untouched(Bounced(e, items), 0, p)
  {
    var b := Bounced(e, items);
    forall i | 0 <= i < |b| && Batched(b[i])
      ensures p != b[i].oldPage && p != b[i].newPage.value
    {
      assert b[i] == items[i];
    }
  }

  /** An item whose old page has other users when its mapping is to move
      leaves both its frames as they were. */
  lemma BatchBounces(e: ConcurEnv, frames: map<Pfn, Frame>, items: seq<WorkItem>, j: nat)
    requires AllFit(frames, items) && Disjoint(items)
    requires j < |items| && Batched(items[j]) && e.refsAtMove(items[j].oldPage) != 1
    ensures var r := BatchFrames(e, frames, items);
      r[items[j].oldPage] == frames[items[j].oldPage] && r[items[j].newPage.value] == frames[items[j].newPage.value]
  {
    var it := items[j];
    var f1 := MovedFrames(e, frames, items);
    var b := Bounced(e, items);
    var f2 := CopiedFrames(e, frames, items);
    assert Fits(frames, it);
    DisjointOwns(items, j);
    FoldAt(MoveStage, e, frames, items, 0, j);
    BouncedUntouched(e, items, j, it.oldPage);
    BouncedUntouched(e, items, j, it.newPage.value);
    FoldOther(CopyStage, e, f1, b, 0, it.oldPage);
    FoldOther(CopyStage, e, f1, b, 0, it.newPage.value);
    FoldOther(StatesStage, e, f2, b, 0, it.oldPage);
    FoldOther(StatesStage, e, f2, b, 0, it.newPage.value);
  }

  /** The batch leaves every frame outside it as it was. */
  lemma BatchLeaves(e: ConcurEnv, frames: map<Pfn, Frame>, items: seq<WorkItem>, p: Pfn)
    requires AllFit(frames, items) && Disjoint(items)
    requires p in frames && Untouched(items, 0, p)
    ensures BatchFrames(e, frames, items)[p] == frames[p]
  {
    var f1 := MovedFrames(e, frames, items);
    var b := Bounced(e, items);
    var f2 := CopiedFrames(e, frames, items);
    FoldOther(MoveStage, e, frames, items, 0, p);
    BouncedKeepsOut(e, items, p);
    FoldOther(CopyStage, e, f1, b, 0, p);
    FoldOther(StatesStage, e, f2, b, 0, p);
  }

  /** move_mapping_concurr() on one item of the unmapped list. An item
      whose old page has other users goes back to the work list and gives
      its new page up; any other has its index, its mapping and its
      swap-backed bit handed to the new page. */
  method MoveOne(mem: Memory, items: array<WorkItem>, e: ConcurEnv, i: nat)
    requires i < items.Length && Fits(mem.frames, items[i])
    modifies mem`frames, items
    ensures mem.frames == Apply(MoveStage, e, old(mem.frames), old(items[i]))
    ensures items[..] == old(items[..])[i := Bounce(e, old(items[i]))]
  {
    var it := items[i];
    if it.list == OnUnmapped && it.newPage.Some? {
      if e.refsAtMove(it.oldPage) != 1 {
        items[i] := it.(list := OnWip, newPage := None);
      } else {
        var o := mem.frames[it.oldPage];
        var n := mem.frames[it.newPage.value];
        mem.frames := mem.frames[it.newPage.value := MoveMapping.AnonTakeover(o, n)];
      }
    }
  }

  /** move_mapping_concurr(), walking the unmapped list from its head (the
      last item unmapped). */
  method MoveMappingConcurr(mem: Memory, items: array<WorkItem>, e: ConcurEnv)
    requires AllFit(mem.frames, items[..]) && Disjoint(items[..])
    modifies mem`frames, items
    ensures mem.frames == MovedFrames(e, old(mem.frames), old(items[..]))
    ensures items[..] == Bounced(e, old(items[..]))
  {
    ghost var f0 := mem.frames;
    ghost var its := items[..];
    var i := items.Length;
    while i > 0
      invariant 0 <= i <= items.Length
      invariant items.Length == |its|
      invariant mem.frames == FoldDown(MoveStage, e, f0, its, i)
      invariant forall k :: 0 <= k < i ==> items[k] == its[k]
      invariant forall k :: i <= k < items.Length ==> items[k] == Bounce(e, its[k])
    {
      i := i - 1;
      FoldStep(MoveStage, e, f0, its, i);
      MoveOne(mem, items, e, i);
    }
    assert items[..] == Bounced(e, its);
  }

  /** The batch copy on one item: the new page takes the old content. */
  method CopyOne(mem: Memory, it: WorkItem, e: ConcurEnv)
    requires Fits(mem.frames, it)
    modifies mem`frames
    ensures mem.frames == Apply(CopyStage, e, old(mem.frames), it)
  {
    if it.list == OnUnmapped && it.newPage.Some? {
      var o := mem.frames[it.oldPage];
      var n := mem.frames[it.newPage.value];
      mem.frames := mem.frames[it.newPage.value := n.(content := o.content)];
    }
  }

  /** The batch copy: one backend call over the whole unmapped list, DMA
      tried before MT. With no backend the result stays -EFAULT. */
  method CopyBulk(mem: Memory, items: array<WorkItem>, e: ConcurEnv) returns (rc: int)
    requires AllFit(mem.frames, items[..])
    modifies mem`frames
    ensures rc == 0 <==> CopyEngine.DmaFirst(e.m) != CopyEngine.NoBackend && e.bulk.Copied?
    ensures rc == 0 ==> mem.frames == FoldDown(CopyStage, e, old(mem.frames), items[..], 0)
    ensures rc != 0 ==> mem.frames == old(mem.frames)
  {
    rc := -EFAULT;
    if CopyEngine.DmaFirst(e.m) == CopyEngine.NoBackend || !e.bulk.Copied? {
      return;
    }
    ghost var f0 := mem.frames;
    ghost var batch := items[..];
    var i := items.Length;
    while i > 0
      invariant 0 <= i <= |batch| && batch == items[..]
      invariant mem.frames == FoldDown(CopyStage, e, f0, batch, i)
    {
      i := i - 1;
      FoldStep(CopyStage, e, f0, batch, i);
      CopyOne(mem, items[i], e);
    }
    rc := 0;
  }

  /** The repair of one item after a failed batch copy: a huge page by
      copy_huge_page() in mode 0, a base page by copy_highpage(). */
  method CopyOneAgain(mem: Memory, it: WorkItem, e: ConcurEnv)
    requires Fits(mem.frames, it)
    modifies mem`frames
    ensures mem.frames == Apply(CopyStage, e, old(mem.frames), it)
  {
    if it.list == OnUnmapped && it.newPage.Some? {
      var o := mem.frames[it.oldPage];
      var n := mem.frames[it.newPage.value];
      var content;
      if PageHuge(o) || PageTransHuge(o) {
        var used;
        content, used := CopyEngine.CopyHugePage(o, n.content, o.content, Mode(Async, false, false, false), e.t,
                                                 e.redo(it.oldPage), seq(|o.content|, _ => CopyEngine.Copied));
      } else {
        content := CopyEngine.CopyHighpages(n.content, o.content);
      }
      mem.frames := mem.frames[it.newPage.value := n.(content := content)];
    }
  }

  /** The repair after a failed batch copy: every item of the list is
      copied again. */
  method CopyAgain(mem: Memory, items: array<WorkItem>, e: ConcurEnv)
    requires AllFit(mem.frames, items[..])
    modifies mem`frames
    ensures mem.frames == FoldDown(CopyStage, e, old(mem.frames), items[..], 0)
  {
    ghost var f0 := mem.frames;
    ghost var batch := items[..];
    var i := items.Length;
    while i > 0
      invariant 0 <= i <= |batch| && batch == items[..]
      invariant mem.frames == FoldDown(CopyStage, e, f0, batch, i)
    {
      i := i - 1;
      FoldStep(CopyStage, e, f0, batch, i);
      CopyOneAgain(mem, items[i], e);
    }
  }

  /** migrate_page_states() for one item of the list. */
  method StatesOne(mem: Memory, it: WorkItem, e: ConcurEnv)
    requires Fits(mem.frames, it)
    requires Batched(it) ==> it.oldPage != it.newPage.value
    modifies mem
    ensures mem.frames == Apply(StatesStage, e, old(mem.frames), it)
    ensures mem.vmstat == old(mem.vmstat) && mem.events == old(mem.events)
  {
    if it.list == OnUnmapped && it.newPage.Some? {
      PageStates.MigratePageStates(mem, it.newPage.value, it.oldPage);
    }
  }

  /** migrate_page_states() for every item of the list. */
  method StatesAll(mem: Memory, items: array<WorkItem>, e: ConcurEnv)
    requires AllFit(mem.frames, items[..]) && Disjoint(items[..])
    modifies mem
    ensures mem.frames == FoldDown(StatesStage, e, old(mem.frames), items[..], 0)
    ensures mem.vmstat == old(mem.vmstat) && mem.events == old(mem.events)
  {
    ghost var f0 := mem.frames;
    ghost var batch := items[..];
    var i := items.Length;
    while i > 0
      invariant 0 <= i <= |batch| && batch == items[..]
      invariant mem.frames == FoldDown(StatesStage, e, f0, batch, i)
      invariant mem.vmstat == old(mem.vmstat) && mem.events == old(mem.events)
    {
      i := i - 1;
      FoldStep(StatesStage, e, f0, batch, i);
      StatesOne(mem, items[i], e);
    }
  }

  /** copy_to_new_pages_concur(): the batch copy, the repair of every item
      when it fails, and the state carry-over for every item. It always
      reports 0. */
  method CopyToNewPagesConcur(mem: Memory, items: array<WorkItem>, e: ConcurEnv) returns (rc: int)
    requires AllFit(mem.frames, items[..]) && Disjoint(items[..])
    modifies mem
    ensures rc == 0
    ensures mem.frames == FoldDown(StatesStage, e, FoldDown(CopyStage, e, old(mem.frames), items[..], 0), items[..], 0)
    ensures mem.vmstat == old(mem.vmstat) && mem.events == old(mem.events)
  {
    rc := CopyBulk(mem, items, e);
    if rc != 0 {
      CopyAgain(mem, items, e);
    }
    StatesAll(mem, items, e);
    rc := 0;
  }

  // ---------------------------------------------------------------------
  // Removing the migration entries

  /** remove_migration_ptes_concurr() on one batched item: its old page
      leaves the caller's list and gives its isolation count back. */
  datatype Listing = Listing(from: seq<Pfn>, vmstat: map<StatItem, int>)

  function Release(frames: map<Pfn, Frame>, l: Listing, it: WorkItem): Listing
    requires Batched(it) ==> it.oldPage in frames
  {
    if !Batched(it) then l
    else
      var f := frames[it.oldPage];
      Listing(Filter(l.from, {it.oldPage}),
              Bump(l.vmstat, NodeStat(f.node, IsolatedItem(f)), -(HPageNrPages(f) as int)))
  }

  function ReleaseDown(frames: map<Pfn, Frame>, l: Listing, items: seq<WorkItem>, k: nat): Listing
    requires k <= |items| && AllFit(frames, items)
    decreases |items| - k
  {
    if k == |items| then l
    else Release(frames, ReleaseDown(frames, l, items, k + 1), items[k])
  }

  /** The set of old pages in the batch. */
  function BatchOlds(items: seq<WorkItem>, k: nat): set<Pfn> {
    set j | k <= j < |items| && Batched(items[j]) :: items[j].oldPage
  }

  /** The removal stage takes exactly the batch's old pages off the caller's
      list, and keeps the order of the others. */
  lemma {:induction false} ReleaseUnlists(frames: map<Pfn, Frame>, l: Listing, items: seq<WorkItem>, k: nat)
    requires k <= |items| && AllFit(frames, items)
    ensures ReleaseDown(frames, l, items, k).from == Filter(l.from, BatchOlds(items, k))
    decreases |items| - k
  {
    if k < |items| {
      ReleaseUnlists(frames, l, items, k + 1);
      var it := items[k];
      assert ReleaseDown(frames, l, items, k) == Release(frames, ReleaseDown(frames, l, items, k + 1), it);
      var extra: set<Pfn> := if Batched(it) then {it.oldPage} else {};
      forall x
        ensures x in BatchOlds(items, k) <==> x in BatchOlds(items, k + 1) + extra
      {
        if x in BatchOlds(items, k) {
          var j :| k <= j < |items| && Batched(items[j]) && items[j].oldPage == x;
          if j > k {
            assert x in BatchOlds(items, k + 1);
          }
        }
        if x in BatchOlds(items, k + 1) {
          var j :| k + 1 <= j < |items| && Batched(items[j]) && items[j].oldPage == x;
          assert x in BatchOlds(items, k);
        }
        if x in extra {
          assert x in BatchOlds(items, k);
        }
      }
      assert BatchOlds(items, k) == BatchOlds(items, k + 1) + extra;
      FilterTwice(l.from, BatchOlds(items, k + 1), extra);
      if !Batched(it) {
        assert BatchOlds(items, k + 1) + extra == BatchOlds(items, k + 1);
      }
    } else {
      assert BatchOlds(items, k) == {};
      FilterNone(l.from);
    }
  }

  /** The item after its migration entries are removed: it keeps its place
      on the unmapped list but holds no page any more. */
  function Retire(it: WorkItem): WorkItem {
    if Batched(it) then it.(holdsOld := false, newPage := None) else it
  }

  // ---------------------------------------------------------------------
  // The whole call

  /** What migrate_pages_concur() needs of its caller and its allocator:
      each listed page once, known and well formed, and a distinct new
      frame of the same size for each, which is not itself listed. */
  predicate ConcurReady(frames: map<Pfn, Frame>, e: ConcurEnv, from: seq<Pfn>) {
    && Distinct(from)
    && (forall p :: p in from ==> p in frames && WellFormed(frames[p]))
    && (forall p :: p in from ==> e.newPageOf(p) in frames && e.newPageOf(p) !in from
                                  && |frames[e.newPageOf(p)].content| == |frames[p].content|)
    && (forall i, j :: 0 <= i < j < |from| ==> e.newPageOf(from[i]) != e.newPageOf(from[j]))
  }

  /** After the pass the batch is made of distinct frames that fit. */
  lemma PassBatchReady(frames: map<Pfn, Frame>, e: ConcurEnv, from: seq<Pfn>)
    requires ConcurReady(frames, e, from)
    ensures AllFit(frames, PassItems(frames, e, from)) && Disjoint(PassItems(frames, e, from))
  {
    var r := PassItems(frames, e, from);
    forall j | 0 <= j < |r|
      ensures r[j].oldPage == from[j]
      ensures Batched(r[j]) ==> r[j].newPage.value == e.newPageOf(from[j])
    {
      PassPlaces(frames, e, from, j);
    }
    forall i, j | 0 <= i < |r| && 0 <= j < |r| && i != j && Batched(r[i]) && Batched(r[j])
      ensures r[i].oldPage != r[j].oldPage && r[i].newPage.value != r[j].newPage.value
    {
      if i < j {
        assert e.newPageOf(from[i]) != e.newPageOf(from[j]);
      } else {
        assert e.newPageOf(from[j]) != e.newPageOf(from[i]);
      }
    }
  }

  /** The state after the pass and, when anything was unmapped, the batch:
      the items, the frames, the caller's list, the node counters, and the
      nr_succeeded and nr_failed (failures plus retries) the call reports. */
  datatype Staged = Staged(items: seq<WorkItem>, frames: map<Pfn, Frame>, from: seq<Pfn>,
                           vmstat: map<StatItem, int>, succeeded: nat, failed: nat)

  predicate HasUnmapped(items: seq<WorkItem>) {
    exists j :: 0 <= j < |items| && items[j].list == OnUnmapped
  }

  /** The items after the removal stage. */
  function Retired(items: seq<WorkItem>): (r: seq<WorkItem>)
    ensures |r| == |items| && forall j :: 0 <= j < |items| ==> r[j] == Retire(items[j])
  {
    seq(|items|, j requires 0 <= j < |items| => Retire(items[j]))
  }

  /** The state after the pass. */
  function PassStaged(frames: map<Pfn, Frame>, e: ConcurEnv, from: seq<Pfn>, vmstat: map<StatItem, int>): (r: Staged)
    requires forall p :: p in from ==> p in frames
    ensures forall p :: p in r.from ==> p in from
  {
    var items := PassItems(frames, e, from);
    var n := Reach(frames, e, from);
    var t := TallyUpTo(items, n);
    Staged(items, frames, Filter(from, Dropped(frames, e, from, n)), Isolation(frames, e, from, vmstat, n),
           t.unmapped, t.failed + t.wip)
  }

  /** The state after the mapping, copy and removal stages, from the state
      after the pass. */
  function BatchOf(e: ConcurEnv, p: Staged): (r: Staged)
    requires AllFit(p.frames, p.items) && Disjoint(p.items)
    ensures r.frames.Keys == p.frames.Keys
    ensures forall q :: q in r.from ==> q in p.from
  {
    var f3 := BatchFrames(e, p.frames, p.items);
    var b := Bounced(e, p.items);
    var l := ReleaseDown(f3, Listing(p.from, p.vmstat), b, 0);
    ReleaseUnlists(f3, Listing(p.from, p.vmstat), b, 0);
    Staged(Retired(b), f3, l.from, l.vmstat, p.succeeded, p.failed)
  }

  /** The state after the pass and, when anything was unmapped, the batch. */
  function ConcurStaged(frames: map<Pfn, Frame>, e: ConcurEnv, from: seq<Pfn>, vmstat: map<StatItem, int>): (r: Staged)
    requires ConcurReady(frames, e, from)
    ensures r.frames.Keys == frames.Keys
    ensures forall p :: p in r.from ==> p in from
  {
    var p := PassStaged(frames, e, from, vmstat);
    if !HasUnmapped(p.items) then p
    else
      PassBatchReady(frames, e, from);
      BatchOf(e, p)
  }

  /** After the pass a page is still on the caller's list exactly when
      its item is on the work list, the serialized list or the unmapped
      list. */
  lemma PassListed(frames: map<Pfn, Frame>, e: ConcurEnv, from: seq<Pfn>, vmstat: map<StatItem, int>, j: nat)
    requires ConcurReady(frames, e, from) && j < |from|
    ensures var p := PassStaged(frames, e, from, vmstat);
      && p.items[j].oldPage == from[j]
      && (from[j] in p.from <==> p.items[j].list in {OnWip, OnSerialized, OnUnmapped})
      && (p.items[j].list == OnUnmapped ==> Batched(p.items[j]) && p.items[j].newPage.value == e.newPageOf(from[j]))
  {
    var n := Reach(frames, e, from);
    PassPlaces(frames, e, from, j);
    if j >= n {
      DroppedLacks(frames, e, from, n, from[j]);
    }
  }

  /** The old pages of a batch whose items keep the order of a list
      without duplicates: a listed page is among them exactly when its own
      item is batched. */
  lemma BatchOldsAt(items: seq<WorkItem>, from: seq<Pfn>, j: nat)
    requires |items| == |from| && Distinct(from) && j < |from|
    requires forall i :: 0 <= i < |items| ==> items[i].oldPage == from[i]
    ensures from[j] in BatchOlds(items, 0) <==> Batched(items[j])
  {
    if from[j] in BatchOlds(items, 0) {
      var i :| 0 <= i < |items| && Batched(items[i]) && items[i].oldPage == from[j];
      assert i == j;
    }
  }

  /** The batch takes a page off the caller's list exactly when its item
      stays on the unmapped list. */
  lemma BatchPlaces(e: ConcurEnv, p: Staged, from: seq<Pfn>, j: nat)
    requires AllFit(p.frames, p.items) && Disjoint(p.items)
    requires |p.items| == |from| && Distinct(from) && j < |from|
    requires forall i :: 0 <= i < |from| ==> p.items[i].oldPage == from[i]
    requires p.items[j].list == OnUnmapped ==> Batched(p.items[j])
    requires from[j] in p.from <==> p.items[j].list in {OnWip, OnSerialized, OnUnmapped}
    ensures var s := BatchOf(e, p);
      && |s.items| == |from| && s.items[j].oldPage == from[j]
      && (from[j] in s.from <==> s.items[j].list in {OnWip, OnSerialized})
      && (s.items[j].list == OnUnmapped ==> !s.items[j].holdsOld && s.items[j].newPage.None?)
  {
    var b := Bounced(e, p.items);
    BatchOfShape(e, p);
    BatchOldsAt(b, from, j);
  }

  /** The items and the caller's list after the batch. */
  lemma BatchOfShape(e: ConcurEnv, p: Staged)
    requires AllFit(p.frames, p.items) && Disjoint(p.items)
    ensures BatchOf(e, p).items == Retired(Bounced(e, p.items))
    ensures BatchOf(e, p).from == Filter(p.from, BatchOlds(Bounced(e, p.items), 0))
  {
    ReleaseUnlists(BatchFrames(e, p.frames, p.items), Listing(p.from, p.vmstat), Bounced(e, p.items), 0);
  }

  /** Where migrate_pages_concur() leaves each listed page before the
      serial path runs: the page stays on the caller's list, to be handed to
      migrate_pages(), exactly when its item is on the work list or the
      serialized list. A page whose item is on the unmapped list has
      migrated and its item holds no page any more; a page whose mapping
      could not move (other users) is back on the work list. */
  lemma StagedPlaces(frames: map<Pfn, Frame>, e: ConcurEnv, from: seq<Pfn>, vmstat: map<StatItem, int>, j: nat)
    requires ConcurReady(frames, e, from) && j < |from|
    ensures var s := ConcurStaged(frames, e, from, vmstat);
      && |s.items| == |from| && s.items[j].oldPage == from[j]
      && (from[j] in s.from <==> s.items[j].list in {OnWip, OnSerialized})
      && (s.items[j].list == OnUnmapped ==> !s.items[j].holdsOld && s.items[j].newPage.None?)
  {
    var p := PassStaged(frames, e, from, vmstat);
    PassListed(frames, e, from, vmstat, j);
    if HasUnmapped(p.items) {
      PassBatchReady(frames, e, from);
      forall i | 0 <= i < |from|
        ensures p.items[i].oldPage == from[i]
      {
        PassListed(frames, e, from, vmstat, i);
      }
      BatchPlaces(e, p, from, j);
    }
  }

  /** What the call does to the frames of a page whose item ends on the
      unmapped list: the frame allocated for it holds the page's content,
      index, mapping, swap-backed bit and carried states, and the page has
      given its states up. */
  lemma StagedMigrates(frames: map<Pfn, Frame>, e: ConcurEnv, from: seq<Pfn>, vmstat: map<StatItem, int>, j: nat)
    requires ConcurReady(frames, e, from) && j < |from|
    requires ConcurStaged(frames, e, from, vmstat).items[j].list == OnUnmapped
    ensures var s := ConcurStaged(frames, e, from, vmstat);
      var o := frames[from[j]];
      var n := frames[e.newPageOf(from[j])];
      && s.frames[e.newPageOf(from[j])] == PageStates.StatesNew(o, MoveMapping.AnonTakeover(o, n).(content := o.content))
      && s.frames[from[j]] == PageStates.StatesOld(o)
  {
    var p := PassStaged(frames, e, from, vmstat);
    PassListed(frames, e, from, vmstat, j);
    PassBatchReady(frames, e, from);
    var b := Bounced(e, p.items);
    assert HasUnmapped(p.items);
    assert Retire(b[j]).list == OnUnmapped;
    BatchMigrates(e, frames, p.items, j);
  }

  /** What migrate_pages_concur() leaves behind: its result, the frames,
      the caller's list, the node counters and the event counters. */
  datatype ConcurResult = ConcurResult(rc: int, frames: map<Pfn, Frame>, from: seq<Pfn>,
                                       vmstat: map<StatItem, int>, events: map<VmEvent, int>)

  /** count_vm_events() for a counter that is not zero. */
  function CountEvent(events: map<VmEvent, int>, k: VmEvent, n: nat): (r: map<VmEvent, int>)
    ensures Stat(r, k) == Stat(events, k) + n
    ensures forall j :: j != k ==> Stat(r, j) == Stat(events, j)
  {
    if n != 0 then Bump(events, k, n) else events
  }

  /** The serial fallback's environment: migrate_pages() gets the same
      `mode` migrate_pages_concur() was called with. */
  function FallbackEnv(e: ConcurEnv): SerialBatch.SerialEnv {
    e.serial.(m := e.m)
  }

  /** The whole call: the pass and the batch; then, when pages are left on
      the caller's list, the serial migrate_pages() on them, whose result
      replaces nr_failed + retry; then the call's own events. */
  function ConcurOutcome(frames: map<Pfn, Frame>, e: ConcurEnv, from: seq<Pfn>,
                         vmstat: map<StatItem, int>, events: map<VmEvent, int>): (r: ConcurResult)
    requires ConcurReady(frames, e, from)
  {
    var s := ConcurStaged(frames, e, from, vmstat);
    var o := if |s.from| == 0 then ConcurResult(s.failed, s.frames, s.from, s.vmstat, events)
      else
        var st := SerialBatch.Passes(s.frames, FallbackEnv(e), 0, SerialBatch.Start(s.from, s.vmstat));
        ConcurResult(SerialBatch.SerialRc(st), s.frames, st.kept, st.vmstat, SerialBatch.SerialEvents(events, st));
    o.(events := CountEvent(CountEvent(o.events, PgmigrateSuccess, s.succeeded), PgmigrateFail, s.failed))
  }

  /** list_empty() on the unmapped list. */
  method UnmappedEmpty(items: array<WorkItem>) returns (empty: bool)
    ensures empty <==> !HasUnmapped(items[..])
  {
    empty := true;
    var j := 0;
    while j < items.Length
      invariant 0 <= j <= items.Length
      invariant empty <==> forall k :: 0 <= k < j ==> items[k].list != OnUnmapped
    {
      if items[j].list == OnUnmapped {
        empty := false;
      }
      j := j + 1;
    }
  }

  /** remove_migration_ptes_concurr() on one item of the unmapped list. */
  method RemoveOne(mem: Memory, from: SerialBatch.PageList, items: array<WorkItem>, i: nat)
    requires i < items.Length && (Batched(items[i]) ==> items[i].oldPage in mem.frames)
    modifies mem`vmstat, from, items
    ensures Listing(from.pages, mem.vmstat) == Release(mem.frames, Listing(old(from.pages), old(mem.vmstat)), old(items[i]))
    ensures items[..] == old(items[..])[i := Retire(old(items[i]))]
  {
    var it := items[i];
    if it.list == OnUnmapped && it.newPage.Some? {
      var f := mem.frames[it.oldPage];
      from.pages := Filter(from.pages, {it.oldPage});
      mem.vmstat := Bump(mem.vmstat, NodeStat(f.node, IsolatedItem(f)), -(HPageNrPages(f) as int));
      items[i] := it.(holdsOld := false, newPage := None);
    }
  }

  /** remove_migration_ptes_concurr(): every old page of the unmapped list
      leaves the caller's list and gives its isolation count back, and its
      item lets go of both pages. */
  method RemoveMigrationPtesConcurr(mem: Memory, from: SerialBatch.PageList, items: array<WorkItem>)
    requires AllFit(mem.frames, items[..])
    modifies mem`vmstat, from, items
    ensures Listing(from.pages, mem.vmstat)
            == ReleaseDown(mem.frames, Listing(old(from.pages), old(mem.vmstat)), old(items[..]), 0)
    ensures items[..] == Retired(old(items[..]))
  {
    ghost var its := items[..];
    ghost var l0 := Listing(from.pages, mem.vmstat);
    var i := items.Length;
    while i > 0
      invariant 0 <= i <= items.Length == |its|
      invariant Listing(from.pages, mem.vmstat) == ReleaseDown(mem.frames, l0, its, i)
      invariant forall k :: 0 <= k < i ==> items[k] == its[k]
      invariant forall k :: i <= k < items.Length ==> items[k] == Retire(its[k])
    {
      i := i - 1;
      assert Fits(mem.frames, its[i]);
      RemoveOne(mem, from, items, i);
    }
    assert items[..] == Retired(its);
  }

  /** The stages after the pass, once anything is on the unmapped list. */
  method BatchStages(mem: Memory, from: SerialBatch.PageList, items: array<WorkItem>, e: ConcurEnv)
    requires AllFit(mem.frames, items[..]) && Disjoint(items[..])
    modifies mem, from, items
    ensures mem.frames == BatchFrames(e, old(mem.frames), old(items[..]))
    ensures Listing(from.pages, mem.vmstat)
            == ReleaseDown(mem.frames, Listing(old(from.pages), old(mem.vmstat)), Bounced(e, old(items[..])), 0)
    ensures items[..] == Retired(Bounced(e, old(items[..])))
    ensures mem.events == old(mem.events)
  {
    MoveMappingConcurr(mem, items, e);
    var _ := CopyToNewPagesConcur(mem, items, e);
    RemoveMigrationPtesConcurr(mem, from, items);
  }

  /** The pass over a fresh array of work items, one per listed page. */
  method Pass(mem: Memory, from: SerialBatch.PageList, e: ConcurEnv)
    returns (items: array<WorkItem>, succeeded: nat, nrFailed: nat)
    requires forall p :: p in from.pages ==> p in mem.frames
    modifies mem`vmstat, from
    ensures fresh(items)
    ensures Staged(items[..], mem.frames, from.pages, mem.vmstat, succeeded, nrFailed)
            == PassStaged(mem.frames, e, old(from.pages), old(mem.vmstat))
  {
    var l := from.pages;
    items := new WorkItem[|l|](j requires 0 <= j < |l| => Fresh(l[j]));
    var failed, retry, reach;
    succeeded, failed, retry, reach := UnmapPass(mem, from, items, e);
    nrFailed := failed + retry;
  }

  /** The pass and, when anything is on the unmapped list, the batch. */
  method RunStages(mem: Memory, from: SerialBatch.PageList, e: ConcurEnv)
    returns (items: array<WorkItem>, succeeded: nat, nrFailed: nat)
    requires ConcurReady(mem.frames, e, from.pages)
    modifies mem, from
    ensures fresh(items)
    ensures Staged(items[..], mem.frames, from.pages, mem.vmstat, succeeded, nrFailed)
            == ConcurStaged(old(mem.frames), e, old(from.pages), old(mem.vmstat))
    ensures mem.events == old(mem.events)
  {
    items, succeeded, nrFailed := Pass(mem, from, e);
    ghost var p := Staged(items[..], mem.frames, from.pages, mem.vmstat, succeeded, nrFailed);
    var empty := UnmappedEmpty(items);
    if !empty {
      PassBatchReady(old(mem.frames), e, old(from.pages));
      BatchStages(mem, from, items, e);
      assert Staged(items[..], mem.frames, from.pages, mem.vmstat, succeeded, nrFailed) == BatchOf(e, p);
    }
  }

  /** migrate_pages_concur(). */
  method MigratePagesConcur(mem: Memory, from: SerialBatch.PageList, e: ConcurEnv) returns (rc: int)
    requires ConcurReady(mem.frames, e, from.pages)
    modifies mem, from
    ensures ConcurResult(rc, mem.frames, from.pages, mem.vmstat, mem.events)
            == ConcurOutcome(old(mem.frames), e, old(from.pages), old(mem.vmstat), old(mem.events))
  {
    var items, succeeded, nrFailed := RunStages(mem, from, e);
    rc := nrFailed;
    if |from.pages| > 0 {
      rc := SerialBatch.MigratePages(mem, from, FallbackEnv(e));
    }
    if succeeded != 0 {
      mem.events := Bump(mem.events, PgmigrateSuccess, succeeded);
    }
    if nrFailed != 0 {
      mem.events := Bump(mem.events, PgmigrateFail, nrFailed);
    }
  }
}
