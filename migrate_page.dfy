/** Moving one locked, unmapped page: migrate_page(), the dispatch in
    move_to_new_page(), the fallback for mappings without a migratepage
    callback, writeout(), isolation of driver-owned pages and the buffer
    lock ring. */
module MigratePage {
  import opened Errno
  import opened Wrappers
  import opened Frames
  import opened Modes
  import opened MoveMapping
  import PageStates
  import CopyEngine

  /** The frames after migrate_page_states() alone, with no copy. */
  function StatesOnly(frames: map<Pfn, Frame>, newpage: Pfn, page: Pfn): map<Pfn, Frame>
    requires page in frames && newpage in frames
  {
    var o := frames[page];
    frames[newpage := PageStates.StatesNew(o, frames[newpage])][page := PageStates.StatesOld(o)]
  }

  /** The frames after migrate_page() once the handoff `h` was accepted:
      the content and the states carried over, or only the states in a
      "no copy" mode. */
  function MigratedBy(h: Handoff, m: Mode, newpage: Pfn, page: Pfn): map<Pfn, Frame>
    requires page in h.frames && newpage in h.frames
  {
    if m.noCopy then StatesOnly(h.frames, newpage, page) else CopyEngine.Migrated(h.frames, newpage, page)
  }

  /** migrate_page(): hand the mapping over with no extra references, then
      copy the content and the states, or only the states in a "no copy"
      mode. A refused handoff is returned as it is and nothing changes. */
  method MigratePageOnce(mem: Memory, mapping: AddressSpace?, newpage: Pfn, page: Pfn, m: Mode, t: Tunables,
                         out: CopyEngine.Outcome, subOut: seq<CopyEngine.Outcome>) returns (rc: int)
    requires page in mem.frames && newpage in mem.frames && page != newpage
    requires Writeback !in mem.frames[page].flags
    requires WellFormed(mem.frames[page])
    requires |mem.frames[newpage].content| == |mem.frames[page].content| == |subOut|
    modifies mem, mapping
    ensures var h := Handoffs(old(mem.frames), mapping != null, if mapping != null then old(mapping.iPages) else map[],
                              mapping != null && mapping.accountsDirty, old(mem.vmstat), newpage, page, 0);
      && rc == h.rc
      && mem.vmstat == h.vmstat
      && (mapping != null ==> mapping.iPages == h.slots)
      && mem.frames == (if rc != MIGRATEPAGE_SUCCESS then old(mem.frames) else MigratedBy(h, m, newpage, page))
    ensures rc == MIGRATEPAGE_SUCCESS && !m.noCopy ==> mem.frames[newpage].content == old(mem.frames[page].content)
    ensures mem.events == old(mem.events)
  {
    ghost var slots := if mapping != null then mapping.iPages else map[];
    HandoffGate(mem.frames, mapping != null, slots, mapping != null && mapping.accountsDirty,
                mem.vmstat, newpage, page, 0);
    rc := MigratePageMoveMapping(mem, mapping, newpage, page, 0);
    if rc != MIGRATEPAGE_SUCCESS {
      return;
    }
    if !m.noCopy {
      var _ := CopyEngine.MigratePageCopy(mem, newpage, page, m, t, out, subOut);
    } else {
      PageStates.MigratePageStates(mem, newpage, page);
    }
  }

  /** writeout(): the result of writing a dirty page back instead of
      migrating it. Without a writepage operation it is -EINVAL; if someone
      else already started the write it is -EAGAIN; otherwise the write is
      issued and the migration attempt fails anyway: -EIO if the write
      failed, -EAGAIN if not. */
  function Writeout(hasWritepage: bool, clearedForIo: bool, writepageRc: int): (rc: int)
    ensures rc == -EINVAL || rc == -EAGAIN || rc == -EIO
    ensures rc == -EINVAL <==> !hasWritepage
    ensures rc == -EIO <==> hasWritepage && clearedForIo && writepageRc < 0
  {
    if !hasWritepage then -EINVAL
    else if !clearedForIo then -EAGAIN
    else if writepageRc < 0 then -EIO
    else -EAGAIN
  }

  /** fallback_migrate_page(): Some(rc) when it returns without migrating,
      None when it goes on to migrate_page(). `released` is the result of
      try_to_release_page() on a page with private data. */
  function FallbackMigratePage(f: Frame, m: Mode, released: bool, writeoutRc: int): Option<int> {
    if Dirty in f.flags then
      if !IsFullSync(m) then Some(-EBUSY) else Some(writeoutRc)
    else if PageHasPrivate(f) && !released then
      Some(if IsFullSync(m) then -EAGAIN else -EBUSY)
    else None
  }

  /** What the fallback promises: a dirty page is never migrated, and is
      only written back in a full synchronous migration; private data that
      cannot be released stops the migration with -EAGAIN in a full
      synchronous migration and -EBUSY otherwise; a clean page without
      private data (or whose data was released) is migrated. */
  lemma FallbackDecisions(f: Frame, m: Mode, released: bool, writeoutRc: int)
    ensures Dirty in f.flags ==> FallbackMigratePage(f, m, released, writeoutRc).Some?
    ensures Dirty in f.flags && !IsFullSync(m) ==> FallbackMigratePage(f, m, released, writeoutRc) == Some(-EBUSY)
    ensures Dirty in f.flags && IsFullSync(m) ==> FallbackMigratePage(f, m, released, writeoutRc) == Some(writeoutRc)
    ensures Dirty !in f.flags ==>
              (FallbackMigratePage(f, m, released, writeoutRc).None? <==> !PageHasPrivate(f) || released)
    ensures Dirty !in f.flags && PageHasPrivate(f) && !released ==>
              FallbackMigratePage(f, m, released, writeoutRc) == Some(if IsFullSync(m) then -EAGAIN else -EBUSY)
  {
  }

  /** Where move_to_new_page() sends a page. */
  datatype Route =
    | MigrateDirect       // LRU page with no mapping: migrate_page()
    | MappingCallback     // the mapping's own migratepage operation
    | Fallback            // a mapping without one: fallback_migrate_page()
    | AlreadyReleased     // a driver page its owner released after isolation
    | DriverCallback      // a driver page: the driver's migratepage operation

  /** The dispatch of move_to_new_page(). `stillMovable` is PageMovable()
      for a driver page; `hasCallback` says whether the page's mapping has a
      migratepage operation. */
  function MoveToNewPageRoute(f: Frame, hasCallback: bool, stillMovable: bool): Route {
    if !PageMovableTag(f) then
      if !HasPageMapping(f) then MigrateDirect
      else if hasCallback then MappingCallback
      else Fallback
    else if !stillMovable then AlreadyReleased
    else DriverCallback
  }

  /** The clean-up move_to_new_page() applies to the old frame after a
      successful move: a driver page loses its isolation mark, and a page
      whose mapping carries no tag bits forgets its mapping. */
  function AfterMove(f: Frame): (r: Frame)
    ensures PageMovableTag(f) ==> Isolated !in r.flags
    ensures !PageMappingFlags(f) ==> r.mapping == NoMapping
    ensures PageMappingFlags(f) ==> r.mapping == f.mapping
    ensures r.count == f.count && r.content == f.content && r.index == f.index
  {
    var f1 := if PageMovableTag(f) then f.(flags := f.flags - {Isolated}) else f;
    if !PageMappingFlags(f1) then f1.(mapping := NoMapping) else f1
  }

  /** The dispatch covers every page exactly once: LRU pages take one of
      the three mapping routes, driver pages one of the two driver routes. */
  lemma RouteCases(f: Frame, hasCallback: bool, stillMovable: bool)
    ensures var r := MoveToNewPageRoute(f, hasCallback, stillMovable);
      && (r == MigrateDirect <==> !PageMovableTag(f) && !HasPageMapping(f))
      && (r == MappingCallback <==> !PageMovableTag(f) && HasPageMapping(f) && hasCallback)
      && (r == Fallback <==> !PageMovableTag(f) && HasPageMapping(f) && !hasCallback)
      && (r == AlreadyReleased <==> PageMovableTag(f) && !stillMovable)
      && (r == DriverCallback <==> PageMovableTag(f) && stillMovable)
  {
  }

  /** Whether move_to_new_page() reaches migrate_page(): a page without a
      mapping, or a fallback that neither writes back nor is stopped by
      private data. */
  predicate ReachesMigratePage(f: Frame, m: Mode, hasCallback: bool, stillMovable: bool,
                               released: bool, writeoutRc: int) {
    var route := MoveToNewPageRoute(f, hasCallback, stillMovable);
    route == MigrateDirect || (route == Fallback && FallbackMigratePage(f, m, released, writeoutRc).None?)
  }

  /** move_to_new_page(): dispatch, then clean the old frame up after a
      successful move. `mapping` is page_mapping() of the page. The mapping
      and driver callbacks are opaque: only their result `callbackRc` is
      modelled. `released` and the writeout inputs feed the fallback. */
  method MoveToNewPage(mem: Memory, mapping: AddressSpace?, newpage: Pfn, page: Pfn, m: Mode, t: Tunables,
                       out: CopyEngine.Outcome, subOut: seq<CopyEngine.Outcome>,
                       hasCallback: bool, stillMovable: bool, callbackRc: int, released: bool,
                       hasWritepage: bool, clearedForIo: bool, writepageRc: int)
    returns (rc: int)
    requires page in mem.frames && newpage in mem.frames && page != newpage
    requires Writeback !in mem.frames[page].flags
    requires WellFormed(mem.frames[page])
    requires |mem.frames[newpage].content| == |mem.frames[page].content| == |subOut|
    requires mapping != null <==> HasPageMapping(mem.frames[page])
    modifies mem, mapping
    ensures ReachesMigratePage(old(mem.frames[page]), m, hasCallback, stillMovable, released,
                               Writeout(hasWritepage, clearedForIo, writepageRc)) ==>
      var h := Handoffs(old(mem.frames), mapping != null, if mapping != null then old(mapping.iPages) else map[],
                        mapping != null && mapping.accountsDirty, old(mem.vmstat), newpage, page, 0);
      && rc == h.rc
      && mem.vmstat == h.vmstat
      && (mapping != null ==> mapping.iPages == h.slots)
      && (rc == MIGRATEPAGE_SUCCESS ==>
            var moved := MigratedBy(h, m, newpage, page);
            mem.frames == moved[page := AfterMove(moved[page])])
    ensures ReachesMigratePage(old(mem.frames[page]), m, hasCallback, stillMovable, released,
                               Writeout(hasWritepage, clearedForIo, writepageRc)) && rc == MIGRATEPAGE_SUCCESS ==>
      && mem.frames[newpage].index == old(mem.frames[page]).index
      && mem.frames[newpage].mapping == old(mem.frames[page]).mapping
      && (!m.noCopy ==> mem.frames[newpage].content == old(mem.frames[page]).content)
      && mem.frames[page].content == old(mem.frames[page]).content
    ensures var route := MoveToNewPageRoute(old(mem.frames[page]), hasCallback, stillMovable);
      (route == MappingCallback || route == DriverCallback) && rc == MIGRATEPAGE_SUCCESS ==>
        mem.frames == old(mem.frames)[page := AfterMove(old(mem.frames[page]))]
    ensures var route := MoveToNewPageRoute(old(mem.frames[page]), hasCallback, stillMovable);
      && (route == AlreadyReleased ==>
            rc == MIGRATEPAGE_SUCCESS
            && mem.frames == old(mem.frames)[page := old(mem.frames[page]).(flags := old(mem.frames[page]).flags - {Isolated})])
      && (route == MappingCallback || route == DriverCallback ==> rc == callbackRc)
      && (route == Fallback && FallbackMigratePage(old(mem.frames[page]), m, released, Writeout(hasWritepage, clearedForIo, writepageRc)).Some? ==>
            rc == FallbackMigratePage(old(mem.frames[page]), m, released, Writeout(hasWritepage, clearedForIo, writepageRc)).value
            && mem.frames == old(mem.frames))
      && (route == MigrateDirect ==>
            rc == Handoffs(old(mem.frames), false, map[], false, old(mem.vmstat), newpage, page, 0).rc)
    ensures rc == MIGRATEPAGE_SUCCESS && MoveToNewPageRoute(old(mem.frames[page]), hasCallback, stillMovable) != AlreadyReleased ==>
              page in mem.frames && (PageMovableTag(old(mem.frames[page])) ==> Isolated !in mem.frames[page].flags)
              && (!PageMappingFlags(old(mem.frames[page])) ==> mem.frames[page].mapping == NoMapping)
    ensures rc != MIGRATEPAGE_SUCCESS ==> mem.frames == old(mem.frames)
    ensures mem.events == old(mem.events)
  {
    var f := mem.frames[page];
    var route := MoveToNewPageRoute(f, hasCallback, stillMovable);
    match route {
      case MigrateDirect =>
        rc := MigratePageOnce(mem, mapping, newpage, page, m, t, out, subOut);
      case MappingCallback =>
        rc := callbackRc;
      case Fallback =>
        var early := FallbackMigratePage(f, m, released, Writeout(hasWritepage, clearedForIo, writepageRc));
        if early.Some? {
          rc := early.value;
        } else {
          rc := MigratePageOnce(mem, mapping, newpage, page, m, t, out, subOut);
        }
      case AlreadyReleased =>
        mem.frames := mem.frames[page := f.(flags := f.flags - {Isolated})];
        return MIGRATEPAGE_SUCCESS;
      case DriverCallback =>
        rc := callbackRc;
    }
    if rc == MIGRATEPAGE_SUCCESS {
      mem.frames := mem.frames[page := AfterMove(mem.frames[page])];
    }
  }

  /** isolate_movable_page() succeeds exactly when the frame is live, is a
      driver page, is not locked by someone else, still has its driver's
      operations, is not isolated already and the driver agrees. */
  predicate CanIsolate(f: Frame, stillMovable: bool, driverAgrees: bool) {
    f.count != 0 && PageMovableTag(f) && Locked !in f.flags
    && stillMovable && Isolated !in f.flags && driverAgrees
  }

  /** isolate_movable_page(): take a reference unless the frame is being
      freed, take its lock, ask the driver, and mark the frame isolated.
      Every failure drops whatever was taken and returns -EBUSY. The success
      path keeps the reference, which is the one the migration holds. */
  method IsolateMovablePage(mem: Memory, page: Pfn, stillMovable: bool, driverAgrees: bool) returns (rc: int)
    requires page in mem.frames
    modifies mem
    ensures rc == 0 || rc == -EBUSY
    ensures rc == 0 <==> CanIsolate(old(mem.frames[page]), stillMovable, driverAgrees)
    ensures rc == 0 ==> mem.frames == old(mem.frames)[page := old(mem.frames[page]).(
                                        count := old(mem.frames[page]).count + 1,
                                        flags := old(mem.frames[page]).flags + {Isolated})]
    ensures rc != 0 ==> mem.frames == old(mem.frames)
    ensures mem.vmstat == old(mem.vmstat) && mem.events == old(mem.events)
  {
    var f := mem.frames[page];
    // get_page_unless_zero()
    if f.count == 0 {
      return -EBUSY;
    }
    f := f.(count := f.count + 1);
    if !PageMovableTag(f) || Locked in f.flags {
      // put_page()
      return -EBUSY;
    }
    // the lock is held from here on and released on every exit
    if !stillMovable || Isolated in f.flags || !driverAgrees {
      return -EBUSY;
    }
    mem.frames := mem.frames[page := f.(flags := f.flags + {Isolated})];
    rc := 0;
  }

  /** buffer_migrate_lock_buffers() over the ring of a page's buffer heads,
      `locked[i]` being buffer i's lock bit and buffer 0 the head. A
      synchronous mode waits for every lock. An asynchronous mode only tries
      each lock in turn; at the first one that is taken it releases the
      ones it took and fails. */
  method BufferMigrateLockBuffers(locked: array<bool>, m: Mode) returns (ok: bool)
    requires locked.Length >= 1
    modifies locked
    ensures ok ==> forall i :: 0 <= i < locked.Length ==> locked[i]
    ensures !IsAsync(m) ==> ok
    ensures IsAsync(m) ==> (ok <==> forall i :: 0 <= i < locked.Length ==> !old(locked[i]))
    ensures !ok ==> locked[..] == old(locked[..])
  {
    if !IsAsync(m) {
      var i := 0;
      while i < locked.Length
        invariant 0 <= i <= locked.Length
        invariant forall k :: 0 <= k < i ==> locked[k]
      {
        // lock_buffer()
        locked[i] := true;
        i := i + 1;
      }
      return true;
    }
    var i := 0;
    while i < locked.Length
      invariant 0 <= i <= locked.Length
      invariant forall k :: 0 <= k < i ==> locked[k] && !old(locked[k])
      invariant forall k :: i <= k < locked.Length ==> locked[k] == old(locked[k])
    {
      if locked[i] {
        // trylock_buffer() failed: release the buffers before this one
        var failed := i;
        var j := 0;
        while j < failed
          invariant 0 <= j <= failed
          invariant forall k :: 0 <= k < j ==> locked[k] == old(locked[k])
          invariant forall k :: j <= k < failed ==> locked[k] && !old(locked[k])
          invariant forall k :: failed <= k < locked.Length ==> locked[k] == old(locked[k])
        {
          locked[j] := false;
          j := j + 1;
        }
        return false;
      }
      locked[i] := true;
      i := i + 1;
    }
    return true;
  }
}
