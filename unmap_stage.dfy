/** The per-page stages of both orchestrators, as decisions over what the
    environment answers: whether a lock is free, whether a new page could be
    allocated, whether every mapping was removed, and the result of the move
    itself (move_to_new_page(), modelled in MigratePage).

    Each stage returns its result code and whether it took the page off the
    caller's list (list_del()), which decides where the orchestrator finds
    it afterwards. */
module UnmapStage {
  import opened Errno
  import opened Frames
  import opened Modes

  /** What the environment answers during one attempt on one page. */
  datatype AttemptEnv = AttemptEnv(
    thpMigration: bool,   // thp_migration_supported()
    newPage: bool,        // get_new_page() returned a page
    oldLockFree: bool,    // trylock_page(page) succeeds
    memalloc: bool,       // the current process runs with PF_MEMALLOC (direct compaction)
    newLockFree: bool,    // trylock_page(newpage) succeeds
    unmappedAll: bool,    // no mapping is left after try_to_unmap()
    moveRc: int,          // move_to_new_page()'s result
    hugeRc: int)          // unmap_and_move_huge_page()'s result

  /** The result of one attempt: its code, and whether the page left the
      list it was on. */
  datatype Attempt = Attempt(rc: int, dequeued: bool)

  /** The page lock cannot be had: trylock failed, and the caller may not
      (or must not) sleep for it. */
  predicate LockRefused(force: bool, m: Mode, env: AttemptEnv) {
    !env.oldLockFree && (!force || IsAsync(m) || env.memalloc)
  }

  /** __unmap_and_move(): lock the page (waiting only when forced, not async
      and not in direct compaction), deal with writeback, lock the new page,
      replace the mappings by migration entries, and move the page once no
      mapping is left. */
  function UnmapAndMoveLocked(f: Frame, force: bool, m: Mode, env: AttemptEnv): int {
    if LockRefused(force, m, env) then -EAGAIN
    else if Writeback in f.flags && !IsFullSync(m) then -EBUSY
    else if Writeback in f.flags && !force then -EAGAIN
    else if !env.newLockFree then -EAGAIN
    else if PageMovableTag(f) then env.moveRc
    // an orphaned page with private data: its buffers are freed instead
    else if f.mapping == NoMapping && PageHasPrivate(f) then -EAGAIN
    // a mapping survived try_to_unmap(): the move is not attempted
    else if PageMapped(f) && (f.mapping == NoMapping || !env.unmappedAll) then -EAGAIN
    else env.moveRc
  }

  /** unmap_and_move(): a transparent huge page that cannot migrate whole,
      or a failed allocation, is -ENOMEM and leaves the page on the list; a
      page whose only reference is ours was freed meanwhile and counts as
      migrated; otherwise __unmap_and_move() decides. Every result but
      -EAGAIN takes the page off the list. */
  function UnmapAndMove(f: Frame, force: bool, m: Mode, env: AttemptEnv): Attempt {
    if !env.thpMigration && PageTransHuge(f) then Attempt(-ENOMEM, false)
    else if f.count == 1 then Attempt(MIGRATEPAGE_SUCCESS, true)
    else if !env.newPage then Attempt(-ENOMEM, false)
    else
      var rc := UnmapAndMoveLocked(f, force, m, env);
      Attempt(rc, rc != -EAGAIN)
  }

  /** unmap_and_move_huge_page(), whose insides are not modelled: a result
      of -EAGAIN keeps the page for another pass, -ENOMEM returns before the
      page is put back, and every other result puts the page back on the
      active hugepage list. */
  function UnmapAndMoveHuge(env: AttemptEnv): Attempt {
    Attempt(env.hugeRc, env.hugeRc != -EAGAIN && env.hugeRc != -ENOMEM)
  }

  /** One attempt of the serial loop on a page: hugetlbfs pages take their
      own path. `force` is pass > 2. */
  function SerialAttempt(f: Frame, pass: nat, m: Mode, env: AttemptEnv): Attempt {
    if PageHuge(f) then UnmapAndMoveHuge(env)
    else UnmapAndMove(f, pass > 2, m, env)
  }

  /** What the serial stage promises: a page that is left on the list is
      exactly one that may be retried (-EAGAIN) or that hit -ENOMEM before
      anything was taken; lock contention is only waited out when forcing;
      a page under writeback fails with -EBUSY unless the migration is fully
      synchronous; a page freed meanwhile needs no new page. */
  lemma UnmapAndMoveCases(f: Frame, force: bool, m: Mode, env: AttemptEnv)
    ensures var a := UnmapAndMove(f, force, m, env);
      && (!a.dequeued ==> a.rc == -EAGAIN || a.rc == -ENOMEM)
      && (a.rc == -EAGAIN ==> !a.dequeued)
      && (a.rc != -EAGAIN && a.rc != -ENOMEM ==> a.dequeued)
      && (!a.dequeued <==>
            a.rc == -EAGAIN || (!env.thpMigration && PageTransHuge(f)) || (f.count != 1 && !env.newPage))
      && ((env.thpMigration || !PageTransHuge(f)) && f.count != 1 && env.newPage ==> (a.dequeued <==> a.rc != -EAGAIN))
      && (!env.thpMigration && PageTransHuge(f) ==> a == Attempt(-ENOMEM, false))
      && ((env.thpMigration || !PageTransHuge(f)) && f.count == 1 ==> a == Attempt(MIGRATEPAGE_SUCCESS, true))
      && ((env.thpMigration || !PageTransHuge(f)) && f.count != 1 && env.newPage ==>
            (LockRefused(force, m, env) ==> a.rc == -EAGAIN)
            && (!LockRefused(force, m, env) && Writeback in f.flags && !IsFullSync(m) ==> a.rc == -EBUSY))
    ensures !force ==> (LockRefused(force, m, env) <==> !env.oldLockFree)
  {
  }

  /** __unmap_page_concur(): the concurrent variant stops after the
      unmapping and reports success; the move happens later, for the whole
      batch. It also says whether it took the anon_vma and whether it
      installed migration entries. */
  datatype ConcurUnmap = ConcurUnmap(rc: int, anonVma: bool, pageWasMapped: bool)

  function UnmapPageConcur(f: Frame, force: bool, m: Mode, env: AttemptEnv): (r: ConcurUnmap)
    ensures r.rc == MIGRATEPAGE_SUCCESS && !PageMovableTag(f) ==>
              !LockRefused(force, m, env) && env.newLockFree
              && !(f.mapping == NoMapping && PageHasPrivate(f))
    ensures r.pageWasMapped ==> r.rc == MIGRATEPAGE_SUCCESS && f.mapping != NoMapping && PageMapped(f)
  {
    if LockRefused(force, m, env) then ConcurUnmap(-EAGAIN, false, false)
    else
      var anon := PageAnon(f) && !PageKsm(f);
      if !env.newLockFree then ConcurUnmap(-EAGAIN, false, false)
      else if PageMovableTag(f) then ConcurUnmap(env.moveRc, false, false)
      else if f.mapping == NoMapping && PageHasPrivate(f) then ConcurUnmap(-EAGAIN, false, false)
      else ConcurUnmap(MIGRATEPAGE_SUCCESS, anon, f.mapping != NoMapping && PageMapped(f))
  }

  /** The result of unmap_pages_and_get_new_concur() for a work item:
      its code, whether the page left the list, whether the item still
      holds its old page (it does not when the page was freed meanwhile)
      and what __unmap_page_concur() reported. */
  datatype ConcurAttempt = ConcurAttempt(rc: int, dequeued: bool, keepsOld: bool, anonVma: bool, pageWasMapped: bool)

  /** unmap_pages_and_get_new_concur(): unlike the serial stage the new page
      is allocated before the check for a page freed meanwhile. A successful
      unmapping keeps the page on the list; a page freed meanwhile is
      dropped from it and from the item; other failures but -EAGAIN put the
      page back. */
  function UnmapPagesAndGetNewConcur(f: Frame, force: bool, m: Mode, env: AttemptEnv): ConcurAttempt {
    if !env.thpMigration && PageTransHuge(f) then ConcurAttempt(-ENOMEM, false, true, false, false)
    else if !env.newPage then ConcurAttempt(-ENOMEM, false, true, false, false)
    else if f.count == 1 then ConcurAttempt(MIGRATEPAGE_SUCCESS, true, false, false, false)
    else
      var u := UnmapPageConcur(f, force, m, env);
      if u.rc == MIGRATEPAGE_SUCCESS then ConcurAttempt(MIGRATEPAGE_SUCCESS, false, true, u.anonVma, u.pageWasMapped)
      else ConcurAttempt(u.rc, u.rc != -EAGAIN, true, false, false)
  }

  /** The stage migrate_pages_concur() runs on a work item: hugetlbfs pages
      and pages with a mapping (file pages, swap-cache pages and driver
      pages) are refused with -ENODEV and left for the serial path. */
  function ConcurStage(f: Frame, force: bool, m: Mode, env: AttemptEnv): ConcurAttempt {
    if PageHuge(f) || HasPageMapping(f) then ConcurAttempt(-ENODEV, false, true, false, false)
    else UnmapPagesAndGetNewConcur(f, force, m, env)
  }

  /** What the concurrent stage promises: driver pages, file pages and
      hugetlbfs pages never enter it; a result of success either keeps the
      page for the batch (still listed, old page held) or reports it freed
      (unlisted, old page dropped); -EAGAIN, -ENOMEM and -ENODEV leave the
      page on the list; any other failure takes it off. Without force, lock
      contention is always -EAGAIN. */
  lemma ConcurStageCases(f: Frame, force: bool, m: Mode, env: AttemptEnv)
    ensures var a := ConcurStage(f, force, m, env);
      && (PageHuge(f) || PageMovableTag(f) || f.mapping.File? ==> a.rc == -ENODEV)
      && (a.rc == MIGRATEPAGE_SUCCESS ==> (a.keepsOld <==> !a.dequeued))
      && (a.rc == -EAGAIN || a.rc == -ENOMEM || a.rc == -ENODEV ==> !a.dequeued && a.keepsOld)
      && (a.rc != MIGRATEPAGE_SUCCESS && a.rc != -EAGAIN && a.rc != -ENOMEM && a.rc != -ENODEV ==>
            a.dequeued && a.keepsOld)
      && (a.pageWasMapped ==> a.rc == MIGRATEPAGE_SUCCESS && a.keepsOld)
    ensures !force && !PageHuge(f) && !HasPageMapping(f) && (env.thpMigration || !PageTransHuge(f))
            && env.newPage && f.count != 1 && !env.oldLockFree ==>
              ConcurStage(f, force, m, env).rc == -EAGAIN
  {
  }
}
