/** The migrate mode word and the copy tunables.

    The fork's mode is a bit set: one synchronisation bit (async, light
    sync, full sync), the "no copy" bit, and the copy-backend bits MT and
    DMA. `mode & MIGRATE_MODE_MASK` keeps the synchronisation bits and the
    "no copy" bit, so a mode with "no copy" set never compares equal to
    plain MIGRATE_SYNC or MIGRATE_ASYNC. */
module Modes {
  datatype SyncMode = Async | SyncLight | Sync

  datatype Mode = Mode(sync: SyncMode, noCopy: bool, mt: bool, dma: bool)

  /** (mode & MIGRATE_MODE_MASK) == MIGRATE_SYNC */
  predicate IsFullSync(m: Mode) { m.sync == Sync && !m.noCopy }

  /** (mode & MIGRATE_MODE_MASK) == MIGRATE_ASYNC */
  predicate IsAsync(m: Mode) { m.sync == Async && !m.noCopy }

  /** MIGRATE_SINGLETHREAD, the plain copy: no backend bit. */
  function SingleThread(m: Mode): Mode { m.(mt := false, dma := false) }

  /** The mode bits that reach the copy engine from a move_pages() request:
      MIGRATE_SYNC plus the MT and DMA bits the caller asked for. */
  function RequestMode(mt: bool, dma: bool): Mode {
    Mode(Sync, false, mt, dma)
  }

  /** The two globals that steer the huge-page copy: `accel_page_copy`
      (default 1) and the RPDAA sysctl that avoids remote PMEM writes
      (default 0). */
  datatype Tunables = Tunables(accelPageCopy: int, avoidRemotePmemWrite: int)

  const DEFAULT_TUNABLES: Tunables := Tunables(1, 0)
}
