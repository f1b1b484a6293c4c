/** migrate_page_states(): the page-state carry-over from the old frame to
    the new one, once the mapping has been handed over and the content
    copied. */
module PageStates {
  import opened Frames

  /** Flags the new frame gains whenever the old frame has them; the old
      frame keeps them. Dirty is here because the handoff only moves it for
      pages with a mapping. */
  const CARRIED: set<PG> := {Error, Referenced, Uptodate, Workingset, Checked, MappedToDisk, Dirty, Young, Idle}

  /** The one of Active / Unevictable that migrates: Active if the old frame
      is active, else Unevictable if it is unevictable, else none. */
  function LruBit(o: Frame): set<PG> {
    if Active in o.flags then {Active}
    else if Unevictable in o.flags then {Unevictable}
    else {}
  }

  /** The new frame after the carry-over: the carried flags and the LRU bit
      are added, its writeback ends, and it takes the old cpupid. */
  function StatesNew(o: Frame, n: Frame): Frame {
    n.(flags := (n.flags + (o.flags * CARRIED) + LruBit(o)) - {Writeback}, cpupid := o.cpupid)
  }

  /** The old frame after the carry-over: the migrated LRU bit, the
      swap-cache bit and the private bit are cleared, the private value is
      zeroed and the cpupid reset to -1. */
  function StatesOld(o: Frame): Frame {
    o.(flags := o.flags - LruBit(o) - {SwapCache, Private}, private := 0, cpupid := -1)
  }

  /** The flag table, bit by bit: every carried bit reaches the new frame;
      Active is test-and-cleared on the old frame and set on the new one;
      Unevictable moves the same way but only when the page was not active;
      the new frame's other bits are kept, except writeback, which ends. */
  lemma CarriedFlags(o: Frame, n: Frame, x: PG)
    ensures x in CARRIED && x in o.flags ==> x in StatesNew(o, n).flags && x in StatesOld(o).flags
    ensures x in StatesNew(o, n).flags <==>
              x != Writeback && (x in n.flags || (x in CARRIED && x in o.flags) || x in LruBit(o))
    ensures Active in StatesNew(o, n).flags <==> Active in o.flags || Active in n.flags
    ensures Active !in StatesOld(o).flags
    ensures Active !in o.flags ==>
              (Unevictable in StatesNew(o, n).flags <==> Unevictable in o.flags || Unevictable in n.flags)
              && Unevictable !in StatesOld(o).flags
    ensures Active in o.flags ==>
              (Unevictable in StatesNew(o, n).flags <==> Unevictable in n.flags)
              && (Unevictable in StatesOld(o).flags <==> Unevictable in o.flags)
    ensures Writeback !in StatesNew(o, n).flags
  {
  }

  /** The old frame keeps every bit that is not migrated or cleared. */
  lemma OldFlagsKept(o: Frame, x: PG)
    ensures x in StatesOld(o).flags <==>
              x in o.flags && x != SwapCache && x != Private && !(x in LruBit(o))
  {
  }

  /** NUMA information moves: the new frame takes the old cpupid and the old
      frame is left at -1; the old frame's private data is gone. Nothing
      else about either frame changes: not its count, its mapping, its
      index or its content. */
  lemma StatesIdentity(o: Frame, n: Frame)
    ensures StatesNew(o, n).cpupid == o.cpupid && StatesOld(o).cpupid == -1
    ensures StatesOld(o).private == 0 && SwapCache !in StatesOld(o).flags && Private !in StatesOld(o).flags
    ensures StatesNew(o, n).count == n.count && StatesNew(o, n).mapping == n.mapping
    ensures StatesNew(o, n).index == n.index && StatesNew(o, n).content == n.content
    ensures StatesNew(o, n).private == n.private
    ensures StatesOld(o).count == o.count && StatesOld(o).mapping == o.mapping
    ensures StatesOld(o).index == o.index && StatesOld(o).content == o.content
  {
  }

  /** Running the carry-over a second time adds nothing to the new frame:
      the old frame's LRU bit is gone, and the carried bits are already
      there. This needs the kernel's invariant that a page is never both
      active and unevictable; otherwise the second run would move
      Unevictable too. */
  lemma StatesNewIdempotent(o: Frame, n: Frame)
    requires !(Active in o.flags && Unevictable in o.flags)
    ensures StatesNew(StatesOld(o), StatesNew(o, n)).flags == StatesNew(o, n).flags
  {
    var o1 := StatesOld(o);
    var n1 := StatesNew(o, n);
    assert LruBit(o1) <= LruBit(o) by {
      if Active in o.flags {
        assert Active !in o1.flags;
      }
    }
    assert (o1.flags * CARRIED) <= (o.flags * CARRIED);
  }

  /** SetPageX(): `s` with `x` added when `cond` holds. */
  function SetIf(s: set<PG>, x: PG, cond: bool): set<PG>
  {
    if cond then s + {x} else s
  }

  /** The bits tested before the LRU bit moves: error, referenced and
      up-to-date. */
  method CarryEarly(nf: set<PG>, of: set<PG>) returns (r: set<PG>)
    ensures forall x :: x in r <==> x in nf || (x in of && (x == Error || x == Referenced || x == Uptodate))
  {
    r := SetIf(nf, Error, Error in of);
    r := SetIf(r, Referenced, Referenced in of);
    r := SetIf(r, Uptodate, Uptodate in of);
  }

  /** The bits tested after it: working set, checked, mapped to disk,
      dirty (for pages the handoff did not move it for), young and idle. */
  method CarryLate(nf: set<PG>, of: set<PG>) returns (r: set<PG>)
    ensures forall x :: x in r <==>
      x in nf || (x in of && (x == Workingset || x == Checked || x == MappedToDisk || x == Dirty || x == Young || x == Idle))
  {
    r := SetIf(nf, Workingset, Workingset in of);
    r := SetIf(r, Checked, Checked in of);
    r := SetIf(r, MappedToDisk, MappedToDisk in of);
    r := SetIf(r, Dirty, Dirty in of);
    r := SetIf(r, Young, Young in of);
    r := SetIf(r, Idle, Idle in of);
  }

  /** The flag half of migrate_page_states(), bit by bit as the kernel
      does it: `of` and `nf` are the old and the new frame's flags. */
  method CarryFlags(o: Frame, n: Frame) returns (of: set<PG>, nf: set<PG>)
    ensures of == StatesOld(o).flags && nf == StatesNew(o, n).flags
  {
    of := o.flags;
    nf := CarryEarly(n.flags, of);
    // TestClearPageActive(), else TestClearPageUnevictable()
    var lru := LruBit(o);
    of := of - lru;
    nf := nf + lru;
    nf := CarryLate(nf, of);
    of := of - {SwapCache} - {Private};
    // end_page_writeback() wakes the waiters and clears the bit
    nf := nf - {Writeback};
    forall x: PG ensures x in nf <==> x in StatesNew(o, n).flags {
    }
    forall x: PG ensures x in of <==> x in StatesOld(o).flags {
    }
  }

  /** migrate_page_states() on the live frames. */
  method MigratePageStates(mem: Memory, newpage: Pfn, page: Pfn)
    requires page in mem.frames && newpage in mem.frames && page != newpage
    modifies mem
    ensures mem.frames == old(mem.frames)[newpage := StatesNew(old(mem.frames[page]), old(mem.frames[newpage]))]
                                         [page := StatesOld(old(mem.frames[page]))]
    ensures mem.vmstat == old(mem.vmstat) && mem.events == old(mem.events)
  {
    var o := mem.frames[page];
    var n := mem.frames[newpage];
    var of, nf := CarryFlags(o, n);
    // page_cpupid_xchg_last() twice
    var cpupid := o.cpupid;
    var o1 := o.(cpupid := -1, flags := of, private := 0);
    var n1 := n.(cpupid := cpupid, flags := nf);
    mem.frames := mem.frames[newpage := n1][page := o1];
  }
}
