/** migrate_pages(): the serial retry loop over a list of isolated pages.

    Each attempt's result comes from UnmapStage over what the environment
    answers for that pass and page. The loop makes at most ten passes;
    pages that may be retried stay on the list, pages that migrated or
    failed for good leave it. An allocation failure on a transparent huge
    page splits it and retries the head page at once; any other allocation
    failure ends the whole call. */
module SerialBatch {
  import opened Errno
  import opened Wrappers
  import opened Frames
  import opened Modes
  import opened UnmapStage

  const MAX_PASSES: nat := 10

  /** The caller's list of pages to migrate (`from`). */
  class PageList {
    var pages: seq<Pfn>

    constructor (pages: seq<Pfn>)
      ensures this.pages == pages
    {
      this.pages := pages;
    }
  }

  /** What the environment answers: each attempt's conditions by pass,
      page and whether the page was split, and split_huge_page_to_list()'s
      result for a page. */
  datatype SerialEnv = SerialEnv(m: Mode, envOf: (nat, Pfn, bool) -> AttemptEnv, splitRc: Pfn -> int)

  /** The loop's variables: the list as it stands, the three counters, the
      pages already split, the result code of an early exit, and the
      node counters. */
  datatype SerialState = SerialState(
    kept: seq<Pfn>, succeeded: nat, failed: nat, retry: nat,
    split: set<Pfn>, stopped: Option<int>, vmstat: map<StatItem, int>)

  /** A page the loop split is a base page from then on. */
  function Effective(f: Frame, split: bool): Frame {
    if split then f.(kind := Base) else f
  }

  /** The bookkeeping after an attempt: a page taken off the list gives its
      isolation count back (hugetlbfs and driver pages were not counted),
      one left on it stays in order; -ENOMEM counts a failure and ends the
      call, -EAGAIN asks for another pass, success and any other failure
      are counted. */
  function Settle(st: SerialState, p: Pfn, f: Frame, a: Attempt): SerialState {
    var vm := if a.dequeued && !PageHuge(f) && !PageMovableTag(f)
              then Bump(st.vmstat, NodeStat(f.node, IsolatedItem(f)), -(HPageNrPages(f) as int))
              else st.vmstat;
    var st1 := st.(kept := if a.dequeued then st.kept else st.kept + [p], vmstat := vm);
    if a.rc == -ENOMEM then st1.(failed := st.failed + 1, stopped := Some(-ENOMEM))
    else if a.rc == -EAGAIN then st1.(retry := st.retry + 1)
    else if a.rc == MIGRATEPAGE_SUCCESS then st1.(succeeded := st.succeeded + 1)
    else st1.(failed := st.failed + 1)
  }

  /** One page of one pass. After an early exit the rest of the list is
      left as it is. */
  function Step(frames: map<Pfn, Frame>, pass: nat, e: SerialEnv, st: SerialState, p: Pfn): SerialState
    requires p in frames
  {
    if st.stopped.Some? then st.(kept := st.kept + [p])
    else
      var f := Effective(frames[p], p in st.split);
      var a := SerialAttempt(f, pass, e.m, e.envOf(pass, p, p in st.split));
      if a.rc == -ENOMEM && PageTransHuge(f) && !PageHuge(f) then
        var s := e.splitRc(p);
        if s == 0 then
          var f2 := f.(kind := Base);
          Settle(st.(split := st.split + {p}), p, f2, SerialAttempt(f2, pass, e.m, e.envOf(pass, p, true)))
        else Settle(st, p, f, a).(stopped := Some(s))
      else Settle(st, p, f, a)
  }

  /** One pass over the list `l`, from the state `st`. */
  function PassFold(frames: map<Pfn, Frame>, pass: nat, e: SerialEnv, st: SerialState, l: seq<Pfn>): SerialState
    requires forall p :: p in l ==> p in frames
  {
    if |l| == 0 then st
    else Step(frames, pass, e, PassFold(frames, pass, e, st, l[..|l| - 1]), l[|l| - 1])
  }

  /** The passes from `pass` on: a pass runs while fewer than ten have run,
      the last one asked for a retry and nothing ended the call. */
  function Passes(frames: map<Pfn, Frame>, e: SerialEnv, pass: nat, st: SerialState): SerialState
    requires forall p :: p in st.kept ==> p in frames
    decreases MAX_PASSES - pass
  {
    if pass >= MAX_PASSES || st.retry == 0 || st.stopped.Some? then st
    else
      PassKeepsFrames(frames, pass, e, st.(retry := 0, kept := []), st.kept);
      Passes(frames, e, pass + 1, PassFold(frames, pass, e, st.(retry := 0, kept := []), st.kept))
  }

  /** The loop's starting state: the whole list, retry = 1 so that the first
      pass runs. */
  function Start(from: seq<Pfn>, vmstat: map<StatItem, int>): SerialState {
    SerialState(from, 0, 0, 1, {}, None, vmstat)
  }

  /** The result of migrate_pages(): the code of an early exit, otherwise
      the pages that failed for good plus those still asking for a retry. */
  function SerialRc(st: SerialState): int {
    if st.stopped.Some? then st.stopped.value else st.failed + st.retry
  }

  /** The PGMIGRATE_SUCCESS and PGMIGRATE_FAIL events counted at the end;
      an early exit counts the failures without the retries. */
  function SerialEvents(events: map<VmEvent, int>, st: SerialState): map<VmEvent, int> {
    var failed := if st.stopped.Some? then st.failed else st.failed + st.retry;
    Bump(Bump(events, PgmigrateSuccess, st.succeeded), PgmigrateFail, failed)
  }

  /** A pass only ever keeps pages of the list it walked. */
  lemma {:induction false} PassKeepsFrames(frames: map<Pfn, Frame>, pass: nat, e: SerialEnv, st: SerialState, l: seq<Pfn>)
    requires forall p :: p in l ==> p in frames
    requires forall p :: p in st.kept ==> p in frames
    ensures forall p :: p in PassFold(frames, pass, e, st, l).kept ==> p in frames
  {
    if |l| > 0 {
      PassKeepsFrames(frames, pass, e, st, l[..|l| - 1]);
    }
  }

  /** Once a pass has stopped, the pages it has not reached stay on the
      list, in order, and nothing else changes. */
  lemma PassAfterStop(frames: map<Pfn, Frame>, pass: nat, e: SerialEnv, st: SerialState, l: seq<Pfn>, i: nat)
    requires forall p :: p in l ==> p in frames
    requires i <= |l|
    requires PassFold(frames, pass, e, st, l[..i]).stopped.Some?
    ensures PassFold(frames, pass, e, st, l) ==
              PassFold(frames, pass, e, st, l[..i]).(kept := PassFold(frames, pass, e, st, l[..i]).kept + l[i..])
  {
    StoppedFold(frames, pass, e, st, l, i, |l|);
    assert l[..|l|] == l;
  }

  /** The same up to position j. */
  lemma {:induction false} StoppedFold(frames: map<Pfn, Frame>, pass: nat, e: SerialEnv, st: SerialState,
                                        l: seq<Pfn>, i: nat, j: nat)
    requires forall p :: p in l ==> p in frames
    requires i <= j <= |l|
    requires PassFold(frames, pass, e, st, l[..i]).stopped.Some?
    ensures PassFold(frames, pass, e, st, l[..j]) ==
              PassFold(frames, pass, e, st, l[..i]).(kept := PassFold(frames, pass, e, st, l[..i]).kept + l[i..j])
    decreases j
  {
    if j == i {
      assert l[i..j] == [];
    } else {
      StoppedFold(frames, pass, e, st, l, i, j - 1);
      StoppedStep(frames, pass, e, st, l, j - 1);
      SliceSnoc(PassFold(frames, pass, e, st, l[..i]).kept, l, i, j);
    }
  }

  lemma SliceSnoc<T>(a: seq<T>, l: seq<T>, i: nat, j: nat)
    requires i < j <= |l|
    ensures a + l[i..j - 1] + [l[j - 1]] == a + l[i..j]
  {
    assert l[i..j] == l[i..j - 1] + [l[j - 1]];
  }

  /** After an early exit a page is only kept on the list. */
  lemma StoppedStep(frames: map<Pfn, Frame>, pass: nat, e: SerialEnv, st: SerialState, l: seq<Pfn>, i: nat)
    requires forall p :: p in l ==> p in frames
    requires i < |l|
    requires PassFold(frames, pass, e, st, l[..i]).stopped.Some?
    ensures PassFold(frames, pass, e, st, l[..i + 1]) ==
              PassFold(frames, pass, e, st, l[..i]).(kept := PassFold(frames, pass, e, st, l[..i]).kept + [l[i]])
  {
    assert l[..i + 1][..i] == l[..i];
  }

  /** An attempt leaves its page on the list exactly when it may be
      retried, unless it ran out of memory. */
  lemma AttemptShape(f: Frame, pass: nat, m: Mode, env: AttemptEnv)
    ensures var a := SerialAttempt(f, pass, m, env);
      && (a.rc == -EAGAIN ==> !a.dequeued)
      && (a.rc != -EAGAIN && a.rc != -ENOMEM ==> a.dequeued)
  {
    if !PageHuge(f) {
      UnmapAndMoveCases(f, pass > 2, m, env);
    }
  }

  /** What one page does to the counts: unless it ends the call, the page
      is counted exactly once, as migrated, as failed or (staying on the
      list) as a retry. An early exit always carries a non-zero code. */
  lemma StepCounts(frames: map<Pfn, Frame>, pass: nat, e: SerialEnv, st: SerialState, p: Pfn)
    requires p in frames
    requires st.stopped.Some? ==> st.stopped.value != 0
    ensures var r := Step(frames, pass, e, st, p);
      && (r.stopped.None? ==>
            st.stopped.None?
            && |r.kept| + r.succeeded + r.failed == |st.kept| + 1 + st.succeeded + st.failed
            && r.retry - st.retry == |r.kept| - |st.kept|)
      && (r.stopped.Some? ==> r.stopped.value != 0)
      && multiset(r.kept) <= multiset(st.kept) + multiset{p}
  {
    if st.stopped.None? {
      var f := Effective(frames[p], p in st.split);
      AttemptShape(f, pass, e.m, e.envOf(pass, p, p in st.split));
      AttemptShape(f.(kind := Base), pass, e.m, e.envOf(pass, p, true));
    }
  }

  /** The same over a whole pass. */
  lemma {:induction false} PassCounts(frames: map<Pfn, Frame>, pass: nat, e: SerialEnv, st: SerialState, l: seq<Pfn>)
    requires forall p :: p in l ==> p in frames
    requires st.stopped.Some? ==> st.stopped.value != 0
    ensures var r := PassFold(frames, pass, e, st, l);
      && (r.stopped.None? ==>
            st.stopped.None?
            && |r.kept| + r.succeeded + r.failed == |st.kept| + |l| + st.succeeded + st.failed
            && r.retry - st.retry == |r.kept| - |st.kept|)
      && (r.stopped.Some? ==> r.stopped.value != 0)
      && multiset(r.kept) <= multiset(st.kept) + multiset(l)
  {
    if |l| > 0 {
      var l', x := l[..|l| - 1], l[|l| - 1];
      assert l == l' + [x];
      var mid := PassFold(frames, pass, e, st, l');
      PassCounts(frames, pass, e, st, l');
      StepCounts(frames, pass, e, mid, x);
      assert PassFold(frames, pass, e, st, l) == Step(frames, pass, e, mid, x);
      assert multiset(l) == multiset(l') + multiset{x};
    }
  }

  /** From `st` to `r` no page is lost or counted twice: without an early
      exit every page of `st`'s list is on `r`'s list or counted as migrated
      or failed, and the retries are the pages left on the list; an early
      exit carries a non-zero code; the list only loses pages. */
  ghost predicate Conserves(st: SerialState, r: SerialState) {
    && (r.stopped.None? ==>
          |r.kept| + r.succeeded + r.failed == |st.kept| + st.succeeded + st.failed
          && r.retry == |r.kept|)
    && (r.stopped.Some? ==> r.stopped.value != 0)
    && multiset(r.kept) <= multiset(st.kept)
  }

  lemma ConservesTrans(a: SerialState, b: SerialState, c: SerialState)
    requires Conserves(a, b) && b.stopped.None? && Conserves(b, c)
    ensures Conserves(a, c)
  {
  }

  /** Over the remaining passes: no page is lost or counted twice, and
      after each pass the retries are exactly the pages left on the list. */
  lemma {:induction false} PassesCounts(frames: map<Pfn, Frame>, e: SerialEnv, pass: nat, st: SerialState)
    requires forall p :: p in st.kept ==> p in frames
    requires st.stopped.None? && st.retry == |st.kept|
    ensures Conserves(st, Passes(frames, e, pass, st))
    decreases MAX_PASSES - pass, 1
  {
    if pass < MAX_PASSES && st.retry != 0 {
      PassesOn(frames, e, pass, st);
    } else {
      assert Passes(frames, e, pass, st) == st;
    }
  }

  /** The same when a pass is run. */
  lemma {:induction false} PassesOn(frames: map<Pfn, Frame>, e: SerialEnv, pass: nat, st: SerialState)
    requires forall p :: p in st.kept ==> p in frames
    requires st.stopped.None? && st.retry == |st.kept|
    requires pass < MAX_PASSES && st.retry != 0
    ensures Conserves(st, Passes(frames, e, pass, st))
    decreases MAX_PASSES - pass, 0
  {
    PassOnce(frames, e, pass, st);
    var next := PassFold(frames, pass, e, st.(retry := 0, kept := []), st.kept);
    if next.stopped.None? {
      PassesCounts(frames, e, pass + 1, next);
      ConservesTrans(st, next, Passes(frames, e, pass + 1, next));
    }
  }

  /** One pass of the loop, seen from the passes: the counts it leaves and
      the passes after it. */
  lemma PassOnce(frames: map<Pfn, Frame>, e: SerialEnv, pass: nat, st: SerialState)
    requires forall p :: p in st.kept ==> p in frames
    requires st.stopped.None? && st.retry == |st.kept|
    requires pass < MAX_PASSES && st.retry != 0
    ensures var next := PassFold(frames, pass, e, st.(retry := 0, kept := []), st.kept);
      && (forall p :: p in next.kept ==> p in frames)
      && Passes(frames, e, pass, st) == Passes(frames, e, pass + 1, next)
      && Conserves(st, next)
      && (next.stopped.Some? ==> Passes(frames, e, pass + 1, next) == next)
  {
    var st0 := st.(retry := 0, kept := []);
    PassKeepsFrames(frames, pass, e, st0, st.kept);
    PassCounts(frames, pass, e, st0, st.kept);
  }

  /** What migrate_pages() returns: without an early exit, the number of
      pages that did not migrate (failed for good, or still asking for a
      retry after the last pass), so that migrated pages and the result add
      up to the length of the list; an early exit returns a non-zero code.
      So the result is 0 exactly when every page migrated. The list keeps
      only pages it started with. */
  lemma {:induction false} SerialResult(frames: map<Pfn, Frame>, e: SerialEnv, from: seq<Pfn>, vmstat: map<StatItem, int>)
    requires forall p :: p in from ==> p in frames
    ensures var st := Passes(frames, e, 0, Start(from, vmstat));
      && (st.stopped.None? ==>
            SerialRc(st) == st.failed + |st.kept|
            && st.succeeded + SerialRc(st) == |from|)
      && (SerialRc(st) == 0 <==> st.stopped.None? && st.succeeded == |from|)
      && multiset(st.kept) <= multiset(from)
  {
    var st := Start(from, vmstat);
    var st0 := st.(retry := 0, kept := []);
    PassKeepsFrames(frames, 0, e, st0, from);
    PassCounts(frames, 0, e, st0, from);
    var next := PassFold(frames, 0, e, st0, from);
    assert Passes(frames, e, 0, st) == Passes(frames, e, 1, next);
    if next.stopped.None? {
      PassesCounts(frames, e, 1, next);
    } else {
      assert Passes(frames, e, 1, next) == next;
    }
  }

  /** One attempt on page `p` and its bookkeeping: the loop body of
      migrate_pages(), up to the `goto out` of an early exit. */
  method PageStep(mem: Memory, p: Pfn, pass: nat, e: SerialEnv, st: SerialState) returns (r: SerialState)
    requires p in mem.frames && st.stopped.None?
    requires st.vmstat == mem.vmstat
    modifies mem`vmstat
    ensures r == Step(mem.frames, pass, e, st, p)
    ensures mem.vmstat == r.vmstat
  {
    var kept, nrSucceeded, nrFailed, retry, split := st.kept, st.succeeded, st.failed, st.retry, st.split;
    var stopped: Option<int> := None;
    var f := Effective(mem.frames[p], p in split);
    var a := SerialAttempt(f, pass, e.m, e.envOf(pass, p, p in split));
    var exitCode := -ENOMEM;
    if a.rc == -ENOMEM && PageTransHuge(f) && !PageHuge(f) {
      // split the huge page and retry its head at once
      var s := e.splitRc(p);
      if s == 0 {
        split := split + {p};
        f := f.(kind := Base);
        a := SerialAttempt(f, pass, e.m, e.envOf(pass, p, true));
      } else {
        exitCode := s;
      }
    }
    if a.dequeued {
      // list_del() and the isolation count given back
      if !PageHuge(f) && !PageMovableTag(f) {
        mem.vmstat := Bump(mem.vmstat, NodeStat(f.node, IsolatedItem(f)), -(HPageNrPages(f) as int));
      }
    } else {
      kept := kept + [p];
    }
    if a.rc == -ENOMEM {
      nrFailed := nrFailed + 1;
      stopped := Some(exitCode);
    } else if a.rc == -EAGAIN {
      retry := retry + 1;
    } else if a.rc == MIGRATEPAGE_SUCCESS {
      nrSucceeded := nrSucceeded + 1;
    } else {
      nrFailed := nrFailed + 1;
    }
    r := SerialState(kept, nrSucceeded, nrFailed, retry, split, stopped, mem.vmstat);
  }

  /** One pass of migrate_pages() over the list as it stands, with the
      counters it carries over from earlier passes; retry starts at 0. */
  method RunPass(mem: Memory, from: PageList, pass: nat, e: SerialEnv, st0: SerialState) returns (r: SerialState)
    requires forall p :: p in from.pages ==> p in mem.frames
    requires st0.stopped.None? && st0.kept == [] && st0.retry == 0 && st0.vmstat == mem.vmstat
    modifies mem`vmstat, from
    ensures r == PassFold(mem.frames, pass, e, st0, old(from.pages))
    ensures from.pages == r.kept && mem.vmstat == r.vmstat
  {
    var l := from.pages;
    var st := st0;
    var i := 0;
    while i < |l| && st.stopped.None?
      invariant 0 <= i <= |l|
      invariant st == PassFold(mem.frames, pass, e, st0, l[..i])
      invariant mem.vmstat == st.vmstat
      invariant from.pages == st.kept + l[i..]
    {
      assert l[..i + 1][..i] == l[..i];
      st := PageStep(mem, l[i], pass, e, st);
      i := i + 1;
      from.pages := st.kept + l[i..];
    }
    if st.stopped.Some? {
      PassAfterStop(mem.frames, pass, e, st0, l, i);
    } else {
      assert l[..i] == l;
    }
    r := st.(kept := from.pages);
  }

  /** One turn of migrate_pages()'s outer loop: a pass over the list,
      after which the remaining passes end where they did before it. */
  method PassTurn(mem: Memory, from: PageList, pass: nat, e: SerialEnv, st: SerialState) returns (r: SerialState)
    requires pass < MAX_PASSES && st.retry != 0 && st.stopped.None?
    requires from.pages == st.kept && mem.vmstat == st.vmstat
    requires forall p :: p in from.pages ==> p in mem.frames
    modifies mem`vmstat, from
    ensures from.pages == r.kept && mem.vmstat == r.vmstat
    ensures forall p :: p in from.pages ==> p in mem.frames
    ensures Passes(mem.frames, e, pass + 1, r) == Passes(mem.frames, e, pass, st)
  {
    PassKeepsFrames(mem.frames, pass, e, st.(retry := 0, kept := []), st.kept);
    r := RunPass(mem, from, pass, e, st.(retry := 0, kept := []));
  }

  /** migrate_pages() on the live state. `from` ends holding the pages that
      may still be retried or that the early exit left behind. */
  method MigratePages(mem: Memory, from: PageList, e: SerialEnv) returns (rc: int)
    requires forall p :: p in from.pages ==> p in mem.frames
    modifies mem, from
    ensures var st := Passes(old(mem.frames), e, 0, Start(old(from.pages), old(mem.vmstat)));
      && rc == SerialRc(st)
      && from.pages == st.kept
      && mem.vmstat == st.vmstat
      && mem.events == SerialEvents(old(mem.events), st)
    ensures mem.frames == old(mem.frames)
  {
    var st := Start(from.pages, mem.vmstat);
    var pass := 0;
    while pass < MAX_PASSES && st.retry != 0 && st.stopped.None?
      invariant mem.frames == old(mem.frames) && mem.events == old(mem.events)
      invariant from.pages == st.kept && mem.vmstat == st.vmstat
      invariant forall p :: p in from.pages ==> p in mem.frames
      invariant Passes(mem.frames, e, 0, Start(old(from.pages), old(mem.vmstat))) == Passes(mem.frames, e, pass, st)
      decreases MAX_PASSES - pass
    {
      st := PassTurn(mem, from, pass, e, st);
      pass := pass + 1;
    }
    if st.stopped.Some? {
      rc := st.stopped.value;
    } else {
      rc := st.failed + st.retry;
    }
    var failedEvents := if st.stopped.Some? then st.failed else st.failed + st.retry;
    mem.events := Bump(Bump(mem.events, PgmigrateSuccess, st.succeeded), PgmigrateFail, failedEvents);
  }
}
