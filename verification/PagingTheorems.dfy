/** What paging guarantees over whole runs. */
module PagingTheorems {
  import opened Machine
  import opened Options
  import opened Paging
  import opened PagingInvariant
  import opened PagingSteps
  import opened PagingHistory

  // ------------------------------------------------------------------ every run keeps the invariant

  lemma UserInv(s: State, a: UserAction)
    requires Inv(s) && UserEnabled(s, a)
    ensures Inv(UserApply(s, a))
  {
    match a
    case Spawn(p, f) => SpawnInv(s, p, f);
    case AddFilePage(p, u, ofs, len, w) => NewPageInv(s, p, u, w, File, s.procs[p].exec, ofs, len, -1);
    case AddZeroPage(p, u, w) => NewPageInv(s, p, u, w, Zero, 0, 0, 0, -1);
    case AddMmapPage(p, u, f, ofs, len, id) => NewPageInv(s, p, u, true, Mmap, f, ofs, len, id);
    case Load(va, i) => LoadInv(s, va, i);
    case Store(va, i, b) => StoreInv(s, va, i, b);
    case SetPinned(p, k, on) => SetPinnedInv(s, p, k, on);
    case SysWrite(f, ofs, bytes) => SysWriteInv(s, f, ofs, bytes);
  }

  lemma LoaderInv(s: State, a: LoadAction)
    requires Inv(s) && LoadEnabled(s, a)
    ensures Inv(LoadApply(s, a))
  {
    match a
    case Fault(p, u) => FaultInv(s, p, u);
    case AllocFree(p, k) => AllocFreeInv(s, p, k);
    case AllocFail(p) => AllocFailInv(s, p);
    case TakeFrame(p) => TakeFrameInv(s, p);
    case FillFile(p) => FillFileInv(s, p);
    case FillZero(p) => FillZeroInv(s, p);
    case FillSwap(p) => FillSwapInv(s, p);
    case ForgetSlot(p) => ForgetSlotInv(s, p);
    case FillFail(p) => FillFailInv(s, p);
    case Install(p) => InstallInv(s, p);
    case InstallFail(p) => InstallFailInv(s, p);
    case MarkLoaded(p) => MarkLoadedInv(s, p);
    case Unpin(p) => UnpinInv(s, p);
  }

  lemma EvictInv(s: State, a: EvictAction)
    requires Inv(s) && EvictEnabled(s, a)
    ensures Inv(EvictApply(s, a))
  {
    match a
    case ClearAccessed(va) => ClearAccessedInv(s, va);
    case EvictBegin(p, k) => EvictBeginInv(s, p, k);
    case EvictWriteback(p, n) => EvictWritebackInv(s, p, n);
    case EvictSwapOut(p, t) => EvictSwapOutInv(s, p, t);
    case EvictRollback(p) => EvictRollbackInv(s, p);
    case EvictFinish(p) => EvictFinishInv(s, p);
  }

  lemma UnmapInv(s: State, a: UnmapAction)
    requires Inv(s) && UnmapEnabled(s, a)
    ensures Inv(UnmapApply(s, a))
  {
    match a
    case UnmapBegin(p, u) => UnmapBeginInv(s, p, u);
    case UnmapWriteback(p, n) => UnmapWritebackInv(s, p, n);
    case UnmapFree(p) => UnmapFreeInv(s, p);
    case UnmapDelete(p) => UnmapDeleteInv(s, p);
  }

  lemma LeaveInv(s: State, a: ExitAction)
    requires Inv(s) && ExitEnabled(s, a)
    ensures Inv(ExitApply(s, a))
  {
    match a
    case Exit(p) => ExitInv(s, p);
    case ReleaseExec(p) => ReleaseExecInv(s, p);
    case DestroyEntry(p, u) => DestroyEntryInv(s, p, u);
    case ReturnFrame(p) => ReturnFrameInv(s, p);
    case ReturnSlot(p) => ReturnSlotInv(s, p);
    case Reap(p) => ReapInv(s, p);
  }

  lemma StepInv(s: State, a: Action)
    requires Inv(s) && Enabled(s, a)
    ensures Inv(Apply(s, a))
  {
    match a
    case AsUser(b) => UserInv(s, b);
    case AsLoad(b) => LoaderInv(s, b);
    case AsEvict(b) => EvictInv(s, b);
    case AsUnmap(b) => UnmapInv(s, b);
    case AsExit(b) => LeaveInv(s, b);
  }

  lemma {:induction false} KeepsInv(s: State, run: seq<Action>)
    requires Inv(s) && Executes(s, run)
    ensures Inv(After(s, run))
    decreases |run|
  {
    if run != [] {
      StepInv(s, run[0]);
      KeepsInv(Apply(s, run[0]), run[1..]);
    }
  }

  lemma InitInv(s: State)
    requires Init(s)
    ensures Inv(s)
  {
  }

  lemma RunInv(s: State, run: seq<Action>)
    requires Init(s) && Executes(s, run)
    ensures Inv(After(s, run))
  {
    InitInv(s);
    KeepsInv(s, run);
  }

  // ------------------------------------------------------------------ paging is invisible

  ghost function FlatAfter(s: State, run: seq<Action>, m: map<Va, Page>): map<Va, Page>
    requires Executes(s, run)
    decreases |run|
  {
    if run == [] then m
    else FlatAfter(Apply(s, run[0]), run[1..], FlatStep(m, s.files, ExecOf(s), run[0]))
  }

  /** The history variables are flat memory. */
  ghost predicate Recorded(s: State, m: map<Va, Page>) {
    forall va {:trigger RecordedAt(s, m, va)} :: RecordedAt(s, m, va)
  }

  ghost predicate RecordedAt(s: State, m: map<Va, Page>, va: Va) {
    && (va in s.pages ==> va in m && m[va] == s.pages[va].flat)
    && (va in s.retired ==> va !in s.pages && va in m && m[va] == s.retired[va].flat)
  }

  lemma RecordedStepAt(s: State, m: map<Va, Page>, a: Action, s': State, va: Va)
    requires RecordedAt(s, m, va) && Enabled(s, a) && History(s, a, s', va)
    ensures RecordedAt(s', FlatStep(m, s.files, ExecOf(s), a), va)
  {
    FlatStepAt(m, FlatAt(s, va), s.files, ExecOf(s), a, va);
    if va in s'.retired && !Unmapping(s, a, va) { FlatKept(m, s.files, ExecOf(s), a, va); }
    if Unmapping(s, a, va) { FlatKept(m, s.files, ExecOf(s), a, va); }
  }

  /** Flat memory changes at `va` only if a page is added there or something is stored there. */
  lemma FlatKept(m: map<Va, Page>, files: map<FileId, Bytes>, exec: Pid -> FileId, a: Action, va: Va)
    requires !Adds(a, va) && !(a.AsUser? && a.user.Store? && a.user.va == va)
    ensures va in m ==> va in FlatStep(m, files, exec, a) && FlatStep(m, files, exec, a)[va] == m[va]
  {
  }

  lemma RecordedStep(s: State, m: map<Va, Page>, a: Action)
    requires Recorded(s, m) && Enabled(s, a)
    ensures Recorded(Apply(s, a), FlatStep(m, s.files, ExecOf(s), a))
  {
    forall va ensures RecordedAt(Apply(s, a), FlatStep(m, s.files, ExecOf(s), a), va) {
      StepHistory(s, a, va);
      assert RecordedAt(s, m, va);
      RecordedStepAt(s, m, a, Apply(s, a), va);
    }
  }

  lemma {:induction false} RecordedRun(s: State, run: seq<Action>, m: map<Va, Page>)
    requires Recorded(s, m) && Executes(s, run)
    ensures Recorded(After(s, run), FlatAfter(s, run, m))
    decreases |run|
  {
    if run != [] {
      RecordedStep(s, m, run[0]);
      RecordedRun(Apply(s, run[0]), run[1..], FlatStep(m, s.files, ExecOf(s), run[0]));
    }
  }

  /** The byte the MMU returns for a load. */
  function MmuRead(s: State, va: Va, i: nat): Byte
    requires UserEnabled(s, Load(va, i))
  {
    s.frames[s.pages[va].pte.frame].data[i]
  }

  /** In every run from boot, a load returns what flat memory holds: the last byte stored there,
      or the page's initial image.  Only tainted pages and the tail of a mapping's last page are exempt. */
  lemma PagingIsTransparent(s: State, run: seq<Action>, va: Va, i: nat)
    requires Init(s) && Executes(s, run)
    requires UserEnabled(After(s, run), Load(va, i))
    requires !After(s, run).pages[va].tainted && i < Kept(After(s, run).pages[va])
    ensures va in FlatAfter(s, run, map[])
    ensures MmuRead(After(s, run), va, i) == FlatAfter(s, run, map[])[va][i]
  {
    RunInv(s, run);
    RecordedRun(s, run, map[]);
    var e := After(s, run);
    assert PageOk(e, va) && ProcOk(e, va.pid) && RecordedAt(e, FlatAfter(s, run, map[]), va);
    assert ContentOk(e, va);
    assert e.frames[e.pages[va].pte.frame].data[..Kept(e.pages[va])][i] == e.pages[va].flat[..Kept(e.pages[va])][i];
  }

  // ------------------------------------------------------------------ when transparency holds

  /** Without a swap-full rollback, only mappings are ever tainted. */
  ghost predicate OnlyMappingsTainted(s: State) {
    forall va :: va in s.pages ==> !s.pages[va].stale && (s.pages[va].tainted ==> s.pages[va].ty == Mmap)
  }

  predicate NoRollback(run: seq<Action>) {
    forall i :: 0 <= i < |run| ==> !IsRollback(run[i])
  }

  lemma {:induction false} NoRollbackNoTaint(s: State, run: seq<Action>)
    requires Inv(s) && OnlyMappingsTainted(s) && Executes(s, run) && NoRollback(run)
    ensures OnlyMappingsTainted(After(s, run))
    decreases |run|
  {
    if run != [] {
      var s' := Apply(s, run[0]);
      forall va | va in s'.pages ensures !s'.pages[va].stale && (s'.pages[va].tainted ==> s'.pages[va].ty == Mmap) {
        assert !IsRollback(run[0]);
        StepHistory(s, run[0], va);
        TaintsMappings(s, run[0], va);
        MappingStays(s, run[0], va);
      }
      StepInv(s, run[0]);
      assert NoRollback(run[1..]);
      NoRollbackNoTaint(s', run[1..]);
    }
  }

  lemma MappingStays(s: State, a: Action, va: Va)
    requires Inv(s) && Enabled(s, a)
    ensures va in s.pages && va in Apply(s, a).pages && s.pages[va].ty == Mmap ==> Apply(s, a).pages[va].ty == Mmap
  {
    StepHistory(s, a, va);
    if a.AsEvict? && a.evict.EvictFinish? { assert ProcOk(s, a.evict.p); }
  }

  lemma TaintsMappings(s: State, a: Action, va: Va)
    requires Inv(s) && OnlyMappingsTainted(s) && Enabled(s, a)
    ensures va in s.pages && Taints(s, a, va) ==> s.pages[va].ty == Mmap
  {
    if va in s.pages && Taints(s, a, va) {
      if a.AsEvict? && a.evict.EvictWriteback? { assert ProcOk(s, a.evict.p); }
      if a.AsUnmap? { assert ProcOk(s, a.unmap.p); }
    }
  }

  /** Code, data, stack and swapped pages: if no eviction ever found swap full, every load of every
      run returns what flat memory holds, all of it. */
  lemma TransparentWithoutRollback(s: State, run: seq<Action>, va: Va, i: nat)
    requires Init(s) && Executes(s, run) && NoRollback(run)
    requires UserEnabled(After(s, run), Load(va, i)) && After(s, run).pages[va].ty != Mmap
    ensures va in FlatAfter(s, run, map[])
    ensures MmuRead(After(s, run), va, i) == FlatAfter(s, run, map[])[va][i]
  {
    InitInv(s);
    NoRollbackNoTaint(s, run);
    PagingIsTransparent(s, run, va, i);
  }

  // ------------------------------------------------------------------ coherence

  /** In every reachable state a loaded page has exactly one frame: the frame table labels that
      frame, and no other, with the page; the PTE is present and points to it; and no other loaded page
      uses it. */
  lemma Coherent(s: State, run: seq<Action>, va: Va)
    requires Init(s) && Executes(s, run)
    requires va in After(s, run).pages && After(s, run).pages[va].st == Loaded
    ensures var e := After(s, run);
            && e.pages[va].kpage.Some? && e.pages[va].pte.present
            && var k := e.pages[va].kpage.value;
            && e.pages[va].pte.frame == k
            && (forall f :: f in e.frames && e.frames[f].listed && e.frames[f].owner == Some(va) <==> f == k)
            && (forall x :: x in e.pages && e.pages[x].st == Loaded && e.pages[x].kpage == Some(k) ==> x == va)
  {
    RunInv(s, run);
    var e := After(s, run);
    assert PageOk(e, va) && ProcOk(e, va.pid);
    var k := e.pages[va].kpage.value;
    forall f | f in e.frames && e.frames[f].listed && e.frames[f].owner == Some(va) ensures f == k {
      assert FrameOk(e, f);
    }
    forall x | x in e.pages && e.pages[x].st == Loaded && e.pages[x].kpage == Some(k) ensures x == va {
      assert PageOk(e, x);
    }
  }

  /** A present PTE always belongs to a page that is loaded, or whose load is about to say so. */
  lemma PresentMeansLoaded(s: State, run: seq<Action>, va: Va)
    requires Init(s) && Executes(s, run)
    requires va in After(s, run).pages && After(s, run).pages[va].pte.present
    ensures var e := After(s, run);
            && va.pid in e.procs && FrameIs(e, e.pages[va].pte.frame, Some(va))
            && (e.pages[va].st == Loaded || e.procs[va.pid].job == Installed(va.page, e.pages[va].pte.frame))
  {
    RunInv(s, run);
    assert PageOk(After(s, run), va) && ProcOk(After(s, run), va.pid);
  }

  /** The checks in `vm_load_page` that the code makes but that never fail: the slot an entry names
      can be read, and the page is not already mapped when it is installed. */
  lemma LoadNeverMisses(s: State, run: seq<Action>, p: Pid)
    requires Init(s) && Executes(s, run) && LoadsInto(After(s, run), p)
    ensures var e := After(s, run);
            && (e.procs[p].job.HaveFrame? && e.pages[LoadVa(e, p)].ty == Swap ==> SwapReadable(e, e.pages[LoadVa(e, p)]))
            && (e.procs[p].job.Filled? ==> !e.pages[LoadVa(e, p)].pte.present)
  {
    RunInv(s, run);
    var e := After(s, run);
    var va := LoadVa(e, p);
    assert ProcOk(e, p);
    if e.procs[p].job.HaveFrame? && e.pages[va].ty == Swap {
      assert Holds(e, ByPage(va), e.pages[va].slot.value);
    }
  }

  // ------------------------------------------------------------------ conservation

  /** In every reachable state a swap slot is marked used exactly when one page, or one eviction or
      exit in flight, answers for it; no two do; and mappings never hold one. */
  lemma SwapConserved(s: State, run: seq<Action>, t: Slot)
    requires Init(s) && Executes(s, run) && t < |After(s, run).slots|
    ensures After(s, run).slots[t].used <==> exists h :: Holds(After(s, run), h, t)
    ensures forall h, g :: Holds(After(s, run), h, t) && Holds(After(s, run), g, t) ==> h == g
    ensures forall va :: Holds(After(s, run), ByPage(va), t) ==> After(s, run).pages[va].ty == Swap
  {
    RunInv(s, run);
    var e := After(s, run);
    assert SlotUsed(e, t) <==> e.slots[t].used;
    forall va | Holds(e, ByPage(va), t) ensures e.pages[va].ty == Swap {
      assert PageOk(e, va);
    }
  }

  /** When a process is reaped it holds no frame and no slot. */
  lemma ReapedHoldsNothing(s: State, run: seq<Action>, p: Pid)
    requires Init(s) && Executes(s, run) && ExitEnabled(After(s, run), Reap(p))
    ensures var e := After(s, run);
            && (forall k :: k in e.frames && e.frames[k].owner.Some? ==> e.frames[k].owner.value.pid != p)
            && (forall u, t: Slot :: !Holds(e, ByPage(Va(p, u)), t)) && (forall t: Slot :: !Holds(e, ByJob(p), t))
  {
    RunInv(s, run);
    var e := After(s, run);
    forall k | k in e.frames && e.frames[k].owner.Some? ensures e.frames[k].owner.value.pid != p {
      assert FrameOk(e, k);
    }
  }

  lemma PagesHaveOwners(s: State)
    requires Structure(s)
    ensures forall va :: va in s.pages ==> va.pid in s.procs
  {
    forall va | va in s.pages ensures va.pid in s.procs { assert PageOk(s, va); }
  }

  /** When the last process is gone, every frame is back in the pool and every slot is free. */
  lemma NothingLeaks(s: State, run: seq<Action>)
    requires Init(s) && Executes(s, run) && After(s, run).procs == map[]
    ensures forall k :: k in After(s, run).frames ==> !After(s, run).frames[k].listed
    ensures forall t :: 0 <= t < |After(s, run).slots| ==> !After(s, run).slots[t].used
  {
    RunInv(s, run);
    var e := After(s, run);
    forall k | k in e.frames ensures !e.frames[k].listed {
      assert FrameOk(e, k);
    }
    PagesHaveOwners(e);
    forall t: Slot | t < |e.slots| ensures !e.slots[t].used {
      assert SlotUsed(e, t) ==> exists h :: Holds(e, h, t);
    }
  }
}
