/** Why frames are pinned, and which pages go to swap. */
module PagingFrames {
  import opened Machine
  import opened Options
  import opened Paging
  import opened PagingInvariant
  import opened PagingHistory
  import opened PagingTheorems

  // ------------------------------------------------------------------ pinned frames

  /** The frame a job is busy with. */
  function JobFrame(j: Job): Option<Frame> {
    match j
    case Evict(_, k, _, _, _, _, _) => Some(k)
    case Raw(_, k) => Some(k)
    case HaveFrame(_, k) => Some(k)
    case SwapRead(_, k) => Some(k)
    case Filled(_, k) => Some(k)
    case Installed(_, k) => Some(k)
    case Resident(_, k) => Some(k)
    case Unmap(_, copy, _) => copy
    case FreeFrame(_, k) => Some(k)
    case _ => None
  }

  ghost predicate BusyWith(s: State, p: Pid, k: Frame) {
    p in s.procs && JobFrame(s.procs[p].job) == Some(k)
  }

  ghost predicate Pinned(s: State, k: Frame) {
    k in s.frames && s.frames[k].listed && s.frames[k].pinned
  }

  /** Frame `k` is pinned only while some process is busy with it. */
  ghost predicate PinnedIsBusy(s: State, k: Frame) {
    Pinned(s, k) ==> exists p :: BusyWith(s, p, k)
  }

  predicate Pins(a: Action, k: Frame) { a.AsUser? && a.user.SetPinned? && a.user.k == k && a.user.on }

  ghost predicate SameJobs(s: State, s': State, p: Pid) {
    forall q | q in s.procs && q != p :: q in s'.procs && s'.procs[q].job == s.procs[q].job
  }

  /** Nobody but `p` changes what they are busy with; afterwards frame `k` is pinned only if `p` is busy with it,
      or it was pinned and `p` was not. */
  ghost predicate BusyStep(s: State, s': State, p: Pid, k: Frame) {
    && SameJobs(s, s', p)
    && (Pinned(s', k) ==> BusyWith(s', p, k) || (Pinned(s, k) && !BusyWith(s, p, k)))
  }

  lemma StillBusy(s: State, s': State, p: Pid, k: Frame)
    requires PinnedIsBusy(s, k) && BusyStep(s, s', p, k)
    ensures PinnedIsBusy(s', k)
  {
    if Pinned(s', k) && !BusyWith(s', p, k) {
      var q :| BusyWith(s, q, k);
      assert BusyWith(s', q, k);
    }
  }

  lemma UserBusy(s: State, a: UserAction, k: Frame) returns (p: Pid)
    requires Inv(s) && UserEnabled(s, a) && !Pins(AsUser(a), k)
    ensures BusyStep(s, UserApply(s, a), p, k)
  {
    p := if a.Spawn? then a.p else if a.SetPinned? then a.p else 0;
  }

  lemma LoadBusy(s: State, a: LoadAction, k: Frame)
    requires Inv(s) && LoadEnabled(s, a)
    ensures BusyStep(s, LoadApply(s, a), a.p, k)
  {
    LoadOthers(s, a);
    LoadPins(s, a, k);
  }

  lemma LoadOthers(s: State, a: LoadAction)
    requires LoadEnabled(s, a)
    ensures SameJobs(s, LoadApply(s, a), a.p)
  {
  }

  lemma LoadPins(s: State, a: LoadAction, k: Frame)
    requires Inv(s) && LoadEnabled(s, a)
    ensures var s' := LoadApply(s, a);
            Pinned(s', k) ==> BusyWith(s', a.p, k) || (Pinned(s, k) && !BusyWith(s, a.p, k))
  {
  }

  lemma EvictBusy(s: State, a: EvictAction, k: Frame) returns (p: Pid)
    requires Inv(s) && EvictEnabled(s, a)
    ensures BusyStep(s, EvictApply(s, a), p, k)
  {
    p := if a.ClearAccessed? then 0 else a.p;
    EvictOthers(s, a, p);
    EvictPins(s, a, p, k);
  }

  lemma EvictOthers(s: State, a: EvictAction, p: Pid)
    requires EvictEnabled(s, a) && p == if a.ClearAccessed? then 0 else a.p
    ensures SameJobs(s, EvictApply(s, a), p)
  {
  }

  lemma EvictPins(s: State, a: EvictAction, p: Pid, k: Frame)
    requires EvictEnabled(s, a) && p == if a.ClearAccessed? then 0 else a.p
    ensures var s' := EvictApply(s, a);
            Pinned(s', k) ==> BusyWith(s', p, k) || (Pinned(s, k) && !BusyWith(s, p, k))
  {
  }

  lemma UnmapBusy(s: State, a: UnmapAction, k: Frame)
    requires Inv(s) && UnmapEnabled(s, a)
    ensures BusyStep(s, UnmapApply(s, a), a.p, k)
  {
  }

  lemma ExitBusy(s: State, a: ExitAction, k: Frame)
    requires Inv(s) && ExitEnabled(s, a)
    ensures BusyStep(s, ExitApply(s, a), a.p, k)
  {
  }

  lemma StepBusy(s: State, a: Action, k: Frame)
    requires Inv(s) && Enabled(s, a) && PinnedIsBusy(s, k) && !Pins(a, k)
    ensures PinnedIsBusy(Apply(s, a), k)
  {
    var s' := Apply(s, a);
    match a
    case AsUser(b) =>
      var p := UserBusy(s, b, k);
      StillBusy(s, s', p, k);
    case AsLoad(b) =>
      LoadBusy(s, b, k);
      StillBusy(s, s', b.p, k);
    case AsEvict(b) =>
      var p := EvictBusy(s, b, k);
      StillBusy(s, s', p, k);
    case AsUnmap(b) =>
      UnmapBusy(s, b, k);
      StillBusy(s, s', b.p, k);
    case AsExit(b) =>
      ExitBusy(s, b, k);
      StillBusy(s, s', b.p, k);
  }

  lemma {:induction false} BusyRun(s: State, run: seq<Action>, k: Frame)
    requires Inv(s) && Executes(s, run) && PinnedIsBusy(s, k) && forall j | 0 <= j < |run| :: !Pins(run[j], k)
    ensures PinnedIsBusy(After(s, run), k)
    decreases |run|
  {
    if run != [] {
      assert !Pins(run[0], k);
      StepBusy(s, run[0], k);
      StepInv(s, run[0]);
      BusyRun(Apply(s, run[0]), run[1..], k);
    }
  }

  /** In every run from boot in which nobody asks for frame `k` to be pinned, every loaded page in it can be
      evicted as soon as no process is busy with the frame: loading, evicting and freeing leave no pin behind. */
  lemma NoPinIsLeft(s: State, run: seq<Action>, va: Va, k: Frame)
    requires Init(s) && Executes(s, run) && (forall j | 0 <= j < |run| :: !Pins(run[j], k))
    requires va in After(s, run).pages && After(s, run).pages[va].st == Loaded && After(s, run).pages[va].kpage == Some(k)
    requires forall p | p in After(s, run).procs :: JobFrame(After(s, run).procs[p].job) != Some(k)
    ensures Evictable(After(s, run), k)
  {
    InitInv(s);
    BusyRun(s, run, k);
    RunInv(s, run);
    assert PageOk(After(s, run), va);
    assert forall p :: !BusyWith(After(s, run), p, k);
  }

  // ------------------------------------------------------------------ clean pages

  /** Page `va` is the file's, has not been written, and if it is being evicted the eviction knows that. */
  ghost predicate Clean(s: State, va: Va) {
    && va in s.pages && s.pages[va].ty == File && s.pages[va].slot == None && !s.pages[va].pte.dirty
    && (s.pages[va].st == Evicting ==>
          && s.lock.Some? && s.lock.value in s.procs && s.procs[s.lock.value].job.Evict?
          && s.procs[s.lock.value].job.victim == va && !s.procs[s.lock.value].job.mustSwap)
  }

  predicate StoresTo(a: Action, va: Va) { a.AsUser? && a.user.Store? && a.user.va == va }

  lemma UserClean(s: State, a: UserAction, va: Va)
    requires Inv(s) && UserEnabled(s, a) && Clean(s, va) && !StoresTo(AsUser(a), va)
    ensures Clean(UserApply(s, a), va)
  {
  }

  lemma LoadClean(s: State, a: LoadAction, va: Va)
    requires Inv(s) && LoadEnabled(s, a) && Clean(s, va)
    ensures Clean(LoadApply(s, a), va)
  {
    assert PageOk(s, va);
  }

  lemma EvictClean(s: State, a: EvictAction, va: Va)
    requires Inv(s) && EvictEnabled(s, a) && Clean(s, va)
    ensures Clean(EvictApply(s, a), va)
  {
    if a.EvictWriteback? {
      EvictWritebackClean(s, a.p, a.n, va);
    } else {
      EvictRestClean(s, a, va);
    }
  }

  /** Only mappings are written back. */
  lemma EvictWritebackClean(s: State, p: Pid, n: nat, va: Va)
    requires Inv(s) && EvictEnabled(s, EvictWriteback(p, n)) && Clean(s, va)
    ensures Clean(EvictApply(s, EvictWriteback(p, n)), va)
  {
    var j := s.procs[p].job;
    var e := s.pages[j.victim];
    FileWriteHistory(s, e.file, e.ofs, s.frames[j.frame].data[..n], Some(j.victim), va);
  }

  lemma EvictRestClean(s: State, a: EvictAction, va: Va)
    requires Inv(s) && EvictEnabled(s, a) && Clean(s, va) && !a.EvictWriteback?
    ensures Clean(EvictApply(s, a), va)
  {
    assert PageOk(s, va);
    if !a.ClearAccessed? { assert ProcOk(s, a.p); }
  }

  /** Only the job of `p`, which is no eviction, changes, and perhaps whether the page is tainted. */
  lemma StillClean(s: State, s': State, p: Pid, va: Va)
    requires Clean(s, va) && p in s.procs && !s.procs[p].job.Evict? && s'.lock == s.lock && va in s'.pages
    requires s'.pages[va] == s.pages[va] || s'.pages[va] == s.pages[va].(tainted := true)
    requires forall q | q in s.procs && q != p :: q in s'.procs && s'.procs[q].job == s.procs[q].job
    ensures Clean(s', va)
  {
  }

  lemma UnmapWritebackClean(s: State, p: Pid, n: nat, va: Va)
    requires Inv(s) && UnmapEnabled(s, UnmapWriteback(p, n)) && Clean(s, va)
    ensures Clean(UnmapApply(s, UnmapWriteback(p, n)), va)
  {
    var j := s.procs[p].job;
    var e := s.pages[Va(p, j.page)];
    FileWriteHistory(s, e.file, e.ofs, s.frames[j.copy.value].data[..n], Some(Va(p, j.page)), va);
    StillClean(s, UnmapApply(s, UnmapWriteback(p, n)), p, va);
  }

  lemma UnmapClean(s: State, a: UnmapAction, va: Va)
    requires Inv(s) && UnmapEnabled(s, a) && Clean(s, va)
    ensures Clean(UnmapApply(s, a), va)
  {
    if a.UnmapWriteback? {
      UnmapWritebackClean(s, a.p, a.n, va);
    } else {
      assert ProcOk(s, a.p);
      StillClean(s, UnmapApply(s, a), a.p, va);
    }
  }

  lemma ExitClean(s: State, a: ExitAction, va: Va)
    requires Inv(s) && ExitEnabled(s, a) && Clean(s, va) && va in ExitApply(s, a).pages
    ensures Clean(ExitApply(s, a), va)
  {
    StillClean(s, ExitApply(s, a), a.p, va);
  }

  lemma StepClean(s: State, a: Action, va: Va)
    requires Inv(s) && Enabled(s, a) && Clean(s, va) && !StoresTo(a, va) && va in Apply(s, a).pages
    ensures Clean(Apply(s, a), va)
  {
    match a
    case AsUser(b) => UserClean(s, b, va);
    case AsLoad(b) => LoadClean(s, b, va);
    case AsEvict(b) => EvictClean(s, b, va);
    case AsUnmap(b) => UnmapClean(s, b, va);
    case AsExit(b) => ExitClean(s, b, va);
  }

  lemma {:induction false} StaysGone(s: State, run: seq<Action>, va: Va)
    requires Executes(s, run) && va !in s.pages && forall j | 0 <= j < |run| :: !Adds(run[j], va)
    ensures va !in After(s, run).pages
    decreases |run|
  {
    if run != [] {
      assert !Adds(run[0], va);
      StepHistory(s, run[0], va);
      StaysGone(Apply(s, run[0]), run[1..], va);
    }
  }

  lemma {:induction false} CleanRun(s: State, run: seq<Action>, va: Va)
    requires Inv(s) && Executes(s, run) && Clean(s, va) && va in After(s, run).pages
    requires forall j | 0 <= j < |run| :: !Adds(run[j], va) && !StoresTo(run[j], va)
    ensures Clean(After(s, run), va)
    decreases |run|
  {
    if run != [] {
      var s' := Apply(s, run[0]);
      assert !Adds(run[0], va) && !StoresTo(run[0], va);
      if va !in s'.pages { StaysGone(s', run[1..], va); }
      StepClean(s, run[0], va);
      StepInv(s, run[0]);
      CleanRun(s', run[1..], va);
    }
  }

  /** A page of the executable that is never stored to never goes to swap, however often it is evicted: in every
      run from boot its entry goes on naming the file and holds no slot. */
  lemma CleanIsNeverSwapped(s: State, before: seq<Action>, a: UserAction, run: seq<Action>)
    requires Init(s) && Executes(s, before) && a.AddFilePage? && UserEnabled(After(s, before), a)
    requires Executes(UserApply(After(s, before), a), run)
    requires forall j | 0 <= j < |run| :: !Adds(run[j], Va(a.p, a.u)) && !StoresTo(run[j], Va(a.p, a.u))
    ensures var e := After(UserApply(After(s, before), a), run);
            Va(a.p, a.u) in e.pages ==> e.pages[Va(a.p, a.u)].ty == File && e.pages[Va(a.p, a.u)].slot == None
  {
    RunInv(s, before);
    var t := UserApply(After(s, before), a);
    UserInv(After(s, before), a);
    if Va(a.p, a.u) in After(t, run).pages { CleanRun(t, run, Va(a.p, a.u)); }
  }
}
