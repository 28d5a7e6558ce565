/** What else the paging machine does step by step: whose executable a process runs, which bytes of which file
    change, what keeps a page in memory, and that nobody is stuck. */
module PagingProgress {
  import opened Machine
  import opened Options
  import opened Paging
  import opened PagingInvariant
  import opened PagingHistory
  import opened PagingTheorems
  import opened PagingBytes

  // ------------------------------------------------------------------ processes

  function Rank(m: Mode): nat {
    match m
    case Live => 0
    case Exiting => 1
    case Released => 2
  }

  /** A process keeps its executable and never comes back from exiting. */
  ghost predicate SameProc(s: State, s': State, p: Pid) {
    p in s'.procs ==>
      p in s.procs && s'.procs[p].exec == s.procs[p].exec && Rank(s.procs[p].mode) <= Rank(s'.procs[p].mode)
  }

  predicate Spawns(a: Action, p: Pid) { a.AsUser? && a.user.Spawn? && a.user.p == p }

  lemma StepProc(s: State, a: Action, p: Pid)
    requires Inv(s) && Enabled(s, a) && !Spawns(a, p)
    ensures SameProc(s, Apply(s, a), p)
  {
    match a
    case AsUser(b) => UserProc(s, b, p);
    case AsLoad(b) => LoadProc(s, b, p);
    case AsEvict(b) => EvictProc(s, b, p);
    case AsUnmap(b) => UnmapProc(s, b, p);
    case AsExit(b) => ExitProc(s, b, p);
  }

  lemma UserProc(s: State, a: UserAction, p: Pid)
    requires UserEnabled(s, a) && !(a.Spawn? && a.p == p)
    ensures SameProc(s, UserApply(s, a), p)
  {
  }

  lemma LoadProc(s: State, a: LoadAction, p: Pid)
    requires Inv(s) && LoadEnabled(s, a)
    ensures SameProc(s, LoadApply(s, a), p)
  {
    if a.AllocFail? || a.FillFail? || a.InstallFail? { assert ProcOk(s, a.p); }
  }

  lemma EvictProc(s: State, a: EvictAction, p: Pid)
    requires EvictEnabled(s, a)
    ensures SameProc(s, EvictApply(s, a), p)
  {
  }

  lemma UnmapProc(s: State, a: UnmapAction, p: Pid)
    requires UnmapEnabled(s, a)
    ensures SameProc(s, UnmapApply(s, a), p)
  {
  }

  lemma ExitProc(s: State, a: ExitAction, p: Pid)
    requires ExitEnabled(s, a)
    ensures SameProc(s, ExitApply(s, a), p)
  {
  }

  /** Process `p`, which is there after the run, was there at the start if `k` is zero, and otherwise was
      started by the step before `k`; no step from `k` on started it. */
  ghost predicate SpawnedBefore(s: State, run: seq<Action>, k: nat, p: Pid)
    requires Executes(s, run) && p in After(s, run).procs
  {
    && k <= |run| && (forall j | k <= j < |run| :: !Spawns(run[j], p))
    && (k == 0 ==> SameProc(s, After(s, run), p))
    && (k > 0 ==> run[k - 1] == AsUser(Spawn(p, After(s, run).procs[p].exec)))
  }

  lemma SpawnedLater(s: State, run: seq<Action>, k: nat, p: Pid)
    requires Executes(s, run) && run != [] && p in After(s, run).procs
    requires k > 0 && SpawnedBefore(Apply(s, run[0]), run[1..], k, p)
    ensures SpawnedBefore(s, run, k + 1, p)
  {
    assert run[k] == run[1..][k - 1];
    forall j | k + 1 <= j < |run| ensures !Spawns(run[j], p) { assert run[j] == run[1..][j - 1]; }
  }

  lemma SpawnedFirst(s: State, run: seq<Action>, p: Pid)
    requires Inv(s) && Executes(s, run) && run != [] && p in After(s, run).procs
    requires SpawnedBefore(Apply(s, run[0]), run[1..], 0, p)
    ensures SpawnedBefore(s, run, if Spawns(run[0], p) then 1 else 0, p)
  {
    if !Spawns(run[0], p) { StepProc(s, run[0], p); }
    forall j | 1 <= j < |run| ensures !Spawns(run[j], p) { assert run[j] == run[1..][j - 1]; }
  }

  lemma {:induction false} WasSpawned(s: State, run: seq<Action>, p: Pid) returns (k: nat)
    requires Inv(s) && Executes(s, run) && p in After(s, run).procs
    ensures SpawnedBefore(s, run, k, p)
    decreases |run|
  {
    k := 0;
    if run != [] {
      StepInv(s, run[0]);
      k := WasSpawned(Apply(s, run[0]), run[1..], p);
      if k > 0 {
        SpawnedLater(s, run, k, p);
        k := k + 1;
      } else {
        SpawnedFirst(s, run, p);
        k := if Spawns(run[0], p) then 1 else 0;
      }
    }
  }

  /** In every run from boot, a process runs the file it was last started with. */
  lemma ExecIsSpawned(s: State, run: seq<Action>, p: Pid)
    requires Init(s) && Executes(s, run) && p in After(s, run).procs
    ensures exists k | 0 <= k < |run| ::
              && run[k] == AsUser(Spawn(p, After(s, run).procs[p].exec))
              && forall j | k < j < |run| :: !(run[j].AsUser? && run[j].user.Spawn? && run[j].user.p == p)
  {
    InitInv(s);
    var k := WasSpawned(s, run, p);
    assert forall j | k - 1 < j < |run| :: !Spawns(run[j], p);
  }

  // ------------------------------------------------------------------ bytes of files

  /** A system call writes what it was given, as far as the file goes, unless a process that has not let go
      of its executable runs the file; and it writes nothing else. */
  lemma SysWriteBytes(s: State, f: FileId, ofs: nat, bytes: Bytes, g: FileId, x: nat)
    requires UserEnabled(s, SysWrite(f, ofs, bytes)) && g in s.files && x < |s.files[g]|
    ensures var s' := UserApply(s, SysWrite(f, ofs, bytes));
            && g in s'.files && |s'.files[g]| == |s.files[g]|
            && s'.files[g][x] ==
               if g == f && ofs <= x < ofs + |bytes|
                  && (forall p | p in s.procs && s.procs[p].exec == f :: s.procs[p].mode == Released)
               then bytes[x - ofs] else s.files[g][x]
  {
    FileWriteBytes(s, f, ofs, bytes, None, g, x);
  }

  lemma FileWriteBytes(s: State, f: FileId, ofs: nat, bytes: Bytes, writer: Option<Va>, g: FileId, x: nat)
    requires f in s.files && g in s.files && x < |s.files[g]|
    ensures var s' := FileWrite(s, f, ofs, bytes, writer);
            && g in s'.files && |s'.files[g]| == |s.files[g]|
            && s'.files[g][x] ==
               if g == f && ofs <= x < ofs + |bytes|
                  && (forall p | p in s.procs && s.procs[p].exec == f :: s.procs[p].mode == Released)
               then bytes[x - ofs] else s.files[g][x]
  {
  }

  /** Writing back a page that is evicted or unmapped does the same with the first `n` bytes of its frame. */
  lemma EvictWritebackBytes(s: State, p: Pid, n: nat, g: FileId, x: nat)
    requires EvictEnabled(s, EvictWriteback(p, n)) && g in s.files && x < |s.files[g]|
    ensures var s', j := EvictApply(s, EvictWriteback(p, n)), s.procs[p].job;
            var f, ofs := s.pages[j.victim].file, s.pages[j.victim].ofs;
            && g in s'.files && |s'.files[g]| == |s.files[g]|
            && s'.files[g][x] ==
               if g == f && ofs <= x < ofs + n
                  && (forall q | q in s.procs && s.procs[q].exec == f :: s.procs[q].mode == Released)
               then s.frames[j.frame].data[x - ofs] else s.files[g][x]
  {
    var j := s.procs[p].job;
    var e := s.pages[j.victim];
    FileWriteBytes(s, e.file, e.ofs, s.frames[j.frame].data[..n], Some(j.victim), g, x);
  }

  lemma UnmapWritebackBytes(s: State, p: Pid, n: nat, g: FileId, x: nat)
    requires UnmapEnabled(s, UnmapWriteback(p, n)) && g in s.files && x < |s.files[g]|
    ensures var s', j := UnmapApply(s, UnmapWriteback(p, n)), s.procs[p].job;
            var f, ofs := s.pages[Va(p, j.page)].file, s.pages[Va(p, j.page)].ofs;
            && g in s'.files && |s'.files[g]| == |s.files[g]|
            && s'.files[g][x] ==
               if g == f && ofs <= x < ofs + n
                  && (forall q | q in s.procs && s.procs[q].exec == f :: s.procs[q].mode == Released)
               then s.frames[j.copy.value].data[x - ofs] else s.files[g][x]
  {
    var j := s.procs[p].job;
    var e := s.pages[Va(p, j.page)];
    FileWriteBytes(s, e.file, e.ofs, s.frames[j.copy.value].data[..n], Some(Va(p, j.page)), g, x);
  }

  lemma UserKeepsFiles(s: State, a: UserAction)
    requires UserEnabled(s, a) && !a.SysWrite?
    ensures UserApply(s, a).files == s.files
  {
  }

  lemma LoadKeepsFiles(s: State, a: LoadAction)
    requires LoadEnabled(s, a)
    ensures LoadApply(s, a).files == s.files
  {
  }

  lemma EvictKeepsFiles(s: State, a: EvictAction)
    requires EvictEnabled(s, a) && !a.EvictWriteback?
    ensures EvictApply(s, a).files == s.files
  {
  }

  lemma UnmapKeepsFiles(s: State, a: UnmapAction)
    requires UnmapEnabled(s, a) && !a.UnmapWriteback?
    ensures UnmapApply(s, a).files == s.files
  {
  }

  lemma ExitKeepsFiles(s: State, a: ExitAction)
    requires ExitEnabled(s, a)
    ensures ExitApply(s, a).files == s.files
  {
  }

  /** No other step writes to a file. */
  lemma OnlyWritesWrite(s: State, a: Action)
    requires Enabled(s, a) && WriteOf(s, a).None?
    ensures Apply(s, a).files == s.files
  {
    match a
    case AsUser(b) => UserKeepsFiles(s, b);
    case AsLoad(b) => LoadKeepsFiles(s, b);
    case AsEvict(b) => EvictKeepsFiles(s, b);
    case AsUnmap(b) => UnmapKeepsFiles(s, b);
    case AsExit(b) => ExitKeepsFiles(s, b);
  }

  // ------------------------------------------------------------------ pinned pages

  /** Page `va` is in frame `k`, and the frame is pinned. */
  ghost predicate PinnedIn(s: State, va: Va, k: Frame) {
    va in s.pages && s.pages[va].st == Loaded && s.pages[va].kpage == Some(k) && k in s.frames && s.frames[k].pinned
  }

  /** What its own process can do to let go of it. */
  predicate LetsGo(a: Action, va: Va, k: Frame) {
    match a
    case AsUser(SetPinned(p, f, on)) => f == k && !on
    case AsLoad(Unpin(p)) => p == va.pid
    case AsUnmap(UnmapBegin(p, u)) => va == Va(p, u)
    case AsExit(DestroyEntry(p, u)) => va == Va(p, u)
    case _ => false
  }

  lemma UserPinned(s: State, a: UserAction, va: Va, k: Frame)
    requires Inv(s) && UserEnabled(s, a) && PinnedIn(s, va, k) && !LetsGo(AsUser(a), va, k)
    ensures PinnedIn(UserApply(s, a), va, k)
  {
  }

  lemma LoadPinned(s: State, a: LoadAction, va: Va, k: Frame)
    requires Inv(s) && LoadEnabled(s, a) && PinnedIn(s, va, k) && !LetsGo(AsLoad(a), va, k)
    ensures PinnedIn(LoadApply(s, a), va, k)
  {
    assert PageOk(s, va);
    if !a.Fault? { assert ProcOk(s, a.p); }
  }

  lemma EvictPinned(s: State, a: EvictAction, va: Va, k: Frame)
    requires Inv(s) && EvictEnabled(s, a) && PinnedIn(s, va, k)
    ensures PinnedIn(EvictApply(s, a), va, k)
  {
    assert PageOk(s, va);
    if !a.ClearAccessed? { assert ProcOk(s, a.p); }
  }

  lemma UnmapPinned(s: State, a: UnmapAction, va: Va, k: Frame)
    requires Inv(s) && UnmapEnabled(s, a) && PinnedIn(s, va, k) && !LetsGo(AsUnmap(a), va, k)
    ensures PinnedIn(UnmapApply(s, a), va, k)
  {
    assert PageOk(s, va) && ProcOk(s, a.p);
  }

  lemma ExitPinned(s: State, a: ExitAction, va: Va, k: Frame)
    requires Inv(s) && ExitEnabled(s, a) && PinnedIn(s, va, k) && !LetsGo(AsExit(a), va, k)
    ensures PinnedIn(ExitApply(s, a), va, k)
  {
    assert PageOk(s, va) && ProcOk(s, a.p);
  }

  lemma StepPinned(s: State, a: Action, va: Va, k: Frame)
    requires Inv(s) && Enabled(s, a) && PinnedIn(s, va, k) && !LetsGo(a, va, k)
    ensures PinnedIn(Apply(s, a), va, k)
  {
    match a
    case AsUser(b) => UserPinned(s, b, va, k);
    case AsLoad(b) => LoadPinned(s, b, va, k);
    case AsEvict(b) => EvictPinned(s, b, va, k);
    case AsUnmap(b) => UnmapPinned(s, b, va, k);
    case AsExit(b) => ExitPinned(s, b, va, k);
  }

  lemma {:induction false} PinnedRun(s: State, run: seq<Action>, va: Va, k: Frame)
    requires Inv(s) && Executes(s, run) && PinnedIn(s, va, k) && forall j | 0 <= j < |run| :: !LetsGo(run[j], va, k)
    ensures PinnedIn(After(s, run), va, k)
    decreases |run|
  {
    if run != [] {
      assert !LetsGo(run[0], va, k);
      StepPinned(s, run[0], va, k);
      StepInv(s, run[0]);
      PinnedRun(Apply(s, run[0]), run[1..], va, k);
    }
  }

  /** Once a run from boot has led to a page being in a pinned frame, it stays there until its own process
      unpins the frame, unmaps the page, or destroys its table: nobody evicts it, and its process can load from
      it. */
  lemma PinnedStays(s: State, before: seq<Action>, run: seq<Action>, va: Va, k: Frame, i: nat)
    requires Init(s) && Executes(s, before) && PinnedIn(After(s, before), va, k) && i < PGSIZE
    requires Executes(After(s, before), run) && forall j | 0 <= j < |run| :: !LetsGo(run[j], va, k)
    ensures var e := After(After(s, before), run);
            && va in e.pages && e.pages[va].st == Loaded && e.pages[va].pte.present && e.pages[va].pte.frame == k
            && (forall p :: !EvictEnabled(e, EvictBegin(p, k)))
            && (Running(e, va.pid) ==> UserEnabled(e, Load(va, i)))
  {
    RunInv(s, before);
    PinnedRun(After(s, before), run, va, k);
    KeepsInv(After(s, before), run);
    assert PageOk(After(After(s, before), run), va);
  }

  // ------------------------------------------------------------------ nobody is stuck

  /** A step of process `p` that gets it further with what it is doing. */
  ghost predicate GoesOn(s: State, p: Pid)
    requires p in s.procs
  {
    var j := s.procs[p].job;
    match j
    case User => true
    case Want(u) => WantGoesOn(s, p)
    case Failing(u) => LoadEnabled(s, AllocFail(p))
    case Evict(u, k, w, dirty, mustSwap, wrote, slot) => EvictGoesOn(s, p)
    case Raw(u, k) => LoadEnabled(s, TakeFrame(p))
    case HaveFrame(u, k) => FillGoesOn(s, p)
    case SwapRead(u, k) => LoadEnabled(s, ForgetSlot(p))
    case Filled(u, k) => LoadEnabled(s, Install(p))
    case Installed(u, k) => LoadEnabled(s, MarkLoaded(p))
    case Resident(u, k) => s.lock == None ==> LoadEnabled(s, Unpin(p))
    case Unmap(u, copy, dirty) => UnmapGoesOn(s, p)
    case FreeFrame(u, k) => s.lock == None ==> ExitEnabled(s, ReturnFrame(p))
    case FreeSlot(t) => ExitEnabled(s, ReturnSlot(p))
  }

  /** A process that has the lock can take any free frame, or evict any that may be; or it gives up. */
  ghost predicate WantGoesOn(s: State, p: Pid) {
    && LoadEnabled(s, AllocFail(p))
    && (s.lock == None ==>
          && (forall k | k in s.frames && !s.frames[k].listed :: LoadEnabled(s, AllocFree(p, k)))
          && (forall k | Evictable(s, k) :: EvictEnabled(s, EvictBegin(p, k))))
  }

  /** An eviction writes back, swaps out, gives up for want of a slot, or is done. */
  ghost predicate EvictGoesOn(s: State, p: Pid)
    requires p in s.procs && s.procs[p].job.Evict?
  {
    var j := s.procs[p].job;
    && j.victim in s.pages
    && if j.dirty && s.pages[j.victim].ty == Mmap && !j.wrote then
         EvictEnabled(s, EvictWriteback(p, s.pages[j.victim].readBytes))
       else if j.mustSwap && j.slot == None then
         (exists t :: EvictEnabled(s, EvictSwapOut(p, t))) || EvictEnabled(s, EvictRollback(p))
       else EvictEnabled(s, EvictFinish(p))
  }

  /** The page is read from swap or zeroed; a file page is read unless the file is too short. */
  ghost predicate FillGoesOn(s: State, p: Pid)
    requires p in s.procs && s.procs[p].job.HaveFrame?
  {
    var va := Va(p, s.procs[p].job.page);
    && va in s.pages
    && match s.pages[va].ty
       case Swap => LoadEnabled(s, FillSwap(p))
       case Zero => LoadEnabled(s, FillZero(p))
       case Mmap => LoadEnabled(s, FillFile(p))
       case File =>
         if Long(s.files, s.pages[va].file, s.pages[va].ofs + s.pages[va].readBytes) then LoadEnabled(s, FillFile(p))
         else LoadEnabled(s, FillFail(p))
  }

  ghost predicate UnmapGoesOn(s: State, p: Pid)
    requires p in s.procs && s.procs[p].job.Unmap?
  {
    var j := s.procs[p].job;
    && Va(p, j.page) in s.pages
    && if j.dirty then UnmapEnabled(s, UnmapWriteback(p, s.pages[Va(p, j.page)].readBytes))
       else if j.copy.Some? then s.lock == None ==> UnmapEnabled(s, UnmapFree(p))
       else UnmapEnabled(s, UnmapDelete(p))
  }

  lemma FillCan(s: State, p: Pid)
    requires Inv(s) && p in s.procs && s.procs[p].job.HaveFrame?
    ensures FillGoesOn(s, p)
  {
    assert ProcOk(s, p);
    var va := Va(p, s.procs[p].job.page);
    assert PageOk(s, va);
    if s.pages[va].ty == Swap { assert Holds(s, ByPage(va), s.pages[va].slot.value); }
  }

  lemma EvictCan(s: State, p: Pid)
    requires Inv(s) && p in s.procs && s.procs[p].job.Evict?
    ensures EvictGoesOn(s, p)
  {
    assert ProcOk(s, p) && PageOk(s, s.procs[p].job.victim);
    if t :| 0 <= t < |s.slots| && !s.slots[t].used && s.procs[p].job.mustSwap && s.procs[p].job.slot == None {
      assert EvictEnabled(s, EvictSwapOut(p, t));
    }
  }

  lemma WantCan(s: State, p: Pid)
    requires Inv(s) && p in s.procs && s.procs[p].job.Want?
    ensures WantGoesOn(s, p)
  {
    assert ProcOk(s, p);
  }

  lemma UnmapCan(s: State, p: Pid)
    requires Inv(s) && p in s.procs && s.procs[p].job.Unmap?
    ensures UnmapGoesOn(s, p)
  {
    assert ProcOk(s, p) && PageOk(s, Va(p, s.procs[p].job.page));
  }

  lemma JobCan(s: State, p: Pid)
    requires Inv(s) && p in s.procs
    ensures GoesOn(s, p)
  {
    var j := s.procs[p].job;
    if j.Want? {
      WantCan(s, p);
    } else if j.Evict? {
      EvictCan(s, p);
    } else if j.HaveFrame? {
      FillCan(s, p);
    } else if j.Unmap? {
      UnmapCan(s, p);
    } else {
      RestCan(s, p);
    }
  }

  lemma RestCan(s: State, p: Pid)
    requires Inv(s) && p in s.procs
    requires var j := s.procs[p].job; !j.Want? && !j.Evict? && !j.HaveFrame? && !j.Unmap?
    ensures GoesOn(s, p)
  {
    assert ProcOk(s, p);
    if s.procs[p].job.FreeSlot? { assert Holds(s, ByJob(p), s.procs[p].job.gone); }
  }

  /** In every state that can be reached from boot every process can go on with what it is doing, or waits for
      the lock, and whoever has the lock can go on; no check that the code makes on the way fails. */
  lemma NeverStuck(s: State, run: seq<Action>, p: Pid)
    requires Init(s) && Executes(s, run) && p in After(s, run).procs
    ensures GoesOn(After(s, run), p)
    ensures After(s, run).lock.Some? ==>
              var q := After(s, run).lock.value;
              q in After(s, run).procs && After(s, run).procs[q].job.Evict? && EvictGoesOn(After(s, run), q)
  {
    RunInv(s, run);
    var e := After(s, run);
    JobCan(e, p);
    if e.lock.Some? { JobCan(e, e.lock.value); }
  }

  /** A running process can use or fault in any page of its own that is not being evicted, and may add pages
      and exit. */
  lemma RunsFreely(s: State, run: seq<Action>, p: Pid, u: nat, i: nat, len: nat, w: bool)
    requires Init(s) && Executes(s, run) && Running(After(s, run), p) && i < PGSIZE && 0 < len <= PGSIZE
    ensures var e := After(s, run);
            && ExitEnabled(e, Exit(p))
            && (if Va(p, u) !in e.pages then UserEnabled(e, AddZeroPage(p, u, w)) && UserEnabled(e, AddFilePage(p, u, i, len, w))
                else match e.pages[Va(p, u)].st
                     case NotLoaded => LoadEnabled(e, Fault(p, u))
                     case Loaded => UserEnabled(e, Load(Va(p, u), i))
                     case Loading => false
                     case Evicting => e.lock.Some?)
  {
    RunInv(s, run);
    if Va(p, u) in After(s, run).pages { assert PageOk(After(s, run), Va(p, u)); }
  }

  /** A process on its way out can unmap its mappings, let go of its executable once there are none, then
      destroy its pages, and be reaped once there are none; it waits only while a page is being evicted. */
  lemma ExitsFreely(s: State, run: seq<Action>, p: Pid, u: nat)
    requires Init(s) && Executes(s, run) && p in After(s, run).procs && After(s, run).procs[p].job == User
    ensures var e := After(s, run);
            var mode := e.procs[p].mode;
            && (mode == Exiting && (forall va | va in e.pages && va.pid == p :: e.pages[va].ty != Mmap) ==>
                  ExitEnabled(e, ReleaseExec(p)))
            && (mode == Released && (forall va | va in e.pages :: va.pid != p) ==> ExitEnabled(e, Reap(p)))
            && (Va(p, u) in e.pages ==>
                  match e.pages[Va(p, u)].st
                  case Loading => false
                  case Evicting => e.lock.Some?
                  case _ =>
                    && (mode == Exiting && e.pages[Va(p, u)].ty == Mmap ==> UnmapEnabled(e, UnmapBegin(p, u)))
                    && (mode == Released ==> ExitEnabled(e, DestroyEntry(p, u))))
  {
    RunInv(s, run);
    if Va(p, u) in After(s, run).pages { assert PageOk(After(s, run), Va(p, u)); }
  }
}
