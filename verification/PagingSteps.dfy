/** Every action keeps the invariant. */
module PagingSteps {
  import opened Machine
  import opened Options
  import opened Paging
  import opened PagingInvariant
  import opened PagingLocal

  /** The frame a page's entry names, if any. */
  function KpageOr0(s: State, va: Va): Frame
    requires va in s.pages
  {
    if s.pages[va].kpage.Some? then s.pages[va].kpage.value else 0
  }

  /** Creating, releasing and reaping concern a process with no job in hand. */
  ghost predicate IdleChange(s: State, s': State, p: Pid) {
    && s' == s.(procs := s'.procs)
    && (forall q :: q != p ==> (q in s.procs <==> q in s'.procs))
    && (forall q :: q in s.procs && q != p ==> s'.procs[q] == s.procs[q])
    && (p in s.procs ==> s.procs[p].job == User) && (p in s'.procs ==> s'.procs[p].job == User)
    && (p in s.procs && p in s'.procs ==> s.procs[p].mode != Live && s'.procs[p].mode == Released
                                          && s'.procs[p].exec == s.procs[p].exec)
    && (p in s.procs ==> forall x :: x in s.pages && x.pid == p ==> p in s'.procs && s.pages[x].ty != Mmap)
  }

  lemma IdleStructure(s: State, s': State, p: Pid)
    requires Structure(s) && IdleChange(s, s', p)
    ensures Structure(s')
  {
    forall x | x in s'.pages ensures PageOk(s', x) { assert PageOk(s, x); }
    forall k | k in s'.frames ensures FrameOk(s', k) {
      assert FrameOk(s, k);
    }
    forall q | q in s'.procs ensures ProcOk(s', q) { assert q in s.procs ==> ProcOk(s, q); }
    forall q, k ensures RawUser(s', q, k) <==> RawUser(s, q, k) {}
  }

  lemma IdleInv(s: State, s': State, p: Pid)
    requires Inv(s) && IdleChange(s, s', p)
    ensures Inv(s')
  {
    IdleStructure(s, s', p);
    forall x ensures PageSlot(s', x) == PageSlot(s, x) {
      if x in s.pages { assert PageOk(s, x); }
    }
    SameSlots(s, s');
    forall x | Claimed(s', x) ensures ContentOk(s', x) {
      assert PageOk(s, x) && x.pid != p && ContentOk(s, x);
      assert CopyOf(s', x) == CopyOf(s, x);
      if s.lock.Some? { IdleEviction(s, s', p, x); }
    }
    forall x | x in s'.retired ensures RegionOk(s', s'.retired[x]) { assert RegionOk(s, s.retired[x]); }
  }

  lemma IdleEviction(s: State, s': State, p: Pid, x: Va)
    requires Structure(s) && IdleChange(s, s', p) && x in s.pages && s.lock.Some?
    ensures s.lock.value in s.procs && s.lock.value in s'.procs && s'.procs[s.lock.value] == s.procs[s.lock.value]
  {
  }

  lemma SpawnInv(s: State, p: Pid, f: FileId)
    requires Inv(s) && UserEnabled(s, Spawn(p, f))
    ensures Inv(UserApply(s, Spawn(p, f)))
  {
    IdleInv(s, UserApply(s, Spawn(p, f)), p);
  }

  lemma NewPageInv(s: State, p: Pid, u: nat, w: bool, ty: PageType, file: FileId, ofs: nat, len: nat, id: int)
    requires Inv(s) && Running(s, p) && Va(p, u) !in s.pages && len <= PGSIZE && ty != Swap
    requires ty == File ==> file == s.procs[p].exec
    requires ty == Mmap ==> file in s.files && ofs + len <= |s.files[file]|
    ensures Inv(NewPage(s, Va(p, u), w, ty, file, ofs, len, id))
  {
    var s' := NewPage(s, Va(p, u), w, ty, file, ofs, len, id);
    At(s, p, Va(p, u), 0);
    SlotsPassed(s, s', p, Va(p, u));
    assert Backing(s', s'.pages[Va(p, u)]) == s'.pages[Va(p, u)].flat;
    LocalInv(s, s', p, Va(p, u), 0, 0);
  }

  lemma LoadLocal(s: State, va: Va, i: nat)
    requires UserEnabled(s, Load(va, i)) && PointsOk(s, va.pid, va, s.pages[va].pte.frame)
    ensures Local(s, UserApply(s, Load(va, i)), va.pid, va, s.pages[va].pte.frame, 0)
  {
  }

  lemma LoadQuiet(s: State, va: Va, i: nat)
    requires UserEnabled(s, Load(va, i)) && PointsOk(s, va.pid, va, s.pages[va].pte.frame)
    ensures Quiet(s, UserApply(s, Load(va, i)), va.pid, va)
  {
  }

  lemma LoadInv(s: State, va: Va, i: nat)
    requires Inv(s) && UserEnabled(s, Load(va, i))
    ensures Inv(UserApply(s, Load(va, i)))
  {
    At(s, va.pid, va, s.pages[va].pte.frame);
    LoadLocal(s, va, i);
    LoadQuiet(s, va, i);
    QuietInv(s, UserApply(s, Load(va, i)), va.pid, va, s.pages[va].pte.frame);
  }

  lemma AgreeAfterStore(n: nat, x: Page, y: Page, i: nat, b: Byte)
    requires n <= PGSIZE && i < PGSIZE && Agree(n, x, y)
    ensures Agree(n, x[i := b], y[i := b])
  {
    assert forall m :: 0 <= m < n ==> x[..n][m] == y[..n][m];
  }

  lemma StoreLocal(s: State, va: Va, i: nat, b: Byte)
    requires UserEnabled(s, Store(va, i, b)) && PointsOk(s, va.pid, va, s.pages[va].pte.frame)
    ensures Local(s, UserApply(s, Store(va, i, b)), va.pid, va, s.pages[va].pte.frame, 0)
  {
  }

  lemma StoreInv(s: State, va: Va, i: nat, b: Byte)
    requires Inv(s) && UserEnabled(s, Store(va, i, b))
    ensures Inv(UserApply(s, Store(va, i, b)))
  {
    var s' := UserApply(s, Store(va, i, b));
    var k := s.pages[va].pte.frame;
    At(s, va.pid, va, k);
    StoreLocal(s, va, i, b);
    SlotsPassed(s, s', va.pid, va);
    if Claimed(s', va) {
      assert ContentOk(s, va);
      AgreeAfterStore(Kept(s.pages[va]), s.frames[k].data, s.pages[va].flat, i, b);
    }
    assert va in s'.retired ==> RegionOk(s, s.retired[va]);
    LocalInv(s, s', va.pid, va, k, 0);
  }

  lemma SetPinnedLocal(s: State, p: Pid, k: Frame, on: bool)
    requires UserEnabled(s, SetPinned(p, k, on)) && PointsOk(s, p, s.frames[k].owner.value, k)
    ensures Local(s, UserApply(s, SetPinned(p, k, on)), p, s.frames[k].owner.value, k, 0)
  {
  }

  lemma SetPinnedQuiet(s: State, p: Pid, k: Frame, on: bool)
    requires UserEnabled(s, SetPinned(p, k, on)) && PointsOk(s, p, s.frames[k].owner.value, k)
    ensures Quiet(s, UserApply(s, SetPinned(p, k, on)), p, s.frames[k].owner.value)
  {
  }

  lemma SetPinnedInv(s: State, p: Pid, k: Frame, on: bool)
    requires Inv(s) && UserEnabled(s, SetPinned(p, k, on))
    ensures Inv(UserApply(s, SetPinned(p, k, on)))
  {
    At(s, p, s.frames[k].owner.value, k);
    SetPinnedLocal(s, p, k, on);
    SetPinnedQuiet(s, p, k, on);
    QuietInv(s, UserApply(s, SetPinned(p, k, on)), p, s.frames[k].owner.value, k);
  }

  /** What a file write leaves alone: everything but bytes and promises. */
  ghost predicate SameButTaint(s: State, s': State) {
    && s'.procs == s.procs && s'.lock == s.lock && s'.frames == s.frames && s'.slots == s.slots
    && s'.pages.Keys == s.pages.Keys
    && (forall x :: x in s.pages ==> s'.pages[x] == s.pages[x].(tainted := s'.pages[x].tainted))
    && (forall x :: x in s.pages && s.pages[x].tainted ==> s'.pages[x].tainted)
    && s'.files.Keys == s.files.Keys && (forall f :: f in s.files ==> |s'.files[f]| == |s.files[f]|)
  }

  lemma TaintStructure(s: State, s': State)
    requires Structure(s) && SameButTaint(s, s')
    ensures Structure(s')
  {
    forall q, k ensures RawUser(s', q, k) <==> RawUser(s, q, k) {}
    forall x | x in s'.pages ensures PageOk(s', x) { assert PageOk(s, x); }
    forall k | k in s'.frames ensures FrameOk(s', k) { assert FrameOk(s, k); }
    forall q | q in s'.procs ensures ProcOk(s', q) { assert ProcOk(s, q); }
  }

  lemma FileWriteShape(s: State, f: FileId, ofs: nat, bytes: Bytes, writer: Option<Va>)
    requires f in s.files
    ensures SameButTaint(s, FileWrite(s, f, ofs, bytes, writer))
  {
    if !Denied(s, f) { WrittenShape(s, f, ofs, bytes, writer); }
  }

  lemma WrittenShape(s: State, f: FileId, ofs: nat, bytes: Bytes, writer: Option<Va>)
    requires f in s.files && !Denied(s, f)
    ensures SameButTaint(s, FileWrite(s, f, ofs, bytes, writer))
  {
    var s' := FileWrite(s, f, ofs, bytes, writer);
    forall x | x in s.pages
      ensures x in s'.pages && s'.pages[x] == s.pages[x].(tainted := s'.pages[x].tainted)
      ensures s.pages[x].tainted ==> s'.pages[x].tainted
    {
    }
  }

  /** A page being written back is held in a frame and still counts as modified. */
  ghost predicate MayWriteBack(s: State, w: Va) {
    && w in s.pages && w.pid in s.procs && CopyOf(s, w).Some? && s.pages[w].ty == Mmap && Modified(s, w)
    && (s.pages[w].st == Evicting ==> s.lock.Some? && s.lock.value in s.procs && s.procs[s.lock.value].job.Evict?
                                      && !s.procs[s.lock.value].job.wrote)
  }

  /** Writing a file taints or releases every promise the write could break. */
  lemma FileWriteInv(s: State, f: FileId, ofs: nat, bytes: Bytes, writer: Option<Va>)
    requires Inv(s) && f in s.files && (writer.Some? ==> MayWriteBack(s, writer.value))
    ensures Inv(FileWrite(s, f, ofs, bytes, writer)) && SameButTaint(s, FileWrite(s, f, ofs, bytes, writer))
  {
    var s' := FileWrite(s, f, ofs, bytes, writer);
    FileWriteShape(s, f, ofs, bytes, writer);
    TaintStructure(s, s');
    SameSlots(s, s');
    ContentsKept(s, f, ofs, bytes, writer);
    RegionsKept(s, f, ofs, bytes, writer);
  }

  lemma ContentsKept(s: State, f: FileId, ofs: nat, bytes: Bytes, writer: Option<Va>)
    requires Structure(s) && Contents(s) && f in s.files && (writer.Some? ==> MayWriteBack(s, writer.value))
    requires SameButTaint(s, FileWrite(s, f, ofs, bytes, writer))
    ensures Contents(FileWrite(s, f, ofs, bytes, writer))
  {
    var s' := FileWrite(s, f, ofs, bytes, writer);
    forall x | Claimed(s', x) ensures ContentOk(s', x) {
      BackingKept(s, f, ofs, bytes, writer, x);
      TaintContent(s, s', writer, x);
    }
  }

  lemma RegionsKept(s: State, f: FileId, ofs: nat, bytes: Bytes, writer: Option<Va>)
    requires Retired(s) && f in s.files
    ensures Retired(FileWrite(s, f, ofs, bytes, writer))
  {
    var s' := FileWrite(s, f, ofs, bytes, writer);
    forall x | x in s'.retired ensures RegionOk(s', s'.retired[x]) {
      var r := s.retired[x];
      assert RegionOk(s, r);
      if r.file == f && !Denied(s, f) { WriteElsewhere(s.files[f], ofs, bytes, r.ofs, r.len); }
    }
  }

  lemma WriteElsewhere(file: Bytes, ofs: nat, bytes: Bytes, at: nat, len: nat)
    requires !Overlap(at, len, ofs, |bytes|) && at + len <= |file|
    ensures WriteAt(file, ofs, bytes)[at..at + len] == file[at..at + len]
  {
  }

  lemma BackingKept(s: State, f: FileId, ofs: nat, bytes: Bytes, writer: Option<Va>, x: Va)
    requires Structure(s) && f in s.files && Claimed(FileWrite(s, f, ofs, bytes, writer), x)
    ensures writer != Some(x) ==>
              Backing(FileWrite(s, f, ofs, bytes, writer), s.pages[x]) == Backing(s, s.pages[x])
  {
    var e := s.pages[x];
    assert PageOk(s, x);
    if writer != Some(x) && FromFile(e) && e.file == f && !Denied(s, f) {
      if e.ofs + e.readBytes <= |s.files[f]| { WriteElsewhere(s.files[f], ofs, bytes, e.ofs, e.readBytes); }
    }
  }

  lemma TaintContent(s: State, s': State, writer: Option<Va>, x: Va)
    requires Structure(s) && Contents(s) && SameButTaint(s, s') && Claimed(s', x)
    requires writer == Some(x) ==> MayWriteBack(s, x)
    requires writer != Some(x) ==> Backing(s', s.pages[x]) == Backing(s, s.pages[x])
    ensures ContentOk(s', x)
  {
    assert PageOk(s, x) && ContentOk(s, x);
    CopyLabelled(s, x);
    assert CopyOf(s', x) == CopyOf(s, x);
    assert Content(s', x) == Content(s, x);
  }

  lemma SysWriteInv(s: State, f: FileId, ofs: nat, bytes: Bytes)
    requires Inv(s) && UserEnabled(s, SysWrite(f, ofs, bytes))
    ensures Inv(UserApply(s, SysWrite(f, ofs, bytes)))
  {
    FileWriteInv(s, f, ofs, bytes, None);
  }

  lemma FaultLocal(s: State, p: Pid, u: nat)
    requires LoadEnabled(s, Fault(p, u)) && PointsOk(s, p, Va(p, u), 0)
    ensures Local(s, LoadApply(s, Fault(p, u)), p, Va(p, u), 0, 0)
  {
  }

  lemma FaultQuiet(s: State, p: Pid, u: nat)
    requires LoadEnabled(s, Fault(p, u)) && PointsOk(s, p, Va(p, u), 0)
    ensures Quiet(s, LoadApply(s, Fault(p, u)), p, Va(p, u))
  {
  }

  lemma FaultInv(s: State, p: Pid, u: nat)
    requires Inv(s) && LoadEnabled(s, Fault(p, u))
    ensures Inv(LoadApply(s, Fault(p, u)))
  {
    At(s, p, Va(p, u), 0);
    FaultLocal(s, p, u);
    FaultQuiet(s, p, u);
    QuietInv(s, LoadApply(s, Fault(p, u)), p, Va(p, u), 0);
  }

  lemma AllocFreeLocal(s: State, p: Pid, k: Frame)
    requires LoadEnabled(s, AllocFree(p, k)) && PointsOk(s, p, LoadVa(s, p), k)
    ensures Local(s, LoadApply(s, AllocFree(p, k)), p, LoadVa(s, p), k, 0)
  {
  }

  lemma AllocFreeQuiet(s: State, p: Pid, k: Frame)
    requires LoadEnabled(s, AllocFree(p, k)) && PointsOk(s, p, LoadVa(s, p), k)
    ensures Quiet(s, LoadApply(s, AllocFree(p, k)), p, LoadVa(s, p))
  {
  }

  lemma AllocFreeInv(s: State, p: Pid, k: Frame)
    requires Inv(s) && LoadEnabled(s, AllocFree(p, k))
    ensures Inv(LoadApply(s, AllocFree(p, k)))
  {
    At(s, p, LoadVa(s, p), k);
    AllocFreeLocal(s, p, k);
    AllocFreeQuiet(s, p, k);
    QuietInv(s, LoadApply(s, AllocFree(p, k)), p, LoadVa(s, p), k);
  }

  lemma AllocFailLocal(s: State, p: Pid)
    requires LoadEnabled(s, AllocFail(p)) && PointsOk(s, p, LoadVa(s, p), 0)
    ensures Local(s, LoadApply(s, AllocFail(p)), p, LoadVa(s, p), 0, 0)
  {
  }

  lemma AllocFailQuiet(s: State, p: Pid)
    requires LoadEnabled(s, AllocFail(p)) && PointsOk(s, p, LoadVa(s, p), 0)
    ensures Quiet(s, LoadApply(s, AllocFail(p)), p, LoadVa(s, p))
  {
  }

  lemma AllocFailInv(s: State, p: Pid)
    requires Inv(s) && LoadEnabled(s, AllocFail(p))
    ensures Inv(LoadApply(s, AllocFail(p)))
  {
    At(s, p, LoadVa(s, p), 0);
    AllocFailLocal(s, p);
    AllocFailQuiet(s, p);
    QuietInv(s, LoadApply(s, AllocFail(p)), p, LoadVa(s, p), 0);
  }

  lemma TakeFrameLocal(s: State, p: Pid)
    requires LoadEnabled(s, TakeFrame(p)) && PointsOk(s, p, LoadVa(s, p), s.procs[p].job.frame)
    ensures Local(s, LoadApply(s, TakeFrame(p)), p, LoadVa(s, p), s.procs[p].job.frame, 0)
  {
  }

  lemma TakeFrameQuiet(s: State, p: Pid)
    requires LoadEnabled(s, TakeFrame(p)) && PointsOk(s, p, LoadVa(s, p), s.procs[p].job.frame)
    ensures Quiet(s, LoadApply(s, TakeFrame(p)), p, LoadVa(s, p))
  {
  }

  lemma TakeFrameInv(s: State, p: Pid)
    requires Inv(s) && LoadEnabled(s, TakeFrame(p))
    ensures Inv(LoadApply(s, TakeFrame(p)))
  {
    At(s, p, LoadVa(s, p), s.procs[p].job.frame);
    TakeFrameLocal(s, p);
    TakeFrameQuiet(s, p);
    QuietInv(s, LoadApply(s, TakeFrame(p)), p, LoadVa(s, p), s.procs[p].job.frame);
  }

  lemma FillFileLocal(s: State, p: Pid)
    requires LoadEnabled(s, FillFile(p)) && PointsOk(s, p, LoadVa(s, p), s.procs[p].job.frame)
    ensures Local(s, LoadApply(s, FillFile(p)), p, LoadVa(s, p), s.procs[p].job.frame, 0)
  {
  }

  lemma FillFileQuiet(s: State, p: Pid)
    requires LoadEnabled(s, FillFile(p)) && PointsOk(s, p, LoadVa(s, p), s.procs[p].job.frame)
    ensures Quiet(s, LoadApply(s, FillFile(p)), p, LoadVa(s, p))
  {
  }

  lemma FillFileInv(s: State, p: Pid)
    requires Inv(s) && LoadEnabled(s, FillFile(p))
    ensures Inv(LoadApply(s, FillFile(p)))
  {
    At(s, p, LoadVa(s, p), s.procs[p].job.frame);
    FillFileLocal(s, p);
    FillFileQuiet(s, p);
    QuietInv(s, LoadApply(s, FillFile(p)), p, LoadVa(s, p), s.procs[p].job.frame);
  }

  lemma FillZeroLocal(s: State, p: Pid)
    requires LoadEnabled(s, FillZero(p)) && PointsOk(s, p, LoadVa(s, p), s.procs[p].job.frame)
    ensures Local(s, LoadApply(s, FillZero(p)), p, LoadVa(s, p), s.procs[p].job.frame, 0)
  {
  }

  lemma FillZeroQuiet(s: State, p: Pid)
    requires LoadEnabled(s, FillZero(p)) && PointsOk(s, p, LoadVa(s, p), s.procs[p].job.frame)
    ensures Quiet(s, LoadApply(s, FillZero(p)), p, LoadVa(s, p))
  {
  }

  lemma FillZeroInv(s: State, p: Pid)
    requires Inv(s) && LoadEnabled(s, FillZero(p))
    ensures Inv(LoadApply(s, FillZero(p)))
  {
    At(s, p, LoadVa(s, p), s.procs[p].job.frame);
    FillZeroLocal(s, p);
    FillZeroQuiet(s, p);
    QuietInv(s, LoadApply(s, FillZero(p)), p, LoadVa(s, p), s.procs[p].job.frame);
  }

  lemma FillSwapLocal(s: State, p: Pid)
    requires LoadEnabled(s, FillSwap(p)) && PointsOk(s, p, LoadVa(s, p), s.procs[p].job.frame)
    ensures Local(s, LoadApply(s, FillSwap(p)), p, LoadVa(s, p), s.procs[p].job.frame, s.pages[LoadVa(s, p)].slot.value)
  {
  }

  /** The slot is no longer anybody's. */
  lemma FillSwapSlots(s: State, p: Pid)
    requires LoadEnabled(s, FillSwap(p)) && Slots(s) && PointsOk(s, p, LoadVa(s, p), s.procs[p].job.frame)
    ensures SlotStep(s, LoadApply(s, FillSwap(p)), p, LoadVa(s, p))
  {
    var s', va := LoadApply(s, FillSwap(p)), LoadVa(s, p);
    HereUsed(s, p, va);
    assert PageSlot(s', va) == None && JobSlot(s', p) == None && HeldHere(s, p, va, s.pages[va].slot.value);
  }

  /** The frame has the bytes that were in the slot. */
  lemma FillSwapContent(s: State, p: Pid)
    requires LoadEnabled(s, FillSwap(p)) && PointsOk(s, p, LoadVa(s, p), s.procs[p].job.frame)
    requires Claimed(s, LoadVa(s, p)) ==> ContentOk(s, LoadVa(s, p))
    ensures Claimed(LoadApply(s, FillSwap(p)), LoadVa(s, p)) ==> ContentOk(LoadApply(s, FillSwap(p)), LoadVa(s, p))
  {
  }

  lemma FillSwapInv(s: State, p: Pid)
    requires Inv(s) && LoadEnabled(s, FillSwap(p))
    ensures Inv(LoadApply(s, FillSwap(p)))
  {
    var s' := LoadApply(s, FillSwap(p));
    var va, k := LoadVa(s, p), s.procs[p].job.frame;
    At(s, p, va, k);
    FillSwapLocal(s, p);
    FillSwapSlots(s, p);
    if Claimed(s, va) { assert ContentOk(s, va); }
    FillSwapContent(s, p);
    assert va in s'.retired ==> RegionOk(s, s.retired[va]);
    LocalInv(s, s', p, va, k, s.pages[va].slot.value);
  }

  lemma ForgetSlotLocal(s: State, p: Pid)
    requires LoadEnabled(s, ForgetSlot(p)) && PointsOk(s, p, LoadVa(s, p), s.procs[p].job.frame)
    ensures Local(s, LoadApply(s, ForgetSlot(p)), p, LoadVa(s, p), s.procs[p].job.frame, 0)
  {
  }

  lemma ForgetSlotQuiet(s: State, p: Pid)
    requires LoadEnabled(s, ForgetSlot(p)) && PointsOk(s, p, LoadVa(s, p), s.procs[p].job.frame)
    ensures Quiet(s, LoadApply(s, ForgetSlot(p)), p, LoadVa(s, p))
  {
  }

  lemma ForgetSlotInv(s: State, p: Pid)
    requires Inv(s) && LoadEnabled(s, ForgetSlot(p))
    ensures Inv(LoadApply(s, ForgetSlot(p)))
  {
    At(s, p, LoadVa(s, p), s.procs[p].job.frame);
    ForgetSlotLocal(s, p);
    ForgetSlotQuiet(s, p);
    QuietInv(s, LoadApply(s, ForgetSlot(p)), p, LoadVa(s, p), s.procs[p].job.frame);
  }

  lemma FillFailPoints(s: State, p: Pid)
    requires LoadEnabled(s, FillFail(p)) && PointsOk(s, p, LoadVa(s, p), s.procs[p].job.frame)
    ensures PointsOk(LoadApply(s, FillFail(p)), p, LoadVa(s, p), s.procs[p].job.frame)
  {
  }

  lemma FillFailLocal(s: State, p: Pid)
    requires LoadEnabled(s, FillFail(p)) && PointsOk(s, p, LoadVa(s, p), s.procs[p].job.frame)
    ensures Local(s, LoadApply(s, FillFail(p)), p, LoadVa(s, p), s.procs[p].job.frame, 0)
  {
    FillFailPoints(s, p);
  }

  lemma FillFailQuiet(s: State, p: Pid)
    requires LoadEnabled(s, FillFail(p)) && PointsOk(s, p, LoadVa(s, p), s.procs[p].job.frame)
    ensures Quiet(s, LoadApply(s, FillFail(p)), p, LoadVa(s, p))
  {
  }

  lemma FillFailInv(s: State, p: Pid)
    requires Inv(s) && LoadEnabled(s, FillFail(p))
    ensures Inv(LoadApply(s, FillFail(p)))
  {
    At(s, p, LoadVa(s, p), s.procs[p].job.frame);
    FillFailLocal(s, p);
    FillFailQuiet(s, p);
    QuietInv(s, LoadApply(s, FillFail(p)), p, LoadVa(s, p), s.procs[p].job.frame);
  }

  lemma InstallLocal(s: State, p: Pid)
    requires LoadEnabled(s, Install(p)) && PointsOk(s, p, LoadVa(s, p), s.procs[p].job.frame)
    ensures Local(s, LoadApply(s, Install(p)), p, LoadVa(s, p), s.procs[p].job.frame, 0)
  {
  }

  lemma InstallQuiet(s: State, p: Pid)
    requires LoadEnabled(s, Install(p)) && PointsOk(s, p, LoadVa(s, p), s.procs[p].job.frame)
    ensures Quiet(s, LoadApply(s, Install(p)), p, LoadVa(s, p))
  {
  }

  lemma InstallInv(s: State, p: Pid)
    requires Inv(s) && LoadEnabled(s, Install(p))
    ensures Inv(LoadApply(s, Install(p)))
  {
    At(s, p, LoadVa(s, p), s.procs[p].job.frame);
    InstallLocal(s, p);
    InstallQuiet(s, p);
    QuietInv(s, LoadApply(s, Install(p)), p, LoadVa(s, p), s.procs[p].job.frame);
  }

  lemma InstallFailPoints(s: State, p: Pid)
    requires LoadEnabled(s, InstallFail(p)) && PointsOk(s, p, LoadVa(s, p), s.procs[p].job.frame)
    ensures PointsOk(LoadApply(s, InstallFail(p)), p, LoadVa(s, p), s.procs[p].job.frame)
  {
  }

  lemma InstallFailLocal(s: State, p: Pid)
    requires LoadEnabled(s, InstallFail(p)) && PointsOk(s, p, LoadVa(s, p), s.procs[p].job.frame)
    ensures Local(s, LoadApply(s, InstallFail(p)), p, LoadVa(s, p), s.procs[p].job.frame, 0)
  {
    InstallFailPoints(s, p);
  }

  lemma InstallFailQuiet(s: State, p: Pid)
    requires LoadEnabled(s, InstallFail(p)) && PointsOk(s, p, LoadVa(s, p), s.procs[p].job.frame)
    requires Claimed(s, LoadVa(s, p)) ==> ContentOk(s, LoadVa(s, p))
    ensures Quiet(s, LoadApply(s, InstallFail(p)), p, LoadVa(s, p))
  {
  }

  lemma InstallFailInv(s: State, p: Pid)
    requires Inv(s) && LoadEnabled(s, InstallFail(p))
    ensures Inv(LoadApply(s, InstallFail(p)))
  {
    At(s, p, LoadVa(s, p), s.procs[p].job.frame);
    InstallFailLocal(s, p);
    if Claimed(s, LoadVa(s, p)) { assert ContentOk(s, LoadVa(s, p)); }
    InstallFailQuiet(s, p);
    QuietInv(s, LoadApply(s, InstallFail(p)), p, LoadVa(s, p), s.procs[p].job.frame);
  }

  lemma MarkLoadedPoints(s: State, p: Pid)
    requires LoadEnabled(s, MarkLoaded(p)) && PointsOk(s, p, LoadVa(s, p), s.procs[p].job.frame)
    ensures PointsOk(LoadApply(s, MarkLoaded(p)), p, LoadVa(s, p), s.procs[p].job.frame)
  {
  }

  lemma MarkLoadedLocal(s: State, p: Pid)
    requires LoadEnabled(s, MarkLoaded(p)) && PointsOk(s, p, LoadVa(s, p), s.procs[p].job.frame)
    ensures Local(s, LoadApply(s, MarkLoaded(p)), p, LoadVa(s, p), s.procs[p].job.frame, 0)
  {
    MarkLoadedPoints(s, p);
  }

  lemma MarkLoadedQuiet(s: State, p: Pid)
    requires LoadEnabled(s, MarkLoaded(p)) && PointsOk(s, p, LoadVa(s, p), s.procs[p].job.frame)
    ensures Quiet(s, LoadApply(s, MarkLoaded(p)), p, LoadVa(s, p))
  {
  }

  lemma MarkLoadedInv(s: State, p: Pid)
    requires Inv(s) && LoadEnabled(s, MarkLoaded(p))
    ensures Inv(LoadApply(s, MarkLoaded(p)))
  {
    At(s, p, LoadVa(s, p), s.procs[p].job.frame);
    MarkLoadedLocal(s, p);
    MarkLoadedQuiet(s, p);
    QuietInv(s, LoadApply(s, MarkLoaded(p)), p, LoadVa(s, p), s.procs[p].job.frame);
  }

  lemma UnpinLocal(s: State, p: Pid)
    requires LoadEnabled(s, Unpin(p)) && PointsOk(s, p, Va(p, s.procs[p].job.page), s.procs[p].job.frame)
    ensures Local(s, LoadApply(s, Unpin(p)), p, Va(p, s.procs[p].job.page), s.procs[p].job.frame, 0)
  {
  }

  lemma UnpinQuiet(s: State, p: Pid)
    requires LoadEnabled(s, Unpin(p)) && PointsOk(s, p, Va(p, s.procs[p].job.page), s.procs[p].job.frame)
    ensures Quiet(s, LoadApply(s, Unpin(p)), p, Va(p, s.procs[p].job.page))
  {
  }

  lemma UnpinInv(s: State, p: Pid)
    requires Inv(s) && LoadEnabled(s, Unpin(p))
    ensures Inv(LoadApply(s, Unpin(p)))
  {
    At(s, p, Va(p, s.procs[p].job.page), s.procs[p].job.frame);
    UnpinLocal(s, p);
    UnpinQuiet(s, p);
    QuietInv(s, LoadApply(s, Unpin(p)), p, Va(p, s.procs[p].job.page), s.procs[p].job.frame);
  }

  lemma ClearAccessedPoints(s: State, va: Va)
    requires EvictEnabled(s, ClearAccessed(va)) && PointsOk(s, va.pid, va, s.pages[va].pte.frame)
    ensures PointsOk(EvictApply(s, ClearAccessed(va)), va.pid, va, s.pages[va].pte.frame)
  {
  }

  lemma ClearAccessedLocal(s: State, va: Va)
    requires EvictEnabled(s, ClearAccessed(va)) && PointsOk(s, va.pid, va, s.pages[va].pte.frame)
    ensures Local(s, EvictApply(s, ClearAccessed(va)), va.pid, va, s.pages[va].pte.frame, 0)
  {
    ClearAccessedPoints(s, va);
  }

  lemma ClearAccessedQuiet(s: State, va: Va)
    requires EvictEnabled(s, ClearAccessed(va)) && PointsOk(s, va.pid, va, s.pages[va].pte.frame)
    ensures Quiet(s, EvictApply(s, ClearAccessed(va)), va.pid, va)
  {
  }

  lemma ClearAccessedInv(s: State, va: Va)
    requires Inv(s) && EvictEnabled(s, ClearAccessed(va))
    ensures Inv(EvictApply(s, ClearAccessed(va)))
  {
    At(s, va.pid, va, s.pages[va].pte.frame);
    ClearAccessedLocal(s, va);
    ClearAccessedQuiet(s, va);
    QuietInv(s, EvictApply(s, ClearAccessed(va)), va.pid, va, s.pages[va].pte.frame);
  }

  lemma EvictBeginPoints(s: State, p: Pid, k: Frame)
    requires EvictEnabled(s, EvictBegin(p, k)) && PointsOk(s, p, s.frames[k].owner.value, k)
    ensures PointsOk(EvictApply(s, EvictBegin(p, k)), p, s.frames[k].owner.value, k)
  {
  }

  lemma EvictBeginLocal(s: State, p: Pid, k: Frame)
    requires EvictEnabled(s, EvictBegin(p, k)) && PointsOk(s, p, s.frames[k].owner.value, k)
    ensures Local(s, EvictApply(s, EvictBegin(p, k)), p, s.frames[k].owner.value, k, 0)
  {
    EvictBeginPoints(s, p, k);
  }

  lemma EvictBeginQuiet(s: State, p: Pid, k: Frame)
    requires EvictEnabled(s, EvictBegin(p, k)) && PointsOk(s, p, s.frames[k].owner.value, k)
    ensures Quiet(s, EvictApply(s, EvictBegin(p, k)), p, s.frames[k].owner.value)
  {
  }

  lemma EvictBeginInv(s: State, p: Pid, k: Frame)
    requires Inv(s) && EvictEnabled(s, EvictBegin(p, k))
    ensures Inv(EvictApply(s, EvictBegin(p, k)))
  {
    At(s, p, s.frames[k].owner.value, k);
    EvictBeginLocal(s, p, k);
    EvictBeginQuiet(s, p, k);
    QuietInv(s, EvictApply(s, EvictBegin(p, k)), p, s.frames[k].owner.value, k);
  }

  /** Reading back what was just written. */
  lemma SavedImage(file: Bytes, ofs: nat, data: Page, n: nat)
    requires n <= PGSIZE && ofs + n <= |file|
    ensures Agree(n, data, Image(WriteAt(file, ofs, data[..n]), ofs, n))
  {
    assert WriteAt(file, ofs, data[..n])[ofs..ofs + n] == data[..n];
  }

  /** Either the file now holds the page's bytes, or the write was denied or fell short and the page is tainted. */
  lemma WrittenBack(s: State, w: Va, data: Page, n: nat)
    requires w in s.pages && s.pages[w].ty == Mmap && s.pages[w].file in s.files && n <= s.pages[w].readBytes <= PGSIZE
    requires s.pages[w].ofs + s.pages[w].readBytes <= |s.files[s.pages[w].file]|
    ensures var e := s.pages[w];
            var s' := FileWrite(s, e.file, e.ofs, data[..n], Some(w));
            w in s'.pages && (s'.pages[w].tainted || Agree(e.readBytes, data, Backing(s', s'.pages[w])))
  {
    SavedImage(s.files[s.pages[w].file], s.pages[w].ofs, data, s.pages[w].readBytes);
  }

  lemma MarkWritten(s: State, p: Pid)
    requires Inv(s) && Evicts(s, p) && s.procs[p].job.dirty
    requires var j := s.procs[p].job;
             var e := s.pages[j.victim];
             e.ty == Mmap && (e.tainted || Agree(Kept(e), s.frames[j.frame].data, Backing(s, e)))
    ensures Inv(SetJob(s, p, s.procs[p].job.(wrote := true)))
  {
    var j := s.procs[p].job;
    var w := j.victim;
    var s' := SetJob(s, p, j.(wrote := true));
    At(s, p, w, j.frame);
    SlotsPassed(s, s', p, w);
    if Claimed(s', w) { assert ContentOk(s, w); }
    assert w in s'.retired ==> RegionOk(s, s.retired[w]);
    LocalInv(s, s', p, w, j.frame, 0);
  }

  lemma EvictWritebackInv(s: State, p: Pid, n: nat)
    requires Inv(s) && EvictEnabled(s, EvictWriteback(p, n))
    ensures Inv(EvictApply(s, EvictWriteback(p, n)))
  {
    var j := s.procs[p].job;
    var e := s.pages[j.victim];
    At(s, p, j.victim, j.frame);
    FileWriteInv(s, e.file, e.ofs, s.frames[j.frame].data[..n], Some(j.victim));
    WrittenBack(s, j.victim, s.frames[j.frame].data, n);
    MarkWritten(FileWrite(s, e.file, e.ofs, s.frames[j.frame].data[..n], Some(j.victim)), p);
  }

  lemma EvictSwapOutLocal(s: State, p: Pid, t: Slot)
    requires EvictEnabled(s, EvictSwapOut(p, t)) && PointsOk(s, p, s.procs[p].job.victim, s.procs[p].job.frame)
    ensures Local(s, EvictApply(s, EvictSwapOut(p, t)), p, s.procs[p].job.victim, s.procs[p].job.frame, t)
  {
  }

  lemma EvictSwapOutInv(s: State, p: Pid, t: Slot)
    requires Inv(s) && EvictEnabled(s, EvictSwapOut(p, t))
    ensures Inv(EvictApply(s, EvictSwapOut(p, t)))
  {
    var s' := EvictApply(s, EvictSwapOut(p, t));
    var w, k := s.procs[p].job.victim, s.procs[p].job.frame;
    At(s, p, w, k);
    EvictSwapOutLocal(s, p, t);
    HereUsed(s, p, w);
    assert PageSlot(s, w) == None && JobSlot(s, p) == None && PageSlot(s', w) == None && JobSlot(s', p) == Some(t);
    if Claimed(s', w) { assert ContentOk(s, w); }
    assert w in s'.retired ==> RegionOk(s, s.retired[w]);
    LocalInv(s, s', p, w, k, t);
  }

  lemma EvictRollbackPoints(s: State, p: Pid)
    requires EvictEnabled(s, EvictRollback(p)) && PointsOk(s, p, s.procs[p].job.victim, s.procs[p].job.frame)
    ensures PointsOk(EvictApply(s, EvictRollback(p)), p, s.procs[p].job.victim, s.procs[p].job.frame)
  {
  }

  lemma EvictRollbackLocal(s: State, p: Pid)
    requires EvictEnabled(s, EvictRollback(p)) && PointsOk(s, p, s.procs[p].job.victim, s.procs[p].job.frame)
    ensures Local(s, EvictApply(s, EvictRollback(p)), p, s.procs[p].job.victim, s.procs[p].job.frame, 0)
  {
    EvictRollbackPoints(s, p);
  }

  lemma EvictRollbackQuiet(s: State, p: Pid)
    requires EvictEnabled(s, EvictRollback(p)) && PointsOk(s, p, s.procs[p].job.victim, s.procs[p].job.frame)
    ensures Quiet(s, EvictApply(s, EvictRollback(p)), p, s.procs[p].job.victim)
  {
  }

  lemma EvictRollbackInv(s: State, p: Pid)
    requires Inv(s) && EvictEnabled(s, EvictRollback(p))
    ensures Inv(EvictApply(s, EvictRollback(p)))
  {
    At(s, p, s.procs[p].job.victim, s.procs[p].job.frame);
    EvictRollbackLocal(s, p);
    EvictRollbackQuiet(s, p);
    QuietInv(s, EvictApply(s, EvictRollback(p)), p, s.procs[p].job.victim, s.procs[p].job.frame);
  }

  lemma EvictFinishPoints(s: State, p: Pid)
    requires EvictEnabled(s, EvictFinish(p)) && PointsOk(s, p, s.procs[p].job.victim, s.procs[p].job.frame)
    ensures PointsOk(EvictApply(s, EvictFinish(p)), p, s.procs[p].job.victim, s.procs[p].job.frame)
  {
  }

  lemma EvictFinishLocal(s: State, p: Pid)
    requires EvictEnabled(s, EvictFinish(p)) && PointsOk(s, p, s.procs[p].job.victim, s.procs[p].job.frame)
    ensures Local(s, EvictApply(s, EvictFinish(p)), p, s.procs[p].job.victim, s.procs[p].job.frame, 0)
  {
    EvictFinishPoints(s, p);
  }

  /** The page's bytes are where it was saved. */
  lemma EvictFinishContent(s: State, p: Pid)
    requires EvictEnabled(s, EvictFinish(p)) && PointsOk(s, p, s.procs[p].job.victim, s.procs[p].job.frame)
    requires Claimed(s, s.procs[p].job.victim) ==> ContentOk(s, s.procs[p].job.victim)
    requires s.procs[p].job.slot.Some? ==> s.procs[p].job.slot.value < |s.slots|
    ensures var s', w := EvictApply(s, EvictFinish(p)), s.procs[p].job.victim;
            Claimed(s', w) ==> ContentOk(s', w)
  {
    var s', w := EvictApply(s, EvictFinish(p)), s.procs[p].job.victim;
    if Claimed(s', w) { assert Content(s', w) == Backing(s', s'.pages[w]); }
  }

  lemma EvictFinishInv(s: State, p: Pid)
    requires Inv(s) && EvictEnabled(s, EvictFinish(p))
    ensures Inv(EvictApply(s, EvictFinish(p)))
  {
    var s' := EvictApply(s, EvictFinish(p));
    var j := s.procs[p].job;
    var w, k := j.victim, j.frame;
    At(s, p, w, k);
    EvictFinishLocal(s, p);
    SlotsPassed(s, s', p, w);
    if j.slot.Some? { assert Holds(s, ByJob(p), j.slot.value); }
    if Claimed(s, w) { assert ContentOk(s, w); }
    EvictFinishContent(s, p);
    assert w in s'.retired ==> RegionOk(s, s.retired[w]);
    LocalInv(s, s', p, w, k, 0);
  }

  lemma UnmapBeginPoints(s: State, p: Pid, u: nat)
    requires UnmapEnabled(s, UnmapBegin(p, u)) && PointsOk(s, p, Va(p, u), KpageOr0(s, Va(p, u)))
    ensures PointsOk(UnmapApply(s, UnmapBegin(p, u)), p, Va(p, u), KpageOr0(s, Va(p, u)))
  {
  }

  lemma UnmapBeginLocal(s: State, p: Pid, u: nat)
    requires UnmapEnabled(s, UnmapBegin(p, u)) && PointsOk(s, p, Va(p, u), KpageOr0(s, Va(p, u)))
    ensures Local(s, UnmapApply(s, UnmapBegin(p, u)), p, Va(p, u), KpageOr0(s, Va(p, u)), 0)
  {
    UnmapBeginPoints(s, p, u);
  }

  lemma UnmapBeginQuiet(s: State, p: Pid, u: nat)
    requires UnmapEnabled(s, UnmapBegin(p, u)) && PointsOk(s, p, Va(p, u), KpageOr0(s, Va(p, u)))
    requires Claimed(s, Va(p, u)) ==> ContentOk(s, Va(p, u))
    ensures Quiet(s, UnmapApply(s, UnmapBegin(p, u)), p, Va(p, u))
  {
  }

  lemma UnmapBeginInv(s: State, p: Pid, u: nat)
    requires Inv(s) && UnmapEnabled(s, UnmapBegin(p, u))
    ensures Inv(UnmapApply(s, UnmapBegin(p, u)))
  {
    At(s, p, Va(p, u), KpageOr0(s, Va(p, u)));
    UnmapBeginLocal(s, p, u);
    if Claimed(s, Va(p, u)) { assert ContentOk(s, Va(p, u)); }
    UnmapBeginQuiet(s, p, u);
    QuietInv(s, UnmapApply(s, UnmapBegin(p, u)), p, Va(p, u), KpageOr0(s, Va(p, u)));
  }

  lemma MarkCleanLocal(s: State, p: Pid)
    requires Unmaps(s, p) && s.procs[p].job.copy.Some? && s.procs[p].job.copy.value in s.frames && s.procs[p].job.dirty && PointsOk(s, p, Va(p, s.procs[p].job.page), s.procs[p].job.copy.value)
    ensures Local(s, SetJob(s, p, Unmap(s.procs[p].job.page, s.procs[p].job.copy, false)), p, Va(p, s.procs[p].job.page), s.procs[p].job.copy.value, 0)
  {
  }

  lemma MarkClean(s: State, p: Pid)
    requires Inv(s) && Unmaps(s, p) && s.procs[p].job.copy.Some? && s.procs[p].job.copy.value in s.frames
    requires s.procs[p].job.dirty
    requires var j := s.procs[p].job;
             var e := s.pages[Va(p, j.page)];
             e.tainted || Agree(Kept(e), s.frames[j.copy.value].data, Backing(s, e))
    ensures Inv(SetJob(s, p, Unmap(s.procs[p].job.page, s.procs[p].job.copy, false)))
  {
    var j := s.procs[p].job;
    var va, k := Va(p, j.page), j.copy.value;
    var s' := SetJob(s, p, Unmap(j.page, j.copy, false));
    At(s, p, va, k);
    MarkCleanLocal(s, p);
    SlotsPassed(s, s', p, va);
    if Claimed(s', va) { assert ContentOk(s, va); }
    assert va in s'.retired ==> RegionOk(s, s.retired[va]);
    LocalInv(s, s', p, va, k, 0);
  }

  lemma UnmapWritebackInv(s: State, p: Pid, n: nat)
    requires Inv(s) && UnmapEnabled(s, UnmapWriteback(p, n))
    ensures Inv(UnmapApply(s, UnmapWriteback(p, n)))
  {
    var j := s.procs[p].job;
    var va, k := Va(p, j.page), j.copy.value;
    var e := s.pages[va];
    At(s, p, va, k);
    FileWriteInv(s, e.file, e.ofs, s.frames[k].data[..n], Some(va));
    WrittenBack(s, va, s.frames[k].data, n);
    MarkClean(FileWrite(s, e.file, e.ofs, s.frames[k].data[..n], Some(va)), p);
  }

  lemma UnmapFreePoints(s: State, p: Pid)
    requires UnmapEnabled(s, UnmapFree(p)) && PointsOk(s, p, Va(p, s.procs[p].job.page), s.procs[p].job.copy.value)
    ensures PointsOk(UnmapApply(s, UnmapFree(p)), p, Va(p, s.procs[p].job.page), s.procs[p].job.copy.value)
  {
  }

  lemma UnmapFreeLocal(s: State, p: Pid)
    requires UnmapEnabled(s, UnmapFree(p)) && PointsOk(s, p, Va(p, s.procs[p].job.page), s.procs[p].job.copy.value)
    ensures Local(s, UnmapApply(s, UnmapFree(p)), p, Va(p, s.procs[p].job.page), s.procs[p].job.copy.value, 0)
  {
    UnmapFreePoints(s, p);
  }

  lemma UnmapFreeQuiet(s: State, p: Pid)
    requires UnmapEnabled(s, UnmapFree(p)) && PointsOk(s, p, Va(p, s.procs[p].job.page), s.procs[p].job.copy.value)
    ensures Quiet(s, UnmapApply(s, UnmapFree(p)), p, Va(p, s.procs[p].job.page))
  {
  }

  lemma UnmapFreeInv(s: State, p: Pid)
    requires Inv(s) && UnmapEnabled(s, UnmapFree(p))
    ensures Inv(UnmapApply(s, UnmapFree(p)))
  {
    At(s, p, Va(p, s.procs[p].job.page), s.procs[p].job.copy.value);
    UnmapFreeLocal(s, p);
    UnmapFreeQuiet(s, p);
    QuietInv(s, UnmapApply(s, UnmapFree(p)), p, Va(p, s.procs[p].job.page), s.procs[p].job.copy.value);
  }

  lemma UnmapDeleteLocal(s: State, p: Pid)
    requires UnmapEnabled(s, UnmapDelete(p)) && PointsOk(s, p, Va(p, s.procs[p].job.page), 0)
    ensures Local(s, UnmapApply(s, UnmapDelete(p)), p, Va(p, s.procs[p].job.page), 0, 0)
  {
  }

  lemma UnmapDeleteInv(s: State, p: Pid)
    requires Inv(s) && UnmapEnabled(s, UnmapDelete(p))
    ensures Inv(UnmapApply(s, UnmapDelete(p)))
  {
    var s' := UnmapApply(s, UnmapDelete(p));
    var va := Va(p, s.procs[p].job.page);
    var e := s.pages[va];
    At(s, p, va, 0);
    UnmapDeleteLocal(s, p);
    SlotsPassed(s, s', p, va);
    if e.tainted {
      assert va in s'.retired ==> RegionOk(s, s.retired[va]);
    } else {
      assert Claimed(s, va) && ContentOk(s, va);
      assert Content(s, va) == Image(s.files[e.file], e.ofs, e.readBytes);
      assert Content(s, va)[..e.readBytes] == s.files[e.file][e.ofs..e.ofs + e.readBytes];
    }
    LocalInv(s, s', p, va, 0, 0);
  }

  lemma ExitLocal(s: State, p: Pid)
    requires ExitEnabled(s, Exit(p)) && PointsOk(s, p, Va(p, 0), 0)
    ensures Local(s, ExitApply(s, Exit(p)), p, Va(p, 0), 0, 0)
  {
  }

  lemma ExitQuiet(s: State, p: Pid)
    requires ExitEnabled(s, Exit(p)) && PointsOk(s, p, Va(p, 0), 0)
    ensures Quiet(s, ExitApply(s, Exit(p)), p, Va(p, 0))
  {
  }

  lemma ExitInv(s: State, p: Pid)
    requires Inv(s) && ExitEnabled(s, Exit(p))
    ensures Inv(ExitApply(s, Exit(p)))
  {
    At(s, p, Va(p, 0), 0);
    ExitLocal(s, p);
    ExitQuiet(s, p);
    QuietInv(s, ExitApply(s, Exit(p)), p, Va(p, 0), 0);
  }

  lemma ReleaseExecInv(s: State, p: Pid)
    requires Inv(s) && ExitEnabled(s, ReleaseExec(p))
    ensures Inv(ExitApply(s, ReleaseExec(p)))
  {
    IdleInv(s, ExitApply(s, ReleaseExec(p)), p);
  }

  lemma DestroyEntryPoints(s: State, p: Pid, u: nat)
    requires ExitEnabled(s, DestroyEntry(p, u)) && PointsOk(s, p, Va(p, u), KpageOr0(s, Va(p, u)))
    ensures PointsOk(ExitApply(s, DestroyEntry(p, u)), p, Va(p, u), KpageOr0(s, Va(p, u)))
  {
  }

  lemma DestroyEntryLocal(s: State, p: Pid, u: nat)
    requires ExitEnabled(s, DestroyEntry(p, u)) && PointsOk(s, p, Va(p, u), KpageOr0(s, Va(p, u)))
    ensures Local(s, ExitApply(s, DestroyEntry(p, u)), p, Va(p, u), KpageOr0(s, Va(p, u)), 0)
  {
    DestroyEntryPoints(s, p, u);
  }

  lemma DestroyEntryInv(s: State, p: Pid, u: nat)
    requires Inv(s) && ExitEnabled(s, DestroyEntry(p, u))
    ensures Inv(ExitApply(s, DestroyEntry(p, u)))
  {
    var s' := ExitApply(s, DestroyEntry(p, u));
    var va := Va(p, u);
    var k := KpageOr0(s, va);
    At(s, p, va, k);
    DestroyEntryLocal(s, p, u);
    SlotsPassed(s, s', p, va);
    assert va in s'.retired ==> RegionOk(s, s.retired[va]);
    LocalInv(s, s', p, va, k, 0);
  }

  lemma ReturnFrameLocal(s: State, p: Pid)
    requires ExitEnabled(s, ReturnFrame(p)) && PointsOk(s, p, Va(p, s.procs[p].job.page), s.procs[p].job.frame)
    ensures Local(s, ExitApply(s, ReturnFrame(p)), p, Va(p, s.procs[p].job.page), s.procs[p].job.frame, 0)
  {
  }

  lemma ReturnFrameQuiet(s: State, p: Pid)
    requires ExitEnabled(s, ReturnFrame(p)) && PointsOk(s, p, Va(p, s.procs[p].job.page), s.procs[p].job.frame)
    ensures Quiet(s, ExitApply(s, ReturnFrame(p)), p, Va(p, s.procs[p].job.page))
  {
  }

  lemma ReturnFrameInv(s: State, p: Pid)
    requires Inv(s) && ExitEnabled(s, ReturnFrame(p))
    ensures Inv(ExitApply(s, ReturnFrame(p)))
  {
    At(s, p, Va(p, s.procs[p].job.page), s.procs[p].job.frame);
    ReturnFrameLocal(s, p);
    ReturnFrameQuiet(s, p);
    QuietInv(s, ExitApply(s, ReturnFrame(p)), p, Va(p, s.procs[p].job.page), s.procs[p].job.frame);
  }

  lemma ReturnSlotLocal(s: State, p: Pid)
    requires ExitEnabled(s, ReturnSlot(p)) && PointsOk(s, p, Va(p, 0), 0)
    ensures Local(s, ExitApply(s, ReturnSlot(p)), p, Va(p, 0), 0, s.procs[p].job.gone)
  {
  }

  lemma ReturnSlotInv(s: State, p: Pid)
    requires Inv(s) && ExitEnabled(s, ReturnSlot(p))
    ensures Inv(ExitApply(s, ReturnSlot(p)))
  {
    var s' := ExitApply(s, ReturnSlot(p));
    var va := Va(p, 0);
    At(s, p, va, 0);
    ReturnSlotLocal(s, p);
    HereUsed(s, p, va);
    assert JobSlot(s, p) == Some(s.procs[p].job.gone) && JobSlot(s', p) == None && PageSlot(s', va) == PageSlot(s, va);
    forall i: Slot ensures SlotUsed(s', i) <==> SlotUsed(s, i) && i != s.procs[p].job.gone {}
    assert va in s'.retired ==> RegionOk(s, s.retired[va]);
    LocalInv(s, s', p, va, 0, s.procs[p].job.gone);
  }

  lemma ReapInv(s: State, p: Pid)
    requires Inv(s) && ExitEnabled(s, Reap(p))
    ensures Inv(ExitApply(s, Reap(p)))
  {
    IdleInv(s, ExitApply(s, Reap(p)), p);
  }

  /** A step that leaves every holder and every slot alone. */
  lemma SameSlots(s: State, s': State)
    requires Slots(s) && s'.slots == s.slots
    requires forall va :: PageSlot(s', va) == PageSlot(s, va)
    requires forall p :: JobSlot(s', p) == JobSlot(s, p)
    ensures Slots(s')
  {
    forall h, i: Slot ensures Holds(s', h, i) <==> Holds(s, h, i) {}
    forall i: Slot | SlotUsed(s', i) ensures exists h :: Holds(s', h, i) {
      assert SlotUsed(s, i);
      var h :| Holds(s, h, i);
      assert Holds(s', h, i);
    }
  }
}
