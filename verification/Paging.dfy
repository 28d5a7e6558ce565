/** Demand paging as a step machine.

    One action is one critical section of the kernel.  `frame_lock` is modelled
    by `lock` (its holder while an eviction is in progress); a page's own lock is
    modelled by the `Loading` and `Evicting` states, which block every other user
    of the entry.

    `flat`, `tainted`, `stale` and `retired` are history variables: no guard
    reads them and no kernel field is computed from them.  They record what the
    user programs did, so that the theorems can compare that with what the
    paging layer hands back. */
module Paging {
  import opened Machine
  import opened Options

  type Bytes = seq<Byte>
  type Page = p: Bytes | |p| == PGSIZE witness seq(PGSIZE, _ => 0)

  type Pid = nat
  type FileId = nat
  type Frame = nat
  type Slot = nat

  /** A user page of one process: `page` is the page number of its address. */
  datatype Va = Va(pid: Pid, page: nat)

  datatype PageType = File | Zero | Swap | Mmap
  datatype PageState = NotLoaded | Loaded | Loading | Evicting

  /** A hardware page table entry: frame number and P, W, A and D bits. */
  datatype Pte = Pte(present: bool, frame: Frame, writable: bool, accessed: bool, dirty: bool)

  /** A supplemental page table entry, the PTE of the same page, and the page's history. */
  datatype Entry = Entry(
    writable: bool, ty: PageType, st: PageState, file: FileId, ofs: nat, readBytes: nat,
    slot: Option<Slot>, kpage: Option<Frame>, md: int,
    pte: Pte,
    flat: Page,        // what the user program stored there
    tainted: bool,     // the code does not promise to keep this page
    stale: bool)       // modified file page whose dirty bit a rollback dropped

  /** A frame of the user pool; `listed` if it has an entry in the frame table. */
  datatype FrameRec = FrameRec(listed: bool, owner: Option<Va>, pinned: bool, data: Page)

  datatype SlotRec = SlotRec(used: bool, data: Page)

  /** What the kernel is doing on behalf of a process.  User code runs only in `User`. */
  datatype Job =
    | User
    | Want(page: nat)                                 // entry is Loading, no frame yet
    | Evict(page: nat, frame: Frame, victim: Va, dirty: bool, mustSwap: bool, wrote: bool, slot: Option<Slot>)
    | Failing(page: nat)                              // eviction failed
    | Raw(page: nat, frame: Frame)                    // evicted frame, not yet relabelled
    | HaveFrame(page: nat, frame: Frame)
    | SwapRead(page: nat, frame: Frame)               // swap_in done, entry still names the slot
    | Filled(page: nat, frame: Frame)
    | Installed(page: nat, frame: Frame)
    | Resident(page: nat, frame: Frame)               // entry is Loaded, frame still pinned
    | Unmap(page: nat, copy: Option<Frame>, dirty: bool)
    | FreeFrame(page: nat, frame: Frame)
    | FreeSlot(gone: Slot)

  /** `Exiting` runs until the mappings are gone; `Released` once the executable is closed. */
  datatype Mode = Live | Exiting | Released

  datatype Proc = Proc(mode: Mode, exec: FileId, job: Job)

  /** The part of a file an unmapped page was written back to, and the page's last contents. */
  datatype Region = Region(file: FileId, ofs: nat, len: nat, flat: Page)

  datatype State = State(
    procs: map<Pid, Proc>,
    lock: Option<Pid>,
    pages: map<Va, Entry>,
    frames: map<Frame, FrameRec>,
    slots: seq<SlotRec>,
    files: map<FileId, Bytes>,
    retired: map<Va, Region>)    // unmapped pages whose region nobody has written since

  // ------------------------------------------------------------------ bytes

  /** What a page holds when its first `len` bytes come from `file` at `ofs` and the rest is zero. */
  function Image(file: Bytes, ofs: nat, len: nat): (p: Page) {
    if len <= PGSIZE && ofs + len <= |file| then file[ofs..ofs + len] + Zeros(PGSIZE - len) else Zeros(PGSIZE)
  }

  /** `inode_write_at`: a file never grows, so a write stops at end of file. */
  function WriteAt(file: Bytes, ofs: nat, bytes: Bytes): (r: Bytes)
    ensures |r| == |file|
  {
    if ofs + |bytes| <= |file| then file[..ofs] + bytes + file[ofs + |bytes|..]
    else if ofs <= |file| then file[..ofs] + bytes[..|file| - ofs]
    else file
  }

  predicate Overlap(aOfs: nat, aLen: nat, bOfs: nat, bLen: nat) {
    aOfs < bOfs + bLen && bOfs < aOfs + aLen
  }

  // ------------------------------------------------------------------ observations

  /** An executable is write-denied for as long as a process running it has it open. */
  predicate Denied(s: State, f: FileId) {
    exists p :: p in s.procs && s.procs[p].mode != Released && s.procs[p].exec == f
  }

  /** Where an entry says its bytes are when no frame holds them. */
  function Backing(s: State, e: Entry): Page {
    match e.ty
    case Zero => Zeros(PGSIZE)
    case Swap => if e.slot.Some? && e.slot.value < |s.slots| then s.slots[e.slot.value].data else Zeros(PGSIZE)
    case _ => if e.file in s.files then Image(s.files[e.file], e.ofs, e.readBytes) else Zeros(PGSIZE)
  }

  // ------------------------------------------------------------------ file writes

  /** `file_write_at` by `writer` (a page being written back) or by a system call.  Nobody looks at how
      much was written, so a page whose own writeback was denied or fell short is lost. */
  function FileWrite(s: State, f: FileId, ofs: nat, bytes: Bytes, writer: Option<Va>): State
    requires f in s.files
  {
    if Denied(s, f) then
      if writer.Some? && writer.value in s.pages then
        s.(pages := s.pages[writer.value := s.pages[writer.value].(tainted := true)])
      else s
    else
      s.(files := s.files[f := WriteAt(s.files[f], ofs, bytes)],
         pages := map va | va in s.pages ::
           if Spoils(s.pages[va], va, f, ofs, |bytes|, writer) then s.pages[va].(tainted := true) else s.pages[va],
         retired := map va | va in s.retired && !RegionTouched(s.retired[va], f, ofs, |bytes|) :: s.retired[va])
  }

  /** The write leaves other bytes in the file than page `va` wants there. */
  predicate Spoils(e: Entry, va: Va, f: FileId, ofs: nat, n: nat, writer: Option<Va>) {
    if writer == Some(va) then n < e.readBytes else Touches(e, f, ofs, n)
  }

  predicate Touches(e: Entry, f: FileId, ofs: nat, n: nat) {
    e.ty == Mmap && e.file == f && Overlap(e.ofs, e.readBytes, ofs, n)
  }

  predicate RegionTouched(r: Region, f: FileId, ofs: nat, n: nat) {
    r.file == f && Overlap(r.ofs, r.len, ofs, n)
  }

  // ------------------------------------------------------------------ actions

  /** Process creation, new pages, user loads and stores, buffer pinning and file writes. */
  datatype UserAction =
    | Spawn(p: Pid, f: FileId)
    | AddFilePage(p: Pid, u: nat, ofs: nat, len: nat, w: bool)
    | AddZeroPage(p: Pid, u: nat, w: bool)
    | AddMmapPage(p: Pid, u: nat, f: FileId, ofs: nat, len: nat, id: int)
    | Load(va: Va, i: nat)
    | Store(va: Va, i: nat, b: Byte)
    | SetPinned(p: Pid, k: Frame, on: bool)
    | SysWrite(f: FileId, ofs: nat, bytes: Bytes)

  /** The steps of `vm_load_page` and `frame_allocate`. */
  datatype LoadAction =
    | Fault(p: Pid, u: nat)
    | AllocFree(p: Pid, k: Frame)
    | AllocFail(p: Pid)
    | TakeFrame(p: Pid)
    | FillFile(p: Pid)
    | FillZero(p: Pid)
    | FillSwap(p: Pid)
    | ForgetSlot(p: Pid)
    | FillFail(p: Pid)
    | Install(p: Pid)
    | InstallFail(p: Pid)
    | MarkLoaded(p: Pid)
    | Unpin(p: Pid)

  /** The steps of the clock scan and of `frame_evict_page`, run by a process that wants a frame.  `n` is
      how many bytes a writeback writes: it stops early when there is no memory for a bounce buffer. */
  datatype EvictAction =
    | ClearAccessed(va: Va)
    | EvictBegin(p: Pid, k: Frame)
    | EvictWriteback(p: Pid, n: nat)
    | EvictSwapOut(p: Pid, t: Slot)
    | EvictRollback(p: Pid)
    | EvictFinish(p: Pid)

  /** The steps of `mmap_remove_page`. */
  datatype UnmapAction =
    | UnmapBegin(p: Pid, u: nat)
    | UnmapWriteback(p: Pid, n: nat)
    | UnmapFree(p: Pid)
    | UnmapDelete(p: Pid)

  /** The steps of `process_exit` and `spt_destroy_entry`. */
  datatype ExitAction =
    | Exit(p: Pid)
    | ReleaseExec(p: Pid)
    | DestroyEntry(p: Pid, u: nat)
    | ReturnFrame(p: Pid)
    | ReturnSlot(p: Pid)
    | Reap(p: Pid)

  datatype Action =
    | AsUser(user: UserAction)
    | AsLoad(load: LoadAction)
    | AsEvict(evict: EvictAction)
    | AsUnmap(unmap: UnmapAction)
    | AsExit(exit: ExitAction)

  function JobPage(j: Job): Option<nat> {
    match j
    case Want(u) => Some(u)
    case Evict(u, _, _, _, _, _, _) => Some(u)
    case Failing(u) => Some(u)
    case Raw(u, _) => Some(u)
    case HaveFrame(u, _) => Some(u)
    case SwapRead(u, _) => Some(u)
    case Filled(u, _) => Some(u)
    case Installed(u, _) => Some(u)
    case _ => None
  }

  /** `p` is in user mode (or copying for it) and has not been killed. */
  predicate Running(s: State, p: Pid) {
    p in s.procs && s.procs[p].mode == Live && s.procs[p].job == User
  }

  /** `p` is loading one of its pages. */
  predicate Loads(s: State, p: Pid) {
    && p in s.procs && JobPage(s.procs[p].job).Some?
    && Va(p, JobPage(s.procs[p].job).value) in s.pages
  }

  function LoadVa(s: State, p: Pid): (va: Va)
    requires Loads(s, p)
  {
    Va(p, JobPage(s.procs[p].job).value)
  }

  /** A loading job that has labelled its frame. */
  predicate LoadsInto(s: State, p: Pid) {
    && Loads(s, p)
    && var j := s.procs[p].job;
    && (j.HaveFrame? || j.SwapRead? || j.Filled? || j.Installed?) && j.frame in s.frames
  }

  predicate Evicts(s: State, p: Pid) {
    && p in s.procs && s.procs[p].job.Evict?
    && s.procs[p].job.victim in s.pages && s.procs[p].job.frame in s.frames
  }

  function MustSwap(e: Entry, dirty: bool): bool {
    e.ty == Swap || e.ty == Zero || (dirty && e.ty != Mmap)
  }

  /** frame_evict_page's own checks on the frame the clock selected. */
  predicate Evictable(s: State, k: Frame) {
    && k in s.frames && s.frames[k].listed && !s.frames[k].pinned && s.frames[k].owner.Some?
    && var w := s.frames[k].owner.value;
    && w.pid in s.procs && w in s.pages && s.pages[w].st == Loaded && s.pages[w].kpage == Some(k)
  }

  function SetJob(s: State, p: Pid, j: Job): (r: State)
    requires p in s.procs
  {
    s.(procs := s.procs[p := s.procs[p].(job := j)])
  }

  function SetPage(s: State, va: Va, e: Entry): State {
    s.(pages := s.pages[va := e])
  }

  function SetFrame(s: State, k: Frame, f: FrameRec): State {
    s.(frames := s.frames[k := f])
  }

  // ------------------------------------------------------------------ user actions

  predicate UserEnabled(s: State, a: UserAction) {
    match a
    case Spawn(p, f) => p !in s.procs && f in s.files
    case AddFilePage(p, u, ofs, len, w) => Running(s, p) && Va(p, u) !in s.pages && 0 < len <= PGSIZE
    case AddZeroPage(p, u, w) => Running(s, p) && Va(p, u) !in s.pages
    case AddMmapPage(p, u, f, ofs, len, id) =>
      Running(s, p) && Va(p, u) !in s.pages && f in s.files && 0 < len <= PGSIZE && ofs + len <= |s.files[f]|
    case Load(va, i) =>
      Running(s, va.pid) && va in s.pages && s.pages[va].pte.present && s.pages[va].pte.frame in s.frames && i < PGSIZE
    case Store(va, i, b) =>
      && Running(s, va.pid) && va in s.pages && s.pages[va].pte.present && s.pages[va].pte.frame in s.frames
      && s.pages[va].pte.writable && i < PGSIZE
    case SetPinned(p, k, on) =>
      && Running(s, p) && s.lock == None && k in s.frames && s.frames[k].listed
      && s.frames[k].owner.Some? && s.frames[k].owner.value.pid == p
    case SysWrite(f, ofs, bytes) => f in s.files
  }

  const NO_PTE := Pte(false, 0, false, false, false)

  /** A new entry; the page's initial image becomes its flat memory. */
  function NewPage(s: State, va: Va, w: bool, ty: PageType, file: FileId, ofs: nat, len: nat, id: int): State {
    var e := Entry(w, ty, NotLoaded, file, ofs, len, None, None, id, NO_PTE, Zeros(PGSIZE), false, false);
    SetPage(s.(retired := s.retired - {va}), va, e.(flat := Backing(s, e)))
  }

  function UserApply(s: State, a: UserAction): State
    requires UserEnabled(s, a)
  {
    match a
    case Spawn(p, f) => s.(procs := s.procs[p := Proc(Live, f, User)])
    case AddFilePage(p, u, ofs, len, w) => NewPage(s, Va(p, u), w, File, s.procs[p].exec, ofs, len, -1)
    case AddZeroPage(p, u, w) => NewPage(s, Va(p, u), w, Zero, 0, 0, 0, -1)
    case AddMmapPage(p, u, f, ofs, len, id) => NewPage(s, Va(p, u), true, Mmap, f, ofs, len, id)
    case Load(va, i) =>
      SetPage(s, va, s.pages[va].(pte := s.pages[va].pte.(accessed := true)))
    case Store(va, i, b) =>
      var e := s.pages[va];
      var f := s.frames[e.pte.frame];
      SetFrame(SetPage(s, va, e.(pte := e.pte.(accessed := true, dirty := true), flat := e.flat[i := b], stale := false)),
               e.pte.frame, f.(data := f.data[i := b]))
    case SetPinned(p, k, on) => SetFrame(s, k, s.frames[k].(pinned := on))
    case SysWrite(f, ofs, bytes) => FileWrite(s, f, ofs, bytes, None)
  }

  // ------------------------------------------------------------------ loading

  predicate LoadEnabled(s: State, a: LoadAction) {
    match a
    case Fault(p, u) => Running(s, p) && Va(p, u) in s.pages && s.pages[Va(p, u)].st == NotLoaded
    case AllocFree(p, k) =>
      Loads(s, p) && s.procs[p].job.Want? && s.lock == None && k in s.frames && !s.frames[k].listed
    case AllocFail(p) => Loads(s, p) && (s.procs[p].job.Want? || s.procs[p].job.Failing?)
    case TakeFrame(p) => Loads(s, p) && s.procs[p].job.Raw? && s.procs[p].job.frame in s.frames
    case FillFile(p) =>
      && LoadsInto(s, p) && s.procs[p].job.HaveFrame?
      && var e := s.pages[LoadVa(s, p)];
      && (e.ty == File || e.ty == Mmap) && e.file in s.files && e.ofs + e.readBytes <= |s.files[e.file]|
    case FillZero(p) => LoadsInto(s, p) && s.procs[p].job.HaveFrame? && s.pages[LoadVa(s, p)].ty == Zero
    case FillSwap(p) =>
      && LoadsInto(s, p) && s.procs[p].job.HaveFrame? && SwapReadable(s, s.pages[LoadVa(s, p)])
    case ForgetSlot(p) => LoadsInto(s, p) && s.procs[p].job.SwapRead?
    case FillFail(p) =>
      && LoadsInto(s, p) && s.procs[p].job.HaveFrame?
      && var e := s.pages[LoadVa(s, p)];
      e.ty == File || e.ty == Mmap || (e.ty == Swap && !SwapReadable(s, e))
    case Install(p) => LoadsInto(s, p) && s.procs[p].job.Filled? && !s.pages[LoadVa(s, p)].pte.present
    case InstallFail(p) => LoadsInto(s, p) && s.procs[p].job.Filled?
    case MarkLoaded(p) => LoadsInto(s, p) && s.procs[p].job.Installed?
    case Unpin(p) =>
      p in s.procs && s.procs[p].job.Resident? && s.procs[p].job.frame in s.frames && s.lock == None
  }

  /** `swap_in` succeeds on the slot the entry names. */
  predicate SwapReadable(s: State, e: Entry) {
    e.ty == Swap && e.slot.Some? && e.slot.value < |s.slots| && s.slots[e.slot.value].used
  }

  /** The entry goes back to NotLoaded and the faulting process is killed. */
  function LoadFails(s: State, p: Pid, j: Job): State
    requires Loads(s, p)
  {
    var va := LoadVa(s, p);
    SetPage(s.(procs := s.procs[p := s.procs[p].(mode := Exiting, job := j)]), va, s.pages[va].(st := NotLoaded))
  }

  function LoadApply(s: State, a: LoadAction): State
    requires LoadEnabled(s, a)
  {
    match a
    case Fault(p, u) => SetJob(SetPage(s, Va(p, u), s.pages[Va(p, u)].(st := Loading)), p, Want(u))
    case AllocFree(p, k) =>
      SetJob(SetFrame(s, k, FrameRec(true, Some(LoadVa(s, p)), true, s.frames[k].data)), p,
             HaveFrame(s.procs[p].job.page, k))
    case AllocFail(p) => LoadFails(s, p, User)
    case TakeFrame(p) =>
      var k := s.procs[p].job.frame;
      SetJob(SetFrame(s, k, s.frames[k].(owner := Some(LoadVa(s, p)), pinned := true)), p,
             HaveFrame(s.procs[p].job.page, k))
    case FillFile(p) => Fill(s, p, Backing(s, s.pages[LoadVa(s, p)]))
    case FillZero(p) => Fill(s, p, Zeros(PGSIZE))
    case FillSwap(p) =>
      var j := s.procs[p].job;
      var t := s.pages[LoadVa(s, p)].slot.value;
      SetJob(SetFrame(s.(slots := s.slots[t := s.slots[t].(used := false)]),
                      j.frame, s.frames[j.frame].(data := s.slots[t].data)),
             p, SwapRead(j.page, j.frame))
    case ForgetSlot(p) =>
      var va := LoadVa(s, p);
      SetJob(SetPage(s, va, s.pages[va].(slot := None)), p, Filled(va.page, s.procs[p].job.frame))
    case FillFail(p) => LoadFails(s, p, FreeFrame(s.procs[p].job.page, s.procs[p].job.frame))
    case Install(p) =>
      var va := LoadVa(s, p);
      var k := s.procs[p].job.frame;
      SetJob(SetPage(s, va, s.pages[va].(pte := Pte(true, k, s.pages[va].writable, false, false))), p,
             Installed(va.page, k))
    case InstallFail(p) => LoadFails(s, p, FreeFrame(s.procs[p].job.page, s.procs[p].job.frame))
    case MarkLoaded(p) =>
      var va := LoadVa(s, p);
      var k := s.procs[p].job.frame;
      SetJob(SetPage(s, va, s.pages[va].(st := Loaded, kpage := Some(k))), p, Resident(va.page, k))
    case Unpin(p) =>
      var k := s.procs[p].job.frame;
      SetJob(SetFrame(s, k, s.frames[k].(pinned := false)), p, User)
  }

  function Fill(s: State, p: Pid, bytes: Page): State
    requires LoadsInto(s, p)
  {
    var j := s.procs[p].job;
    SetJob(SetFrame(s, j.frame, s.frames[j.frame].(data := bytes)), p, Filled(j.page, j.frame))
  }

  // ------------------------------------------------------------------ eviction

  predicate EvictEnabled(s: State, a: EvictAction) {
    match a
    case ClearAccessed(va) => s.lock == None && va in s.pages
    case EvictBegin(p, k) => Loads(s, p) && s.procs[p].job.Want? && s.lock == None && Evictable(s, k)
    case EvictWriteback(p, n) =>
      && Evicts(s, p) && s.procs[p].job.dirty && !s.procs[p].job.wrote
      && var e := s.pages[s.procs[p].job.victim];
      && e.ty == Mmap && e.file in s.files && n <= e.readBytes <= PGSIZE
    case EvictSwapOut(p, t) =>
      && Evicts(s, p) && s.procs[p].job.mustSwap && s.procs[p].job.slot == None
      && t < |s.slots| && !s.slots[t].used
    case EvictRollback(p) =>
      && Evicts(s, p) && s.procs[p].job.mustSwap && s.procs[p].job.slot == None
      && (forall t :: 0 <= t < |s.slots| ==> s.slots[t].used)
    case EvictFinish(p) =>
      && Evicts(s, p)
      && var j := s.procs[p].job;
      && (j.mustSwap ==> j.slot.Some?)
      && (j.dirty && s.pages[j.victim].ty == Mmap ==> j.wrote)
  }

  function EvictApply(s: State, a: EvictAction): State
    requires EvictEnabled(s, a)
  {
    match a
    case ClearAccessed(va) => SetPage(s, va, s.pages[va].(pte := s.pages[va].pte.(accessed := false)))
    case EvictBegin(p, k) =>
      var w := s.frames[k].owner.value;
      var e := s.pages[w];
      var j := Evict(s.procs[p].job.page, k, w, e.pte.dirty, MustSwap(e, e.pte.dirty), false, None);
      SetJob(SetFrame(SetPage(s.(lock := Some(p)), w,
                              e.(st := Evicting, pte := e.pte.(present := false),
                                 tainted := e.tainted || e.stale, stale := false)),
                      k, s.frames[k].(pinned := true)), p, j)
    case EvictWriteback(p, n) =>
      var j := s.procs[p].job;
      var e := s.pages[j.victim];
      SetJob(FileWrite(s, e.file, e.ofs, s.frames[j.frame].data[..n], Some(j.victim)), p, j.(wrote := true))
    case EvictSwapOut(p, t) =>
      var j := s.procs[p].job;
      SetJob(s.(slots := s.slots[t := SlotRec(true, s.frames[j.frame].data)]), p, j.(slot := Some(t)))
    case EvictRollback(p) =>
      var j := s.procs[p].job;
      var e := s.pages[j.victim];
      SetJob(SetFrame(SetPage(s.(lock := None), j.victim,
                              e.(st := Loaded, pte := Pte(true, j.frame, e.writable, false, false), stale := e.ty == File)),
                      j.frame, s.frames[j.frame].(pinned := false)), p, Failing(j.page))
    case EvictFinish(p) =>
      var j := s.procs[p].job;
      var e := s.pages[j.victim];
      SetJob(SetFrame(SetPage(s.(lock := None), j.victim,
                              e.(st := NotLoaded, kpage := None, slot := j.slot, ty := if j.mustSwap then Swap else e.ty)),
                      j.frame, s.frames[j.frame].(owner := None)), p, Raw(j.page, j.frame))
  }

  // ------------------------------------------------------------------ unmapping

  predicate Unmaps(s: State, p: Pid) {
    p in s.procs && s.procs[p].job.Unmap? && Va(p, s.procs[p].job.page) in s.pages
  }

  predicate UnmapEnabled(s: State, a: UnmapAction) {
    match a
    case UnmapBegin(p, u) =>
      && p in s.procs && s.procs[p].mode != Released && s.procs[p].job == User
      && Va(p, u) in s.pages && s.pages[Va(p, u)].ty == Mmap
      && (s.pages[Va(p, u)].st == NotLoaded || s.pages[Va(p, u)].st == Loaded)
    case UnmapWriteback(p, n) =>
      && Unmaps(s, p) && s.procs[p].job.dirty && s.procs[p].job.copy.Some? && s.procs[p].job.copy.value in s.frames
      && var e := s.pages[Va(p, s.procs[p].job.page)];
      && e.file in s.files && n <= e.readBytes <= PGSIZE
    case UnmapFree(p) =>
      && Unmaps(s, p) && !s.procs[p].job.dirty && s.procs[p].job.copy.Some?
      && s.procs[p].job.copy.value in s.frames && s.lock == None
    case UnmapDelete(p) => Unmaps(s, p) && !s.procs[p].job.dirty && s.procs[p].job.copy == None
  }

  /** `frame_free`: unlinked from the frame table and back in the user pool. */
  function PoolFrame(f: FrameRec): FrameRec {
    FrameRec(false, None, false, f.data)
  }

  function UnmapApply(s: State, a: UnmapAction): State
    requires UnmapEnabled(s, a)
  {
    match a
    case UnmapBegin(p, u) =>
      var e := s.pages[Va(p, u)];
      if e.st == Loaded && e.kpage.Some? then
        SetJob(SetPage(s, Va(p, u), e.(pte := e.pte.(present := false), st := NotLoaded, kpage := None)), p,
               Unmap(u, e.kpage, e.pte.dirty))
      else SetJob(s, p, Unmap(u, None, false))
    case UnmapWriteback(p, n) =>
      var j := s.procs[p].job;
      var e := s.pages[Va(p, j.page)];
      SetJob(FileWrite(s, e.file, e.ofs, s.frames[j.copy.value].data[..n], Some(Va(p, j.page))), p,
             Unmap(j.page, j.copy, false))
    case UnmapFree(p) =>
      var j := s.procs[p].job;
      SetJob(SetFrame(s, j.copy.value, PoolFrame(s.frames[j.copy.value])), p, j.(copy := None))
    case UnmapDelete(p) =>
      var va := Va(p, s.procs[p].job.page);
      var e := s.pages[va];
      SetJob(s.(pages := s.pages - {va},
                retired := if e.tainted then s.retired
                           else s.retired[va := Region(e.file, e.ofs, e.readBytes, e.flat)]), p, User)
  }

  // ------------------------------------------------------------------ exit

  predicate ExitEnabled(s: State, a: ExitAction) {
    match a
    case Exit(p) => Running(s, p)
    case ReleaseExec(p) =>
      && p in s.procs && s.procs[p].mode == Exiting && s.procs[p].job == User
      && (forall va :: va in s.pages && va.pid == p ==> s.pages[va].ty != Mmap)
    case DestroyEntry(p, u) =>
      && p in s.procs && s.procs[p].mode == Released && s.procs[p].job == User
      && Va(p, u) in s.pages && (s.pages[Va(p, u)].st == NotLoaded || s.pages[Va(p, u)].st == Loaded)
    case ReturnFrame(p) =>
      p in s.procs && s.procs[p].job.FreeFrame? && s.procs[p].job.frame in s.frames && s.lock == None
    case ReturnSlot(p) => p in s.procs && s.procs[p].job.FreeSlot? && s.procs[p].job.gone < |s.slots|
    case Reap(p) =>
      && p in s.procs && s.procs[p].mode == Released && s.procs[p].job == User
      && (forall va :: va in s.pages ==> va.pid != p)
  }

  function ExitApply(s: State, a: ExitAction): State
    requires ExitEnabled(s, a)
  {
    match a
    case Exit(p) => s.(procs := s.procs[p := s.procs[p].(mode := Exiting)])
    case ReleaseExec(p) => s.(procs := s.procs[p := s.procs[p].(mode := Released)])
    case DestroyEntry(p, u) =>
      var e := s.pages[Va(p, u)];
      var s' := s.(pages := s.pages - {Va(p, u)});
      if e.st == Loaded && e.kpage.Some? then SetJob(s', p, FreeFrame(u, e.kpage.value))
      else if e.ty == Swap && e.slot.Some? then SetJob(s', p, FreeSlot(e.slot.value))
      else s'
    case ReturnFrame(p) =>
      var k := s.procs[p].job.frame;
      SetJob(SetFrame(s, k, PoolFrame(s.frames[k])), p, User)
    case ReturnSlot(p) =>
      var t := s.procs[p].job.gone;
      SetJob(s.(slots := s.slots[t := s.slots[t].(used := false)]), p, User)
    case Reap(p) => s.(procs := s.procs - {p})
  }

  // ------------------------------------------------------------------ runs

  predicate Enabled(s: State, a: Action) {
    match a
    case AsUser(b) => UserEnabled(s, b)
    case AsLoad(b) => LoadEnabled(s, b)
    case AsEvict(b) => EvictEnabled(s, b)
    case AsUnmap(b) => UnmapEnabled(s, b)
    case AsExit(b) => ExitEnabled(s, b)
  }

  function Apply(s: State, a: Action): State
    requires Enabled(s, a)
  {
    match a
    case AsUser(b) => UserApply(s, b)
    case AsLoad(b) => LoadApply(s, b)
    case AsEvict(b) => EvictApply(s, b)
    case AsUnmap(b) => UnmapApply(s, b)
    case AsExit(b) => ExitApply(s, b)
  }

  /** Boot: no processes, every user frame free, no swap slot taken. */
  predicate Init(s: State) {
    && s.procs == map[] && s.lock == None && s.pages == map[] && s.retired == map[]
    && (forall k :: k in s.frames ==> s.frames[k] == PoolFrame(s.frames[k]))
    && (forall t :: 0 <= t < |s.slots| ==> !s.slots[t].used)
  }

  /** `run` can be executed from `s`, one enabled action after another. */
  ghost predicate Executes(s: State, run: seq<Action>)
    decreases |run|
  {
    run == [] || (Enabled(s, run[0]) && Executes(Apply(s, run[0]), run[1..]))
  }

  ghost function After(s: State, run: seq<Action>): State
    requires Executes(s, run)
    decreases |run|
  {
    if run == [] then s else After(Apply(s, run[0]), run[1..])
  }
}
