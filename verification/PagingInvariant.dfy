/** The invariant of the paging machine, point by point: one predicate for a
    page, one for a frame, one for a process, one for a swap slot. */
module PagingInvariant {
  import opened Machine
  import opened Options
  import opened Paging

  /** The frame a job has labelled with its own page. */
  function OwnFrame(j: Job): Option<(nat, Frame)> {
    match j
    case HaveFrame(u, k) => Some((u, k))
    case SwapRead(u, k) => Some((u, k))
    case Filled(u, k) => Some((u, k))
    case Installed(u, k) => Some((u, k))
    case Resident(u, k) => Some((u, k))
    case Unmap(u, Some(k), _) => Some((u, k))
    case FreeFrame(u, k) => Some((u, k))
    case _ => None
  }

  ghost predicate FrameIs(s: State, k: Frame, owner: Option<Va>) {
    k in s.frames && s.frames[k].listed && s.frames[k].owner == owner
  }

  /** A page: its fields fit its state, its frame is labelled with it, its PTE points to that
      frame exactly while it is loaded, and `Loading`/`Evicting` name the job at work on it. */
  ghost predicate PageOk(s: State, va: Va)
    requires va in s.pages
  {
    var e := s.pages[va];
    && va.pid in s.procs
    && var o := s.procs[va.pid];
    && e.readBytes <= PGSIZE
    && (e.ty == File ==> e.file == o.exec)
    && (e.ty == Mmap ==> e.file in s.files && e.ofs + e.readBytes <= |s.files[e.file]| && o.mode != Released)
    && (e.slot.Some? ==> e.ty == Swap && (e.st == NotLoaded || e.st == Loading))
    && (e.ty == Swap && e.st == NotLoaded && o.mode == Live ==> e.slot.Some?)
    && (e.kpage.Some? <==> e.st == Loaded || e.st == Evicting)
    && (e.kpage.Some? ==> FrameIs(s, e.kpage.value, Some(va)))
    && (e.st == Loaded ==> e.pte.present && e.pte.frame == e.kpage.value)
    && (e.pte.present ==> e.pte.writable == e.writable && (e.st == Loaded || o.job == Installed(va.page, e.pte.frame)))
    && (e.st == Loading ==> JobPage(o.job) == Some(va.page))
    && (e.st == Evicting ==>
          && s.lock.Some? && s.lock.value in s.procs && s.procs[s.lock.value].job.Evict?
          && s.procs[s.lock.value].job.victim == va)
    && (e.stale ==> e.ty == File && e.st == Loaded && !e.pte.dirty)
  }

  /** A frame: if it is labelled, the page or the owner's job refers to it. */
  ghost predicate FrameOk(s: State, k: Frame)
    requires k in s.frames
  {
    var f := s.frames[k];
    && (!f.listed ==> f.owner == None)
    && (f.owner.Some? ==>
          var va := f.owner.value;
          && va.pid in s.procs
          && ((va in s.pages && s.pages[va].kpage == Some(k)) || OwnFrame(s.procs[va.pid].job) == Some((va.page, k))))
  }

  /** A process: what its job has got hold of so far. */
  ghost predicate ProcOk(s: State, p: Pid)
    requires p in s.procs
  {
    var j := s.procs[p].job;
    var mode := s.procs[p].mode;
    && (JobPage(j).Some? ==> mode == Live && Va(p, JobPage(j).value) in s.pages
                             && s.pages[Va(p, JobPage(j).value)].st == Loading)
    && (OwnFrame(j).Some? ==> FrameIs(s, OwnFrame(j).value.1, Some(Va(p, OwnFrame(j).value.0))))
    && match j
       case Evict(u, k, w, dirty, mustSwap, wrote, slot) =>
         && s.lock == Some(p) && w in s.pages && s.pages[w].st == Evicting && s.pages[w].kpage == Some(k)
         && FrameIs(s, k, Some(w)) && s.frames[k].pinned
         && mustSwap == MustSwap(s.pages[w], dirty)
         && (wrote ==> dirty && s.pages[w].ty == Mmap)
         && (slot.Some? ==> mustSwap) && Swappable(s.pages[Va(p, u)])
       case Want(u) => Swappable(s.pages[Va(p, u)])
       case Failing(u) => Swappable(s.pages[Va(p, u)])
       case Raw(u, k) => FrameIs(s, k, None) && s.frames[k].pinned && Swappable(s.pages[Va(p, u)])
       case HaveFrame(u, k) => s.frames[k].pinned && Swappable(s.pages[Va(p, u)])
       case SwapRead(u, k) => s.frames[k].pinned && s.pages[Va(p, u)].ty == Swap && s.pages[Va(p, u)].slot.Some?
       case Filled(u, k) => s.frames[k].pinned && s.pages[Va(p, u)].slot == None && !s.pages[Va(p, u)].pte.present
       case Installed(u, k) =>
         && s.frames[k].pinned && s.pages[Va(p, u)].slot == None
         && s.pages[Va(p, u)].pte.present && s.pages[Va(p, u)].pte.frame == k
       case Resident(u, k) =>
         && mode == Live && s.frames[k].pinned
         && Va(p, u) in s.pages && s.pages[Va(p, u)].st == Loaded && s.pages[Va(p, u)].kpage == Some(k)
       case Unmap(u, copy, dirty) =>
         && mode != Released && Va(p, u) in s.pages
         && s.pages[Va(p, u)].ty == Mmap && s.pages[Va(p, u)].st == NotLoaded
         && (dirty ==> copy.Some?)
       case FreeFrame(u, k) => mode != Live && (Va(p, u) in s.pages ==> s.pages[Va(p, u)].st == NotLoaded)
       case FreeSlot(t) => mode == Released
       case User => true
  }

  predicate Swappable(e: Entry) {
    e.ty == Swap ==> e.slot.Some?
  }

  ghost predicate RawUser(s: State, p: Pid, k: Frame) {
    p in s.procs && s.procs[p].job.Raw? && s.procs[p].job.frame == k
  }

  /** frame_lock has one holder, and an unlabelled listed frame exactly one user. */
  ghost predicate Exclusive(s: State) {
    && (s.lock.Some? ==> s.lock.value in s.procs && s.procs[s.lock.value].job.Evict?)
    && (forall p, q, k :: RawUser(s, p, k) && RawUser(s, q, k) ==> p == q)
    && (forall k :: k in s.frames && s.frames[k].listed && s.frames[k].owner == None ==> exists p :: RawUser(s, p, k))
  }

  ghost predicate Structure(s: State) {
    && (forall va {:trigger PageOk(s, va)} :: va in s.pages ==> PageOk(s, va))
    && (forall k {:trigger FrameOk(s, k)} :: k in s.frames ==> FrameOk(s, k))
    && (forall p {:trigger ProcOk(s, p)} :: p in s.procs ==> ProcOk(s, p))
    && Exclusive(s)
  }

  // ------------------------------------------------------------------ swap slots

  datatype Holder = ByPage(va: Va) | ByJob(pid: Pid)

  /** The slot an entry is responsible for.  Once its page has been read back it
      no longer is, even before it forgets the slot number. */
  function PageSlot(s: State, va: Va): Option<Slot> {
    if va !in s.pages then None
    else if va.pid in s.procs && s.procs[va.pid].job.SwapRead? && s.procs[va.pid].job.page == va.page then None
    else s.pages[va].slot
  }

  function JobSlot(s: State, p: Pid): Option<Slot> {
    if p !in s.procs then None
    else match s.procs[p].job
      case Evict(_, _, _, _, _, _, slot) => slot
      case FreeSlot(t) => Some(t)
      case _ => None
  }

  ghost predicate Holds(s: State, h: Holder, t: Slot) {
    match h
    case ByPage(va) => PageSlot(s, va) == Some(t)
    case ByJob(p) => JobSlot(s, p) == Some(t)
  }

  ghost predicate SlotUsed(s: State, t: Slot) {
    t < |s.slots| && s.slots[t].used
  }

  ghost predicate Slots(s: State) {
    && (forall h, t: Slot :: Holds(s, h, t) ==> SlotUsed(s, t))
    && (forall h, g, t: Slot :: Holds(s, h, t) && Holds(s, g, t) ==> h == g)
    && (forall t: Slot :: SlotUsed(s, t) ==> exists h :: Holds(s, h, t))
  }

  // ------------------------------------------------------------------ contents

  /** The frame that holds the authoritative copy of a page, if a frame does. */
  function CopyOf(s: State, va: Va): Option<Frame>
    requires va in s.pages && va.pid in s.procs
  {
    if s.pages[va].kpage.Some? then s.pages[va].kpage
    else
      match s.procs[va.pid].job
      case SwapRead(u, k) => if u == va.page then Some(k) else None
      case Filled(u, k) => if u == va.page then Some(k) else None
      case Installed(u, k) => if u == va.page then Some(k) else None
      case Unmap(u, Some(k), true) => if u == va.page then Some(k) else None
      case _ => None
  }

  /** The bytes of a page, wherever they are at this moment. */
  function Content(s: State, va: Va): Page
    requires va in s.pages && va.pid in s.procs
  {
    var k := CopyOf(s, va);
    if k.Some? && k.value in s.frames then s.frames[k.value].data else Backing(s, s.pages[va])
  }

  /** The pages the machine answers for: those of live processes, and the mappings of exiting ones. */
  ghost predicate Claimed(s: State, va: Va) {
    && va in s.pages && va.pid in s.procs && !s.pages[va].tainted
    && (s.procs[va.pid].mode == Live || (s.procs[va.pid].mode == Exiting && s.pages[va].ty == Mmap))
  }

  /** How many leading bytes of a page survive eviction. */
  function Kept(e: Entry): (n: nat)
    ensures n <= PGSIZE
  {
    if e.ty == Mmap && e.readBytes <= PGSIZE then e.readBytes else PGSIZE
  }

  ghost predicate Agree(n: nat, x: Page, y: Page)
    requires n <= PGSIZE
  {
    x[..n] == y[..n]
  }

  /** Whether the copy in memory may be newer than the file it came from. */
  ghost predicate Modified(s: State, va: Va)
    requires va in s.pages && va.pid in s.procs
  {
    var e := s.pages[va];
    match e.st
    case Loaded => e.stale || e.pte.dirty
    case Evicting => s.lock.Some? && s.lock.value in s.procs && s.procs[s.lock.value].job.Evict?
                     && s.procs[s.lock.value].job.dirty
    case Loading => false
    case NotLoaded => CopyOf(s, va).Some?
  }

  ghost predicate FromFile(e: Entry) {
    e.ty == File || e.ty == Mmap
  }

  /** A page's bytes are those the program left there; an unmodified copy of a file page is still
      the file's; and a page that an eviction has saved is what was saved. */
  ghost predicate ContentOk(s: State, va: Va)
    requires Claimed(s, va)
  {
    var e := s.pages[va];
    && Agree(Kept(e), Content(s, va), e.flat)
    && (FromFile(e) && !Modified(s, va) ==> Content(s, va) == Backing(s, e))
    && (e.st == Evicting && s.lock.Some? && s.lock.value in s.procs ==> SavedOk(s, va, s.procs[s.lock.value].job))
  }

  ghost predicate SavedOk(s: State, va: Va, j: Job)
    requires Claimed(s, va)
  {
    j.Evict? ==>
      && (j.wrote ==> Agree(Kept(s.pages[va]), Content(s, va), Backing(s, s.pages[va])))
      && (j.slot.Some? && j.slot.value < |s.slots| ==> s.slots[j.slot.value].data == Content(s, va))
  }

  ghost predicate Contents(s: State) {
    forall va {:trigger ContentOk(s, va)} :: Claimed(s, va) ==> ContentOk(s, va)
  }

  /** An unmapped page's bytes are in its file, until somebody writes there. */
  ghost predicate RegionOk(s: State, r: Region) {
    && r.file in s.files && r.len <= PGSIZE && r.ofs + r.len <= |s.files[r.file]|
    && s.files[r.file][r.ofs..r.ofs + r.len] == r.flat[..r.len]
  }

  ghost predicate Retired(s: State) {
    forall va {:trigger RegionOk(s, s.retired[va])} :: va in s.retired ==> RegionOk(s, s.retired[va])
  }

  ghost predicate Inv(s: State) {
    Structure(s) && Slots(s) && Contents(s) && Retired(s)
  }
}
