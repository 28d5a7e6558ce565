/** How each step changes the history of a page: what it stored there, and whether
    the page is still promised to it. */
module PagingHistory {
  import opened Machine
  import opened Options
  import opened Paging

  /** Flat memory: a map from pages to bytes that knows nothing of frames, swap or page tables.
      A page appears with its initial image and changes only when the program stores to it. */
  function FlatStep(m: map<Va, Page>, files: map<FileId, Bytes>, exec: Pid -> FileId, a: Action): map<Va, Page> {
    match a
    case AsUser(AddFilePage(p, u, ofs, len, w)) =>
      m[Va(p, u) := if exec(p) in files then Image(files[exec(p)], ofs, len) else Zeros(PGSIZE)]
    case AsUser(AddZeroPage(p, u, w)) => m[Va(p, u) := Zeros(PGSIZE)]
    case AsUser(AddMmapPage(p, u, f, ofs, len, id)) =>
      m[Va(p, u) := if f in files then Image(files[f], ofs, len) else Zeros(PGSIZE)]
    case AsUser(Store(va, i, b)) => if va in m && i < PGSIZE then m[va := m[va][i := b]] else m
    case _ => m
  }

  function ExecOf(s: State): Pid -> FileId {
    p => if p in s.procs then s.procs[p].exec else 0
  }

  /** A step acts on flat memory page by page. */
  lemma FlatStepAt(m: map<Va, Page>, one: map<Va, Page>, files: map<FileId, Bytes>, exec: Pid -> FileId, a: Action, va: Va)
    requires va in one ==> va in m && m[va] == one[va]
    ensures va in FlatStep(one, files, exec, a) ==>
              va in FlatStep(m, files, exec, a) && FlatStep(m, files, exec, a)[va] == FlatStep(one, files, exec, a)[va]
  {
  }

  /** A write to a file: `n` bytes at `ofs` of `file`, of page `writer` or of a system call. */
  datatype Write = Write(file: FileId, ofs: nat, n: nat, writer: Option<Va>)

  function WriteOf(s: State, a: Action): Option<Write>
    requires Enabled(s, a)
  {
    match a
    case AsUser(SysWrite(f, ofs, bytes)) => Some(Write(f, ofs, |bytes|, None))
    case AsEvict(EvictWriteback(p, n)) =>
      var w := s.procs[p].job.victim;
      Some(Write(s.pages[w].file, s.pages[w].ofs, n, Some(w)))
    case AsUnmap(UnmapWriteback(p, n)) =>
      var w := Va(p, s.procs[p].job.page);
      Some(Write(s.pages[w].file, s.pages[w].ofs, n, Some(w)))
    case _ => None
  }

  /** The write breaks the promise for page `va`: it is the page's own and is denied or falls short, or
      somebody else's bytes land in it. */
  predicate WriteTaints(s: State, w: Write, va: Va)
    requires va in s.pages
  {
    if Denied(s, w.file) then w.writer == Some(va) else Spoils(s.pages[va], va, w.file, w.ofs, w.n, w.writer)
  }

  /** The only steps after which a page's bytes are no longer promised. */
  predicate Taints(s: State, a: Action, va: Va)
    requires Enabled(s, a) && va in s.pages
  {
    || (WriteOf(s, a).Some? && WriteTaints(s, WriteOf(s, a).value, va))
    || (a.AsEvict? && a.evict.EvictBegin? && s.frames[a.evict.k].owner == Some(va) && s.pages[va].stale)
  }

  predicate IsRollback(a: Action) {
    a.AsEvict? && a.evict.EvictRollback?
  }

  /** A rollback makes a file page stale; a store sets its dirty bit again, and an eviction drops it. */
  predicate StaleAfter(s: State, a: Action, va: Va)
    requires Enabled(s, a) && va in s.pages
  {
    match a
    case AsUser(Store(x, i, b)) => s.pages[va].stale && x != va
    case AsEvict(EvictBegin(p, k)) => s.pages[va].stale && s.frames[k].owner != Some(va)
    case AsEvict(EvictRollback(p)) =>
      if s.procs[p].job.victim == va then s.pages[va].ty == File else s.pages[va].stale
    case _ => s.pages[va].stale
  }

  predicate Adds(a: Action, va: Va) {
    match a
    case AsUser(AddFilePage(p, u, ofs, len, w)) => va == Va(p, u)
    case AsUser(AddZeroPage(p, u, w)) => va == Va(p, u)
    case AsUser(AddMmapPage(p, u, f, ofs, len, id)) => va == Va(p, u)
    case _ => false
  }

  /** The step with which `mmap_remove_page` ends for page `va`. */
  predicate Unmapping(s: State, a: Action, va: Va)
    requires Enabled(s, a)
  {
    a.AsUnmap? && a.unmap.UnmapDelete? && va == Va(a.unmap.p, s.procs[a.unmap.p].job.page)
  }

  predicate Destroying(a: Action, va: Va) {
    a.AsExit? && a.exit.DestroyEntry? && va == Va(a.exit.p, a.exit.u)
  }

  predicate Overwrites(s: State, a: Action, r: Region)
    requires Enabled(s, a)
  {
    && WriteOf(s, a).Some?
    && var w := WriteOf(s, a).value;
    && !Denied(s, w.file) && RegionTouched(r, w.file, w.ofs, w.n)
  }

  /** A page is retired when it is unmapped untainted, and stays so until its part of the file is written or
      its address is used again. */
  function RetiredAfter(s: State, a: Action, va: Va): Option<Region>
    requires Enabled(s, a)
  {
    if Unmapping(s, a, va) && !s.pages[va].tainted then
      var e := s.pages[va];
      Some(Region(e.file, e.ofs, e.readBytes, e.flat))
    else if va !in s.retired || Adds(a, va) || Overwrites(s, a, s.retired[va]) then None
    else Some(s.retired[va])
  }

  /** Flat memory as far as page `va` goes: its current contents, or its last ones if it was unmapped. */
  function FlatAt(s: State, va: Va): map<Va, Page> {
    if va in s.pages then map[va := s.pages[va].flat]
    else if va in s.retired then map[va := s.retired[va].flat]
    else map[]
  }

  /** Page `va` before and after action `a`, which leads from `s` to `s'`. */
  ghost predicate PageHistory(s: State, a: Action, s': State, va: Va)
    requires Enabled(s, a)
  {
    var m := FlatStep(FlatAt(s, va), s.files, ExecOf(s), a);
    && (va in s'.pages <==> (va in s.pages && !Unmapping(s, a, va) && !Destroying(a, va)) || Adds(a, va))
    && (va in s'.pages ==>
          && var e' := s'.pages[va];
          && va in m && e'.flat == m[va]
          && (va !in s.pages ==> !e'.tainted && !e'.stale)
          && (va in s.pages ==>
                && var e := s.pages[va];
                && (e'.tainted <==> e.tainted || Taints(s, a, va)) && (e'.stale <==> StaleAfter(s, a, va))
                && e'.writable == e.writable && e'.file == e.file && e'.ofs == e.ofs && e'.readBytes == e.readBytes
                && (e'.ty == e.ty || (a.AsEvict? && a.evict.EvictFinish?))))
  }

  ghost predicate RetiredHistory(s: State, a: Action, s': State, va: Va)
    requires Enabled(s, a)
  {
    var r := RetiredAfter(s, a, va);
    && (va in s'.retired <==> r.Some?)
    && (va in s'.retired ==> s'.retired[va] == r.value)
  }

  ghost predicate History(s: State, a: Action, s': State, va: Va)
    requires Enabled(s, a)
  {
    PageHistory(s, a, s', va) && RetiredHistory(s, a, s', va)
  }

  lemma FileWriteHistory(s: State, f: FileId, ofs: nat, bytes: Bytes, writer: Option<Va>, va: Va)
    requires f in s.files && (writer.Some? ==> writer.value in s.pages)
    ensures var s' := FileWrite(s, f, ofs, bytes, writer);
            && (va in s'.pages <==> va in s.pages)
            && (va in s.pages ==>
                  s'.pages[va] == s.pages[va].(tainted := s.pages[va].tainted || WriteTaints(s, Write(f, ofs, |bytes|, writer), va)))
            && (va in s'.retired <==> va in s.retired && (Denied(s, f) || !RegionTouched(s.retired[va], f, ofs, |bytes|)))
            && (va in s'.retired ==> s'.retired[va] == s.retired[va])
  {
  }

  lemma SysWriteHistory(s: State, f: FileId, ofs: nat, bytes: Bytes, va: Va)
    requires UserEnabled(s, SysWrite(f, ofs, bytes))
    ensures History(s, AsUser(SysWrite(f, ofs, bytes)), UserApply(s, SysWrite(f, ofs, bytes)), va)
  {
    FileWriteHistory(s, f, ofs, bytes, None, va);
  }

  /** The page is there before and after, or neither, and its history is the same. */
  ghost predicate SameMarks(s: State, s': State, va: Va) {
    && (va in s'.pages <==> va in s.pages)
    && (va in s.pages ==>
          && var (e, e') := (s.pages[va], s'.pages[va]);
          && e'.flat == e.flat && e'.tainted == e.tainted && e'.stale == e.stale
          && e'.writable == e.writable && e'.file == e.file && e'.ofs == e.ofs && e'.readBytes == e.readBytes && e'.ty == e.ty)
  }

  /** Steps that leave no trace in any page's history. */
  predicate Traceless(a: Action) {
    match a
    case AsUser(b) => b.Spawn? || b.Load? || b.SetPinned?
    case AsLoad(b) => true
    case AsEvict(b) => b.ClearAccessed? || b.EvictSwapOut?
    case AsUnmap(b) => b.UnmapBegin? || b.UnmapFree?
    case AsExit(b) => !b.DestroyEntry?
  }

  lemma SameHistory(s: State, a: Action, s': State, va: Va)
    requires Enabled(s, a) && Traceless(a) && SameMarks(s, s', va) && s'.retired == s.retired
    ensures History(s, a, s', va)
  {
    SamePages(s, a, s', va);
    SameRetired(s, a, s', va);
  }

  lemma SamePages(s: State, a: Action, s': State, va: Va)
    requires Enabled(s, a) && Traceless(a) && SameMarks(s, s', va)
    ensures PageHistory(s, a, s', va)
  {
  }

  lemma SameRetired(s: State, a: Action, s': State, va: Va)
    requires Enabled(s, a) && Traceless(a) && s'.retired == s.retired
    ensures RetiredHistory(s, a, s', va)
  {
  }

  // ------------------------------------------------------------------ user steps

  lemma UserSame(s: State, a: UserAction, va: Va)
    requires UserEnabled(s, a) && Traceless(AsUser(a))
    ensures SameMarks(s, UserApply(s, a), va) && UserApply(s, a).retired == s.retired
  {
  }

  lemma AddFileHistory(s: State, p: Pid, u: nat, ofs: nat, len: nat, w: bool, va: Va)
    requires UserEnabled(s, AddFilePage(p, u, ofs, len, w))
    ensures History(s, AsUser(AddFilePage(p, u, ofs, len, w)), UserApply(s, AddFilePage(p, u, ofs, len, w)), va)
  {
  }

  lemma AddZeroHistory(s: State, p: Pid, u: nat, w: bool, va: Va)
    requires UserEnabled(s, AddZeroPage(p, u, w))
    ensures History(s, AsUser(AddZeroPage(p, u, w)), UserApply(s, AddZeroPage(p, u, w)), va)
  {
  }

  lemma AddMmapHistory(s: State, p: Pid, u: nat, f: FileId, ofs: nat, len: nat, id: int, va: Va)
    requires UserEnabled(s, AddMmapPage(p, u, f, ofs, len, id))
    ensures History(s, AsUser(AddMmapPage(p, u, f, ofs, len, id)), UserApply(s, AddMmapPage(p, u, f, ofs, len, id)), va)
  {
  }

  lemma StoreHistory(s: State, x: Va, i: nat, b: Byte, va: Va)
    requires UserEnabled(s, Store(x, i, b))
    ensures History(s, AsUser(Store(x, i, b)), UserApply(s, Store(x, i, b)), va)
  {
  }

  lemma UserHistory(s: State, a: UserAction, va: Va)
    requires UserEnabled(s, a)
    ensures History(s, AsUser(a), UserApply(s, a), va)
  {
    match a
    case AddFilePage(p, u, ofs, len, w) => AddFileHistory(s, p, u, ofs, len, w, va);
    case AddZeroPage(p, u, w) => AddZeroHistory(s, p, u, w, va);
    case AddMmapPage(p, u, f, ofs, len, id) => AddMmapHistory(s, p, u, f, ofs, len, id, va);
    case Store(x, i, b) => StoreHistory(s, x, i, b, va);
    case SysWrite(f, ofs, bytes) => SysWriteHistory(s, f, ofs, bytes, va);
    case _ =>
      UserSame(s, a, va);
      SameHistory(s, AsUser(a), UserApply(s, a), va);
  }

  // ------------------------------------------------------------------ kernel steps

  lemma LoadSame(s: State, a: LoadAction, va: Va)
    requires LoadEnabled(s, a)
    ensures SameMarks(s, LoadApply(s, a), va) && LoadApply(s, a).retired == s.retired
  {
  }

  lemma LoadHistory(s: State, a: LoadAction, va: Va)
    requires LoadEnabled(s, a)
    ensures History(s, AsLoad(a), LoadApply(s, a), va)
  {
    LoadSame(s, a, va);
    SameHistory(s, AsLoad(a), LoadApply(s, a), va);
  }

  lemma EvictWritebackHistory(s: State, p: Pid, n: nat, va: Va)
    requires EvictEnabled(s, EvictWriteback(p, n))
    ensures History(s, AsEvict(EvictWriteback(p, n)), EvictApply(s, EvictWriteback(p, n)), va)
  {
    var j := s.procs[p].job;
    var e := s.pages[j.victim];
    FileWriteHistory(s, e.file, e.ofs, s.frames[j.frame].data[..n], Some(j.victim), va);
  }

  lemma EvictBeginHistory(s: State, p: Pid, k: Frame, va: Va)
    requires EvictEnabled(s, EvictBegin(p, k))
    ensures History(s, AsEvict(EvictBegin(p, k)), EvictApply(s, EvictBegin(p, k)), va)
  {
  }

  lemma EvictRollbackHistory(s: State, p: Pid, va: Va)
    requires EvictEnabled(s, EvictRollback(p))
    ensures History(s, AsEvict(EvictRollback(p)), EvictApply(s, EvictRollback(p)), va)
  {
  }

  lemma EvictFinishHistory(s: State, p: Pid, va: Va)
    requires EvictEnabled(s, EvictFinish(p))
    ensures History(s, AsEvict(EvictFinish(p)), EvictApply(s, EvictFinish(p)), va)
  {
  }

  lemma EvictSame(s: State, a: EvictAction, va: Va)
    requires EvictEnabled(s, a) && Traceless(AsEvict(a))
    ensures SameMarks(s, EvictApply(s, a), va) && EvictApply(s, a).retired == s.retired
  {
  }

  lemma EvictHistory(s: State, a: EvictAction, va: Va)
    requires EvictEnabled(s, a)
    ensures History(s, AsEvict(a), EvictApply(s, a), va)
  {
    match a
    case EvictBegin(p, k) => EvictBeginHistory(s, p, k, va);
    case EvictWriteback(p, n) => EvictWritebackHistory(s, p, n, va);
    case EvictRollback(p) => EvictRollbackHistory(s, p, va);
    case EvictFinish(p) => EvictFinishHistory(s, p, va);
    case _ =>
      EvictSame(s, a, va);
      SameHistory(s, AsEvict(a), EvictApply(s, a), va);
  }

  lemma UnmapWritebackHistory(s: State, p: Pid, n: nat, va: Va)
    requires UnmapEnabled(s, UnmapWriteback(p, n))
    ensures History(s, AsUnmap(UnmapWriteback(p, n)), UnmapApply(s, UnmapWriteback(p, n)), va)
  {
    var j := s.procs[p].job;
    var e := s.pages[Va(p, j.page)];
    FileWriteHistory(s, e.file, e.ofs, s.frames[j.copy.value].data[..n], Some(Va(p, j.page)), va);
  }

  lemma UnmapDeleteHistory(s: State, p: Pid, va: Va)
    requires UnmapEnabled(s, UnmapDelete(p))
    ensures History(s, AsUnmap(UnmapDelete(p)), UnmapApply(s, UnmapDelete(p)), va)
  {
  }

  lemma UnmapSame(s: State, a: UnmapAction, va: Va)
    requires UnmapEnabled(s, a) && Traceless(AsUnmap(a))
    ensures SameMarks(s, UnmapApply(s, a), va) && UnmapApply(s, a).retired == s.retired
  {
  }

  lemma UnmapHistory(s: State, a: UnmapAction, va: Va)
    requires UnmapEnabled(s, a)
    ensures History(s, AsUnmap(a), UnmapApply(s, a), va)
  {
    match a
    case UnmapWriteback(p, n) => UnmapWritebackHistory(s, p, n, va);
    case UnmapDelete(p) => UnmapDeleteHistory(s, p, va);
    case _ =>
      UnmapSame(s, a, va);
      SameHistory(s, AsUnmap(a), UnmapApply(s, a), va);
  }

  lemma DestroyHistory(s: State, p: Pid, u: nat, va: Va)
    requires ExitEnabled(s, DestroyEntry(p, u))
    ensures History(s, AsExit(DestroyEntry(p, u)), ExitApply(s, DestroyEntry(p, u)), va)
  {
    DestroyedPages(s, p, u, va);
    DestroyKeepsRetired(s, p, u, va);
  }

  lemma DestroyedPages(s: State, p: Pid, u: nat, va: Va)
    requires ExitEnabled(s, DestroyEntry(p, u))
    ensures PageHistory(s, AsExit(DestroyEntry(p, u)), ExitApply(s, DestroyEntry(p, u)), va)
  {
  }

  lemma DestroyKeepsRetired(s: State, p: Pid, u: nat, va: Va)
    requires ExitEnabled(s, DestroyEntry(p, u))
    ensures RetiredHistory(s, AsExit(DestroyEntry(p, u)), ExitApply(s, DestroyEntry(p, u)), va)
  {
  }

  lemma ExitSame(s: State, a: ExitAction, va: Va)
    requires ExitEnabled(s, a) && Traceless(AsExit(a))
    ensures SameMarks(s, ExitApply(s, a), va) && ExitApply(s, a).retired == s.retired
  {
  }

  lemma ExitHistory(s: State, a: ExitAction, va: Va)
    requires ExitEnabled(s, a)
    ensures History(s, AsExit(a), ExitApply(s, a), va)
  {
    match a
    case DestroyEntry(p, u) => DestroyHistory(s, p, u, va);
    case _ =>
      ExitSame(s, a, va);
      SameHistory(s, AsExit(a), ExitApply(s, a), va);
  }

  /** What every step does to the history of every page. */
  lemma StepHistory(s: State, a: Action, va: Va)
    requires Enabled(s, a)
    ensures History(s, a, Apply(s, a), va)
  {
    match a
    case AsUser(b) => UserHistory(s, b, va);
    case AsLoad(b) => LoadHistory(s, b, va);
    case AsEvict(b) => EvictHistory(s, b, va);
    case AsUnmap(b) => UnmapHistory(s, b, va);
    case AsExit(b) => ExitHistory(s, b, va);
  }
}
