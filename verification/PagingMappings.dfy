/** Mappings over whole runs: what a program finds in one, and what is in the file afterwards. */
module PagingMappings {
  import opened Machine
  import opened Options
  import opened Paging
  import opened PagingInvariant
  import opened PagingHistory
  import opened PagingTheorems

  predicate Maps(a: Action, va: Va, f: FileId, ofs: nat, len: nat) {
    && a.AsUser? && a.user.AddMmapPage? && va == Va(a.user.p, a.user.u)
    && a.user.f == f && a.user.ofs == ofs && a.user.len == len
  }

  /** Action `a` stands between page `va` and the `len` bytes at `ofs` of file `f`: somebody else writes
      them, or the page's own writeback is denied or falls short. */
  predicate Disturbs(s: State, a: Action, va: Va, f: FileId, ofs: nat, len: nat)
    requires Enabled(s, a)
  {
    && WriteOf(s, a).Some?
    && var w := WriteOf(s, a).value;
    if w.writer == Some(va) then Denied(s, w.file) || w.n < len
    else !Denied(s, w.file) && w.file == f && ofs < w.ofs + w.n && w.ofs < ofs + len
  }

  /** No step of the run does, and none puts another page in the same place. */
  ghost predicate LeftAlone(s: State, run: seq<Action>, va: Va, f: FileId, ofs: nat, len: nat)
    requires Executes(s, run)
    decreases |run|
  {
    run == [] || (!Disturbs(s, run[0], va, f, ofs, len) && !Adds(run[0], va)
                  && LeftAlone(Apply(s, run[0]), run[1..], va, f, ofs, len))
  }

  /** Some step of the run maps the page there, and from then on it is left alone. */
  ghost predicate MappedAlone(s: State, run: seq<Action>, va: Va, f: FileId, ofs: nat, len: nat)
    requires Executes(s, run)
    decreases |run|
  {
    run != [] && var s' := Apply(s, run[0]);
    || (Maps(run[0], va, f, ofs, len) && LeftAlone(s', run[1..], va, f, ofs, len))
    || MappedAlone(s', run[1..], va, f, ofs, len)
  }

  /** The page is mapped and its bytes are promised, or it has been unmapped and they are in the file. */
  ghost predicate Tracked(s: State, va: Va, f: FileId, ofs: nat, len: nat) {
    if va in s.pages then
      var e := s.pages[va];
      e.ty == Mmap && e.file == f && e.ofs == ofs && e.readBytes == len && !e.tainted
    else
      va in s.retired && s.retired[va].file == f && s.retired[va].ofs == ofs && s.retired[va].len == len
  }

  lemma TrackedFromMapping(s: State, a: Action, va: Va, f: FileId, ofs: nat, len: nat)
    requires Inv(s) && Enabled(s, a) && Maps(a, va, f, ofs, len)
    ensures Tracked(Apply(s, a), va, f, ofs, len)
  {
  }

  /** Exactly the disturbances end the promise. */
  lemma TrackedStep(s: State, a: Action, va: Va, f: FileId, ofs: nat, len: nat)
    requires Inv(s) && Enabled(s, a) && Tracked(s, va, f, ofs, len) && !Adds(a, va)
    ensures Tracked(Apply(s, a), va, f, ofs, len) <==> !Disturbs(s, a, va, f, ofs, len)
  {
    StepHistory(s, a, va);
    if va in s.pages {
      MappingTainted(s, a, va);
      MappingStays(s, a, va);
      NotDestroyed(s, a, va);
      TrackedPage(s, a, Apply(s, a), va);
    } else {
      NotTheWriter(s, a, va);
      TrackedRegion(s, a, Apply(s, a), va);
    }
  }

  lemma TrackedPage(s: State, a: Action, s': State, va: Va)
    requires Enabled(s, a) && History(s, a, s', va) && !Adds(a, va) && !Destroying(a, va)
    requires va in s.pages && s.pages[va].ty == Mmap && !s.pages[va].tainted
    requires va in s'.pages ==> s'.pages[va].ty == Mmap
    requires Unmapping(s, a, va) ==> !Taints(s, a, va)
    ensures Tracked(s', va, s.pages[va].file, s.pages[va].ofs, s.pages[va].readBytes) <==> !Taints(s, a, va)
  {
  }

  lemma TrackedRegion(s: State, a: Action, s': State, va: Va)
    requires Enabled(s, a) && History(s, a, s', va) && !Adds(a, va) && va !in s.pages && va in s.retired
    requires WriteOf(s, a).Some? ==> WriteOf(s, a).value.writer != Some(va)
    ensures var r := s.retired[va];
            Tracked(s', va, r.file, r.ofs, r.len) <==> !Disturbs(s, a, va, r.file, r.ofs, r.len)
  {
  }

  lemma MappingTainted(s: State, a: Action, va: Va)
    requires Inv(s) && Enabled(s, a) && va in s.pages && s.pages[va].ty == Mmap
    ensures Taints(s, a, va) <==> Disturbs(s, a, va, s.pages[va].file, s.pages[va].ofs, s.pages[va].readBytes)
  {
    assert PageOk(s, va);
  }

  /** A process's mappings are gone before its table is destroyed. */
  lemma NotDestroyed(s: State, a: Action, va: Va)
    requires Inv(s) && Enabled(s, a) && va in s.pages && s.pages[va].ty == Mmap
    ensures !Destroying(a, va)
  {
    assert PageOk(s, va);
  }

  /** Only pages that are mapped are written back. */
  lemma NotTheWriter(s: State, a: Action, va: Va)
    requires Enabled(s, a) && va !in s.pages
    ensures WriteOf(s, a).Some? ==> WriteOf(s, a).value.writer != Some(va)
  {
  }

  lemma {:induction false} TrackedRun(s: State, run: seq<Action>, va: Va, f: FileId, ofs: nat, len: nat)
    requires Inv(s) && Executes(s, run) && Tracked(s, va, f, ofs, len) && LeftAlone(s, run, va, f, ofs, len)
    ensures Tracked(After(s, run), va, f, ofs, len)
    decreases |run|
  {
    if run != [] {
      TrackedStep(s, run[0], va, f, ofs, len);
      StepInv(s, run[0]);
      TrackedRun(Apply(s, run[0]), run[1..], va, f, ofs, len);
    }
  }

  /** A page that was mapped and left alone is tracked: nothing else can take its promise away. */
  lemma {:induction false} MappedIsTracked(s: State, run: seq<Action>, va: Va, f: FileId, ofs: nat, len: nat)
    requires Inv(s) && Executes(s, run) && MappedAlone(s, run, va, f, ofs, len)
    ensures Tracked(After(s, run), va, f, ofs, len)
    decreases |run|
  {
    var s' := Apply(s, run[0]);
    StepInv(s, run[0]);
    if Maps(run[0], va, f, ofs, len) && LeftAlone(s', run[1..], va, f, ofs, len) {
      TrackedFromMapping(s, run[0], va, f, ofs, len);
      TrackedRun(s', run[1..], va, f, ofs, len);
    } else {
      MappedIsTracked(s', run[1..], va, f, ofs, len);
    }
  }

  // ------------------------------------------------------------------ while it is mapped

  /** In every run from boot, a load from a mapping that has been left alone returns what flat memory
      holds, as far as the file goes. */
  lemma MappingIsTransparent(s: State, run: seq<Action>, va: Va, f: FileId, ofs: nat, len: nat, i: nat)
    requires Init(s) && Executes(s, run) && MappedAlone(s, run, va, f, ofs, len)
    requires UserEnabled(After(s, run), Load(va, i)) && i < len
    ensures va in FlatAfter(s, run, map[])
    ensures MmuRead(After(s, run), va, i) == FlatAfter(s, run, map[])[va][i]
  {
    InitInv(s);
    MappedIsTracked(s, run, va, f, ofs, len);
    RunInv(s, run);
    assert PageOk(After(s, run), va);
    PagingIsTransparent(s, run, va, i);
  }

  // ------------------------------------------------------------------ once it is unmapped

  /** A page that was mapped, left alone and unmapped again is in the file. */
  lemma PageRoundTrip(s: State, run: seq<Action>, va: Va, f: FileId, ofs: nat, len: nat)
    requires Init(s) && Executes(s, run) && MappedAlone(s, run, va, f, ofs, len) && va !in After(s, run).pages
    ensures var e := After(s, run);
            && len <= PGSIZE && f in e.files && ofs + len <= |e.files[f]| && va in FlatAfter(s, run, map[])
            && e.files[f][ofs..ofs + len] == FlatAfter(s, run, map[])[va][..len]
  {
    InitInv(s);
    MappedIsTracked(s, run, va, f, ofs, len);
    RunInv(s, run);
    RecordedRun(s, run, map[]);
    assert RecordedAt(After(s, run), FlatAfter(s, run, map[]), va);
    assert RegionOk(After(s, run), After(s, run).retired[va]);
  }

  lemma ByteRoundTrip(s: State, run: seq<Action>, va: Va, f: FileId, ofs: nat, len: nat, k: nat)
    requires Init(s) && Executes(s, run) && MappedAlone(s, run, va, f, ofs, len) && va !in After(s, run).pages && k < len
    ensures var e := After(s, run);
            && k < PGSIZE && f in e.files && ofs + k < |e.files[f]| && va in FlatAfter(s, run, map[])
            && e.files[f][ofs + k] == FlatAfter(s, run, map[])[va][k]
  {
    PageRoundTrip(s, run, va, f, ofs, len);
    SliceAt(After(s, run).files[f], ofs, FlatAfter(s, run, map[])[va], len, k);
  }

  /** How many bytes of a mapping of `len` bytes its page number `i` holds. */
  function ChunkLen(len: nat, i: nat): (n: nat)
    ensures n <= PGSIZE
  {
    if len <= i * PGSIZE then 0 else if len - i * PGSIZE < PGSIZE then len - i * PGSIZE else PGSIZE
  }

  /** The run maps all `len` bytes of file `f` from page `u0` of `p` on, and leaves every page alone. */
  ghost predicate FileMappedAlone(s: State, run: seq<Action>, p: Pid, u0: nat, f: FileId, len: nat)
    requires Executes(s, run)
  {
    forall i: nat {:trigger PartMappedAlone(s, run, p, u0, f, len, i)} ::
      i * PGSIZE < len ==> PartMappedAlone(s, run, p, u0, f, len, i)
  }

  ghost predicate PartMappedAlone(s: State, run: seq<Action>, p: Pid, u0: nat, f: FileId, len: nat, i: nat)
    requires Executes(s, run)
  {
    MappedAlone(s, run, Va(p, u0 + i), f, i * PGSIZE, ChunkLen(len, i))
  }

  /** None of its pages is mapped any more. */
  ghost predicate Unmapped(s: State, p: Pid, u0: nat, len: nat) {
    forall i: nat :: i * PGSIZE < len ==> Va(p, u0 + i) !in s.pages
  }

  /** After `munmap`, the file's first `len` bytes are the mapping's flat memory. */
  lemma MmapRoundTrip(s: State, run: seq<Action>, p: Pid, u0: nat, f: FileId, len: nat, j: nat)
    requires Init(s) && Executes(s, run) && FileMappedAlone(s, run, p, u0, f, len) && Unmapped(After(s, run), p, u0, len)
    requires j < len
    ensures var e := After(s, run);
            && f in e.files && j < |e.files[f]| && Va(p, u0 + j / PGSIZE) in FlatAfter(s, run, map[])
            && e.files[f][j] == FlatAfter(s, run, map[])[Va(p, u0 + j / PGSIZE)][j % PGSIZE]
  {
    InChunk(len, j);
    assert PartMappedAlone(s, run, p, u0, f, len, j / PGSIZE);
    PartRoundTrip(s, run, p, u0, f, len, j / PGSIZE, j % PGSIZE);
  }

  lemma PartRoundTrip(s: State, run: seq<Action>, p: Pid, u0: nat, f: FileId, len: nat, i: nat, k: nat)
    requires Init(s) && Executes(s, run) && PartMappedAlone(s, run, p, u0, f, len, i) && Va(p, u0 + i) !in After(s, run).pages
    requires k < ChunkLen(len, i)
    ensures var e := After(s, run);
            && f in e.files && i * PGSIZE + k < |e.files[f]| && Va(p, u0 + i) in FlatAfter(s, run, map[])
            && e.files[f][i * PGSIZE + k] == FlatAfter(s, run, map[])[Va(p, u0 + i)][k]
  {
    ByteRoundTrip(s, run, Va(p, u0 + i), f, i * PGSIZE, ChunkLen(len, i), k);
  }

  lemma InChunk(len: nat, j: nat)
    requires j < len
    ensures var i := j / PGSIZE;
            i * PGSIZE < len && j == i * PGSIZE + j % PGSIZE && j % PGSIZE < ChunkLen(len, i)
  {
  }

  lemma SliceAt(file: Bytes, ofs: nat, page: Bytes, n: nat, k: nat)
    requires ofs + n <= |file| && n <= |page| && file[ofs..ofs + n] == page[..n] && k < n
    ensures file[ofs + k] == page[k]
  {
    assert file[ofs..ofs + n][k] == page[..n][k];
  }
}
