/** Paging told byte by byte: what a load returns and what ends up in a file, in terms of the steps of the run. */
module PagingBytes {
  import opened Machine
  import opened Options
  import opened Paging
  import opened PagingInvariant
  import opened PagingHistory
  import opened PagingTheorems
  import opened PagingMappings

  /** The state before step `k` of a run. */
  ghost function StateAt(s: State, run: seq<Action>, k: nat): State
    requires Executes(s, run) && k <= |run|
    decreases |run|
  {
    if k == 0 then s else StateAt(Apply(s, run[0]), run[1..], k - 1)
  }

  /** Step `a` gives byte `i` of page `va` the value `b`: the program stores it, or the page is new.  A page of
      the executable, as long as that is long enough, begins with the file's bytes and goes on with zeros; a
      mapped one begins with the file's bytes, and nothing is said of the rest. */
  predicate Sets(s: State, a: Action, va: Va, i: nat, b: Byte) {
    match a
    case AsUser(Store(x, j, c)) => x == va && j == i && c == b
    case AsUser(AddFilePage(p, u, ofs, len, w)) =>
      && va == Va(p, u) && p in s.procs && s.procs[p].exec in s.files
      && var file := s.files[s.procs[p].exec];
      ofs + len <= |file| && b == if i < len then file[ofs + i] else 0
    case AsUser(AddZeroPage(p, u, w)) => va == Va(p, u) && b == 0
    case AsUser(AddMmapPage(p, u, f, ofs, len, id)) =>
      va == Va(p, u) && f in s.files && i < len && ofs + len <= |s.files[f]| && b == s.files[f][ofs + i]
    case _ => false
  }

  /** It gives the byte a new value, or the page new bytes. */
  predicate Changes(a: Action, va: Va, i: nat) {
    match a
    case AsUser(Store(x, j, c)) => x == va && j == i
    case AsUser(AddFilePage(p, u, ofs, len, w)) => va == Va(p, u)
    case AsUser(AddZeroPage(p, u, w)) => va == Va(p, u)
    case AsUser(AddMmapPage(p, u, f, ofs, len, id)) => va == Va(p, u)
    case _ => false
  }

  /** Step `k` of the run gave byte `i` of page `va` the value `b`, and no later step touched it. */
  ghost predicate LastSet(s: State, run: seq<Action>, k: nat, va: Va, i: nat, b: Byte)
    requires Executes(s, run)
  {
    && k < |run| && Sets(StateAt(s, run, k), run[k], va, i, b)
    && forall j | k < j < |run| :: !Changes(run[j], va, i)
  }

  // ------------------------------------------------------------------ flat memory is the last byte set

  lemma SetsFlat(s: State, m: map<Va, Page>, a: Action, va: Va, i: nat, b: Byte)
    requires Enabled(s, a) && Sets(s, a, va, i, b) && i < PGSIZE && (a.AsUser? && a.user.Store? ==> va in m)
    ensures var m' := FlatStep(m, s.files, ExecOf(s), a);
            va in m' && m'[va][i] == b
  {
  }

  lemma {:induction false} FlatStays(s: State, run: seq<Action>, m: map<Va, Page>, va: Va, i: nat)
    requires Executes(s, run) && va in m && i < PGSIZE && forall j | 0 <= j < |run| :: !Changes(run[j], va, i)
    ensures va in FlatAfter(s, run, m) && FlatAfter(s, run, m)[va][i] == m[va][i]
    decreases |run|
  {
    if run != [] {
      assert !Changes(run[0], va, i);
      FlatStays(Apply(s, run[0]), run[1..], FlatStep(m, s.files, ExecOf(s), run[0]), va, i);
    }
  }

  lemma {:induction false} FlatIsLast(s: State, run: seq<Action>, m: map<Va, Page>, k: nat, va: Va, i: nat, b: Byte)
    requires Executes(s, run) && LastSet(s, run, k, va, i, b) && i < PGSIZE && Recorded(s, m)
    ensures va in FlatAfter(s, run, m) && FlatAfter(s, run, m)[va][i] == b
    decreases |run|
  {
    var s', m' := Apply(s, run[0]), FlatStep(m, s.files, ExecOf(s), run[0]);
    if k == 0 {
      assert RecordedAt(s, m, va);
      SetsFlat(s, m, run[0], va, i, b);
      Unchanged(run, va, i);
      FlatStays(s', run[1..], m', va, i);
    } else {
      RecordedStep(s, m, run[0]);
      LastSetTail(s, run, k, va, i, b);
      FlatIsLast(s', run[1..], m', k - 1, va, i, b);
    }
  }

  lemma Unchanged(run: seq<Action>, va: Va, i: nat)
    requires run != [] && forall j | 0 < j < |run| :: !Changes(run[j], va, i)
    ensures forall j | 0 <= j < |run[1..]| :: !Changes(run[1..][j], va, i)
  {
  }

  lemma LastSetTail(s: State, run: seq<Action>, k: nat, va: Va, i: nat, b: Byte)
    requires Executes(s, run) && LastSet(s, run, k, va, i, b) && k > 0
    ensures LastSet(Apply(s, run[0]), run[1..], k - 1, va, i, b)
  {
    forall j | k - 1 < j < |run[1..]| ensures !Changes(run[1..][j], va, i) { assert run[1..][j] == run[j + 1]; }
  }

  /** In every run from boot a promised load returns the byte last set. */
  lemma LoadReturnsLast(s: State, run: seq<Action>, k: nat, va: Va, i: nat, b: Byte)
    requires Init(s) && Executes(s, run) && LastSet(s, run, k, va, i, b)
    requires UserEnabled(After(s, run), Load(va, i))
    requires !After(s, run).pages[va].tainted && i < Kept(After(s, run).pages[va])
    ensures MmuRead(After(s, run), va, i) == b
  {
    PagingIsTransparent(s, run, va, i);
    FlatIsLast(s, run, map[], k, va, i, b);
  }

  /** If no eviction ever found swap full, that is every load from a page that is not a mapping. */
  lemma LoadWithoutRollback(s: State, run: seq<Action>, k: nat, va: Va, i: nat, b: Byte)
    requires Init(s) && Executes(s, run) && NoRollback(run) && LastSet(s, run, k, va, i, b)
    requires UserEnabled(After(s, run), Load(va, i)) && After(s, run).pages[va].ty != Mmap
    ensures MmuRead(After(s, run), va, i) == b
  {
    TransparentWithoutRollback(s, run, va, i);
    FlatIsLast(s, run, map[], k, va, i, b);
  }

  /** It is every load from a mapping that has been left alone, and when that has been unmapped again the byte
      is in the file. */
  lemma LoadFromMapping(s: State, run: seq<Action>, k: nat, va: Va, f: FileId, ofs: nat, len: nat, i: nat, b: Byte)
    requires Init(s) && Executes(s, run) && MappedAlone(s, run, va, f, ofs, len) && LastSet(s, run, k, va, i, b) && i < len
    ensures UserEnabled(After(s, run), Load(va, i)) ==> MmuRead(After(s, run), va, i) == b
    ensures va !in After(s, run).pages ==>
              f in After(s, run).files && ofs + i < |After(s, run).files[f]| && After(s, run).files[f][ofs + i] == b
  {
    if UserEnabled(After(s, run), Load(va, i)) {
      MappingIsTransparent(s, run, va, f, ofs, len, i);
      FlatIsLast(s, run, map[], k, va, i, b);
    }
    if va !in After(s, run).pages {
      ByteRoundTrip(s, run, va, f, ofs, len, i);
      FlatIsLast(s, run, map[], k, va, i, b);
    }
  }

  // ------------------------------------------------------------------ every load has such a step

  /** A page of the executable has been filled, and the file had the bytes. */
  ghost predicate Backed(s: State, va: Va)
    requires va in s.pages
  {
    var e := s.pages[va];
    && (e.ty == Zero ==> e.readBytes == 0)
    && (e.readBytes > 0 && Filled(s, va) ==> Long(s.files, e.file, e.ofs + e.readBytes))
  }

  predicate Long(files: map<FileId, Bytes>, f: FileId, n: nat) {
    f in files && n <= |files[f]|
  }

  ghost predicate Filled(s: State, va: Va)
    requires va in s.pages
  {
    || s.pages[va].ty == Swap || s.pages[va].ty == Mmap || s.pages[va].st == Loaded || s.pages[va].st == Evicting
    || (va.pid in s.procs && (s.procs[va.pid].job.Filled? || s.procs[va.pid].job.Installed?) && s.procs[va.pid].job.page == va.page)
  }

  ghost predicate AllBacked(s: State) {
    forall va {:trigger Backed(s, va)} | va in s.pages :: Backed(s, va)
  }

  lemma FileWriteSizes(s: State, f: FileId, ofs: nat, bytes: Bytes, writer: Option<Va>)
    requires f in s.files
    ensures SameSizes(s, FileWrite(s, f, ofs, bytes, writer))
  {
  }

  /** Files keep their sizes. */
  ghost predicate SameSizes(s: State, s': State) {
    forall f, n {:trigger Long(s'.files, f, n)} :: Long(s'.files, f, n) <==> Long(s.files, f, n)
  }

  lemma UserSizes(s: State, a: UserAction)
    requires UserEnabled(s, a)
    ensures SameSizes(s, UserApply(s, a))
  {
    if a.SysWrite? { FileWriteSizes(s, a.f, a.ofs, a.bytes, None); }
  }

  lemma EvictSizes(s: State, a: EvictAction)
    requires EvictEnabled(s, a)
    ensures SameSizes(s, EvictApply(s, a))
  {
    if a.EvictWriteback? {
      var j := s.procs[a.p].job;
      FileWriteSizes(s, s.pages[j.victim].file, s.pages[j.victim].ofs, s.frames[j.frame].data[..a.n], Some(j.victim));
    }
  }

  lemma UnmapSizes(s: State, a: UnmapAction)
    requires UnmapEnabled(s, a)
    ensures SameSizes(s, UnmapApply(s, a))
  {
    if a.UnmapWriteback? {
      var va := Va(a.p, s.procs[a.p].job.page);
      FileWriteSizes(s, s.pages[va].file, s.pages[va].ofs, s.frames[s.procs[a.p].job.copy.value].data[..a.n], Some(va));
    }
  }

  lemma LoadSizes(s: State, a: LoadAction)
    requires LoadEnabled(s, a)
    ensures SameSizes(s, LoadApply(s, a))
  {
  }

  lemma ExitSizes(s: State, a: ExitAction)
    requires ExitEnabled(s, a)
    ensures SameSizes(s, ExitApply(s, a))
  {
  }

  lemma StepSizes(s: State, a: Action)
    requires Enabled(s, a)
    ensures SameSizes(s, Apply(s, a))
  {
    match a
    case AsUser(b) => UserSizes(s, b);
    case AsLoad(b) => LoadSizes(s, b);
    case AsEvict(b) => EvictSizes(s, b);
    case AsUnmap(b) => UnmapSizes(s, b);
    case AsExit(b) => ExitSizes(s, b);
  }

  /** Page `va` is filled in `s'` only if it was in `s`, or needs no file, or the file is long enough. */
  ghost predicate FillsRight(s: State, s': State, va: Va)
    requires va in s.pages
  {
    va in s'.pages ==>
      && var e := s.pages[va];
      && (s'.pages[va].ty == Zero ==> e.ty == Zero)
      && (Filled(s', va) ==> Filled(s, va) || e.ty == Zero || Long(s.files, e.file, e.ofs + e.readBytes))
  }

  lemma UserFills(s: State, a: UserAction, va: Va)
    requires Inv(s) && UserEnabled(s, a) && va in s.pages
    ensures FillsRight(s, UserApply(s, a), va)
  {
  }

  /** The step at which a load has its page. */
  lemma FillFills(s: State, a: LoadAction, va: Va)
    requires Inv(s) && LoadEnabled(s, a) && va in s.pages && (a.FillFile? || a.FillZero? || a.ForgetSlot?)
    ensures FillsRight(s, LoadApply(s, a), va)
  {
    assert ProcOk(s, a.p);
  }

  lemma LoadFills(s: State, a: LoadAction, va: Va)
    requires Inv(s) && LoadEnabled(s, a) && va in s.pages && !(a.FillFile? || a.FillZero? || a.ForgetSlot?)
    ensures FillsRight(s, LoadApply(s, a), va)
  {
  }

  lemma EvictFills(s: State, a: EvictAction, va: Va)
    requires Inv(s) && EvictEnabled(s, a) && va in s.pages
    ensures FillsRight(s, EvictApply(s, a), va)
  {
    if !a.ClearAccessed? { assert ProcOk(s, a.p); }
  }

  lemma UnmapFills(s: State, a: UnmapAction, va: Va)
    requires Inv(s) && UnmapEnabled(s, a) && va in s.pages
    ensures FillsRight(s, UnmapApply(s, a), va)
  {
  }

  lemma ExitFills(s: State, a: ExitAction, va: Va)
    requires Inv(s) && ExitEnabled(s, a) && va in s.pages
    ensures FillsRight(s, ExitApply(s, a), va)
  {
  }

  lemma StepFills(s: State, a: Action, va: Va)
    requires Inv(s) && Enabled(s, a) && va in s.pages
    ensures FillsRight(s, Apply(s, a), va)
  {
    match a
    case AsUser(b) => UserFills(s, b, va);
    case AsLoad(b) => if b.FillFile? || b.FillZero? || b.ForgetSlot? { FillFills(s, b, va); } else { LoadFills(s, b, va); }
    case AsEvict(b) => EvictFills(s, b, va);
    case AsUnmap(b) => UnmapFills(s, b, va);
    case AsExit(b) => ExitFills(s, b, va);
  }

  lemma NewBacked(s: State, a: Action, va: Va)
    requires Enabled(s, a) && Adds(a, va)
    ensures va in Apply(s, a).pages && Backed(Apply(s, a), va)
  {
  }

  lemma BackedStep(s: State, a: Action)
    requires Inv(s) && AllBacked(s) && Enabled(s, a)
    ensures AllBacked(Apply(s, a))
  {
    var s' := Apply(s, a);
    forall va | va in s'.pages ensures Backed(s', va) {
      StepHistory(s, a, va);
      if Adds(a, va) {
        NewBacked(s, a, va);
      } else {
        assert Backed(s, va);
        StepFills(s, a, va);
        StepSizes(s, a);
        StillBacked(s, s', va);
      }
    }
  }

  lemma StillBacked(s: State, s': State, va: Va)
    requires va in s.pages && va in s'.pages && Backed(s, va) && FillsRight(s, s', va) && SameSizes(s, s')
    requires s'.pages[va].file == s.pages[va].file && s'.pages[va].ofs == s.pages[va].ofs
    requires s'.pages[va].readBytes == s.pages[va].readBytes
    ensures Backed(s', va)
  {
  }

  lemma {:induction false} BackedRun(s: State, run: seq<Action>)
    requires Inv(s) && AllBacked(s) && Executes(s, run)
    ensures AllBacked(After(s, run))
    decreases |run|
  {
    if run != [] {
      BackedStep(s, run[0]);
      StepInv(s, run[0]);
      BackedRun(Apply(s, run[0]), run[1..]);
    }
  }

  // ------------------------------------------------------------------ the step that added a page

  /** What is fixed when a page is added: the right to write, whether it is a mapping, and where its bytes
      come from. */
  predicate SameOrigin(e: Entry, e': Entry) {
    && e'.writable == e.writable && e'.file == e.file && e'.ofs == e.ofs && e'.readBytes == e.readBytes
    && (e'.ty == Mmap <==> e.ty == Mmap)
  }

  /** The entry that an adding step makes. */
  predicate AddedAs(s: State, a: Action, e: Entry) {
    match a
    case AsUser(AddFilePage(p, u, ofs, len, w)) =>
      && p in s.procs && 0 < len <= PGSIZE
      && e.writable == w && e.ty != Mmap && e.file == s.procs[p].exec && e.ofs == ofs && e.readBytes == len
    case AsUser(AddZeroPage(p, u, w)) => e.writable == w && e.ty != Mmap
    case AsUser(AddMmapPage(p, u, f, ofs, len, id)) =>
      && f in s.files && ofs + len <= |s.files[f]| && len <= PGSIZE
      && e.writable && e.ty == Mmap && e.file == f && e.ofs == ofs && e.readBytes == len
    case _ => false
  }

  lemma AddsAs(s: State, a: Action, va: Va)
    requires Enabled(s, a) && Adds(a, va)
    ensures va in Apply(s, a).pages && AddedAs(s, a, Apply(s, a).pages[va])
  {
  }

  lemma OriginStep(s: State, a: Action, va: Va)
    requires Inv(s) && Enabled(s, a) && va in Apply(s, a).pages
    ensures if Adds(a, va) then AddedAs(s, a, Apply(s, a).pages[va])
            else va in s.pages && SameOrigin(s.pages[va], Apply(s, a).pages[va])
  {
    StepHistory(s, a, va);
    if Adds(a, va) {
      AddsAs(s, a, va);
    } else {
      MappingStays(s, a, va);
      NotMapped(s, a, va);
    }
  }

  lemma NotMapped(s: State, a: Action, va: Va)
    requires Enabled(s, a) && va in s.pages && !Adds(a, va)
    ensures va in Apply(s, a).pages && Apply(s, a).pages[va].ty == Mmap ==> s.pages[va].ty == Mmap
  {
    StepHistory(s, a, va);
  }

  /** Page `va`, which is there after the run, was there at the start if `k` is zero, and otherwise was added
      by the step before `k`; no step from `k` on added it. */
  ghost predicate AddedBefore(s: State, run: seq<Action>, k: nat, va: Va)
    requires Executes(s, run) && va in After(s, run).pages
  {
    && k <= |run| && (forall j | k <= j < |run| :: !Adds(run[j], va))
    && (k == 0 ==> va in s.pages && SameOrigin(s.pages[va], After(s, run).pages[va]))
    && (k > 0 ==> Adds(run[k - 1], va) && AddedAs(StateAt(s, run, k - 1), run[k - 1], After(s, run).pages[va]))
  }

  lemma AddedLater(s: State, run: seq<Action>, k: nat, va: Va)
    requires Executes(s, run) && run != [] && va in After(s, run).pages
    requires k > 0 && AddedBefore(Apply(s, run[0]), run[1..], k, va)
    ensures AddedBefore(s, run, k + 1, va)
  {
    assert run[k] == run[1..][k - 1];
    forall j | k + 1 <= j < |run| ensures !Adds(run[j], va) { assert run[j] == run[1..][j - 1]; }
  }

  lemma AddedFirst(s: State, run: seq<Action>, va: Va)
    requires Inv(s) && Executes(s, run) && run != [] && va in After(s, run).pages
    requires AddedBefore(Apply(s, run[0]), run[1..], 0, va)
    ensures AddedBefore(s, run, if Adds(run[0], va) then 1 else 0, va)
  {
    OriginStep(s, run[0], va);
    forall j | 1 <= j < |run| ensures !Adds(run[j], va) { assert run[j] == run[1..][j - 1]; }
  }

  lemma {:induction false} WasAdded(s: State, run: seq<Action>, va: Va) returns (k: nat)
    requires Inv(s) && Executes(s, run) && va in After(s, run).pages
    ensures AddedBefore(s, run, k, va)
    decreases |run|
  {
    k := 0;
    if run != [] {
      StepInv(s, run[0]);
      k := WasAdded(Apply(s, run[0]), run[1..], va);
      if k > 0 {
        AddedLater(s, run, k, va);
        k := k + 1;
      } else {
        AddedFirst(s, run, va);
        k := if Adds(run[0], va) then 1 else 0;
      }
    }
  }

  lemma {:induction false} SizesRun(s: State, run: seq<Action>)
    requires Executes(s, run)
    ensures SameSizes(s, After(s, run))
    decreases |run|
  {
    if run != [] {
      StepSizes(s, run[0]);
      SizesRun(Apply(s, run[0]), run[1..]);
    }
  }

  lemma {:induction false} SizesAt(s: State, run: seq<Action>, k: nat)
    requires Executes(s, run) && k <= |run|
    ensures SameSizes(StateAt(s, run, k), After(s, run))
    decreases |run|
  {
    if k == 0 { SizesRun(s, run); } else { SizesAt(Apply(s, run[0]), run[1..], k - 1); }
  }

  lemma {:induction false} LastChange(run: seq<Action>, from: nat, va: Va, i: nat) returns (k: nat)
    requires from < |run| && Changes(run[from], va, i)
    ensures from <= k < |run| && Changes(run[k], va, i) && forall j | k < j < |run| :: !Changes(run[j], va, i)
    decreases |run| - from
  {
    k := from;
    if j :| from < j < |run| && Changes(run[j], va, i) {
      k := LastChange(run, j, va, i);
    }
  }

  /** A page that can be loaded from has its file behind it. */
  lemma LoadableIsBacked(s: State, run: seq<Action>, va: Va, i: nat)
    requires Init(s) && Executes(s, run) && UserEnabled(After(s, run), Load(va, i))
    ensures var e := After(s, run).pages[va];
            e.readBytes > 0 ==> Long(After(s, run).files, e.file, e.ofs + e.readBytes)
  {
    InitInv(s);
    BackedRun(s, run);
    RunInv(s, run);
    assert PageOk(After(s, run), va) && Backed(After(s, run), va);
  }

  /** The byte that an adding step sets. */
  lemma AddSets(s: State, a: Action, va: Va, i: nat, e: Entry) returns (b: Byte)
    requires Adds(a, va) && AddedAs(s, a, e) && i < Kept(e) && (e.readBytes > 0 ==> Long(s.files, e.file, e.ofs + e.readBytes))
    ensures Sets(s, a, va, i, b)
  {
    match a.user
    case AddFilePage(p, u, ofs, len, w) => b := if i < len then s.files[s.procs[p].exec][ofs + i] else 0;
    case AddZeroPage(p, u, w) => b := 0;
    case AddMmapPage(p, u, f, ofs, len, id) => b := s.files[f][ofs + i];
  }

  /** In every run from boot, every promised load returns the byte that some step set and none has touched
      since. */
  lemma EveryLoadIsExplained(s: State, run: seq<Action>, va: Va, i: nat) returns (k: nat, b: Byte)
    requires Init(s) && Executes(s, run) && UserEnabled(After(s, run), Load(va, i))
    requires !After(s, run).pages[va].tainted && i < Kept(After(s, run).pages[va])
    ensures LastSet(s, run, k, va, i, b) && MmuRead(After(s, run), va, i) == b
  {
    InitInv(s);
    var added := WasAdded(s, run, va);
    k := LastChange(run, added - 1, va, i);
    if Adds(run[k], va) {
      assert k == added - 1;
      LoadableIsBacked(s, run, va, i);
      SizesAt(s, run, k);
      b := AddSets(StateAt(s, run, k), run[k], va, i, After(s, run).pages[va]);
    } else {
      b := run[k].user.b;
    }
    LoadReturnsLast(s, run, k, va, i, b);
  }

  /** Nothing is stored in a page that was added read-only, and everything may be in one that was not. */
  lemma StoreNeedsRight(s: State, run: seq<Action>, va: Va, i: nat, b: Byte) returns (k: nat)
    requires Init(s) && Executes(s, run) && UserEnabled(After(s, run), Load(va, i))
    ensures k < |run| && Adds(run[k], va) && forall j | k < j < |run| :: !Adds(run[j], va)
    ensures UserEnabled(After(s, run), Store(va, i, b)) <==>
            match run[k].user
            case AddFilePage(p, u, ofs, len, w) => w
            case AddZeroPage(p, u, w) => w
            case _ => true
  {
    InitInv(s);
    RunInv(s, run);
    var added := WasAdded(s, run, va);
    k := added - 1;
    StoreIff(After(s, run), va, i, b);
    assert AddedAs(StateAt(s, run, k), run[k], After(s, run).pages[va]);
  }

  lemma StoreIff(s: State, va: Va, i: nat, b: Byte)
    requires Inv(s) && UserEnabled(s, Load(va, i))
    ensures UserEnabled(s, Store(va, i, b)) <==> s.pages[va].writable
  {
    assert PageOk(s, va);
  }

  // ------------------------------------------------------------------ as the reader would ask

  /** A page of the executable, never stored to at byte `i`: the file's byte, or zero behind its part of the
      file.  The file is the one that the process was started from. */
  lemma FilePageShowsFile(s: State, run: seq<Action>, k: nat, p: Pid, u: nat, ofs: nat, len: nat, w: bool, i: nat)
    requires Init(s) && Executes(s, run) && k < |run| && run[k] == AsUser(AddFilePage(p, u, ofs, len, w))
    requires forall j | k < j < |run| :: !Changes(run[j], Va(p, u), i)
    requires UserEnabled(After(s, run), Load(Va(p, u), i)) && !After(s, run).pages[Va(p, u)].tainted
    ensures var was := StateAt(s, run, k);
            && p in was.procs && was.procs[p].exec in was.files
            && var file := was.files[was.procs[p].exec];
            && ofs + len <= |file|
            && MmuRead(After(s, run), Va(p, u), i) == if i < len then file[ofs + i] else 0
  {
    var va := Va(p, u);
    InitInv(s);
    var added := AddedByStep(s, run, k, va, i);
    var k', b := EveryLoadIsExplained(s, run, va, i);
    LastIsUnique(s, run, k, k', va, i, b);
  }

  lemma LastIsUnique(s: State, run: seq<Action>, k: nat, k': nat, va: Va, i: nat, b: Byte)
    requires Executes(s, run) && LastSet(s, run, k', va, i, b)
    requires k < |run| && Changes(run[k], va, i) && forall j | k < j < |run| :: !Changes(run[j], va, i)
    ensures k' == k
  {
    assert Changes(run[k'], va, i);
  }

  /** If no eviction ever found swap full, there is no other condition. */
  lemma FilePageWithoutRollback(s: State, run: seq<Action>, k: nat, p: Pid, u: nat, ofs: nat, len: nat, w: bool, i: nat)
    requires Init(s) && Executes(s, run) && NoRollback(run) && k < |run| && run[k] == AsUser(AddFilePage(p, u, ofs, len, w))
    requires forall j | k < j < |run| :: !Changes(run[j], Va(p, u), i)
    requires UserEnabled(After(s, run), Load(Va(p, u), i))
    ensures var was := StateAt(s, run, k);
            && p in was.procs && was.procs[p].exec in was.files
            && var file := was.files[was.procs[p].exec];
            && ofs + len <= |file|
            && MmuRead(After(s, run), Va(p, u), i) == if i < len then file[ofs + i] else 0
  {
    InitInv(s);
    NoRollbackNoTaint(s, run);
    var added := AddedByStep(s, run, k, Va(p, u), i);
    FilePageShowsFile(s, run, k, p, u, ofs, len, w, i);
  }

  lemma AddedByStep(s: State, run: seq<Action>, k: nat, va: Va, i: nat) returns (added: nat)
    requires Inv(s) && Executes(s, run) && va in After(s, run).pages && k < |run| && Adds(run[k], va)
    requires forall j | k < j < |run| :: !Changes(run[j], va, i)
    ensures added == k + 1 && AddedBefore(s, run, added, va)
  {
    added := WasAdded(s, run, va);
    if added > 0 { assert Changes(run[added - 1], va, i); }
  }

  /** A mapped page, never stored to at byte `i`: the byte the file had there when it was mapped. */
  lemma MappedPageShowsFile(s: State, run: seq<Action>, k: nat, p: Pid, u: nat, f: FileId, ofs: nat, len: nat, id: int, i: nat)
    requires Init(s) && Executes(s, run) && k < |run| && run[k] == AsUser(AddMmapPage(p, u, f, ofs, len, id)) && i < len
    requires forall j | k < j < |run| :: !Changes(run[j], Va(p, u), i)
    requires UserEnabled(After(s, run), Load(Va(p, u), i)) && !After(s, run).pages[Va(p, u)].tainted
    ensures var was := StateAt(s, run, k);
            && f in was.files && ofs + len <= |was.files[f]|
            && MmuRead(After(s, run), Va(p, u), i) == was.files[f][ofs + i]
  {
    var va := Va(p, u);
    InitInv(s);
    var added := AddedByStep(s, run, k, va, i);
    var k', b := EveryLoadIsExplained(s, run, va, i);
    LastIsUnique(s, run, k, k', va, i, b);
  }
}
