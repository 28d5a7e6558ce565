/** The swap-full rollback.  It reinstalls the victim's PTE with the dirty bit
    clear, so a modified file page looks clean afterwards and the next eviction
    drops it.  Stack, zero and swapped pages are not affected: they are always
    written to swap. */
module PagingRollback {
  import opened Machine
  import opened Options
  import opened Paging
  import opened PagingInvariant
  import opened PagingTheorems

  /** Evicting a page that a rollback left stale replaces its bytes by the file's, so the program's
      stores survive if and only if they made no difference. */
  lemma StaleEvictionDropsStores(s: State, p: Pid, k: Frame)
    requires Inv(s) && EvictEnabled(s, EvictBegin(p, k))
    requires s.pages[s.frames[k].owner.value].stale && s.pages[s.frames[k].owner.value].file in s.files
    ensures var w := s.frames[k].owner.value;
            var s1 := EvictApply(s, EvictBegin(p, k));
            && EvictEnabled(s1, EvictFinish(p))
            && var s2 := EvictApply(s1, EvictFinish(p));
            && w in s2.pages && w.pid in s2.procs && s2.pages[w].flat == s.pages[w].flat
            && (Content(s2, w) == s2.pages[w].flat
                <==> s.pages[w].flat == Image(s.files[s.pages[w].file], s.pages[w].ofs, s.pages[w].readBytes))
  {
    var w := s.frames[k].owner.value;
    assert PageOk(s, w) && ProcOk(s, p) && ProcOk(s, w.pid) && FrameOk(s, k);
  }

  // ------------------------------------------------------------------ a run that loses a store

  const PAGE: Page := Zeros(PGSIZE)
  const STORED: Page := PAGE[0 := 1]
  const W := Va(0, 0)
  const X := Va(0, 1)

  /** A machine with one frame, no swap slots, and one executable of one page. */
  function Tiny(procs: map<Pid, Proc>, lock: Option<Pid>, pages: map<Va, Entry>, frame: FrameRec): State {
    State(procs, lock, pages, map[0 := frame], [], map[0 := PAGE], map[])
  }

  const FREE := FrameRec(false, None, false, PAGE)
  const FILLING := FrameRec(true, Some(W), true, PAGE)
  const OWNED := FrameRec(true, Some(W), false, STORED)

  const FRESH := Entry(true, File, NotLoaded, 0, 0, PGSIZE, None, None, -1, NO_PTE, PAGE, false, false)
  const MAPPED := FRESH.(st := Loading, pte := Pte(true, 0, true, false, false))
  const LOADED := MAPPED.(st := Loaded, kpage := Some(0))
  const MODIFIED := LOADED.(pte := Pte(true, 0, true, true, true), flat := STORED)
  const TAKING := Evict(0, 0, W, true, true, false, None)
  const LEAVING := MODIFIED.(st := Evicting, pte := Pte(false, 0, true, true, true))
  const STALE := LOADED.(flat := STORED, stale := true)
  const CODE := FRESH.(writable := false)
  const STACK := Entry(true, Zero, NotLoaded, 0, 0, 0, None, None, -1, NO_PTE, PAGE, false, false)

  function One(job: Job, w: Entry, frame: FrameRec): State {
    Tiny(map[0 := Proc(Live, 0, job)], None, map[W := w], frame)
  }

  function Two(job: Job, lock: Option<Pid>, w: Entry, frame: FrameRec): State {
    Tiny(map[0 := Proc(Live, 0, User), 1 := Proc(Live, 0, job)], lock,
         map[W := w, Va(1, 0) := STACK.(st := if job == User then NotLoaded else Loading)], frame)
  }

  /** Process 0 loads its page and stores to it; process 1 wants a frame and is killed because swap is full. */
  function Scene(k: nat): State {
    if k < 10 then Scene0(k) else Scene10(k)
  }

  function Scene0(k: nat): State {
    match k
    case 0 => Tiny(map[], None, map[], FREE)
    case 1 => Tiny(map[0 := Proc(Live, 0, User)], None, map[], FREE)
    case 2 => One(User, FRESH, FREE)
    case 3 => One(Want(0), FRESH.(st := Loading), FREE)
    case 4 => One(HaveFrame(0, 0), FRESH.(st := Loading), FILLING)
    case 5 => One(Filled(0, 0), FRESH.(st := Loading), FILLING)
    case 6 => One(Installed(0, 0), MAPPED, FILLING)
    case 7 => One(Resident(0, 0), LOADED, FILLING)
    case 8 => One(User, LOADED, FILLING.(pinned := false))
    case _ => One(User, MODIFIED, OWNED)
  }

  function Scene10(k: nat): State {
    match k
    case 10 => Tiny(map[0 := Proc(Live, 0, User), 1 := Proc(Live, 0, User)], None, map[W := MODIFIED], OWNED)
    case 11 => Two(User, None, MODIFIED, OWNED)
    case 12 => Two(Want(0), None, MODIFIED, OWNED)
    case 13 => Two(TAKING, Some(1), LEAVING, OWNED.(pinned := true))
    case 14 => Two(Failing(0), None, STALE, OWNED)
    case _ => Tiny(map[0 := Proc(Live, 0, User), 1 := Proc(Exiting, 0, User)], None,
                   map[W := STALE, Va(1, 0) := STACK], OWNED)
  }

  /** Process 0 with two pages, `u` and `v`. */
  function Pair(u: nat, v: nat, job: Job, lock: Option<Pid>, e: Entry, o: Entry, frame: FrameRec): State {
    Tiny(map[0 := Proc(Live, 0, job), 1 := Proc(Exiting, 0, User)], lock,
         map[Va(0, u) := e, Va(0, v) := o, Va(1, 0) := STACK], frame)
  }

  ghost predicate Takes(s: State, a: Action, s': State) {
    Enabled(s, a) && Apply(s, a) == s'
  }

  ghost predicate Leads(s: State, run: seq<Action>, s': State) {
    Executes(s, run) && After(s, run) == s'
  }

  lemma LeadsFrom(s: State, a: Action, s1: State, more: seq<Action>, s2: State)
    requires Takes(s, a, s1) && Leads(s1, more, s2)
    ensures Leads(s, [a] + more, s2)
  {
    assert ([a] + more)[0] == a && ([a] + more)[1..] == more;
  }

  lemma LeadsFrom4(s: State, a: Action, s1: State, b: Action, s2: State, c: Action, s3: State, d: Action, s4: State,
                   more: seq<Action>, s5: State)
    requires Takes(s, a, s1) && Takes(s1, b, s2) && Takes(s2, c, s3) && Takes(s3, d, s4) && Leads(s4, more, s5)
    ensures Leads(s, [a] + ([b] + ([c] + ([d] + more))), s5)
  {
    LeadsFrom(s3, d, s4, more, s5);
    LeadsFrom(s2, c, s3, [d] + more, s5);
    LeadsFrom(s1, b, s2, [c] + ([d] + more), s5);
    LeadsFrom(s, a, s1, [b] + ([c] + ([d] + more)), s5);
  }

  lemma Starts()
    ensures Takes(Scene(0), AsUser(Spawn(0, 0)), Scene(1))
  {
  }

  lemma AddsPage()
    ensures Takes(Scene(1), AsUser(AddFilePage(0, 0, 0, PGSIZE, true)), Scene(2))
  {
    assert Image(PAGE, 0, PGSIZE) == PAGE;
  }

  lemma Faults()
    ensures Takes(Scene(2), AsLoad(Fault(0, 0)), Scene(3))
  {
  }

  lemma GetsFrame()
    ensures Takes(Scene(3), AsLoad(AllocFree(0, 0)), Scene(4))
  {
  }

  lemma Fills()
    ensures Takes(Scene(4), AsLoad(FillFile(0)), Scene(5))
  {
    assert Image(PAGE, 0, PGSIZE) == PAGE;
  }

  lemma Installs()
    ensures Takes(Scene(5), AsLoad(Install(0)), Scene(6))
  {
  }

  lemma Marks()
    ensures Takes(Scene(6), AsLoad(MarkLoaded(0)), Scene(7))
  {
  }

  lemma Unpins()
    ensures Takes(Scene(7), AsLoad(Unpin(0)), Scene(8))
  {
  }

  lemma Stores()
    ensures Takes(Scene(8), AsUser(Store(W, 0, 1)), Scene(9))
  {
  }

  lemma StartsSecond()
    ensures Takes(Scene(9), AsUser(Spawn(1, 0)), Scene(10))
  {
  }

  lemma AddsStack()
    ensures Takes(Scene(10), AsUser(AddZeroPage(1, 0, true)), Scene(11))
  {
  }

  lemma FaultsSecond()
    ensures Takes(Scene(11), AsLoad(Fault(1, 0)), Scene(12))
  {
  }

  lemma TwoSet(j: Job, lock: Option<Pid>, w: Entry, f: FrameRec, j': Job, lock': Option<Pid>, w': Entry, f': FrameRec)
    requires j != User && j' != User
    ensures SetJob(SetFrame(SetPage(Two(j, lock, w, f).(lock := lock'), W, w'), 0, f'), 1, j') == Two(j', lock', w', f')
  {
  }

  lemma CanBegin()
    ensures Enabled(Two(Want(0), None, MODIFIED, OWNED), AsEvict(EvictBegin(1, 0)))
  {
  }

  lemma BeginsEviction()
    ensures Takes(Scene(12), AsEvict(EvictBegin(1, 0)), Scene(13))
  {
    CanBegin();
    TwoSet(Want(0), None, MODIFIED, OWNED, TAKING, Some(1), LEAVING, OWNED.(pinned := true));
  }

  lemma CanRollBack()
    ensures Enabled(Two(TAKING, Some(1), LEAVING, OWNED.(pinned := true)), AsEvict(EvictRollback(1)))
  {
  }

  lemma RollsBack()
    ensures Takes(Scene(13), AsEvict(EvictRollback(1)), Scene(14))
  {
    CanRollBack();
    TwoSet(TAKING, Some(1), LEAVING, OWNED.(pinned := true), Failing(0), None, STALE, OWNED);
  }

  lemma IsKilled()
    ensures Takes(Scene(14), AsLoad(AllocFail(1)), Scene(15))
  {
  }

  lemma AddsCode()
    ensures Takes(Scene(15), AsUser(AddFilePage(0, 1, 0, PGSIZE, false)), Pair(1, 0, User, None, CODE, STALE, OWNED))
  {
    assert Image(PAGE, 0, PGSIZE) == PAGE;
  }

  // ------------------------------------------------------------------ one page of process 0 replaces the other

  /** A page of the executable that is not in memory. */
  ghost predicate Out(e: Entry) {
    && e.ty == File && e.st == NotLoaded && e.file == 0 && e.ofs == 0 && e.readBytes == PGSIZE
    && e.slot == None && !e.pte.present
  }

  /** A page of the executable that is in the frame and looks clean. */
  ghost predicate CleanIn(o: Entry) {
    o.ty == File && o.st == Loaded && o.kpage == Some(0) && o.slot == None && !o.pte.dirty
  }

  function Coming(e: Entry): Entry { e.(st := Loading) }
  function Present(e: Entry): Entry { e.(st := Loading, pte := Pte(true, 0, e.writable, false, false)) }
  function Arrived(e: Entry): Entry { e.(st := Loaded, kpage := Some(0), pte := Pte(true, 0, e.writable, false, false)) }
  function Leaving(o: Entry): Entry {
    o.(st := Evicting, pte := o.pte.(present := false), tainted := o.tainted || o.stale, stale := false)
  }
  function Gone(o: Entry): Entry { Leaving(o).(st := NotLoaded, kpage := None) }
  function Full(u: nat): FrameRec { FrameRec(true, Some(Va(0, u)), true, PAGE) }

  function Dropping(u: nat, v: nat, e: Entry, o: Entry, f: FrameRec): State {
    Pair(u, v, Leave(u, v), Some(0), Coming(e), Leaving(o), f.(pinned := true))
  }

  function Bare(u: nat, v: nat, e: Entry, o: Entry, f: FrameRec): State {
    Pair(u, v, Raw(u, 0), None, Coming(e), Gone(o), f.(owner := None, pinned := true))
  }

  function Ready(u: nat, v: nat, e: Entry, g: Entry, f: FrameRec): State {
    Pair(u, v, HaveFrame(u, 0), None, Coming(e), g, f.(owner := Some(Va(0, u)), pinned := true))
  }

  lemma Wants(u: nat, v: nat, e: Entry, o: Entry, f: FrameRec)
    requires u != v && Out(e) && CleanIn(o)
    ensures Takes(Pair(u, v, User, None, e, o, f), AsLoad(Fault(0, u)),
                  Pair(u, v, Want(u), None, Coming(e), o, f))
  {
  }

  function Leave(u: nat, v: nat): Job { Evict(u, 0, Va(0, v), false, false, false, None) }

  lemma PairDrop(u: nat, v: nat, j: Job, l: Option<Pid>, e: Entry, o: Entry, f: FrameRec, j': Job, l': Option<Pid>, o': Entry,
                 f': FrameRec)
    requires u != v
    ensures SetJob(SetFrame(SetPage(Pair(u, v, j, l, e, o, f).(lock := l'), Va(0, v), o'), 0, f'), 0, j')
         == Pair(u, v, j', l', e, o', f')
  {
  }

  lemma CanChoose(u: nat, v: nat, e: Entry, o: Entry, f: FrameRec)
    requires u != v && CleanIn(o) && f.listed && f.owner == Some(Va(0, v)) && !f.pinned
    ensures Enabled(Pair(u, v, Want(u), None, Coming(e), o, f), AsEvict(EvictBegin(0, 0)))
  {
  }

  lemma CanDiscard(u: nat, v: nat, e: Entry, o: Entry, f: FrameRec)
    requires u != v && CleanIn(o)
    ensures Enabled(Dropping(u, v, e, o, f), AsEvict(EvictFinish(0)))
  {
  }

  lemma Chooses(u: nat, v: nat, e: Entry, o: Entry, f: FrameRec)
    requires u != v && Out(e) && CleanIn(o) && f.listed && f.owner == Some(Va(0, v)) && !f.pinned
    ensures Takes(Pair(u, v, Want(u), None, Coming(e), o, f), AsEvict(EvictBegin(0, 0)),
                  Dropping(u, v, e, o, f))
  {
    CanChoose(u, v, e, o, f);
    PairDrop(u, v, Want(u), None, Coming(e), o, f, Leave(u, v), Some(0), Leaving(o), f.(pinned := true));
  }

  lemma Discards(u: nat, v: nat, e: Entry, o: Entry, f: FrameRec)
    requires u != v && Out(e) && CleanIn(o) && f.listed && f.owner == Some(Va(0, v))
    ensures Takes(Dropping(u, v, e, o, f), AsEvict(EvictFinish(0)),
                  Bare(u, v, e, o, f))
  {
    CanDiscard(u, v, e, o, f);
    PairDrop(u, v, Leave(u, v), Some(0), Coming(e), Leaving(o), f.(pinned := true), Raw(u, 0), None, Gone(o),
             f.(owner := None, pinned := true));
  }

  lemma Relabels(u: nat, v: nat, e: Entry, o: Entry, f: FrameRec)
    requires u != v && Out(e) && CleanIn(o) && f.listed
    ensures Takes(Bare(u, v, e, o, f), AsLoad(TakeFrame(0)),
                  Ready(u, v, e, Gone(o), f))
  {
  }

  lemma Reads(u: nat, v: nat, e: Entry, g: Entry, f: FrameRec)
    requires u != v && Out(e) && f.listed
    ensures Takes(Ready(u, v, e, g, f), AsLoad(FillFile(0)),
                  Pair(u, v, Filled(u, 0), None, Coming(e), g, Full(u)))
  {
    assert Image(PAGE, 0, PGSIZE) == PAGE;
  }

  lemma PairSet(u: nat, v: nat, j: Job, e: Entry, g: Entry, f: FrameRec, j': Job, e': Entry)
    requires u != v
    ensures SetJob(SetPage(Pair(u, v, j, None, e, g, f), Va(0, u), e'), 0, j') == Pair(u, v, j', None, e', g, f)
  {
  }

  lemma CanMap(u: nat, v: nat, e: Entry, g: Entry)
    requires u != v && Out(e)
    ensures Enabled(Pair(u, v, Filled(u, 0), None, Coming(e), g, Full(u)), AsLoad(Install(0)))
  {
  }

  lemma Maps(u: nat, v: nat, e: Entry, g: Entry)
    requires u != v && Out(e)
    ensures Takes(Pair(u, v, Filled(u, 0), None, Coming(e), g, Full(u)), AsLoad(Install(0)),
                  Pair(u, v, Installed(u, 0), None, Present(e), g, Full(u)))
  {
    CanMap(u, v, e, g);
    PairSet(u, v, Filled(u, 0), Coming(e), g, Full(u), Installed(u, 0), Present(e));
  }

  lemma CanSettle(u: nat, v: nat, e: Entry, g: Entry)
    requires u != v && Out(e)
    ensures Enabled(Pair(u, v, Installed(u, 0), None, Present(e), g, Full(u)), AsLoad(MarkLoaded(0)))
  {
  }

  lemma Settles(u: nat, v: nat, e: Entry, g: Entry)
    requires u != v && Out(e)
    ensures Takes(Pair(u, v, Installed(u, 0), None, Present(e), g, Full(u)), AsLoad(MarkLoaded(0)),
                  Pair(u, v, Resident(u, 0), None, Arrived(e), g, Full(u)))
  {
    CanSettle(u, v, e, g);
    PairSet(u, v, Installed(u, 0), Present(e), g, Full(u), Resident(u, 0), Arrived(e));
  }

  lemma Releases(u: nat, v: nat, e: Entry, g: Entry)
    requires u != v && Out(e)
    ensures Takes(Pair(u, v, Resident(u, 0), None, Arrived(e), g, Full(u)), AsLoad(Unpin(0)),
                  Pair(u, v, User, None, Arrived(e), g, Full(u).(pinned := false)))
  {
  }

  lemma Fetched(u: nat, v: nat, e: Entry, o: Entry, f: FrameRec, more: seq<Action>, s: State) returns (run: seq<Action>)
    requires u != v && Out(e) && CleanIn(o) && f.listed && f.owner == Some(Va(0, v))
    requires Leads(Pair(u, v, User, None, Arrived(e), Gone(o), Full(u).(pinned := false)), more, s)
    ensures Leads(Ready(u, v, e, Gone(o), f), run, s)
  {
    Reads(u, v, e, Gone(o), f);
    Maps(u, v, e, Gone(o));
    Settles(u, v, e, Gone(o));
    Releases(u, v, e, Gone(o));
    var a, b, c, d := AsLoad(FillFile(0)), AsLoad(Install(0)), AsLoad(MarkLoaded(0)), AsLoad(Unpin(0));
    LeadsFrom4(Ready(u, v, e, Gone(o), f), a,
               Pair(u, v, Filled(u, 0), None, Coming(e), Gone(o), Full(u)), b,
               Pair(u, v, Installed(u, 0), None, Present(e), Gone(o), Full(u)), c,
               Pair(u, v, Resident(u, 0), None, Arrived(e), Gone(o), Full(u)), d,
               Pair(u, v, User, None, Arrived(e), Gone(o), Full(u).(pinned := false)), more, s);
    run := [a] + ([b] + ([c] + ([d] + more)));
  }

  /** The page that is out is faulted in over the one that is in, which is dropped. */
  lemma Replaced(u: nat, v: nat, e: Entry, o: Entry, f: FrameRec, more: seq<Action>, s: State) returns (run: seq<Action>)
    requires u != v && Out(e) && CleanIn(o) && f.listed && f.owner == Some(Va(0, v)) && !f.pinned
    requires Leads(Pair(u, v, User, None, Arrived(e), Gone(o), Full(u).(pinned := false)), more, s)
    ensures Leads(Pair(u, v, User, None, e, o, f), run, s)
  {
    var rest := Fetched(u, v, e, o, f, more, s);
    Wants(u, v, e, o, f);
    Chooses(u, v, e, o, f);
    Discards(u, v, e, o, f);
    Relabels(u, v, e, o, f);
    var a, b, c, d := AsLoad(Fault(0, u)), AsEvict(EvictBegin(0, 0)), AsEvict(EvictFinish(0)), AsLoad(TakeFrame(0));
    LeadsFrom4(Pair(u, v, User, None, e, o, f), a,
               Pair(u, v, Want(u), None, Coming(e), o, f), b,
               Dropping(u, v, e, o, f), c,
               Bare(u, v, e, o, f), d,
               Ready(u, v, e, Gone(o), f), rest, s);
    run := [a] + ([b] + ([c] + ([d] + rest)));
  }

  // ------------------------------------------------------------------ the whole run

  /** Process 0 runs, and W is in memory again. */
  function Last(): State {
    Pair(0, 1, User, None, Arrived(Gone(STALE)), Gone(Arrived(CODE)), FrameRec(true, Some(W), false, PAGE))
  }

  lemma From16() returns (run: seq<Action>)
    ensures Leads(Pair(1, 0, User, None, CODE, STALE, OWNED), run, Last())
  {
    run := [];
    assert Leads(Last(), run, Last());
    run := Replaced(0, 1, Gone(STALE), Arrived(CODE), FrameRec(true, Some(X), false, PAGE), run, Last());
    assert Pair(0, 1, User, None, Gone(STALE), Arrived(CODE), FrameRec(true, Some(X), false, PAGE))
        == Pair(1, 0, User, None, Arrived(CODE), Gone(STALE), FrameRec(true, Some(X), false, PAGE));
    run := Replaced(1, 0, CODE, STALE, OWNED, run, Last());
  }

  lemma From12() returns (run: seq<Action>)
    ensures Leads(Scene(12), run, Last())
  {
    var more := From16();
    BeginsEviction(); RollsBack(); IsKilled(); AddsCode();
    var a, b, c, d := AsEvict(EvictBegin(1, 0)), AsEvict(EvictRollback(1)), AsLoad(AllocFail(1)), AsUser(AddFilePage(0, 1, 0, PGSIZE, false));
    LeadsFrom4(Scene(12), a, Scene(13), b, Scene(14), c, Scene(15), d, Pair(1, 0, User, None, CODE, STALE, OWNED), more, Last());
    run := [a] + ([b] + ([c] + ([d] + more)));
  }

  lemma From8() returns (run: seq<Action>)
    ensures Leads(Scene(8), run, Last())
  {
    var more := From12();
    Stores(); StartsSecond(); AddsStack(); FaultsSecond();
    var a, b, c, d := AsUser(Store(W, 0, 1)), AsUser(Spawn(1, 0)), AsUser(AddZeroPage(1, 0, true)), AsLoad(Fault(1, 0));
    LeadsFrom4(Scene(8), a, Scene(9), b, Scene(10), c, Scene(11), d, Scene(12), more, Last());
    run := [a] + ([b] + ([c] + ([d] + more)));
  }

  lemma From4() returns (run: seq<Action>)
    ensures Leads(Scene(4), run, Last())
  {
    var more := From8();
    Fills(); Installs(); Marks(); Unpins();
    var a, b, c, d := AsLoad(FillFile(0)), AsLoad(Install(0)), AsLoad(MarkLoaded(0)), AsLoad(Unpin(0));
    LeadsFrom4(Scene(4), a, Scene(5), b, Scene(6), c, Scene(7), d, Scene(8), more, Last());
    run := [a] + ([b] + ([c] + ([d] + more)));
  }

  lemma From0() returns (run: seq<Action>)
    ensures Leads(Scene(0), run, Last())
  {
    var more := From4();
    Starts(); AddsPage(); Faults(); GetsFrame();
    var a, b, c, d := AsUser(Spawn(0, 0)), AsUser(AddFilePage(0, 0, 0, PGSIZE, true)), AsLoad(Fault(0, 0)), AsLoad(AllocFree(0, 0));
    LeadsFrom4(Scene(0), a, Scene(1), b, Scene(2), c, Scene(3), d, Scene(4), more, Last());
    run := [a] + ([b] + ([c] + ([d] + more)));
  }

  /** A run in which a store is lost: process 0 stored 1, nobody else can reach its page, and now a load
      returns 0. */
  lemma RollbackLosesStore() returns (run: seq<Action>)
    ensures Init(Scene(0)) && Executes(Scene(0), run)
    ensures var e := After(Scene(0), run);
            && UserEnabled(e, Load(W, 0)) && e.pages[W].ty == File && MmuRead(e, W, 0) == 0
            && W in FlatAfter(Scene(0), run, map[]) && FlatAfter(Scene(0), run, map[])[W][0] == 1
  {
    run := From0();
    RecordedRun(Scene(0), run, map[]);
    assert RecordedAt(Last(), FlatAfter(Scene(0), run, map[]), W);
  }
}
