/** How a parent and a child process share the record of the child's fate: a step machine. */
module ExecWait {
  import opened Options

  type Pid = nat

  /** The shared record.  It is known by the child it is about. */
  datatype Rec = Rec(tid: Option<Pid>, exitStatus: int, loadSuccess: bool, exited: bool, refs: nat, loadSema: nat, exitSema: nat)

  /** Where a process is in the protocol.  As a child: */
  datatype Pc =
    | Begin                         // about to load its executable
    | Loaded(ok: bool)              // about to record whether that worked
    | Reported(ok: bool)            // about to wake its parent
    | Exit1(status: int)            // about to publish its exit status
    | Exit2                         // about to say that it has exited
    | Exit3                         // about to wake a waiting parent
    | Exit4                         // about to release its own record
    // as a parent:
    | Spawned(child: Pid)           // about to record the child's number
    | LoadWait(child: Pid)          // about to wait for the child to load
    | LoadSeen(child: Pid)          // about to look at how that went
    | WaitCheck(child: Pid)         // about to look whether the child has exited
    | WaitDown(child: Pid)          // about to wait for it to exit
    | WaitRead(child: Pid)          // about to read its exit status
    // and otherwise:
    | Run
    | Reap                          // releasing the records of its children
    | Dead

  datatype Proc = Proc(pc: Pc, children: seq<Pid>, info: Option<Pid>)

  /** What has happened to a record: how the load went, the status the child exited with, what exec told
      the parent, what wait returned, and how often the record was freed. */
  datatype Hist = Hist(loaded: Option<bool>, published: Option<int>, execd: Option<bool>, waited: Option<int>, frees: nat)

  datatype State = State(procs: map<Pid, Proc>, recs: map<Pid, Rec>, hist: map<Pid, Hist>, parent: map<Pid, Pid>, next: Pid)

  /** One process, the first, which nobody started. */
  function Init(): State {
    State(map[0 := Proc(Run, [], None)], map[], map[], map[], 1)
  }

  datatype Action =
    | Exec | SetTid | DownLoad | SeeLoad | Load(ok: bool) | Report | UpLoad
    | Wait(tid: Pid) | Check | DownExit | ReadStatus
    | StartExit(status: int) | Publish | SetExited | UpExit | ReleaseOwn | ReapOne | Die

  /** The record that process `p` looks at or changes next, if any. */
  function Touches(s: State, p: Pid, a: Action): Option<Pid>
    requires p in s.procs
  {
    match s.procs[p].pc
    case Spawned(c) => Some(c)
    case LoadWait(c) => Some(c)
    case LoadSeen(c) => Some(c)
    case WaitCheck(c) => Some(c)
    case WaitDown(c) => Some(c)
    case WaitRead(c) => Some(c)
    case Loaded(_) => Some(p)
    case Reported(_) => Some(p)
    case Exit1(_) => s.procs[p].info
    case Exit2 => s.procs[p].info
    case Exit3 => s.procs[p].info
    case Exit4 => s.procs[p].info
    case Run => if a.Wait? then FindChild(s, s.procs[p].children, a.tid) else None
    case Reap => if s.procs[p].children != [] then Some(s.procs[p].children[0]) else None
    case _ => None
  }

  /** The first child on the list with this number. */
  function FindChild(s: State, children: seq<Pid>, tid: Pid): Option<Pid> {
    if children == [] then None
    else if children[0] in s.recs && s.recs[children[0]].tid == Some(tid) then Some(children[0])
    else FindChild(s, children[1..], tid)
  }

  /** May process `p` take this step now?  Waiting on a semaphore takes one that is up. */
  predicate Enabled(s: State, p: Pid, a: Action) {
    p in s.procs &&
    match a
    case Exec => s.procs[p].pc.Run?
    case SetTid => s.procs[p].pc.Spawned?
    case DownLoad => s.procs[p].pc.LoadWait? && Up(s, s.procs[p].pc.child, true)
    case SeeLoad => s.procs[p].pc.LoadSeen?
    case Load(_) => s.procs[p].pc.Begin?
    case Report => s.procs[p].pc.Loaded?
    case UpLoad => s.procs[p].pc.Reported?
    case Wait(_) => s.procs[p].pc.Run?
    case Check => s.procs[p].pc.WaitCheck?
    case DownExit => s.procs[p].pc.WaitDown? && Up(s, s.procs[p].pc.child, false)
    case ReadStatus => s.procs[p].pc.WaitRead?
    case StartExit(_) => s.procs[p].pc.Run?
    case Publish => s.procs[p].pc.Exit1?
    case SetExited => s.procs[p].pc.Exit2?
    case UpExit => s.procs[p].pc.Exit3?
    case ReleaseOwn => s.procs[p].pc.Exit4?
    case ReapOne => s.procs[p].pc.Reap? && s.procs[p].children != []
    case Die => s.procs[p].pc.Reap? && s.procs[p].children == []
  }

  predicate Up(s: State, c: Pid, load: bool) {
    c in s.recs && if load then s.recs[c].loadSema > 0 else s.recs[c].exitSema > 0
  }

  /** Process `p` goes on to `pc`. */
  function At(s: State, p: Pid, pc: Pc): State
    requires p in s.procs
  {
    s.(procs := s.procs[p := s.procs[p].(pc := pc)])
  }

  function RecOf(s: State, c: Pid): Option<Rec> { if c in s.recs then Some(s.recs[c]) else None }

  /** Process `p` and the record of `c` change, and nothing else does. */
  function Update(s: State, p: Pid, proc: Proc, c: Pid, rec: Option<Rec>, h: Hist): State {
    State(s.procs[p := proc], if rec.Some? then s.recs[c := rec.value] else s.recs - {c}, s.hist[c := h], s.parent, s.next)
  }

  /** Gives up one reference; the last one out frees the record. */
  function Released(rec: Rec): Option<Rec> { if rec.refs <= 1 then None else Some(rec.(refs := rec.refs - 1)) }

  function FreedHist(rec: Rec, h: Hist): Hist { if rec.refs <= 1 then h.(frees := h.frees + 1) else h }

  function Without(children: seq<Pid>, c: Pid): seq<Pid> {
    if children == [] then [] else if children[0] == c then children[1..] else [children[0]] + Without(children[1..], c)
  }

  /** The record a step touches has not been freed. */
  predicate Safe(s: State, p: Pid, a: Action) {
    p in s.procs && (Touches(s, p, a).Some? ==> Touches(s, p, a).value in s.recs && Touches(s, p, a).value in s.hist)
  }

  function Apply(s: State, p: Pid, a: Action): State
    requires Enabled(s, p, a) && Safe(s, p, a)
  {
    if a.Exec? then Spawn(s, p)
    else if a.Load? || a.Report? || a.UpLoad? || a.StartExit? || a.Publish? || a.SetExited? || a.UpExit? || a.ReleaseOwn?
    then ChildStep(s, p, a)
    else ParentStep(s, p, a)
  }

  /** The child gets a record with two references, its own and its parent's. */
  function Spawn(s: State, p: Pid): State
    requires p in s.procs
  {
    var proc, c := s.procs[p], s.next;
    State(s.procs[p := Proc(Spawned(c), proc.children + [c], proc.info)][c := Proc(Begin, [], Some(c))],
          s.recs[c := Rec(None, -1, false, false, 2, 0, 0)], s.hist[c := Hist(None, None, None, None, 0)],
          s.parent[c := p], c + 1)
  }

  function ChildStep(s: State, p: Pid, a: Action): State
    requires Enabled(s, p, a) && Safe(s, p, a)
  {
    var proc := s.procs[p];
    if a.Load? then
      if p in s.hist then Update(s, p, proc.(pc := Loaded(a.ok)), p, RecOf(s, p), s.hist[p].(loaded := Some(a.ok))) else s
    else if a.StartExit? then
      At(s, p, if proc.info.None? then Reap else Exit1(a.status))
    else if Touches(s, p, a).None? then s
    else
      var c := Touches(s, p, a).value;
      OwnRecord(s, p, proc, c, s.recs[c], s.hist[c], a)
  }

  function OwnRecord(s: State, p: Pid, proc: Proc, c: Pid, rec: Rec, h: Hist, a: Action): State {
    match a
    case Report =>
      if proc.pc.Loaded? then Update(s, p, proc.(pc := Reported(proc.pc.ok)), c, Some(rec.(loadSuccess := proc.pc.ok)), h) else s
    case UpLoad =>
      if proc.pc.Reported?
      then Update(s, p, proc.(pc := if proc.pc.ok then Run else Exit1(-1)), c, Some(rec.(loadSema := rec.loadSema + 1)), h) else s
    case Publish =>
      if proc.pc.Exit1?
      then Update(s, p, proc.(pc := Exit2), c, Some(rec.(exitStatus := proc.pc.status)), h.(published := Some(proc.pc.status))) else s
    case SetExited => Update(s, p, proc.(pc := Exit3), c, Some(rec.(exited := true)), h)
    case UpExit => Update(s, p, proc.(pc := Exit4), c, Some(rec.(exitSema := rec.exitSema + 1)), h)
    case ReleaseOwn => Update(s, p, Proc(Reap, proc.children, None), c, Released(rec), FreedHist(rec, h))
    case _ => s
  }

  function ParentStep(s: State, p: Pid, a: Action): State
    requires Enabled(s, p, a) && Safe(s, p, a)
  {
    var proc := s.procs[p];
    if a.Die? then At(s, p, Dead)
    else if Touches(s, p, a).None? then s
    else
      var c := Touches(s, p, a).value;
      ChildRecord(s, p, proc, c, s.recs[c], s.hist[c], a)
  }

  /** A wait that finds no child returns -1 at once and changes nothing. */
  function ChildRecord(s: State, p: Pid, proc: Proc, c: Pid, rec: Rec, h: Hist, a: Action): State {
    match a
    case SetTid => Update(s, p, proc.(pc := LoadWait(c)), c, Some(rec.(tid := Some(c))), h)
    case DownLoad =>
      if rec.loadSema > 0 then Update(s, p, proc.(pc := LoadSeen(c)), c, Some(rec.(loadSema := rec.loadSema - 1)), h) else s
    case SeeLoad =>
      if rec.loadSuccess then Update(s, p, proc.(pc := Run), c, Some(rec), h.(execd := Some(true)))
      else Update(s, p, Proc(Run, Without(proc.children, c), proc.info), c, Released(rec), FreedHist(rec, h.(execd := Some(false))))
    case Wait(_) => Update(s, p, Proc(WaitCheck(c), Without(proc.children, c), proc.info), c, Some(rec), h)
    case Check => Update(s, p, proc.(pc := if rec.exited then WaitRead(c) else WaitDown(c)), c, Some(rec), h)
    case DownExit =>
      if rec.exitSema > 0 then Update(s, p, proc.(pc := WaitRead(c)), c, Some(rec.(exitSema := rec.exitSema - 1)), h) else s
    case ReadStatus =>
      Update(s, p, proc.(pc := Run), c, Released(rec), FreedHist(rec, h.(waited := Some(rec.exitStatus))))
    case ReapOne => Update(s, p, proc.(children := Without(proc.children, c)), c, Released(rec), FreedHist(rec, h))
    case _ => s
  }

  // ------------------------------------------------------------------ one record, seen from both sides

  /** What the parent has to do with the record. */
  datatype Parental = PSpawned | PLoadWait | PLoadSeen | PListed | PCheck | PDown | PRead | PDone

  function ParentPhase(proc: Proc, c: Pid): Parental {
    if proc.pc == Spawned(c) then PSpawned
    else if proc.pc == LoadWait(c) then PLoadWait
    else if proc.pc == LoadSeen(c) then PLoadSeen
    else if proc.pc == WaitCheck(c) then PCheck
    else if proc.pc == WaitDown(c) then PDown
    else if proc.pc == WaitRead(c) then PRead
    else if c in proc.children then PListed
    else PDone
  }

  /** How far the child is. */
  datatype Filial = FBegin | FLoaded(ok: bool) | FReported(ok: bool) | FRunning | FExit1(status: int) | FExit2 | FExit3 | FExit4 | FGone

  function ChildPhase(proc: Proc): Filial {
    if proc.info.None? then FGone
    else
      match proc.pc
      case Begin => FBegin
      case Loaded(ok) => FLoaded(ok)
      case Reported(ok) => FReported(ok)
      case Exit1(st) => FExit1(st)
      case Exit2 => FExit2
      case Exit3 => FExit3
      case Exit4 => FExit4
      case _ => FRunning
  }

  function Holders(par: Parental, chi: Filial): nat {
    (if par == PDone then 0 else 1) + (if chi == FGone then 0 else 1)
  }

  /** A record exists, and counts, exactly the sides that can still reach it. */
  predicate Alive(par: Parental, chi: Filial, rec: Option<Rec>, h: Hist) {
    && (rec.Some? <==> Holders(par, chi) > 0) && (rec.Some? ==> rec.value.refs == Holders(par, chi))
    && h.frees == (if rec.Some? then 0 else 1)
  }

  predicate LoadOk(c: Pid, par: Parental, chi: Filial, rec: Option<Rec>, h: Hist) {
    var upped := !chi.FBegin? && !chi.FLoaded? && !chi.FReported?;
    var downed := !par.PSpawned? && !par.PLoadWait?;
    && (h.loaded.None? <==> chi.FBegin?)
    && (chi.FLoaded? || chi.FReported? ==> h.loaded == Some(chi.ok))
    && (chi.FRunning? ==> h.loaded == Some(true))
    && (downed ==> upped)
    && (h.execd.None? <==> par.PSpawned? || par.PLoadWait? || par.PLoadSeen?)
    && (h.execd.Some? ==> h.execd == h.loaded)
    && (par.PListed? || par.PCheck? || par.PDown? || par.PRead? ==> h.execd == Some(true))
    && (rec.Some? ==>
          && rec.value.tid == (if par.PSpawned? then None else Some(c))
          && rec.value.loadSuccess == (if chi.FBegin? || chi.FLoaded? then false else h.loaded.value)
          && rec.value.loadSema == (if upped && !downed then 1 else 0))
  }

  predicate ExitOk(par: Parental, chi: Filial, rec: Option<Rec>, h: Hist) {
    && (h.published.Some? <==> chi.FExit2? || chi.FExit3? || chi.FExit4? || chi.FGone?)
    && (h.waited.Some? ==> par.PDone? && h.waited == h.published && h.execd == Some(true))
    && (par.PRead? ==> chi.FExit3? || chi.FExit4? || chi.FGone?)
    && (rec.Some? ==>
          && (h.published.Some? ==> rec.value.exitStatus == h.published.value)
          && (rec.value.exited <==> chi.FExit3? || chi.FExit4? || chi.FGone?)
          && (rec.value.exitSema > 0 ==> chi.FExit4? || chi.FGone?)
          && (chi.FExit4? || chi.FGone? ==> rec.value.exitSema == 1 || (rec.value.exitSema == 0 && (par.PRead? || par.PDone?))))
  }

  predicate ViewOk(c: Pid, par: Parental, chi: Filial, rec: Option<Rec>, h: Hist) {
    Alive(par, chi, rec, h) && LoadOk(c, par, chi, rec, h) && ExitOk(par, chi, rec, h)
  }

  // ------------------------------------------------------------------ the whole system

  /** The children list, and the program counter, name only children of the process's own. */
  predicate ProcOk(s: State, p: Pid)
    requires p in s.procs
  {
    var proc := s.procs[p];
    && Distinct(proc.children)
    && (forall i | 0 <= i < |proc.children| :: IsChild(s, p, proc.children[i]))
    && (proc.pc.Spawned? || proc.pc.LoadWait? || proc.pc.LoadSeen? ==> proc.pc.child in proc.children)
    && (proc.pc.WaitCheck? || proc.pc.WaitDown? || proc.pc.WaitRead? ==> IsChild(s, p, proc.pc.child) && proc.pc.child !in proc.children)
    && (proc.info.Some? ==> proc.info.value == p)
    && (proc.info.None? ==> !proc.pc.Begin? && !proc.pc.Loaded? && !proc.pc.Reported? && !proc.pc.Exit1? && !proc.pc.Exit2? && !proc.pc.Exit3? && !proc.pc.Exit4?)
    && (proc.info.Some? ==> p in s.hist && !proc.pc.Reap? && !proc.pc.Dead?)
  }

  predicate IsChild(s: State, p: Pid, c: Pid) { c in s.parent && s.parent[c] == p }

  predicate RecOk(s: State, c: Pid)
    requires c in s.parent && s.parent[c] in s.procs && c in s.procs && c in s.hist
  {
    && ViewOk(c, ParentPhase(s.procs[s.parent[c]], c), ChildPhase(s.procs[c]), RecOf(s, c), s.hist[c])
    && (Lost(ParentPhase(s.procs[s.parent[c]], c), s.hist[c]) ==> Ending(s.procs[s.parent[c]].pc))
  }

  /** A child that could have been waited for, and no longer can be. */
  predicate Lost(par: Parental, h: Hist) { par == PDone && h.execd == Some(true) && h.waited.None? }

  predicate Ending(pc: Pc) { pc.Reap? || pc.Dead? }

  ghost predicate Known(s: State) {
    && s.hist.Keys == s.parent.Keys && s.recs.Keys <= s.hist.Keys
    && (forall c | c in s.parent :: c in s.procs && s.parent[c] in s.procs && s.parent[c] < c)
    && (forall p | p in s.procs :: p < s.next)
  }

  ghost predicate Inv(s: State) {
    && Known(s)
    && (forall p {:trigger ProcOk(s, p)} | p in s.procs :: ProcOk(s, p))
    && (forall c {:trigger RecOk(s, c)} | c in s.parent :: RecOk(s, c))
  }

  lemma InitInv()
    ensures Inv(Init())
  {
  }

  // ------------------------------------------------------------------ steps keep the invariant

  /** A step of `p` that concerns no record but `c`'s. */
  ghost predicate Only(s: State, s': State, p: Pid, c: Pid) {
    && s'.parent == s.parent && s'.next == s.next && s'.procs.Keys == s.procs.Keys && p in s.procs
    && s'.hist.Keys == s.hist.Keys && s'.recs.Keys <= s.hist.Keys
    && (forall q | q in s.procs && q != p :: s'.procs[q] == s.procs[q])
    && (forall d | d in s.parent && d != c :: RecOf(s', d) == RecOf(s, d) && d in s.hist && s'.hist[d] == s.hist[d])
  }

  /** Seen from any other record, `p` has not moved. */
  ghost predicate SameToOthers(s: State, s': State, p: Pid, c: Pid)
    requires p in s.procs && p in s'.procs
  {
    && (forall d | d in s.parent && d != c && s.parent[d] == p :: ParentPhase(s'.procs[p], d) == ParentPhase(s.procs[p], d))
    && (p != c ==> ChildPhase(s'.procs[p]) == ChildPhase(s.procs[p]))
    && (Ending(s.procs[p].pc) ==> Ending(s'.procs[p].pc))
  }

  lemma Framed(s: State, s': State, p: Pid, c: Pid)
    requires Inv(s) && Only(s, s', p, c) && SameToOthers(s, s', p, c) && ProcOk(s', p)
    requires c in s.parent ==> RecOk(s', c)
    ensures Inv(s')
  {
    forall q | q in s'.procs ensures ProcOk(s', q) {
      if q != p {
        assert ProcOk(s, q);
        Elsewhere(s, s', q);
      }
    }
    forall d | d in s'.parent ensures RecOk(s', d) {
      if d != c { assert RecOk(s, d); SameView(s, s', p, c, d); }
    }
  }

  lemma SameView(s: State, s': State, p: Pid, c: Pid, d: Pid)
    requires Known(s) && Only(s, s', p, c) && SameToOthers(s, s', p, c) && d in s.parent && d != c
    ensures ParentPhase(s'.procs[s.parent[d]], d) == ParentPhase(s.procs[s.parent[d]], d)
    ensures ChildPhase(s'.procs[d]) == ChildPhase(s.procs[d]) && RecOf(s', d) == RecOf(s, d) && s'.hist[d] == s.hist[d]
    ensures Ending(s.procs[s.parent[d]].pc) ==> Ending(s'.procs[s.parent[d]].pc)
  {
  }

  /** The record a process touches is there. */
  lemma NeverFreed(s: State, p: Pid, a: Action)
    requires Inv(s) && Enabled(s, p, a)
    ensures Safe(s, p, a)
  {
    assert ProcOk(s, p);
    var t := Touches(s, p, a);
    if t.Some? {
      var c := t.value;
      if s.procs[p].pc.Run? { FoundIsListed(s, s.procs[p].children, a.tid); }
      if s.procs[p].pc.Loaded? || s.procs[p].pc.Reported? || s.procs[p].pc.Exit1? || s.procs[p].pc.Exit2? || s.procs[p].pc.Exit3? || s.procs[p].pc.Exit4? {
        assert c == p && c in s.hist && c in s.parent;
      } else {
        ListedIsChild(s, p, c);
        assert IsChild(s, p, c);
      }
      assert RecOk(s, c);
    }
  }

  lemma ListedIsChild(s: State, p: Pid, c: Pid)
    requires Inv(s) && p in s.procs
    ensures c in s.procs[p].children ==> IsChild(s, p, c)
  {
    assert ProcOk(s, p);
    if c in s.procs[p].children { var i :| 0 <= i < |s.procs[p].children| && s.procs[p].children[i] == c; }
  }

  lemma {:induction false} FoundIsListed(s: State, children: seq<Pid>, tid: Pid)
    ensures var r := FindChild(s, children, tid);
            if r.Some? then r.value in children && r.value in s.recs && s.recs[r.value].tid == Some(tid)
            else forall i | 0 <= i < |children| :: children[i] in s.recs ==> s.recs[children[i]].tid != Some(tid)
  {
    if children != [] { FoundIsListed(s, children[1..], tid); }
  }

  predicate Distinct(children: seq<Pid>) {
    forall i, j | 0 <= i < j < |children| :: children[i] != children[j]
  }

  lemma {:induction false} WithoutIs(children: seq<Pid>, c: Pid)
    requires Distinct(children)
    ensures forall d :: d in Without(children, c) <==> d in children && d != c
    ensures Distinct(Without(children, c))
  {
    if children != [] {
      var rest := children[1..];
      forall i, j | 0 <= i < j < |rest| ensures rest[i] != rest[j] { assert children[i + 1] != children[j + 1]; }
      WithoutIs(rest, c);
      assert children[0] !in rest;
      var w := Without(rest, c);
      assert children[0] !in w;
      if children[0] != c { assert Without(children, c) == [children[0]] + w; }
    }
  }

  // What each step does to its record, whoever takes it.

  lemma LoadView(c: Pid, par: Parental, rec: Option<Rec>, h: Hist, ok: bool)
    requires ViewOk(c, par, FBegin, rec, h)
    ensures ViewOk(c, par, FLoaded(ok), rec, h.(loaded := Some(ok)))
  {
  }

  lemma ReportView(c: Pid, par: Parental, rec: Rec, h: Hist, ok: bool)
    requires ViewOk(c, par, FLoaded(ok), Some(rec), h)
    ensures ViewOk(c, par, FReported(ok), Some(rec.(loadSuccess := ok)), h)
  {
  }

  lemma UpLoadView(c: Pid, par: Parental, rec: Rec, h: Hist, ok: bool, status: int)
    requires ViewOk(c, par, FReported(ok), Some(rec), h)
    ensures ViewOk(c, par, if ok then FRunning else FExit1(status), Some(rec.(loadSema := rec.loadSema + 1)), h)
  {
  }

  lemma StartExitView(c: Pid, par: Parental, rec: Option<Rec>, h: Hist, status: int)
    requires ViewOk(c, par, FRunning, rec, h)
    ensures ViewOk(c, par, FExit1(status), rec, h)
  {
  }

  lemma PublishView(c: Pid, par: Parental, rec: Rec, h: Hist, status: int)
    requires ViewOk(c, par, FExit1(status), Some(rec), h)
    ensures ViewOk(c, par, FExit2, Some(rec.(exitStatus := status)), h.(published := Some(status)))
  {
  }

  lemma SetExitedView(c: Pid, par: Parental, rec: Rec, h: Hist)
    requires ViewOk(c, par, FExit2, Some(rec), h)
    ensures ViewOk(c, par, FExit3, Some(rec.(exited := true)), h)
  {
  }

  lemma UpExitView(c: Pid, par: Parental, rec: Rec, h: Hist)
    requires ViewOk(c, par, FExit3, Some(rec), h)
    ensures ViewOk(c, par, FExit4, Some(rec.(exitSema := rec.exitSema + 1)), h)
  {
  }

  lemma ReleaseOwnView(c: Pid, par: Parental, rec: Rec, h: Hist)
    requires ViewOk(c, par, FExit4, Some(rec), h)
    ensures ViewOk(c, par, FGone, Released(rec), FreedHist(rec, h))
  {
  }

  lemma SetTidView(c: Pid, chi: Filial, rec: Rec, h: Hist)
    requires ViewOk(c, PSpawned, chi, Some(rec), h)
    ensures ViewOk(c, PLoadWait, chi, Some(rec.(tid := Some(c))), h)
  {
  }

  lemma DownLoadView(c: Pid, chi: Filial, rec: Rec, h: Hist)
    requires ViewOk(c, PLoadWait, chi, Some(rec), h) && rec.loadSema > 0
    ensures ViewOk(c, PLoadSeen, chi, Some(rec.(loadSema := rec.loadSema - 1)), h)
  {
  }

  lemma SeeLoadView(c: Pid, chi: Filial, rec: Rec, h: Hist)
    requires ViewOk(c, PLoadSeen, chi, Some(rec), h)
    ensures rec.loadSuccess ==> ViewOk(c, PListed, chi, Some(rec), h.(execd := Some(true)))
    ensures !rec.loadSuccess ==> ViewOk(c, PDone, chi, Released(rec), FreedHist(rec, h.(execd := Some(false))))
  {
  }

  lemma WaitView(c: Pid, chi: Filial, rec: Rec, h: Hist)
    requires ViewOk(c, PListed, chi, Some(rec), h)
    ensures ViewOk(c, PCheck, chi, Some(rec), h)
  {
  }

  lemma CheckView(c: Pid, chi: Filial, rec: Rec, h: Hist)
    requires ViewOk(c, PCheck, chi, Some(rec), h)
    ensures ViewOk(c, if rec.exited then PRead else PDown, chi, Some(rec), h)
  {
  }

  lemma DownExitView(c: Pid, chi: Filial, rec: Rec, h: Hist)
    requires ViewOk(c, PDown, chi, Some(rec), h) && rec.exitSema > 0
    ensures ViewOk(c, PRead, chi, Some(rec.(exitSema := rec.exitSema - 1)), h)
  {
  }

  lemma ReadStatusView(c: Pid, chi: Filial, rec: Rec, h: Hist)
    requires ViewOk(c, PRead, chi, Some(rec), h)
    ensures ViewOk(c, PDone, chi, Released(rec), FreedHist(rec, h.(waited := Some(rec.exitStatus))))
  {
  }

  lemma ReapView(c: Pid, chi: Filial, rec: Rec, h: Hist)
    requires ViewOk(c, PListed, chi, Some(rec), h)
    ensures ViewOk(c, PDone, chi, Released(rec), FreedHist(rec, h))
  {
  }

  // ------------------------------------------------------------------ and what it does to everything else

  /** What a process may become without the other records noticing. */
  ghost predicate Fits(s: State, p: Pid, proc: Proc, c: Pid)
    requires p in s.procs
  {
    && ProcOk(s.(procs := s.procs[p := proc]), p)
    && (forall d | d in s.parent && d != c && s.parent[d] == p :: ParentPhase(proc, d) == ParentPhase(s.procs[p], d))
    && (p != c ==> ChildPhase(proc) == ChildPhase(s.procs[p]))
    && (Ending(s.procs[p].pc) ==> Ending(proc.pc))
  }

  /** What the update makes of the record. */
  ghost predicate UpdateOk(s: State, p: Pid, proc: Proc, c: Pid, rec: Option<Rec>, h: Hist)
    requires Known(s) && p in s.procs && c in s.parent
  {
    if p == c then
      && ViewOk(c, ParentPhase(s.procs[s.parent[c]], c), ChildPhase(proc), rec, h)
      && h.execd == s.hist[c].execd && h.waited == s.hist[c].waited
    else
      && p == s.parent[c] && ViewOk(c, ParentPhase(proc, c), ChildPhase(s.procs[c]), rec, h)
      && (Lost(ParentPhase(proc, c), h) ==> Ending(proc.pc))
  }

  lemma Updated(s: State, p: Pid, proc: Proc, c: Pid, rec: Option<Rec>, h: Hist)
    requires Inv(s) && p in s.procs && c in s.parent && Fits(s, p, proc, c) && UpdateOk(s, p, proc, c, rec, h)
    ensures Inv(Update(s, p, proc, c, rec, h))
  {
    assert RecOk(s, c);
    UpdatedShape(s, p, proc, c, rec, h);
    UpdatedView(s, p, proc, c, rec, h);
    Framed(s, Update(s, p, proc, c, rec, h), p, c);
  }

  lemma UpdatedShape(s: State, p: Pid, proc: Proc, c: Pid, rec: Option<Rec>, h: Hist)
    requires Known(s) && p in s.procs && c in s.parent && Fits(s, p, proc, c)
    ensures var s' := Update(s, p, proc, c, rec, h);
            Only(s, s', p, c) && SameToOthers(s, s', p, c) && ProcOk(s', p)
  {
    UpdatedOnly(s, p, proc, c, rec, h);
    UpdatedOthers(s, p, proc, c, rec, h);
    UpdatedProc(s, p, proc, c, rec, h);
  }

  lemma UpdatedOnly(s: State, p: Pid, proc: Proc, c: Pid, rec: Option<Rec>, h: Hist)
    requires Known(s) && p in s.procs && c in s.parent
    ensures Only(s, Update(s, p, proc, c, rec, h), p, c)
  {
  }

  lemma UpdatedOthers(s: State, p: Pid, proc: Proc, c: Pid, rec: Option<Rec>, h: Hist)
    requires p in s.procs && Fits(s, p, proc, c)
    ensures SameToOthers(s, Update(s, p, proc, c, rec, h), p, c)
  {
  }

  lemma UpdatedProc(s: State, p: Pid, proc: Proc, c: Pid, rec: Option<Rec>, h: Hist)
    requires p in s.procs && Fits(s, p, proc, c)
    ensures ProcOk(Update(s, p, proc, c, rec, h), p)
  {
    Elsewhere(s.(procs := s.procs[p := proc]), Update(s, p, proc, c, rec, h), p);
  }

  lemma UpdatedView(s: State, p: Pid, proc: Proc, c: Pid, rec: Option<Rec>, h: Hist)
    requires Known(s) && p in s.procs && c in s.parent && UpdateOk(s, p, proc, c, rec, h) && RecOk(s, c)
    ensures RecOk(Update(s, p, proc, c, rec, h), c)
  {
    assert RecOf(Update(s, p, proc, c, rec, h), c) == rec;
  }

  /** A process that only moves on, to a place that names the same child or none. */
  lemma MovesOn(s: State, p: Pid, pc: Pc, c: Pid)
    requires p in s.procs
    requires var old_ := s.procs[p].pc;
             && (Named(old_).Some? ==> Named(old_).value == c) && (Named(pc).Some? ==> Named(pc).value == c)
             && ProcOk(At(s, p, pc), p) && !Ending(old_) && (p != c ==> ChildPhase(s.procs[p].(pc := pc)) == ChildPhase(s.procs[p]))
    ensures Fits(s, p, s.procs[p].(pc := pc), c)
  {
  }

  /** The child that a program counter names. */
  function Named(pc: Pc): Option<Pid> {
    match pc
    case Spawned(c) => Some(c)
    case LoadWait(c) => Some(c)
    case LoadSeen(c) => Some(c)
    case WaitCheck(c) => Some(c)
    case WaitDown(c) => Some(c)
    case WaitRead(c) => Some(c)
    case _ => None
  }

  lemma LoadInv(s: State, p: Pid, ok: bool)
    requires Inv(s) && Enabled(s, p, Load(ok))
    ensures p in s.hist && Inv(Update(s, p, s.procs[p].(pc := Loaded(ok)), p, RecOf(s, p), s.hist[p].(loaded := Some(ok))))
  {
    assert ProcOk(s, p) && RecOk(s, p);
    LoadView(p, ParentPhase(s.procs[s.parent[p]], p), RecOf(s, p), s.hist[p], ok);
    MovesOn(s, p, Loaded(ok), p);
    Updated(s, p, s.procs[p].(pc := Loaded(ok)), p, RecOf(s, p), s.hist[p].(loaded := Some(ok)));
  }

  lemma UpLoadInv(s: State, p: Pid)
    requires Inv(s) && Enabled(s, p, UpLoad) && p in s.recs && p in s.hist
    ensures Inv(OwnRecord(s, p, s.procs[p], p, s.recs[p], s.hist[p], UpLoad))
  {
    assert ProcOk(s, p) && RecOk(s, p);
    var par := ParentPhase(s.procs[s.parent[p]], p);
    var ok := s.procs[p].pc.ok;
    var pc := if ok then Run else Exit1(-1);
    UpLoadView(p, par, s.recs[p], s.hist[p], ok, -1);
    MovesOn(s, p, pc, p);
    Updated(s, p, s.procs[p].(pc := pc), p, Some(s.recs[p].(loadSema := s.recs[p].loadSema + 1)), s.hist[p]);
  }

  lemma PublishInv(s: State, p: Pid)
    requires Inv(s) && Enabled(s, p, Publish) && p in s.recs && p in s.hist
    ensures Inv(OwnRecord(s, p, s.procs[p], p, s.recs[p], s.hist[p], Publish))
  {
    assert ProcOk(s, p) && RecOk(s, p);
    var par := ParentPhase(s.procs[s.parent[p]], p);
    var st := s.procs[p].pc.status;
    PublishView(p, par, s.recs[p], s.hist[p], st);
    MovesOn(s, p, Exit2, p);
    Updated(s, p, s.procs[p].(pc := Exit2), p, Some(s.recs[p].(exitStatus := st)), s.hist[p].(published := Some(st)));
  }

  lemma SetExitedInv(s: State, p: Pid)
    requires Inv(s) && Enabled(s, p, SetExited) && p in s.recs && p in s.hist
    ensures Inv(OwnRecord(s, p, s.procs[p], p, s.recs[p], s.hist[p], SetExited))
  {
    assert ProcOk(s, p) && RecOk(s, p);
    var par := ParentPhase(s.procs[s.parent[p]], p);
    SetExitedView(p, par, s.recs[p], s.hist[p]);
    MovesOn(s, p, Exit3, p);
    Updated(s, p, s.procs[p].(pc := Exit3), p, Some(s.recs[p].(exited := true)), s.hist[p]);
  }

  lemma UpExitInv(s: State, p: Pid)
    requires Inv(s) && Enabled(s, p, UpExit) && p in s.recs && p in s.hist
    ensures Inv(OwnRecord(s, p, s.procs[p], p, s.recs[p], s.hist[p], UpExit))
  {
    assert ProcOk(s, p) && RecOk(s, p);
    var par := ParentPhase(s.procs[s.parent[p]], p);
    UpExitView(p, par, s.recs[p], s.hist[p]);
    MovesOn(s, p, Exit4, p);
    Updated(s, p, s.procs[p].(pc := Exit4), p, Some(s.recs[p].(exitSema := s.recs[p].exitSema + 1)), s.hist[p]);
  }

  lemma ReportInv(s: State, p: Pid)
    requires Inv(s) && Enabled(s, p, Report) && p in s.recs && p in s.hist
    ensures Inv(OwnRecord(s, p, s.procs[p], p, s.recs[p], s.hist[p], Report))
  {
    assert ProcOk(s, p) && RecOk(s, p);
    var par := ParentPhase(s.procs[s.parent[p]], p);
    var ok := s.procs[p].pc.ok;
    ReportView(p, par, s.recs[p], s.hist[p], ok);
    MovesOn(s, p, Reported(ok), p);
    Updated(s, p, s.procs[p].(pc := Reported(ok)), p, Some(s.recs[p].(loadSuccess := ok)), s.hist[p]);
  }

  lemma SetTidInv(s: State, p: Pid, c: Pid)
    requires Inv(s) && Enabled(s, p, SetTid) && Named(s.procs[p].pc) == Some(c) && c in s.recs && c in s.hist
    ensures Inv(ChildRecord(s, p, s.procs[p], c, s.recs[c], s.hist[c], SetTid))
  {
    assert ProcOk(s, p);
    ListedIsChild(s, p, c);
    assert RecOk(s, c);
    var chi := ChildPhase(s.procs[c]);
    SetTidView(c, chi, s.recs[c], s.hist[c]);
    MovesOn(s, p, LoadWait(c), c);
    Updated(s, p, s.procs[p].(pc := LoadWait(c)), c, Some(s.recs[c].(tid := Some(c))), s.hist[c]);
  }

  lemma DownLoadInv(s: State, p: Pid, c: Pid)
    requires Inv(s) && Enabled(s, p, DownLoad) && Named(s.procs[p].pc) == Some(c) && c in s.recs && c in s.hist
    ensures Inv(ChildRecord(s, p, s.procs[p], c, s.recs[c], s.hist[c], DownLoad))
  {
    assert ProcOk(s, p);
    ListedIsChild(s, p, c);
    assert RecOk(s, c);
    var chi := ChildPhase(s.procs[c]);
    DownLoadView(c, chi, s.recs[c], s.hist[c]);
    MovesOn(s, p, LoadSeen(c), c);
    Updated(s, p, s.procs[p].(pc := LoadSeen(c)), c, Some(s.recs[c].(loadSema := s.recs[c].loadSema - 1)), s.hist[c]);
  }

  lemma CheckInv(s: State, p: Pid, c: Pid)
    requires Inv(s) && Enabled(s, p, Check) && Named(s.procs[p].pc) == Some(c) && c in s.recs && c in s.hist
    ensures Inv(ChildRecord(s, p, s.procs[p], c, s.recs[c], s.hist[c], Check))
  {
    assert ProcOk(s, p);
    ListedIsChild(s, p, c);
    assert RecOk(s, c);
    var chi := ChildPhase(s.procs[c]);
    var pc := if s.recs[c].exited then WaitRead(c) else WaitDown(c);
    CheckView(c, chi, s.recs[c], s.hist[c]);
    MovesOn(s, p, pc, c);
    Updated(s, p, s.procs[p].(pc := pc), c, Some(s.recs[c]), s.hist[c]);
  }

  lemma DownExitInv(s: State, p: Pid, c: Pid)
    requires Inv(s) && Enabled(s, p, DownExit) && Named(s.procs[p].pc) == Some(c) && c in s.recs && c in s.hist
    ensures Inv(ChildRecord(s, p, s.procs[p], c, s.recs[c], s.hist[c], DownExit))
  {
    assert ProcOk(s, p);
    ListedIsChild(s, p, c);
    assert RecOk(s, c);
    var chi := ChildPhase(s.procs[c]);
    DownExitView(c, chi, s.recs[c], s.hist[c]);
    MovesOn(s, p, WaitRead(c), c);
    Updated(s, p, s.procs[p].(pc := WaitRead(c)), c, Some(s.recs[c].(exitSema := s.recs[c].exitSema - 1)), s.hist[c]);
  }

  lemma ReadStatusInv(s: State, p: Pid, c: Pid)
    requires Inv(s) && Enabled(s, p, ReadStatus) && Named(s.procs[p].pc) == Some(c) && c in s.recs && c in s.hist
    ensures Inv(ChildRecord(s, p, s.procs[p], c, s.recs[c], s.hist[c], ReadStatus))
  {
    assert ProcOk(s, p);
    ListedIsChild(s, p, c);
    assert RecOk(s, c);
    var chi := ChildPhase(s.procs[c]);
    var h := s.hist[c].(waited := Some(s.recs[c].exitStatus));
    ReadStatusView(c, chi, s.recs[c], s.hist[c]);
    MovesOn(s, p, Run, c);
    Updated(s, p, s.procs[p].(pc := Run), c, Released(s.recs[c]), FreedHist(s.recs[c], h));
  }

  /** A process that takes `c` off its list. */
  lemma Unlists(s: State, p: Pid, pc: Pc, c: Pid)
    requires Inv(s) && p in s.procs && c in s.procs[p].children
    requires pc == WaitCheck(c) || (pc == s.procs[p].pc && Named(pc).None?) || (pc == Run && s.procs[p].pc == LoadSeen(c))
    requires pc == WaitCheck(c) ==> s.procs[p].pc == Run
    ensures Fits(s, p, Proc(pc, Without(s.procs[p].children, c), s.procs[p].info), c)
  {
    var before := s.procs[p];
    var proc := Proc(pc, Without(before.children, c), before.info);
    assert ProcOk(s, p);
    WithoutIs(before.children, c);
    UnlistsOk(s, p, pc, c);
    forall d | d in s.parent && d != c && s.parent[d] == p ensures ParentPhase(proc, d) == ParentPhase(before, d) {
      assert d in proc.children <==> d in before.children;
    }
  }

  lemma UnlistedPhase(children: seq<Pid>, pc: Pc, info: Option<Pid>, c: Pid)
    requires Distinct(children) && (pc == WaitCheck(c) || Named(pc).None?)
    ensures ParentPhase(Proc(pc, Without(children, c), info), c) == if pc == WaitCheck(c) then PCheck else PDone
  {
    WithoutIs(children, c);
  }

  lemma UnlistsOk(s: State, p: Pid, pc: Pc, c: Pid)
    requires Inv(s) && p in s.procs && c in s.procs[p].children
    requires pc == WaitCheck(c) || (pc == s.procs[p].pc && Named(pc).None?) || (pc == Run && s.procs[p].pc == LoadSeen(c))
    requires pc == WaitCheck(c) ==> s.procs[p].pc == Run
    ensures ProcOk(s.(procs := s.procs[p := Proc(pc, Without(s.procs[p].children, c), s.procs[p].info)]), p)
  {
    assert ProcOk(s, p);
    var children := s.procs[p].children;
    WithoutIs(children, c);
    ListedIsChild(s, p, c);
    var w := Without(children, c);
    var t := s.(procs := s.procs[p := Proc(pc, w, s.procs[p].info)]);
    assert IsChild(t, p, c);
    forall i | 0 <= i < |w| ensures IsChild(t, p, w[i]) {
      assert w[i] in children;
      ListedIsChild(s, p, w[i]);
    }
  }

  lemma SeeLoadInv(s: State, p: Pid, c: Pid)
    requires Inv(s) && Enabled(s, p, SeeLoad) && Named(s.procs[p].pc) == Some(c) && c in s.recs && c in s.hist
    ensures Inv(ChildRecord(s, p, s.procs[p], c, s.recs[c], s.hist[c], SeeLoad))
  {
    assert ProcOk(s, p);
    ListedIsChild(s, p, c);
    assert RecOk(s, c);
    var chi, rec, h := ChildPhase(s.procs[c]), s.recs[c], s.hist[c];
    SeeLoadView(c, chi, rec, h);
    if rec.loadSuccess {
      MovesOn(s, p, Run, c);
      Updated(s, p, s.procs[p].(pc := Run), c, Some(rec), h.(execd := Some(true)));
    } else {
      SeeFailure(s, p, c);
    }
  }

  lemma SeeFailure(s: State, p: Pid, c: Pid)
    requires Inv(s) && p in s.procs && s.procs[p].pc == LoadSeen(c) && c in s.recs && c in s.hist && !s.recs[c].loadSuccess
    ensures var proc := Proc(Run, Without(s.procs[p].children, c), s.procs[p].info);
            Inv(Update(s, p, proc, c, Released(s.recs[c]), FreedHist(s.recs[c], s.hist[c].(execd := Some(false)))))
  {
    assert ProcOk(s, p);
    ListedIsChild(s, p, c);
    assert RecOk(s, c);
    SeeLoadView(c, ChildPhase(s.procs[c]), s.recs[c], s.hist[c]);
    UnlistedPhase(s.procs[p].children, Run, s.procs[p].info, c);
    Unlists(s, p, Run, c);
    Updated(s, p, Proc(Run, Without(s.procs[p].children, c), s.procs[p].info), c, Released(s.recs[c]),
            FreedHist(s.recs[c], s.hist[c].(execd := Some(false))));
  }

  lemma WaitInv(s: State, p: Pid, c: Pid, tid: Pid)
    requires Inv(s) && p in s.procs && s.procs[p].pc.Run? && c in s.procs[p].children && c in s.recs && c in s.hist
    ensures Inv(ChildRecord(s, p, s.procs[p], c, s.recs[c], s.hist[c], Wait(tid)))
  {
    assert ProcOk(s, p);
    ListedIsChild(s, p, c);
    assert RecOk(s, c);
    WaitView(c, ChildPhase(s.procs[c]), s.recs[c], s.hist[c]);
    UnlistedPhase(s.procs[p].children, WaitCheck(c), s.procs[p].info, c);
    Unlists(s, p, WaitCheck(c), c);
    Updated(s, p, Proc(WaitCheck(c), Without(s.procs[p].children, c), s.procs[p].info), c, Some(s.recs[c]), s.hist[c]);
  }

  lemma ReapOneInv(s: State, p: Pid, c: Pid)
    requires Inv(s) && p in s.procs && s.procs[p].pc.Reap? && c in s.procs[p].children && c in s.recs && c in s.hist
    ensures Inv(ChildRecord(s, p, s.procs[p], c, s.recs[c], s.hist[c], ReapOne))
  {
    assert ProcOk(s, p);
    ListedIsChild(s, p, c);
    assert RecOk(s, c);
    ReapView(c, ChildPhase(s.procs[c]), s.recs[c], s.hist[c]);
    UnlistedPhase(s.procs[p].children, Reap, s.procs[p].info, c);
    Unlists(s, p, Reap, c);
    Updated(s, p, Proc(Reap, Without(s.procs[p].children, c), s.procs[p].info), c, Released(s.recs[c]), FreedHist(s.recs[c], s.hist[c]));
  }

  lemma ReleaseOwnInv(s: State, p: Pid)
    requires Inv(s) && Enabled(s, p, ReleaseOwn) && p in s.recs && p in s.hist
    ensures Inv(OwnRecord(s, p, s.procs[p], p, s.recs[p], s.hist[p], ReleaseOwn))
  {
    assert ProcOk(s, p) && RecOk(s, p);
    ReleaseOwnView(p, ParentPhase(s.procs[s.parent[p]], p), s.recs[p], s.hist[p]);
    var proc := Proc(Reap, s.procs[p].children, None);
    var t := s.(procs := s.procs[p := proc]);
    forall i | 0 <= i < |proc.children| ensures IsChild(t, p, proc.children[i]) { assert IsChild(s, p, proc.children[i]); }
    Updated(s, p, proc, p, Released(s.recs[p]), FreedHist(s.recs[p], s.hist[p]));
  }

  /** Steps that touch no record. */
  lemma QuietInv(s: State, p: Pid, pc: Pc)
    requires Inv(s) && p in s.procs
    requires (s.procs[p].pc == Reap && pc == Dead) || (s.procs[p].pc == Run && (if s.procs[p].info.None? then pc == Reap else pc.Exit1?))
    ensures Inv(At(s, p, pc))
  {
    assert ProcOk(s, p);
    var s' := At(s, p, pc);
    QuietOk(s, p, pc);
    QuietOthers(s, p, pc);
    if p in s.parent { QuietView(s, p, pc); }
    Framed(s, s', p, p);
  }

  lemma QuietOthers(s: State, p: Pid, pc: Pc)
    requires p in s.procs && Named(pc).None? && Named(s.procs[p].pc).None? && (Ending(s.procs[p].pc) ==> Ending(pc)) && Known(s)
    ensures SameToOthers(s, At(s, p, pc), p, p) && Only(s, At(s, p, pc), p, p)
  {
  }

  lemma QuietOk(s: State, p: Pid, pc: Pc)
    requires Inv(s) && p in s.procs
    requires (s.procs[p].pc == Reap && pc == Dead) || (s.procs[p].pc == Run && (if s.procs[p].info.None? then pc == Reap else pc.Exit1?))
    ensures ProcOk(At(s, p, pc), p)
  {
    assert ProcOk(s, p);
    var s', proc := At(s, p, pc), s.procs[p];
    forall i | 0 <= i < |proc.children| ensures IsChild(s', p, proc.children[i]) { assert IsChild(s, p, proc.children[i]); }
  }

  lemma QuietView(s: State, p: Pid, pc: Pc)
    requires Inv(s) && p in s.parent
    requires (s.procs[p].pc == Reap && pc == Dead) || (s.procs[p].pc == Run && (if s.procs[p].info.None? then pc == Reap else pc.Exit1?))
    ensures RecOk(At(s, p, pc), p)
  {
    assert ProcOk(s, p) && RecOk(s, p);
    if s.procs[p].info.Some? {
      StartExitView(p, ParentPhase(s.procs[s.parent[p]], p), RecOf(s, p), s.hist[p], pc.status);
    }
  }

  lemma SpawnInv(s: State, p: Pid)
    requires Inv(s) && p in s.procs && s.procs[p].pc.Run?
    ensures Inv(Spawn(s, p))
  {
    var s', c := Spawn(s, p), s.next;
    SpawnKnown(s, p);
    forall q | q in s'.procs ensures ProcOk(s', q) {
      if q != c && q != p {
        assert ProcOk(s, q);
        Elsewhere(s, s', q);
      } else if q == p {
        SpawnerOk(s, p);
      }
    }
    forall d | d in s'.parent ensures RecOk(s', d) {
      if d != c { SpawnOthers(s, p, d); } else { SpawnView(c); }
    }
  }

  lemma SpawnKnown(s: State, p: Pid)
    requires Known(s) && p in s.procs
    ensures Known(Spawn(s, p)) && s.next !in s.procs && s.next !in s.parent && p < s.next
  {
  }

  lemma SpawnView(c: Pid)
    ensures ViewOk(c, PSpawned, FBegin, Some(Rec(None, -1, false, false, 2, 0, 0)), Hist(None, None, None, None, 0))
  {
  }

  lemma SpawnOthers(s: State, p: Pid, d: Pid)
    requires Inv(s) && p in s.procs && s.procs[p].pc.Run? && d in s.parent
    ensures d != s.next && d in Spawn(s, p).parent && Spawn(s, p).parent[d] == s.parent[d] && RecOk(Spawn(s, p), d)
  {
    var s' := Spawn(s, p);
    assert RecOk(s, d);
    assert ParentPhase(s'.procs[s.parent[d]], d) == ParentPhase(s.procs[s.parent[d]], d);
    assert ChildPhase(s'.procs[d]) == ChildPhase(s.procs[d]);
  }

  lemma Elsewhere(s: State, s': State, q: Pid)
    requires q in s.procs && q in s'.procs && ProcOk(s, q) && s'.procs[q] == s.procs[q]
    requires s'.hist.Keys >= s.hist.Keys && forall c | c in s.parent :: c in s'.parent && s'.parent[c] == s.parent[c]
    ensures ProcOk(s', q)
  {
    var proc := s.procs[q];
    forall i | 0 <= i < |proc.children| ensures IsChild(s', q, proc.children[i]) { assert IsChild(s, q, proc.children[i]); }
  }

  lemma SpawnerOk(s: State, p: Pid)
    requires Inv(s) && p in s.procs && s.procs[p].pc.Run?
    ensures ProcOk(Spawn(s, p), p)
  {
    var s', c := Spawn(s, p), s.next;
    assert ProcOk(s, p);
    var children := s.procs[p].children;
    forall i | 0 <= i < |children| ensures children[i] != c && IsChild(s', p, children[i]) { assert IsChild(s, p, children[i]); }
    assert IsChild(s', p, c);
    assert (children + [c])[|children|] == c;
  }

  lemma ChildStepInv(s: State, p: Pid, a: Action)
    requires Inv(s) && Enabled(s, p, a) && Safe(s, p, a)
    requires a.Load? || a.Report? || a.UpLoad? || a.StartExit? || a.Publish? || a.SetExited? || a.UpExit? || a.ReleaseOwn?
    ensures Inv(ChildStep(s, p, a))
  {
    assert ProcOk(s, p);
    match a
    case Load(ok) => LoadInv(s, p, ok);
    case StartExit(status) => QuietInv(s, p, if s.procs[p].info.None? then Reap else Exit1(status));
    case Report => ReportInv(s, p);
    case UpLoad => UpLoadInv(s, p);
    case Publish => PublishInv(s, p);
    case SetExited => SetExitedInv(s, p);
    case UpExit => UpExitInv(s, p);
    case ReleaseOwn => ReleaseOwnInv(s, p);
  }

  lemma ParentStepInv(s: State, p: Pid, a: Action)
    requires Inv(s) && Enabled(s, p, a) && Safe(s, p, a)
    requires !(a.Load? || a.Report? || a.UpLoad? || a.StartExit? || a.Publish? || a.SetExited? || a.UpExit? || a.ReleaseOwn? || a.Exec?)
    ensures Inv(ParentStep(s, p, a))
  {
    if a.Die? {
      QuietInv(s, p, Dead);
    } else if Touches(s, p, a).Some? {
      var c := Touches(s, p, a).value;
      match a
      case SetTid => SetTidInv(s, p, c);
      case DownLoad => DownLoadInv(s, p, c);
      case SeeLoad => SeeLoadInv(s, p, c);
      case Check => CheckInv(s, p, c);
      case DownExit => DownExitInv(s, p, c);
      case ReadStatus => ReadStatusInv(s, p, c);
      case Wait(tid) =>
        FoundIsListed(s, s.procs[p].children, tid);
        WaitInv(s, p, c, tid);
      case ReapOne => ReapOneInv(s, p, c);
    }
  }

  lemma StepInv(s: State, p: Pid, a: Action)
    requires Inv(s) && Enabled(s, p, a)
    ensures Safe(s, p, a) && Inv(Apply(s, p, a))
  {
    NeverFreed(s, p, a);
    if a.Exec? {
      SpawnInv(s, p);
    } else if a.Load? || a.Report? || a.UpLoad? || a.StartExit? || a.Publish? || a.SetExited? || a.UpExit? || a.ReleaseOwn? {
      ChildStepInv(s, p, a);
    } else {
      ParentStepInv(s, p, a);
    }
  }

  // ------------------------------------------------------------------ every run

  datatype Step = Step(who: Pid, action: Action)

  /** A run: each step could be taken when it was. */
  ghost predicate Executes(run: seq<Step>) {
    run == [] ||
    var before := run[..|run| - 1];
    var step := run[|run| - 1];
    Executes(before) && Enabled(After(before), step.who, step.action)
  }

  /** The state a run leads to; a step on a freed record would lead nowhere, but there are none. */
  function After(run: seq<Step>): State {
    if run == [] then Init()
    else
      var s := After(run[..|run| - 1]);
      var step := run[|run| - 1];
      if Enabled(s, step.who, step.action) && Safe(s, step.who, step.action) then Apply(s, step.who, step.action) else s
  }

  lemma {:induction false} RunInv(run: seq<Step>)
    requires Executes(run)
    ensures Inv(After(run))
  {
    if run == [] {
      InitInv();
    } else {
      RunInv(run[..|run| - 1]);
      StepInv(After(run[..|run| - 1]), run[|run| - 1].who, run[|run| - 1].action);
    }
  }

  /** No step of any run looks at or changes a record that has been freed. */
  lemma NoUseAfterFree(run: seq<Step>, p: Pid, a: Action)
    requires Executes(run) && Enabled(After(run), p, a)
    ensures Safe(After(run), p, a)
  {
    RunInv(run);
    NeverFreed(After(run), p, a);
  }

  /** A record is freed once, exactly when neither side can reach it any more. */
  lemma FreedOnce(run: seq<Step>, c: Pid)
    requires Executes(run) && c in After(run).parent
    ensures var s := After(run);
            && s.parent[c] in s.procs && c in s.procs && c in s.hist && s.hist[c].frees <= 1
            && (s.hist[c].frees == 1 <==> c !in s.recs)
            && (s.hist[c].frees == 1 <==> ParentPhase(s.procs[s.parent[c]], c) == PDone && ChildPhase(s.procs[c]) == FGone)
  {
    RunInv(run);
    assert RecOk(After(run), c);
  }

  /** What exec and wait have returned is what the child did: exec fails exactly if loading failed, and
      wait returns the status the child exited with. */
  lemma ReturnsAreTrue(run: seq<Step>, c: Pid)
    requires Executes(run) && c in After(run).parent
    ensures var s := After(run);
            && c in s.hist
            && (s.hist[c].execd.Some? ==> s.hist[c].execd == s.hist[c].loaded)
            && (s.hist[c].waited.Some? ==> s.hist[c].waited == s.hist[c].published)
  {
    RunInv(run);
    assert RecOk(After(run), c);
  }

  /** A wait finds a child only if it is the caller's, was loaded, and has not been waited for; otherwise
      it returns -1 at once. */
  lemma WaitsOnce(run: seq<Step>, p: Pid, tid: Pid)
    requires Executes(run) && p in After(run).procs && After(run).procs[p].pc.Run?
    ensures var s := After(run);
            var found := FindChild(s, s.procs[p].children, tid);
            && (found.Some? ==>
                  && found.value == tid && IsChild(s, p, tid) && tid in s.hist
                  && s.hist[tid].waited == None && s.hist[tid].execd == Some(true))
            && (IsChild(s, p, tid) && tid in s.hist && s.hist[tid].waited == None && s.hist[tid].execd == Some(true) ==> found == Some(tid))
  {
    RunInv(run);
    FoundIsFresh(After(run), p, tid);
    if IsChild(After(run), p, tid) { StillListed(After(run), p, tid); }
  }

  lemma FoundIsFresh(s: State, p: Pid, tid: Pid)
    requires Inv(s) && p in s.procs && s.procs[p].pc.Run?
    ensures var found := FindChild(s, s.procs[p].children, tid);
            found.Some? ==>
              && found.value == tid && IsChild(s, p, tid) && tid in s.hist
              && s.hist[tid].waited == None && s.hist[tid].execd == Some(true)
  {
    assert ProcOk(s, p);
    FoundIsListed(s, s.procs[p].children, tid);
    var found := FindChild(s, s.procs[p].children, tid);
    if found.Some? {
      ListedIsChild(s, p, found.value);
      assert RecOk(s, found.value);
    }
  }

  lemma StillListed(s: State, p: Pid, tid: Pid)
    requires Inv(s) && p in s.procs && s.procs[p].pc.Run? && IsChild(s, p, tid)
    ensures tid in s.hist && (s.hist[tid].waited == None && s.hist[tid].execd == Some(true) ==> FindChild(s, s.procs[p].children, tid) == Some(tid))
  {
    assert ProcOk(s, p) && RecOk(s, tid);
    var children := s.procs[p].children;
    FoundIsListed(s, children, tid);
    var found := FindChild(s, children, tid);
    if s.hist[tid].waited == None && s.hist[tid].execd == Some(true) {
      assert tid in children && s.recs[tid].tid == Some(tid);
      var i :| 0 <= i < |children| && children[i] == tid;
      assert found.Some?;
      ListedIsChild(s, p, found.value);
      assert RecOk(s, found.value);
    }
  }

  /** Has the child told its parent how loading went?  That it has exited? */
  predicate HasReported(f: Filial) { !f.FBegin? && !f.FLoaded? && !f.FReported? }

  predicate HasExited(f: Filial) { f.FExit4? || f.FGone? }

  /** No wakeup is lost: a parent waits exactly as long as the child has not got there. */
  lemma NoLostWakeup(run: seq<Step>, p: Pid, c: Pid)
    requires Executes(run) && p in After(run).procs && c in After(run).parent
    ensures var s := After(run);
            && c in s.procs
            && (s.procs[p].pc == LoadWait(c) ==> (Enabled(s, p, DownLoad) <==> HasReported(ChildPhase(s.procs[c]))))
            && (s.procs[p].pc == WaitDown(c) ==> (Enabled(s, p, DownExit) <==> HasExited(ChildPhase(s.procs[c]))))
  {
    RunInv(run);
    Wakes(After(run), p, c);
  }

  lemma Wakes(s: State, p: Pid, c: Pid)
    requires Inv(s) && p in s.procs && c in s.parent
    ensures s.procs[p].pc == LoadWait(c) ==> (Enabled(s, p, DownLoad) <==> HasReported(ChildPhase(s.procs[c])))
    ensures s.procs[p].pc == WaitDown(c) ==> (Enabled(s, p, DownExit) <==> HasExited(ChildPhase(s.procs[c])))
  {
    assert ProcOk(s, p) && RecOk(s, c);
    ListedIsChild(s, p, c);
  }

  /** What is in a record's history stays there: in particular a later step never changes what wait returned. */
  ghost predicate Grows(h: Hist, h': Hist) {
    && (h.loaded.Some? ==> h'.loaded == h.loaded) && (h.published.Some? ==> h'.published == h.published)
    && (h.execd.Some? ==> h'.execd == h.execd) && (h.waited.Some? ==> h'.waited == h.waited)
    && h.frees <= h'.frees
  }

  lemma HistoryGrows(s: State, p: Pid, a: Action, c: Pid)
    requires Inv(s) && Enabled(s, p, a) && Safe(s, p, a) && c in s.hist
    ensures c in Apply(s, p, a).hist && Grows(s.hist[c], Apply(s, p, a).hist[c])
  {
    if a.Load? || a.Report? || a.UpLoad? || a.StartExit? || a.Publish? || a.SetExited? || a.UpExit? || a.ReleaseOwn? {
      ChildStepGrows(s, p, a, c);
    } else if !a.Exec? {
      ParentStepGrows(s, p, a, c);
    } else {
      assert c != s.next;
    }
  }

  lemma ChildStepGrows(s: State, p: Pid, a: Action, c: Pid)
    requires Inv(s) && Enabled(s, p, a) && Safe(s, p, a) && c in s.hist
    requires a.Load? || a.Report? || a.UpLoad? || a.StartExit? || a.Publish? || a.SetExited? || a.UpExit? || a.ReleaseOwn?
    ensures c in ChildStep(s, p, a).hist && Grows(s.hist[c], ChildStep(s, p, a).hist[c])
  {
    assert ProcOk(s, p) && RecOk(s, c);
    if Touches(s, p, a) == Some(c) { OwnGrows(s, p, s.procs[p], c, a); }
  }

  lemma ParentStepGrows(s: State, p: Pid, a: Action, c: Pid)
    requires Inv(s) && Enabled(s, p, a) && Safe(s, p, a) && c in s.hist
    requires !(a.Load? || a.Report? || a.UpLoad? || a.StartExit? || a.Publish? || a.SetExited? || a.UpExit? || a.ReleaseOwn? || a.Exec?)
    ensures c in ParentStep(s, p, a).hist && Grows(s.hist[c], ParentStep(s, p, a).hist[c])
  {
    if Touches(s, p, a) == Some(c) { ChildGrows(s, p, s.procs[p], c, a); }
  }

  lemma OwnGrows(s: State, p: Pid, proc: Proc, c: Pid, a: Action)
    requires Inv(s) && c in s.recs && c in s.hist && p in s.procs && proc == s.procs[p] && Enabled(s, p, a)
    ensures p == c ==> Grows(s.hist[c], OwnRecord(s, p, proc, c, s.recs[c], s.hist[c], a).hist[c])
  {
    assert RecOk(s, c) && ProcOk(s, p);
  }

  lemma ChildGrows(s: State, p: Pid, proc: Proc, c: Pid, a: Action)
    requires Inv(s) && c in s.recs && c in s.hist && p in s.procs && proc == s.procs[p] && Enabled(s, p, a)
    ensures Named(proc.pc) == Some(c) || a.Wait? || a.ReapOne? ==> Grows(s.hist[c], ChildRecord(s, p, proc, c, s.recs[c], s.hist[c], a).hist[c])
  {
    assert RecOk(s, c) && ProcOk(s, p);
    ListedIsChild(s, p, c);
  }
}
