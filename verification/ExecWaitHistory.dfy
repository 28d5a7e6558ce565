/** What exec and wait return, told by the steps of the run that led there; and that no process gets stuck. */
module ExecWaitHistory {
  import opened ExecWait
  import opened Options

  /** How the loads of process `c` went, and the statuses with which it asked to exit, in order. */
  ghost function LoadsOf(run: seq<Step>, c: Pid): seq<bool> {
    if run == [] then []
    else
      var step := run[|run| - 1];
      LoadsOf(run[..|run| - 1], c) + if step.who == c && step.action.Load? then [step.action.ok] else []
  }

  ghost function ExitsOf(run: seq<Step>, c: Pid): seq<int> {
    if run == [] then []
    else
      var step := run[|run| - 1];
      ExitsOf(run[..|run| - 1], c) + if step.who == c && step.action.StartExit? then [step.action.status] else []
  }

  /** What the state says of a process that somebody started is what it has done so far.  One that could not
      be loaded exits with -1 without asking. */
  predicate Tells(proc: Proc, h: Hist, loads: seq<bool>, exits: seq<int>) {
    var chi := ChildPhase(proc);
    && loads == (if h.loaded.None? then [] else [h.loaded.value])
    && exits == (if chi.FBegin? || chi.FLoaded? || chi.FReported? || chi.FRunning? || h.loaded == Some(false) then []
                 else if chi.FExit1? then [chi.status]
                 else if h.published.Some? then [h.published.value] else [])
    && (h.loaded == Some(false) ==> (chi.FExit1? ==> chi.status == -1) && (h.published.Some? ==> h.published == Some(-1)))
    && (proc.info.None? ==> Ending(proc.pc))
  }

  predicate Told(s: State, c: Pid, loads: seq<bool>, exits: seq<int>) {
    && (c !in s.procs ==> loads == [] && exits == [])
    && (c in s.procs && c in s.hist ==> Tells(s.procs[c], s.hist[c], loads, exits))
  }

  predicate IsOwn(a: Action) {
    a.Load? || a.Report? || a.UpLoad? || a.StartExit? || a.Publish? || a.SetExited? || a.UpExit? || a.ReleaseOwn?
  }

  /** The same process at the same point of its life, and the same has been said of it. */
  predicate SameTale(proc: Proc, h: Hist, proc': Proc, h': Hist) {
    && ChildPhase(proc') == ChildPhase(proc) && (Ending(proc.pc) ==> Ending(proc'.pc)) && proc'.info == proc.info
    && h'.loaded == h.loaded && h'.published == h.published
  }

  ghost predicate SameOf(s: State, s': State, c: Pid)
    requires c in s.procs
  {
    && c in s'.procs && (c in s'.hist <==> c in s.hist)
    && (c in s.hist ==> SameTale(s.procs[c], s.hist[c], s'.procs[c], s'.hist[c]))
  }

  lemma OwnElsewhere(s: State, p: Pid, a: Action, c: Pid)
    requires Inv(s) && Enabled(s, p, a) && Safe(s, p, a) && IsOwn(a) && c != p && c in s.procs
    ensures SameOf(s, ChildStep(s, p, a), c)
  {
    assert ProcOk(s, p);
  }

  lemma ParentKeeps(s: State, p: Pid, a: Action, c: Pid)
    requires Inv(s) && Enabled(s, p, a) && Safe(s, p, a) && !IsOwn(a) && !a.Exec? && c in s.procs
    ensures SameOf(s, ParentStep(s, p, a), c)
  {
    assert ProcOk(s, p);
    if !a.Die? && Touches(s, p, a).Some? {
      var d := Touches(s, p, a).value;
      ChildRecordKeeps(s, p, d, a, c);
    }
  }

  lemma ChildRecordKeeps(s: State, p: Pid, d: Pid, a: Action, c: Pid)
    requires Enabled(s, p, a) && !IsOwn(a) && !a.Exec? && !a.Die? && c in s.procs && d in s.recs && d in s.hist
    ensures SameOf(s, ChildRecord(s, p, s.procs[p], d, s.recs[d], s.hist[d], a), c)
  {
  }

  lemma SpawnKeeps(s: State, p: Pid, c: Pid)
    requires Inv(s) && p in s.procs && s.procs[p].pc.Run? && c in s.procs
    ensures SameOf(s, Spawn(s, p), c)
  {
    SpawnKnown(s, p);
  }

  /** Nobody but the process itself changes what it has done, and it only by steps of a child. */
  lemma OthersKeep(s: State, p: Pid, a: Action, c: Pid)
    requires Inv(s) && Enabled(s, p, a) && Safe(s, p, a) && c in s.procs && (c != p || !IsOwn(a))
    ensures SameOf(s, Apply(s, p, a), c)
  {
    if a.Exec? {
      SpawnKeeps(s, p, c);
    } else if IsOwn(a) {
      OwnElsewhere(s, p, a, c);
    } else {
      ParentKeeps(s, p, a, c);
    }
  }

  lemma OwnAddsNone(s: State, p: Pid, a: Action)
    requires Enabled(s, p, a) && Safe(s, p, a) && IsOwn(a)
    ensures ChildStep(s, p, a).procs.Keys == s.procs.Keys
  {
  }

  lemma ParentAddsNone(s: State, p: Pid, a: Action)
    requires Enabled(s, p, a) && Safe(s, p, a) && !IsOwn(a) && !a.Exec?
    ensures ParentStep(s, p, a).procs.Keys == s.procs.Keys
  {
  }

  lemma Newcomer(s: State, p: Pid, a: Action, c: Pid)
    requires Inv(s) && Enabled(s, p, a) && Safe(s, p, a) && c !in s.procs
    ensures Told(Apply(s, p, a), c, [], [])
  {
    if a.Exec? {
      SpawnKnown(s, p);
    } else if IsOwn(a) {
      OwnAddsNone(s, p, a);
    } else {
      ParentAddsNone(s, p, a);
    }
  }

  /** What the process itself does. */
  lemma OwnSteps(s: State, c: Pid, a: Action, loads: seq<bool>, exits: seq<int>)
    requires Inv(s) && Enabled(s, c, a) && Safe(s, c, a) && IsOwn(a) && c in s.hist && Tells(s.procs[c], s.hist[c], loads, exits)
    ensures var s' := ChildStep(s, c, a);
            && c in s'.hist && c in s'.procs
            && Tells(s'.procs[c], s'.hist[c], if a.Load? then loads + [a.ok] else loads,
                     if a.StartExit? then exits + [a.status] else exits)
  {
    assert ProcOk(s, c) && RecOk(s, c);
    if !a.Load? && !a.StartExit? {
      OwnRecordTells(s, c, s.procs[c], s.recs[c], s.hist[c], a, loads, exits);
    }
  }

  lemma OwnRecordTells(s: State, c: Pid, proc: Proc, rec: Rec, h: Hist, a: Action, loads: seq<bool>, exits: seq<int>)
    requires IsOwn(a) && !a.Load? && !a.StartExit? && c in s.procs && proc == s.procs[c] && Enabled(s, c, a)
    requires proc.info.Some? && (h.loaded.None? <==> ChildPhase(proc).FBegin?)
    requires Tells(proc, h, loads, exits)
    requires proc.pc.Reported? ==> h.loaded == Some(proc.pc.ok)
    requires proc.pc.Exit2? || proc.pc.Exit3? || proc.pc.Exit4? ==> h.published.Some?
    ensures var s' := OwnRecord(s, c, proc, c, rec, h, a);
            c in s'.hist && c in s'.procs && Tells(s'.procs[c], s'.hist[c], loads, exits)
  {
  }

  lemma ToldStep(s: State, p: Pid, a: Action, c: Pid, loads: seq<bool>, exits: seq<int>)
    requires Inv(s) && Enabled(s, p, a) && Safe(s, p, a) && Told(s, c, loads, exits)
    ensures Told(Apply(s, p, a), c, if p == c && a.Load? then loads + [a.ok] else loads,
                 if p == c && a.StartExit? then exits + [a.status] else exits)
  {
    if c !in s.procs {
      Newcomer(s, p, a, c);
    } else if p == c && IsOwn(a) {
      OwnTold(s, c, a, loads, exits);
    } else {
      OthersKeep(s, p, a, c);
      SameIsTold(s, Apply(s, p, a), c, loads, exits);
    }
  }

  lemma SameIsTold(s: State, s': State, c: Pid, loads: seq<bool>, exits: seq<int>)
    requires c in s.procs && SameOf(s, s', c) && Told(s, c, loads, exits)
    ensures Told(s', c, loads, exits)
  {
  }

  lemma OwnTold(s: State, c: Pid, a: Action, loads: seq<bool>, exits: seq<int>)
    requires Inv(s) && Enabled(s, c, a) && Safe(s, c, a) && IsOwn(a) && Told(s, c, loads, exits)
    ensures Told(Apply(s, c, a), c, if a.Load? then loads + [a.ok] else loads, if a.StartExit? then exits + [a.status] else exits)
  {
    OwnAddsNone(s, c, a);
    if c in s.hist { OwnSteps(s, c, a, loads, exits); } else { Unstarted(s, c, a); }
  }

  /** The first process has no record. */
  lemma Unstarted(s: State, c: Pid, a: Action)
    requires Inv(s) && Enabled(s, c, a) && Safe(s, c, a) && IsOwn(a) && c !in s.hist
    ensures c !in ChildStep(s, c, a).hist
  {
    assert ProcOk(s, c);
  }

  lemma {:induction false} RunTold(run: seq<Step>, c: Pid)
    requires Executes(run)
    ensures Told(After(run), c, LoadsOf(run, c), ExitsOf(run, c))
  {
    if run != [] {
      var before, step := run[..|run| - 1], run[|run| - 1];
      RunTold(before, c);
      RunInv(before);
      StepInv(After(before), step.who, step.action);
      ToldStep(After(before), step.who, step.action, c, LoadsOf(before, c), ExitsOf(before, c));
      assert LoadsOf(before, c) + [] == LoadsOf(before, c) && ExitsOf(before, c) + [] == ExitsOf(before, c);
    }
  }

  lemma {:induction false} NoExit(run: seq<Step>, c: Pid)
    requires ExitsOf(run, c) == []
    ensures forall j | 0 <= j < |run| :: !(run[j].who == c && run[j].action.StartExit?)
  {
    if run != [] {
      var before := run[..|run| - 1];
      NoExit(before, c);
      forall j | 0 <= j < |run| ensures !(run[j].who == c && run[j].action.StartExit?) {
        if j < |run| - 1 { assert before[j] == run[j]; }
      }
    }
  }

  lemma {:induction false} OneExit(run: seq<Step>, c: Pid, status: int) returns (i: nat)
    requires ExitsOf(run, c) == [status]
    ensures i < |run| && run[i] == Step(c, StartExit(status))
    ensures forall j | 0 <= j < |run| && run[j].who == c && run[j].action.StartExit? :: j == i
  {
    var before, step := run[..|run| - 1], run[|run| - 1];
    if step.who == c && step.action.StartExit? {
      assert ExitsOf(before, c) == (ExitsOf(before, c) + [step.action.status])[..0];
      NoExit(before, c);
      i := |run| - 1;
    } else {
      assert ExitsOf(before, c) + [] == ExitsOf(before, c);
      i := OneExit(before, c, status);
    }
    forall j | 0 <= j < |run| && run[j].who == c && run[j].action.StartExit? ensures j == i {
      if j < |run| - 1 { assert before[j] == run[j]; }
    }
  }

  lemma {:induction false} NoLoad(run: seq<Step>, c: Pid)
    requires LoadsOf(run, c) == []
    ensures forall j | 0 <= j < |run| :: !(run[j].who == c && run[j].action.Load?)
  {
    if run != [] {
      var before := run[..|run| - 1];
      NoLoad(before, c);
      forall j | 0 <= j < |run| ensures !(run[j].who == c && run[j].action.Load?) {
        if j < |run| - 1 { assert before[j] == run[j]; }
      }
    }
  }

  lemma {:induction false} OneLoad(run: seq<Step>, c: Pid, ok: bool) returns (i: nat)
    requires LoadsOf(run, c) == [ok]
    ensures i < |run| && run[i] == Step(c, Load(ok))
    ensures forall j | 0 <= j < |run| && run[j].who == c && run[j].action.Load? :: j == i
  {
    var before, step := run[..|run| - 1], run[|run| - 1];
    if step.who == c && step.action.Load? {
      assert LoadsOf(before, c) == (LoadsOf(before, c) + [step.action.ok])[..0];
      NoLoad(before, c);
      i := |run| - 1;
    } else {
      assert LoadsOf(before, c) + [] == LoadsOf(before, c);
      i := OneLoad(before, c, ok);
    }
    forall j | 0 <= j < |run| && run[j].who == c && run[j].action.Load? ensures j == i {
      if j < |run| - 1 { assert before[j] == run[j]; }
    }
  }

  /** If wait has returned a status, the child has asked to exit with it, and has not asked to exit with any
      other before or since. */
  lemma WaitReturnsExit(run: seq<Step>, c: Pid, status: int)
    requires Executes(run) && c in After(run).hist && After(run).hist[c].waited == Some(status)
    ensures exists i | 0 <= i < |run| ::
              && run[i] == Step(c, StartExit(status))
              && forall j | 0 <= j < |run| && run[j].who == c && run[j].action.StartExit? :: j == i
  {
    RunInv(run);
    RunTold(run, c);
    WaitedAfterExit(After(run), c);
    var i := OneExit(run, c, status);
  }

  lemma WaitedAfterExit(s: State, c: Pid)
    requires Inv(s) && c in s.hist && s.hist[c].waited.Some?
    ensures c in s.procs && s.hist[c].published == s.hist[c].waited && s.hist[c].loaded == Some(true)
    ensures var f := ChildPhase(s.procs[c]); f.FExit2? || f.FExit3? || f.FExit4? || f.FGone?
  {
    assert RecOk(s, c);
  }

  /** What exec has reported is how the child's one load went. */
  lemma ExecReturnsLoad(run: seq<Step>, c: Pid, ok: bool)
    requires Executes(run) && c in After(run).hist && After(run).hist[c].execd.Some?
    ensures After(run).hist[c].execd == Some(ok) <==> Step(c, Load(ok)) in run
    ensures exists i | 0 <= i < |run| ::
              && run[i].who == c && run[i].action == Load(After(run).hist[c].execd.value)
              && forall j | 0 <= j < |run| && run[j].who == c && run[j].action.Load? :: j == i
  {
    RunInv(run);
    RunTold(run, c);
    assert RecOk(After(run), c);
    var i := OneLoad(run, c, After(run).hist[c].execd.value);
    if Step(c, Load(ok)) in run {
      var j :| 0 <= j < |run| && run[j] == Step(c, Load(ok));
    }
  }

  // ------------------------------------------------------------------ nobody is stuck

  /** A step for a process that is neither dead nor waiting for another. */
  function NextStep(proc: Proc): Action {
    match proc.pc
    case Begin => Load(true)
    case Loaded(_) => Report
    case Reported(_) => UpLoad
    case Exit1(_) => Publish
    case Exit2 => SetExited
    case Exit3 => UpExit
    case Exit4 => ReleaseOwn
    case Spawned(_) => SetTid
    case LoadWait(_) => DownLoad
    case LoadSeen(_) => SeeLoad
    case WaitCheck(_) => Check
    case WaitDown(_) => DownExit
    case WaitRead(_) => ReadStatus
    case Run => Exec
    case Reap => if proc.children == [] then Die else ReapOne
    case Dead => Die
  }

  /** Whoever cannot go on waits for a child that is not done. */
  lemma Awaits(s: State, p: Pid) returns (c: Pid)
    requires Inv(s) && p in s.procs && !s.procs[p].pc.Dead? && !Enabled(s, p, NextStep(s.procs[p]))
    ensures p < c < s.next && c in s.procs && !s.procs[c].pc.Dead?
  {
    c := AwaitsChild(s, p);
    Wakes(s, p, c);
    assert ProcOk(s, c);
  }

  lemma AwaitsChild(s: State, p: Pid) returns (c: Pid)
    requires Inv(s) && p in s.procs && !s.procs[p].pc.Dead? && !Enabled(s, p, NextStep(s.procs[p]))
    ensures IsChild(s, p, c) && (s.procs[p].pc == LoadWait(c) || s.procs[p].pc == WaitDown(c))
  {
    c := s.procs[p].pc.child;
    assert ProcOk(s, p);
    ListedIsChild(s, p, c);
  }

  lemma {:induction false} SomeoneCan(s: State, p: Pid) returns (q: Pid)
    requires Inv(s) && p in s.procs && !s.procs[p].pc.Dead?
    ensures p <= q && q in s.procs && Enabled(s, q, NextStep(s.procs[q]))
    decreases s.next - p
  {
    q := p;
    if !Enabled(s, p, NextStep(s.procs[p])) {
      var c := Awaits(s, p);
      q := SomeoneCan(s, c);
    }
  }

  /** No deadlock: whoever is not dead can go on, or waits for a child, or a child of that child, and so on,
      that can. */
  lemma NoDeadlock(run: seq<Step>, p: Pid)
    requires Executes(run) && p in After(run).procs && !After(run).procs[p].pc.Dead?
    ensures exists q, a | p <= q :: Executes(run + [Step(q, a)])
  {
    RunInv(run);
    var q := SomeoneCan(After(run), p);
    Longer(run, Step(q, NextStep(After(run).procs[q])));
  }

  /** A running process may start another, wait for any, or exit with any status. */
  lemma RunsFreely(run: seq<Step>, p: Pid, tid: Pid, status: int)
    requires Executes(run) && p in After(run).procs && After(run).procs[p].pc.Run?
    ensures Executes(run + [Step(p, Exec)]) && Executes(run + [Step(p, Wait(tid))]) && Executes(run + [Step(p, StartExit(status))])
  {
    Longer(run, Step(p, Exec));
    Longer(run, Step(p, Wait(tid)));
    Longer(run, Step(p, StartExit(status)));
  }

  lemma Longer(run: seq<Step>, step: Step)
    requires Executes(run) && Enabled(After(run), step.who, step.action)
    ensures Executes(run + [step])
  {
    assert (run + [step])[..|run|] == run;
  }
}
