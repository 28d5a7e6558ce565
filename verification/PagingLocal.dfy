/** Steps that touch one process, one page, one frame and one swap slot.  The
    invariant is then a matter of those four points: everything else is framed
    here once and for all. */
module PagingLocal {
  import opened Options
  import opened Paging
  import opened PagingInvariant

  /** Only process `p`, page `va`, frame `k` and slot `t` differ. */
  ghost predicate OnlyAt(s: State, s': State, p: Pid, va: Va, k: Frame, t: Slot) {
    && p in s.procs && p in s'.procs && s'.procs.Keys == s.procs.Keys && s'.procs[p].exec == s.procs[p].exec
    && (forall q :: q in s.procs && q != p ==> s'.procs[q] == s.procs[q])
    && (forall x :: x != va ==> (x in s'.pages <==> x in s.pages))
    && (forall x :: x in s.pages && x != va ==> s'.pages[x] == s.pages[x])
    && s'.frames.Keys == s.frames.Keys
    && (forall f :: f in s.frames && f != k ==> s'.frames[f] == s.frames[f])
    && |s'.slots| == |s.slots|
    && (forall i :: 0 <= i < |s.slots| && i != t ==> s'.slots[i] == s.slots[i])
    && s'.files == s.files
    && (forall x :: x in s'.retired && x != va ==> x in s.retired && s'.retired[x] == s.retired[x])
  }

  /** The job of `p` moves on, and another page it is loading is only ever waited for. */
  ghost predicate JobMoves(s: State, s': State, p: Pid, va: Va, k: Frame)
    requires p in s.procs && p in s'.procs
  {
    var o, o' := s.procs[p], s'.procs[p];
    var j, j' := o.job, o'.job;
    && (o'.mode == o.mode || (o.mode == Live && o'.mode == Exiting))
    && (JobPage(j).Some? && Va(p, JobPage(j).value) != va ==>
          JobPage(j') == JobPage(j) && (j.Want? || j.Evict?) && (j'.Evict? || j'.Failing? || j'.Raw?))
    && (JobPage(j').Some? && Va(p, JobPage(j').value) != va ==> JobPage(j) == JobPage(j'))
    && (j.Unmap? ==> Va(p, j.page) == va) && (j'.Unmap? ==> Va(p, j'.page) == va)
    && (s.lock == s'.lock == Some(p) ==> j.Evict? && j.victim == va && j'.Evict? && j'.victim == va)
    && (j.Raw? ==> j.frame == k)
    && (j'.Raw? ==> j'.frame == k && k in s.frames && s.frames[k].owner.Some?)
  }

  /** Nothing outside page `va` and frame `k` is dropped, and only the holder of frame_lock
      works on a page being evicted. */
  ghost predicate JobStep(s: State, s': State, p: Pid, va: Va, k: Frame)
    requires p in s.procs && p in s'.procs
  {
    var j, j' := s.procs[p].job, s'.procs[p].job;
    && (s'.procs[p] == s.procs[p] || JobMoves(s, s', p, va, k))
    && (k in s'.frames && k in s.frames && s'.frames[k].listed && s'.frames[k].owner == None ==>
          RawUser(s', p, k) || (s'.frames[k] == s.frames[k] && !RawUser(s, p, k)))
    && (OwnFrame(j).Some? && OwnFrame(j).value.1 != k ==> OwnFrame(j') == OwnFrame(j))
    && (va in s.pages && s.pages[va].kpage.Some? && s.pages[va].kpage.value != k ==>
          va in s'.pages && s'.pages[va].kpage == s.pages[va].kpage)
    && (va in s.pages && s.pages[va].st == Evicting ==>
          s.lock == Some(p) || (va in s'.pages && s'.pages[va] == s.pages[va]))
    && (s.lock == s'.lock
        || (s.lock == None && s'.lock == Some(p) && j'.Evict?)
        || (s.lock == Some(p) && s'.lock == None && j.Evict? && j.victim == va))
  }

  /** Frame `k` is only relabelled by somebody entitled to. */
  ghost predicate FrameStep(s: State, s': State, p: Pid, va: Va, k: Frame)
    requires p in s.procs
  {
    k in s.frames && k in s'.frames && s'.frames[k] != s.frames[k] ==>
      && (BeingEvicted(s, s.frames[k].owner) ==> s.lock == Some(p))
      && EntitledTo(s, s', p, va, k)
  }

  ghost predicate BeingEvicted(s: State, owner: Option<Va>) {
    owner.Some? && owner.value in s.pages && s.pages[owner.value].st == Evicting
  }

  ghost predicate EntitledTo(s: State, s': State, p: Pid, va: Va, k: Frame)
    requires p in s.procs && k in s.frames && k in s'.frames
  {
    || s.frames[k].owner == Some(va)
    || (s.frames[k].owner == None && (!s.frames[k].listed || (s.procs[p].job.Raw? && s.procs[p].job.frame == k)))
    || (s.frames[k].owner.Some? && s.frames[k].owner.value.pid == p
        && s'.frames[k] == s.frames[k].(pinned := s'.frames[k].pinned))
  }

  /** The points that must satisfy the invariant afresh. */
  ghost predicate PointsOk(s': State, p: Pid, va: Va, k: Frame) {
    && (va in s'.pages ==> PageOk(s', va))
    && (k in s'.frames ==> FrameOk(s', k))
    && (p in s'.procs ==> ProcOk(s', p))
    && (va.pid in s'.procs ==> ProcOk(s', va.pid))
    && (s'.lock == Some(p) ==> p in s'.procs && s'.procs[p].job.Evict?)
  }

  ghost predicate Local(s: State, s': State, p: Pid, va: Va, k: Frame, t: Slot) {
    && OnlyAt(s, s', p, va, k, t) && JobStep(s, s', p, va, k) && FrameStep(s, s', p, va, k) && PointsOk(s', p, va, k)
  }

  /** The invariant at the points a step is about. */
  lemma At(s: State, p: Pid, va: Va, k: Frame)
    requires Structure(s)
    ensures PointsOk(s, p, va, k)
  {
  }

  lemma LocalPage(s: State, s': State, p: Pid, va: Va, k: Frame, t: Slot, x: Va)
    requires Structure(s) && Local(s, s', p, va, k, t) && x in s'.pages
    ensures PageOk(s', x)
  {
    if x != va {
      assert PageOk(s, x);
      if s.pages[x].kpage.Some? { assert FrameOk(s, s.pages[x].kpage.value); }
      if s.lock.Some? { assert ProcOk(s, s.lock.value); }
    }
  }

  lemma LocalFrame(s: State, s': State, p: Pid, va: Va, k: Frame, t: Slot, f: Frame)
    requires Structure(s) && Local(s, s', p, va, k, t) && f in s'.frames
    ensures FrameOk(s', f)
  {
    if f != k { assert FrameOk(s, f); }
  }

  lemma LocalProc(s: State, s': State, p: Pid, va: Va, k: Frame, t: Slot, q: Pid)
    requires Structure(s) && Local(s, s', p, va, k, t) && q in s'.procs
    ensures ProcOk(s', q)
  {
    if q != p && q != va.pid {
      assert ProcOk(s, q);
      assert s'.procs[q] == s.procs[q];
      if s.procs[q].job.Raw? {
        assert RawUser(s, q, s.procs[q].job.frame) && !RawUser(s, p, s.procs[q].job.frame);
      }
      if OwnFrame(s.procs[q].job).Some? {
        assert FrameIs(s', OwnFrame(s.procs[q].job).value.1, Some(Va(q, OwnFrame(s.procs[q].job).value.0)));
      }
    }
  }

  lemma LocalExclusive(s: State, s': State, p: Pid, va: Va, k: Frame, t: Slot)
    requires Structure(s) && Local(s, s', p, va, k, t)
    ensures Exclusive(s')
  {
    forall q, r, f | RawUser(s', q, f) && RawUser(s', r, f) ensures q == r {
      assert ProcOk(s, q) && ProcOk(s, r);
      assert q != p ==> RawUser(s, q, f);
      assert r != p ==> RawUser(s, r, f);
      assert s'.procs[p] == s.procs[p] ==> (RawUser(s', p, f) <==> RawUser(s, p, f));
    }
    forall f | f in s'.frames && s'.frames[f].listed && s'.frames[f].owner == None ensures exists q :: RawUser(s', q, f) {
      if f == k && RawUser(s', p, k) {
      } else {
        var q :| RawUser(s, q, f);
        assert RawUser(s', q, f);
      }
    }
  }

  lemma LocalStructure(s: State, s': State, p: Pid, va: Va, k: Frame, t: Slot)
    requires Structure(s) && Local(s, s', p, va, k, t)
    ensures Structure(s')
  {
    forall x | x in s'.pages ensures PageOk(s', x) { LocalPage(s, s', p, va, k, t, x); }
    forall f | f in s'.frames ensures FrameOk(s', f) { LocalFrame(s, s', p, va, k, t, f); }
    forall q | q in s'.procs ensures ProcOk(s', q) { LocalProc(s, s', p, va, k, t, q); }
    LocalExclusive(s, s', p, va, k, t);
  }

  // ------------------------------------------------------------------ swap slots

  ghost predicate HeldHere(s: State, p: Pid, va: Va, i: Slot) {
    PageSlot(s, va) == Some(i) || JobSlot(s, p) == Some(i)
  }

  /** Slots change hands only between page `va`, the job of `p` and the free slots. */
  ghost predicate SlotStep(s: State, s': State, p: Pid, va: Va) {
    && (PageSlot(s', va).Some? ==> PageSlot(s', va) != JobSlot(s', p))
    && (forall i: Slot ::
          && (HeldHere(s', p, va, i) ==> SlotUsed(s', i) && (HeldHere(s, p, va, i) || !SlotUsed(s, i)))
          && (SlotUsed(s', i) ==> HeldHere(s', p, va, i) || (SlotUsed(s, i) && !HeldHere(s, p, va, i)))
          && (SlotUsed(s, i) && !HeldHere(s, p, va, i) ==> SlotUsed(s', i)))
  }

  /** Most steps leave the slots alone, or pass one on between the page and the job. */
  lemma SlotsPassed(s: State, s': State, p: Pid, va: Va)
    requires Slots(s) && s'.slots == s.slots
    requires (PageSlot(s', va) == PageSlot(s, va) && JobSlot(s', p) == JobSlot(s, p))
             || (PageSlot(s', va) == JobSlot(s, p) && JobSlot(s', p) == PageSlot(s, va))
    ensures SlotStep(s, s', p, va)
  {
    HereUsed(s, p, va);
    forall i: Slot ensures HeldHere(s', p, va, i) <==> HeldHere(s, p, va, i) {}
    forall i: Slot ensures SlotUsed(s', i) <==> SlotUsed(s, i) {}
  }

  lemma HereUsed(s: State, p: Pid, va: Va)
    requires Slots(s)
    ensures forall i: Slot :: HeldHere(s, p, va, i) ==> SlotUsed(s, i)
    ensures PageSlot(s, va).Some? ==> PageSlot(s, va) != JobSlot(s, p)
  {
    forall i: Slot | HeldHere(s, p, va, i) ensures SlotUsed(s, i) && !(PageSlot(s, va) == JobSlot(s, p)) {
      assert Holds(s, ByPage(va), i) || Holds(s, ByJob(p), i);
      assert !(Holds(s, ByPage(va), i) && Holds(s, ByJob(p), i));
    }
    if PageSlot(s, va).Some? { assert HeldHere(s, p, va, PageSlot(s, va).value); }
  }

  lemma OtherHolders(s: State, s': State, p: Pid, va: Va, k: Frame, t: Slot, h: Holder, i: Slot)
    requires Structure(s) && Local(s, s', p, va, k, t) && h != ByPage(va) && h != ByJob(p)
    ensures Holds(s', h, i) <==> Holds(s, h, i)
  {
  }

  lemma LocalSlots(s: State, s': State, p: Pid, va: Va, k: Frame, t: Slot)
    requires Structure(s) && Slots(s) && Local(s, s', p, va, k, t) && SlotStep(s, s', p, va)
    ensures Slots(s')
  {
    forall h, i: Slot | Holds(s', h, i) ensures SlotUsed(s', i) {
      if h != ByPage(va) && h != ByJob(p) { HolderKept(s, s', p, va, k, t, h, i); }
      else { assert HeldHere(s', p, va, i); }
    }
    forall h, g, i: Slot | Holds(s', h, i) && Holds(s', g, i) ensures h == g {
      LocalHeldOnce(s, s', p, va, k, t, h, g, i);
    }
    forall i: Slot | SlotUsed(s', i) ensures exists h :: Holds(s', h, i) {
      if HeldHere(s', p, va, i) {
        assert Holds(s', ByPage(va), i) || Holds(s', ByJob(p), i);
      } else {
        var h :| Holds(s, h, i);
        assert !HeldHere(s, p, va, i);
        OtherHolders(s, s', p, va, k, t, h, i);
      }
    }
  }

  lemma HolderKept(s: State, s': State, p: Pid, va: Va, k: Frame, t: Slot, h: Holder, i: Slot)
    requires Structure(s) && Slots(s) && Local(s, s', p, va, k, t) && SlotStep(s, s', p, va)
    requires Holds(s', h, i) && h != ByPage(va) && h != ByJob(p)
    ensures Holds(s, h, i) && SlotUsed(s, i) && !HeldHere(s, p, va, i) && SlotUsed(s', i)
  {
    OtherHolders(s, s', p, va, k, t, h, i);
    assert !Holds(s, ByPage(va), i) && !Holds(s, ByJob(p), i);
  }

  lemma LocalHeldOnce(s: State, s': State, p: Pid, va: Va, k: Frame, t: Slot, h: Holder, g: Holder, i: Slot)
    requires Structure(s) && Slots(s) && Local(s, s', p, va, k, t) && SlotStep(s, s', p, va)
    requires Holds(s', h, i) && Holds(s', g, i)
    ensures h == g
  {
    var hHere, gHere := h == ByPage(va) || h == ByJob(p), g == ByPage(va) || g == ByJob(p);
    if !hHere { HolderKept(s, s', p, va, k, t, h, i); }
    if !gHere { HolderKept(s, s', p, va, k, t, g, i); }
    if hHere || gHere { assert HeldHere(s', p, va, i); }
  }

  // ------------------------------------------------------------------ contents

  lemma CopyLabelled(s: State, x: Va)
    requires Structure(s) && x in s.pages
    ensures x.pid in s.procs
    ensures CopyOf(s, x).Some? ==> FrameIs(s, CopyOf(s, x).value, Some(x))
  {
    assert PageOk(s, x);
    assert ProcOk(s, x.pid);
  }

  lemma SameCopy(s: State, s': State, p: Pid, va: Va, k: Frame, t: Slot, x: Va)
    requires Structure(s) && Local(s, s', p, va, k, t) && x in s.pages && x != va
    ensures x.pid in s.procs && CopyOf(s', x) == CopyOf(s, x)
    ensures CopyOf(s, x).Some? ==>
              var f := CopyOf(s, x).value;
              f in s.frames && f in s'.frames && s'.frames[f].data == s.frames[f].data
  {
    CopyLabelled(s, x);
    var j, j' := s.procs[x.pid].job, s'.procs[x.pid].job;
    if j != j' {
      assert JobMoves(s, s', p, va, k);
      assert JobPage(j) == Some(x.page) ==> !j.SwapRead? && !j.Filled? && !j.Installed?;
      assert JobPage(j') == Some(x.page) ==> !j'.SwapRead? && !j'.Filled? && !j'.Installed?;
    }
  }

  lemma SameBacking(s: State, s': State, p: Pid, va: Va, k: Frame, t: Slot, x: Va)
    requires Structure(s) && Slots(s) && Local(s, s', p, va, k, t) && x in s.pages && x != va && x.pid in s.procs
    requires t < |s.slots| ==> s'.slots[t].data == s.slots[t].data || !s.slots[t].used
    requires CopyOf(s, x).None? || FromFile(s.pages[x])
    ensures Backing(s', s'.pages[x]) == Backing(s, s.pages[x])
  {
    assert PageOk(s, x);
    var e := s.pages[x];
    if e.ty == Swap && e.slot.Some? {
      assert Holds(s, ByPage(x), e.slot.value);
    }
  }

  lemma LocalContent(s: State, s': State, p: Pid, va: Va, k: Frame, t: Slot, x: Va)
    requires Structure(s) && Slots(s) && Contents(s) && Local(s, s', p, va, k, t)
    requires t < |s.slots| ==> s'.slots[t].data == s.slots[t].data || !s.slots[t].used
    requires Claimed(s', x) && x != va
    ensures ContentOk(s', x)
  {
    assert PageOk(s, x) && Claimed(s, x) && ContentOk(s, x);
    SameCopy(s, s', p, va, k, t, x);
    if CopyOf(s, x).None? || FromFile(s.pages[x]) { SameBacking(s, s', p, va, k, t, x); }
    assert Content(s', x) == Content(s, x);
    if s.pages[x].st == Evicting {
      EvictingSaved(s, s', p, va, k, t, x);
    }
  }

  lemma EvictingSaved(s: State, s': State, p: Pid, va: Va, k: Frame, t: Slot, x: Va)
    requires Structure(s) && Slots(s) && Local(s, s', p, va, k, t)
    requires t < |s.slots| ==> s'.slots[t].data == s.slots[t].data || !s.slots[t].used
    requires x in s.pages && s.pages[x].st == Evicting && x != va
    ensures s.lock.Some? && s.lock == s'.lock && s.lock.value in s.procs
    ensures s'.procs[s.lock.value].job == s.procs[s.lock.value].job
    ensures var j := s.procs[s.lock.value].job;
            j.Evict? && j.slot.Some? && j.slot.value < |s.slots| ==> s'.slots[j.slot.value].data == s.slots[j.slot.value].data
  {
    assert PageOk(s, x);
    var j := s.procs[s.lock.value].job;
    if j.slot.Some? { assert Holds(s, ByJob(s.lock.value), j.slot.value); }
  }

  /** A local step keeps the invariant if its own points do. */
  lemma LocalInv(s: State, s': State, p: Pid, va: Va, k: Frame, t: Slot)
    requires Inv(s) && Local(s, s', p, va, k, t) && SlotStep(s, s', p, va)
    requires t < |s.slots| ==> s'.slots[t].data == s.slots[t].data || !s.slots[t].used
    requires Claimed(s', va) ==> ContentOk(s', va)
    requires va in s'.retired ==> RegionOk(s', s'.retired[va])
    ensures Inv(s')
  {
    LocalStructure(s, s', p, va, k, t);
    LocalSlots(s, s', p, va, k, t);
    forall x | Claimed(s', x) ensures ContentOk(s', x) {
      if x != va { LocalContent(s, s', p, va, k, t, x); }
    }
    forall x | x in s'.retired ensures RegionOk(s', s'.retired[x]) {
      if x != va { assert RegionOk(s, s.retired[x]); }
    }
  }

  /** The common case: no slot is taken or released, and page `va` keeps its bytes. */
  ghost predicate Quiet(s: State, s': State, p: Pid, va: Va) {
    && s'.slots == s.slots && PageSlot(s', va) == PageSlot(s, va) && JobSlot(s', p) == JobSlot(s, p)
    && s'.retired == s.retired
    && (Claimed(s', va) ==>
          && Claimed(s, va) && Content(s', va) == Content(s, va)
          && s'.pages[va].flat == s.pages[va].flat && Kept(s'.pages[va]) == Kept(s.pages[va])
          && (FromFile(s'.pages[va]) && !Modified(s', va) ==>
                Content(s', va) == Backing(s', s'.pages[va]) || (FromFile(s.pages[va]) && !Modified(s, va)
                && Backing(s', s'.pages[va]) == Backing(s, s.pages[va])))
          && (s'.pages[va].st == Evicting ==> EvictionAsBefore(s, s', p, va) || EvictionFresh(s', p)))
  }

  ghost predicate EvictionAsBefore(s: State, s': State, p: Pid, va: Va)
    requires va in s.pages && va in s'.pages
  {
    && s'.pages[va] == s.pages[va] && s'.lock == s.lock
    && (s.lock.Some? ==> s.lock.value in s.procs && s.lock.value in s'.procs
                         && s'.procs[s.lock.value] == s.procs[s.lock.value])
  }

  ghost predicate EvictionFresh(s': State, p: Pid) {
    && s'.lock == Some(p) && p in s'.procs && s'.procs[p].job.Evict?
    && !s'.procs[p].job.wrote && s'.procs[p].job.slot == None
  }

  lemma QuietInv(s: State, s': State, p: Pid, va: Va, k: Frame)
    requires Inv(s) && Local(s, s', p, va, k, 0) && Quiet(s, s', p, va)
    ensures Inv(s')
  {
    SlotsPassed(s, s', p, va);
    if Claimed(s', va) {
      assert ContentOk(s, va);
    }
    if va in s'.retired { assert RegionOk(s, s.retired[va]); }
    LocalInv(s, s', p, va, k, 0);
  }
}
