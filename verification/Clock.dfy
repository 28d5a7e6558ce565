/** The frame table and its clock hand: which frame is evicted, and how frames leave the table. */
module Clock {
  import opened Seqs

  /** The accessed bits of one process's page directory, by page. */
  class PageDir {
    var accessed: set<nat>
  }

  class Process {
    var pagedir: PageDir?
  }

  class Frame {
    const kpage: nat
    var owner: Process?
    var upage: Mapped
    var pinned: bool

    constructor (kpage: nat, owner: Process, upage: Mapped)
      ensures this.kpage == kpage && this.owner == owner && this.upage == upage && pinned
    {
      this.kpage, this.owner, this.upage, this.pinned := kpage, owner, upage, true;
    }
  }

  datatype Mapped = None | Page(page: nat)

  /** Pinned frames are skipped, and so are those without an owner, a page directory or a page. */
  predicate Eligible(f: Frame)
    reads f, f.owner
  {
    !f.pinned && f.owner != null && f.owner.pagedir != null && f.upage.Page?
  }

  predicate Accessed(f: Frame)
    reads f, f.owner, if f.owner == null then null else f.owner.pagedir
    requires Eligible(f)
  {
    f.upage.page in f.owner.pagedir.accessed
  }

  // ------------------------------------------------------------------ clock order

  predicate Distinct(xs: seq<Frame>) {
    forall i, j :: 0 <= i < j < |xs| ==> xs[i] != xs[j]
  }

  function IndexOf(xs: seq<Frame>, f: Frame): (i: nat)
    requires f in xs
    ensures i < |xs| && xs[i] == f
  {
    if xs[0] == f then 0 else 1 + IndexOf(xs[1..], f)
  }

  lemma IndexOfAt(xs: seq<Frame>, i: nat)
    requires Distinct(xs) && i < |xs|
    ensures IndexOf(xs, xs[i]) == i
  {
  }

  /** The next frame around the ring. */
  function NextOf(xs: seq<Frame>, f: Frame): Frame
    requires f in xs
  {
    var i := IndexOf(xs, f);
    if i + 1 < |xs| then xs[i + 1] else xs[0]
  }

  /** The table in the order in which the hand meets it. */
  function Order(xs: seq<Frame>, hand: Frame?): (r: seq<Frame>)
    requires hand != null ==> hand in xs
    ensures |r| == |xs|
  {
    if hand == null then xs else xs[IndexOf(xs, hand)..] + xs[..IndexOf(xs, hand)]
  }

  /** The place in the table of the frame met `i` steps after place `h`. */
  function Place(h: nat, i: nat, n: nat): nat
    requires h < n && i < n
  {
    if h + i < n then h + i else h + i - n
  }

  lemma OrderAt(xs: seq<Frame>, hand: Frame, i: nat)
    requires hand in xs && i < |xs|
    ensures Order(xs, hand)[i] == xs[Place(IndexOf(xs, hand), i, |xs|)]
  {
    RotatedAt(xs, IndexOf(xs, hand), i);
  }

  lemma RotatedAt(xs: seq<Frame>, h: nat, i: nat)
    requires h < |xs| && i < |xs|
    ensures (xs[h..] + xs[..h])[i] == xs[Place(h, i, |xs|)]
  {
  }

  lemma OrderDistinct(xs: seq<Frame>, hand: Frame)
    requires Distinct(xs) && hand in xs
    ensures Distinct(Order(xs, hand))
  {
    var r := Order(xs, hand);
    forall i, j | 0 <= i < j < |r| ensures r[i] != r[j] {
      OrderAt(xs, hand, i);
      OrderAt(xs, hand, j);
    }
  }

  lemma OrderSteps(xs: seq<Frame>, hand: Frame, i: nat)
    requires Distinct(xs) && hand in xs && i < |xs|
    ensures Order(xs, hand)[0] == hand && Order(xs, hand)[i] in xs
    ensures NextOf(xs, Order(xs, hand)[i]) == if i + 1 < |xs| then Order(xs, hand)[i + 1] else hand
  {
    var h, n := IndexOf(xs, hand), |xs|;
    OrderAt(xs, hand, 0);
    OrderAt(xs, hand, i);
    IndexOfAt(xs, Place(h, i, n));
    if i + 1 < n { OrderAt(xs, hand, i + 1); }
  }

  lemma OrderCovers(xs: seq<Frame>, hand: Frame?, f: Frame)
    requires hand != null ==> hand in xs
    ensures f in xs <==> f in Order(xs, hand)
  {
    if hand != null {
      var h := IndexOf(xs, hand);
      assert xs == xs[..h] + xs[h..];
    }
  }

  /** The first frame of `order` that is in `s`. */
  function FirstOf(order: seq<Frame>, s: set<Frame>): Frame? {
    if order == [] then null
    else if order[0] in s then order[0]
    else FirstOf(order[1..], s)
  }

  lemma {:induction false} FirstOfAt(order: seq<Frame>, s: set<Frame>, i: nat)
    requires i < |order| && order[i] in s && forall j :: 0 <= j < i ==> order[j] !in s
    ensures FirstOf(order, s) == order[i]
  {
    if i > 0 {
      assert order[0] !in s;
      FirstOfAt(order[1..], s, i - 1);
    }
  }

  lemma {:induction false} FirstOfNone(order: seq<Frame>, s: set<Frame>)
    requires forall j :: 0 <= j < |order| ==> order[j] !in s
    ensures FirstOf(order, s) == null
  {
    if order != [] { FirstOfNone(order[1..], s); }
  }

  // ------------------------------------------------------------------ the scan

  /** Which place in the clock order step `k` of the scan looks at. */
  function Turn(k: nat, n: nat): (i: nat)
    requires k <= 2 * n && n > 0
    ensures i < n
  {
    if k < n then k else if k < 2 * n then k - n else 0
  }

  lemma TurnNext(xs: seq<Frame>, order: seq<Frame>, first: Frame, k: nat)
    requires Distinct(xs) && first in xs && order == Order(xs, first) && k < 2 * |order|
    ensures order[Turn(k, |order|)] in xs
    ensures NextOf(xs, order[Turn(k, |order|)]) == order[Turn(k + 1, |order|)] && order[Turn(k + 1, |order|)] in xs
  {
    OrderSteps(xs, first, Turn(k, |order|));
    OrderSteps(xs, first, Turn(k + 1, |order|));
  }

  /** What the scan has done after `k` of its `2n` steps: `hot` are the eligible frames accessed at
      first, `now` those still marked. */
  ghost predicate Scanned(order: seq<Frame>, eligible: set<Frame>, hot: set<Frame>, now: set<Frame>, k: nat) {
    && now <= hot <= eligible
    && (forall i | 0 <= i < |order| && order[i] in eligible ::
          (i < k ==> order[i] in hot) && (order[i] in now <==> order[i] in hot && k <= i))
    && (forall i | 0 <= i < |order| && i < k - |order| :: order[i] !in eligible)
  }

  /** The choice, and the bits it leaves. */
  ghost predicate IsVictim(order: seq<Frame>, eligible: set<Frame>, hot: set<Frame>, now: set<Frame>, victim: Frame?) {
    && victim == (if FirstOf(order, eligible - hot) != null then FirstOf(order, eligible - hot) else FirstOf(order, eligible))
    && (if victim != null && victim !in hot
        then exists v | 0 <= v < |order| :: order[v] == victim && now == hot - Before(order, v)
        else now == {})
  }

  ghost function Before(order: seq<Frame>, v: nat): set<Frame>
    requires v <= |order|
  {
    set i | 0 <= i < v :: order[i]
  }

  lemma ScanStep(order: seq<Frame>, eligible: set<Frame>, hot: set<Frame>, now: set<Frame>, k: nat)
    requires k < 2 * |order| && Distinct(order) && Scanned(order, eligible, hot, now, k)
    requires forall f | f in eligible :: f in order
    ensures var f := order[Turn(k, |order|)];
            && (f !in eligible ==> Scanned(order, eligible, hot, now, k + 1))
            && (f in now ==> Scanned(order, eligible, hot, now - {f}, k + 1))
            && (f in eligible && f !in now ==> IsVictim(order, eligible, hot, now, f))
  {
    var i := Turn(k, |order|);
    var f := order[i];
    if f in eligible && f !in now {
      if k < |order| {
        FirstOfAt(order, eligible - hot, i);
        assert now == hot - Before(order, i);
      } else {
        FirstOfNone(order, eligible - hot);
        FirstOfAt(order, eligible, i);
      }
    }
  }

  lemma Considered(order: seq<Frame>, eligible: set<Frame>, hot: set<Frame>, now: set<Frame>, k: nat)
    requires k < 2 * |order| && Distinct(order) && Scanned(order, eligible, hot, now, k)
    requires forall f | f in eligible :: f in order
    ensures var f := order[Turn(k, |order|)];
            if f in eligible && f !in now then IsVictim(order, eligible, hot, now - {f}, f)
            else Scanned(order, eligible, hot, now - {f}, k + 1)
  {
    ScanStep(order, eligible, hot, now, k);
    var f := order[Turn(k, |order|)];
    assert f !in now ==> now - {f} == now;
  }

  lemma ScanEnds(order: seq<Frame>, eligible: set<Frame>, hot: set<Frame>, now: set<Frame>)
    requires Scanned(order, eligible, hot, now, 2 * |order|) && forall f | f in eligible :: f in order
    ensures IsVictim(order, eligible, hot, now, null)
  {
    FirstOfNone(order, eligible);
    FirstOfNone(order, eligible - hot);
  }

  lemma StartsAtFront(xs: seq<Frame>)
    requires xs != []
    ensures Order(xs, xs[0]) == Order(xs, null)
  {
    assert IndexOf(xs, xs[0]) == 0;
    assert xs[0..] + xs[..0] == xs;
  }

  lemma Covered(xs: seq<Frame>, hand: Frame?, s: set<Frame>)
    requires (hand != null ==> hand in xs) && forall f | f in s :: f in xs
    ensures forall f | f in s :: f in Order(xs, hand)
  {
    forall f | f in s ensures f in Order(xs, hand) { OrderCovers(xs, hand, f); }
  }

  /** What the choice means: nothing is chosen exactly when nothing is eligible, what is chosen is
      eligible, and it was accessed only if all the eligible frames were. */
  lemma VictimIsFair(order: seq<Frame>, eligible: set<Frame>, hot: set<Frame>, now: set<Frame>, victim: Frame?)
    requires IsVictim(order, eligible, hot, now, victim) && hot <= eligible && forall f | f in eligible :: f in order
    ensures victim == null <==> eligible == {}
    ensures victim != null ==> victim in eligible && (victim in hot ==> hot == eligible)
    ensures victim != null ==>
              exists v | 0 <= v < |order| :: order[v] == victim
                && forall i | 0 <= i < v && order[i] in eligible :: order[i] in hot && victim !in hot
  {
    FirstOfIn(order, eligible);
    FirstOfIn(order, eligible - hot);
    if victim != null {
      var v := FirstOfIs(order, if victim in hot then eligible else eligible - hot);
    }
  }

  lemma {:induction false} FirstOfIs(order: seq<Frame>, s: set<Frame>) returns (v: nat)
    requires FirstOf(order, s) != null
    ensures v < |order| && order[v] == FirstOf(order, s) && forall i | 0 <= i < v :: order[i] !in s
  {
    if order[0] in s {
      v := 0;
    } else {
      v := FirstOfIs(order[1..], s);
      v := v + 1;
    }
  }

  lemma {:induction false} FirstOfIn(order: seq<Frame>, s: set<Frame>)
    ensures FirstOf(order, s) == null <==> forall f | f in s :: f !in order
    ensures FirstOf(order, s) != null ==> FirstOf(order, s) in s && FirstOf(order, s) in order
  {
    if order != [] && order[0] !in s {
      FirstOfIn(order[1..], s);
      assert forall f | f in s :: f in order <==> f in order[1..];
    }
  }

  /** The pages of directory `d` that the frames hold. */
  ghost function PagesIn(fs: set<Frame>, d: PageDir): set<nat>
    reads fs, set f | f in fs && f.owner != null :: f.owner
  {
    set f | f in fs && f.owner != null && f.owner.pagedir == d && f.upage.Page? :: f.upage.page
  }

  /** The bits of each directory are those it had, but for the pages of the frames in `gone`. */
  ghost predicate OnlyCleared(was: map<PageDir, set<nat>>, gone: set<Frame>)
    reads was.Keys, gone, set f | f in gone && f.owner != null :: f.owner
  {
    forall d | d in was :: d.accessed == was[d] - PagesIn(gone, d)
  }

  lemma PagesJoin(a: set<Frame>, b: set<Frame>, d: PageDir)
    ensures PagesIn(a + b, d) == PagesIn(a, d) + PagesIn(b, d)
  {
  }

  // ------------------------------------------------------------------ the table

  class FrameTable {
    var table: seq<Frame>
    var hand: Frame?

    /** Every frame is listed once, and the hand points into the table or nowhere. */
    ghost predicate Valid()
      reads this
    {
      Distinct(table) && (hand != null ==> hand in table)
    }

    ghost function PageDirs(): set<PageDir>
      reads this`table, table, set f | f in table && f.owner != null :: f.owner
    {
      set f | f in table && f.owner != null && f.owner.pagedir != null :: f.owner.pagedir
    }

    /** No two frames that could be evicted hold the same page of the same process. */
    ghost predicate OneFramePerPage()
      reads this`table, table, set f | f in table && f.owner != null :: f.owner
    {
      forall f, g | f in table && g in table && f != g && Eligible(f) && Eligible(g) ::
        f.owner.pagedir != g.owner.pagedir || f.upage != g.upage
    }

    ghost function EligibleFrames(): set<Frame>
      reads this`table, table, set f | f in table && f.owner != null :: f.owner
    {
      set f | f in table && Eligible(f)
    }

    ghost function AccessedFrames(): set<Frame>
      reads this`table, table, set f | f in table && f.owner != null :: f.owner
      reads PageDirs()
    {
      set f | f in table && Eligible(f) && Accessed(f)
    }

    /** What is the same however many accessed bits are cleared. */
    ghost predicate Standing(eligible: set<Frame>, dirs: set<PageDir>)
      reads this`table, table, set f | f in table && f.owner != null :: f.owner
    {
      OneFramePerPage() && EligibleFrames() == eligible && PageDirs() == dirs
    }

    /** Looks at one frame: takes it, or clears its accessed bit, or passes it by. */
    method LookAt(f: Frame, ghost eligible: set<Frame>, ghost dirs: set<PageDir>) returns (take: bool)
      requires f in table && Standing(eligible, dirs)
      modifies dirs
      ensures take <==> f in eligible && f !in old(AccessedFrames())
      ensures Standing(eligible, dirs) && AccessedFrames() == old(AccessedFrames()) - {f}
      ensures forall d | d in dirs :: d.accessed == old(d.accessed) - PagesIn(old(AccessedFrames()) * {f}, d)
    {
      take := false;
      if Eligible(f) {
        if f.upage.page in f.owner.pagedir.accessed {
          f.owner.pagedir.accessed := f.owner.pagedir.accessed - {f.upage.page};
        } else {
          take := true;
        }
      }
    }

    /** Only the accessed bits that frames in `hot` have lost are gone from the directories. */
    ghost predicate Kept(was: map<PageDir, set<nat>>, hot: set<Frame>, dirs: set<PageDir>)
      reads this`table, table, set f | f in table && f.owner != null :: f.owner
      reads PageDirs(), was.Keys, hot, set f | f in hot && f.owner != null :: f.owner
    {
      was.Keys == dirs && AccessedFrames() <= hot && OnlyCleared(was, hot - AccessedFrames())
    }

    /** The same, for the sum of what has been cleared. */
    method LookOnce(f: Frame, ghost eligible: set<Frame>, ghost dirs: set<PageDir>, ghost was: map<PageDir, set<nat>>,
                    ghost hot: set<Frame>, ghost now: set<Frame>) returns (take: bool)
      requires f in table && Standing(eligible, dirs) && Kept(was, hot, dirs) && AccessedFrames() == now
      modifies dirs
      ensures take <==> f in eligible && f !in now
      ensures Standing(eligible, dirs) && AccessedFrames() == now - {f} && Kept(was, hot, dirs)
    {
      take := LookAt(f, eligible, dirs);
      assert hot - AccessedFrames() == (hot - now) + now * {f};
      forall d | d in dirs ensures d.accessed == was[d] - PagesIn(hot - AccessedFrames(), d) {
        PagesJoin(hot - now, now * {f}, d);
      }
    }

    /** The clock order, from the frame the scan started at. */
    ghost predicate Ring(order: seq<Frame>, first: Frame, eligible: set<Frame>)
      reads this`table
    {
      && table != [] && Distinct(table) && first in table && order == Order(table, first) && Distinct(order)
      && (forall f | f in eligible :: f in order) && (forall f | f in order :: f in table)
    }

    /** One turn of the loop, without what it means for the scan. */
    method TurnAndLook(ghost eligible: set<Frame>, ghost dirs: set<PageDir>, ghost was: map<PageDir, set<nat>>,
                       ghost hot: set<Frame>, ghost now: set<Frame>) returns (f: Frame, take: bool)
      requires hand != null && hand in table
      requires Standing(eligible, dirs) && Kept(was, hot, dirs) && AccessedFrames() == now
      modifies this`hand, dirs
      ensures f == old(hand) && hand == NextOf(table, f)
      ensures take <==> f in eligible && f !in now
      ensures Standing(eligible, dirs) && AccessedFrames() == now - {f} && Kept(was, hot, dirs)
    {
      f := hand;
      hand := NextOf(table, hand);
      take := LookOnce(f, eligible, dirs, was, hot, now);
    }

    /** One turn of the loop. */
    method Consider(ghost order: seq<Frame>, ghost first: Frame, ghost eligible: set<Frame>, ghost dirs: set<PageDir>,
                    ghost was: map<PageDir, set<nat>>, ghost hot: set<Frame>, ghost k: nat) returns (f: Frame, take: bool)
      requires Ring(order, first, eligible) && Standing(eligible, dirs) && Kept(was, hot, dirs)
      requires k < 2 * |order| && Scanned(order, eligible, hot, AccessedFrames(), k) && hand == order[Turn(k, |order|)]
      modifies this`hand, dirs
      ensures Standing(eligible, dirs) && hand == order[Turn(k + 1, |order|)] && hand in table
      ensures !take ==> Scanned(order, eligible, hot, AccessedFrames(), k + 1)
      ensures take ==> f in table && hand == NextOf(table, f) && IsVictim(order, eligible, hot, AccessedFrames(), f)
      ensures Kept(was, hot, dirs)
    {
      ghost var now := AccessedFrames();
      TurnNext(table, order, first, k);
      f, take := TurnAndLook(eligible, dirs, was, hot, now);
      Considered(order, eligible, hot, now, k);
    }

    /** The loop of the scan. */
    method Scan(ghost order: seq<Frame>, ghost first: Frame, ghost eligible: set<Frame>, ghost dirs: set<PageDir>,
                ghost was: map<PageDir, set<nat>>, ghost hot: set<Frame>) returns (victim: Frame?)
      requires Ring(order, first, eligible) && Standing(eligible, dirs) && hand == order[0]
      requires AccessedFrames() == hot <= eligible && Kept(was, hot, dirs)
      modifies this`hand, dirs
      ensures hand in table && Standing(eligible, dirs) && Kept(was, hot, dirs)
      ensures IsVictim(order, eligible, hot, AccessedFrames(), victim)
      ensures victim != null ==> victim in table && hand == NextOf(table, victim)
    {
      var n := |table|;
      var scanned := 0;
      while scanned < n * 2
        invariant scanned <= 2 * n && Standing(eligible, dirs) && hand == order[Turn(scanned, n)] && hand in table
        invariant Scanned(order, eligible, hot, AccessedFrames(), scanned)
        invariant Kept(was, hot, dirs)
      {
        var f, take := Consider(order, first, eligible, dirs, was, hot, scanned);
        if take {
          return f;
        }
        scanned := scanned + 1;
      }
      ScanEnds(order, eligible, hot, AccessedFrames());
      return null;
    }

    /** Second chance.  The victim is the first eligible frame in clock order that has not been
        accessed, or else the first eligible one; there is none exactly when no frame is eligible.
        The accessed bits of the eligible frames passed over are cleared, and no others. */
    method SelectVictim() returns (victim: Frame?)
      requires Valid() && OneFramePerPage()
      modifies this`hand, PageDirs()
      ensures Valid() && EligibleFrames() == old(EligibleFrames())
      ensures IsVictim(old(Order(table, hand)), old(EligibleFrames()), old(AccessedFrames()), AccessedFrames(), victim)
      ensures victim != null ==> victim in table && hand == NextOf(table, victim)
      ensures victim != null ==>
                !victim.pinned && victim.owner != null && victim.owner.pagedir != null && victim.upage.Page?
      ensures victim == null ==>
                forall f | f in table :: f.pinned || f.owner == null || f.owner.pagedir == null || f.upage == None
      ensures forall d | d in PageDirs() :: d.accessed == old(d.accessed) - PagesIn(old(AccessedFrames()) - AccessedFrames(), d)
    {
      ghost var order, eligible, hot := Order(table, hand), EligibleFrames(), AccessedFrames();
      Covered(table, hand, eligible);
      victim := Pick();
      VictimIsFair(order, eligible, hot, AccessedFrames(), victim);
      assert forall f | f in table && Eligible(f) :: f in eligible;
    }

    method Pick() returns (victim: Frame?)
      requires Valid() && OneFramePerPage()
      modifies this`hand, PageDirs()
      ensures Valid() && EligibleFrames() == old(EligibleFrames())
      ensures IsVictim(old(Order(table, hand)), old(EligibleFrames()), old(AccessedFrames()), AccessedFrames(), victim)
      ensures victim != null ==> victim in table && hand == NextOf(table, victim)
      ensures forall d | d in PageDirs() :: d.accessed == old(d.accessed) - PagesIn(old(AccessedFrames()) - AccessedFrames(), d)
    {
      if table == [] {
        return null;
      }
      if hand == null {
        hand := table[0];
        StartsAtFront(table);
      }
      OrderDistinct(table, hand);
      Covered(table, hand, EligibleFrames());
      OrderSteps(table, hand, 0);
      forall f | f in Order(table, hand) ensures f in table { OrderCovers(table, hand, f); }
      victim := ScanAll(Order(table, hand), hand, EligibleFrames(), PageDirs());
    }

    /** The same, with what the directories have lost spelled out. */
    method ScanAll(ghost order: seq<Frame>, ghost first: Frame, ghost eligible: set<Frame>, ghost dirs: set<PageDir>)
        returns (victim: Frame?)
      requires Ring(order, first, eligible) && Standing(eligible, dirs) && AccessedFrames() <= eligible && hand == order[0]
      modifies this`hand, dirs
      ensures hand in table && Standing(eligible, dirs)
      ensures IsVictim(order, eligible, old(AccessedFrames()), AccessedFrames(), victim)
      ensures forall d | d in dirs :: d.accessed == old(d.accessed) - PagesIn(old(AccessedFrames()) - AccessedFrames(), d)
      ensures victim != null ==> victim in table && hand == NextOf(table, victim)
    {
      ghost var hot := AccessedFrames();
      ghost var was: map<PageDir, set<nat>> := map d: PageDir | d in dirs :: d.accessed;
      assert hot - AccessedFrames() == {};
      victim := Scan(order, first, eligible, dirs, was, hot);
    }

    // ---------------------------------------------------------------- frames come and go

    /** A new frame joins at the back of the list, pinned. */
    method Add(f: Frame)
      requires Valid() && f !in table
      modifies this`table
      ensures Valid() && table == old(table) + [f]
    {
      table := table + [f];
    }

    /** Removes the frame that `cur` owns at `kpage`, if the table has one.  The hand never dangles:
        the frames left are met in the order in which they would have been met before. */
    method Free(kpage: nat, cur: Process)
      requires Valid()
      modifies this
      ensures Valid() && (table == [] ==> hand == null)
      ensures var i := old(FirstMatch(table, kpage, cur));
              if i == |old(table)| then table == old(table) && hand == old(hand)
              else
                && table == RemoveAt(old(table), i)
                && Order(table, hand) == Without(old(Order(table, hand)), old(table)[i])
    {
      var i := Find(kpage, cur);
      if i < |table| {
        Remove(i);
      }
    }

    method Find(kpage: nat, cur: Process) returns (i: nat)
      ensures i == FirstMatch(table, kpage, cur)
    {
      i := 0;
      while i < |table| && !(table[i].kpage == kpage && table[i].owner == cur)
        invariant i <= |table| && FirstMatch(table, kpage, cur) == i + FirstMatch(table[i..], kpage, cur)
      {
        assert table[i..][1..] == table[i + 1..];
        i := i + 1;
      }
    }

    method Remove(i: nat)
      requires Valid() && i < |table|
      modifies this
      ensures Valid() && (table == [] ==> hand == null) && table == RemoveAt(old(table), i)
      ensures Order(table, hand) == Without(old(Order(table, hand)), old(table)[i])
    {
      var f := table[i];
      IndexOfAt(table, i);
      RemovedOrder(table, hand, i);
      if hand == f {
        hand := NextOf(table, f);
        if hand == f {
          hand := null;
        }
      }
      table := RemoveAt(table, i);
      if table == [] {
        hand := null;
      }
    }
  }

  // ------------------------------------------------------------------ removing a frame

  function FirstMatch(xs: seq<Frame>, kpage: nat, cur: Process): (i: nat)
    reads xs
    ensures i <= |xs| && (i < |xs| ==> xs[i].kpage == kpage && xs[i].owner == cur)
    ensures forall k | 0 <= k < i :: xs[k].kpage != kpage || xs[k].owner != cur
  {
    if xs == [] || (xs[0].kpage == kpage && xs[0].owner == cur) then 0 else 1 + FirstMatch(xs[1..], kpage, cur)
  }

  function RemoveAt(xs: seq<Frame>, i: nat): (ys: seq<Frame>)
    requires i < |xs|
    ensures |ys| == |xs| - 1
  {
    xs[..i] + xs[i + 1..]
  }

  function Without(xs: seq<Frame>, f: Frame): seq<Frame> {
    if xs == [] then [] else if xs[0] == f then xs[1..] else [xs[0]] + Without(xs[1..], f)
  }

  lemma {:induction false} WithoutAt(xs: seq<Frame>, i: nat)
    requires Distinct(xs) && i < |xs|
    ensures Without(xs, xs[i]) == xs[..i] + xs[i + 1..]
  {
    if i > 0 { WithoutAt(xs[1..], i - 1); }
  }

  /** Where the hand goes when frame `i` leaves. */
  function HandAfter(xs: seq<Frame>, hand: Frame?, i: nat): Frame?
    requires i < |xs|
  {
    if hand != xs[i] then hand
    else if |xs| == 1 then null
    else NextOf(xs, xs[i])
  }

  lemma RemovedDistinct(xs: seq<Frame>, i: nat)
    requires Distinct(xs) && i < |xs|
    ensures Distinct(RemoveAt(xs, i))
    ensures forall k | 0 <= k < |xs| && k != i :: xs[k] == RemoveAt(xs, i)[if k < i then k else k - 1]
  {
  }

  lemma RemovedOrder(xs: seq<Frame>, hand: Frame?, i: nat)
    requires Distinct(xs) && i < |xs| && (hand != null ==> hand in xs)
    ensures Distinct(RemoveAt(xs, i))
    ensures var hand' := HandAfter(xs, hand, i);
            && (hand' != null ==> hand' in RemoveAt(xs, i))
            && Order(RemoveAt(xs, i), hand') == Without(Order(xs, hand), xs[i])
  {
    RemovedDistinct(xs, i);
    if hand == null {
      WithoutAt(xs, i);
    } else {
      var h := IndexOf(xs, hand);
      OrderWithout(xs, h, i);
      if h == i { RemoveAtHand(xs, i); } else { RemoveElsewhere(xs, h, i); }
    }
  }

  lemma OrderWithout(xs: seq<Frame>, h: nat, i: nat)
    requires Distinct(xs) && i < |xs| && h < |xs|
    ensures var order := Order(xs, xs[h]);
            var at := if h <= i then i - h else |xs| - h + i;
            Without(order, xs[i]) == order[..at] + order[at + 1..] && (h == i ==> Without(order, xs[i]) == xs[i + 1..] + xs[..i])
  {
    IndexOfAt(xs, h);
    OrderDistinct(xs, xs[h]);
    var at := if h <= i then i - h else |xs| - h + i;
    OrderAt(xs, xs[h], at);
    WithoutAt(Order(xs, xs[h]), at);
    if h == i { DropFirst(xs, i); }
  }

  lemma RemoveAtHand(xs: seq<Frame>, i: nat)
    requires Distinct(xs) && i < |xs|
    ensures var hand' := HandAfter(xs, xs[i], i);
            && (hand' != null ==> hand' in RemoveAt(xs, i))
            && Order(RemoveAt(xs, i), hand') == xs[i + 1..] + xs[..i]
  {
    RemovedDistinct(xs, i);
    IndexOfAt(xs, i);
    var ys := RemoveAt(xs, i);
    if i + 1 < |xs| {
      assert ys[i] == xs[i + 1];
      IndexOfAt(ys, i);
      assert ys[i..] == xs[i + 1..] && ys[..i] == xs[..i];
    } else if |xs| > 1 {
      assert ys[0] == xs[0];
      IndexOfAt(ys, 0);
      assert ys == xs[..i];
      assert ys[0..] + ys[..0] == ys;
    }
  }

  lemma RemoveElsewhere(xs: seq<Frame>, h: nat, i: nat)
    requires Distinct(xs) && i < |xs| && h < |xs| && h != i
    ensures var order := Order(xs, xs[h]);
            var at := if h <= i then i - h else |xs| - h + i;
            && xs[h] in RemoveAt(xs, i)
            && Order(RemoveAt(xs, i), xs[h]) == order[..at] + order[at + 1..]
  {
    RemovedDistinct(xs, i);
    IndexOfAt(xs, h);
    IndexOfAt(RemoveAt(xs, i), if h < i then h else h - 1);
    if h < i { RotateThenRemove(xs, h, i); } else { RemoveThenRotate(xs, h, i); }
  }
}
