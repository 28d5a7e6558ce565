/** Priority donation between threads that wait for each other's locks. */
module Donation {
  import opened ListSortSpec

  class Lock {
    var holder: Thread?
  }

  class Thread {
    var priority: int
    var basePriority: int
    var waitingOn: Lock?
    /** The threads waiting for a lock this thread holds, in any order. */
    var donors: seq<Thread>
  }

  /** The thread that `t` waits for, if any. */
  function Blocker(t: Thread): Thread?
    reads t, t.waitingOn
  {
    if t.waitingOn == null then null else t.waitingOn.holder
  }

  /** A closed world: no thread in it waits for anything outside. */
  ghost predicate Closed(all: set<Thread>, locks: set<Lock>)
    reads all, locks
  {
    && (forall t | t in all :: t.waitingOn != null ==> t.waitingOn in locks)
    && (forall l | l in locks :: l.holder != null ==> l.holder in all)
  }

  /** No thread, other than perhaps `but`, has a higher priority than the one it waits for. */
  ghost predicate Settled(all: set<Thread>, locks: set<Lock>, but: Thread?)
    requires Closed(all, locks)
    reads all, locks
  {
    forall t | t in all && t != but :: Blocker(t) != null ==> t.priority <= Blocker(t).priority
  }

  /** The waits-for chain from `c[0]`, which ends: no thread waits, through others, for itself. */
  ghost predicate Chain(all: set<Thread>, locks: set<Lock>, c: seq<Thread>)
    requires Closed(all, locks)
    reads all, locks
  {
    && |c| >= 1 && (forall i | 0 <= i < |c| :: c[i] in all)
    && (forall i, j | 0 <= i < j < |c| :: c[i] != c[j])
    && (forall i | 0 <= i < |c| - 1 :: Blocker(c[i]) == c[i + 1])
    && Blocker(c[|c| - 1]) == null
  }

  function Max(a: int, b: int): int { if a >= b then a else b }

  /** Priorities at some moment, under which only `c[0]` outranks the thread it waits for. */
  ghost predicate SettledBefore(all: set<Thread>, locks: set<Lock>, c: seq<Thread>, was: map<Thread, int>)
    requires Closed(all, locks) && Chain(all, locks, c)
    reads all, locks
  {
    && was.Keys == all
    && (forall t | t in all && t != c[0] :: Blocker(t) != null ==> was[t] <= was[Blocker(t)])
  }

  lemma {:induction false} ChainRises(all: set<Thread>, locks: set<Lock>, c: seq<Thread>, was: map<Thread, int>, i: nat, j: nat)
    requires Closed(all, locks) && Chain(all, locks, c) && SettledBefore(all, locks, c, was)
    requires 1 <= i <= j < |c|
    ensures was[c[i]] <= was[c[j]]
    decreases j
  {
    if i < j {
      ChainRises(all, locks, c, was, i, j - 1);
      assert Blocker(c[j - 1]) == c[j] && c[j - 1] != c[0];
    }
  }

  const MAX_DEPTH: nat := 8

  /** What a donation of `p` leaves. */
  ghost predicate Donated(all: set<Thread>, c: seq<Thread>, was: map<Thread, int>, p: int)
    requires was.Keys == all && forall i | 0 <= i < |c| :: c[i] in all
    reads all
  {
    && (forall t | t in all && t !in c :: t.priority == was[t])
    && (forall i | 0 <= i < |c| :: c[i].priority == if i <= MAX_DEPTH then Max(was[c[i]], p) else was[c[i]])
  }

  lemma DonatedSettles(all: set<Thread>, locks: set<Lock>, c: seq<Thread>, was: map<Thread, int>)
    requires Closed(all, locks) && Chain(all, locks, c) && SettledBefore(all, locks, c, was)
    requires Donated(all, c, was, was[c[0]])
    ensures Settled(all, locks, null) <==> |c| <= MAX_DEPTH + 1 || was[c[MAX_DEPTH + 1]] >= was[c[0]]
  {
    var p := was[c[0]];
    if |c| <= MAX_DEPTH + 1 || was[c[MAX_DEPTH + 1]] >= p {
      forall t | t in all && Blocker(t) != null ensures t.priority <= Blocker(t).priority {
        LinkSettles(all, locks, c, was, t);
      }
    } else {
      assert Blocker(c[MAX_DEPTH]) == c[MAX_DEPTH + 1];
      assert c[MAX_DEPTH].priority > c[MAX_DEPTH + 1].priority;
    }
  }

  lemma LinkSettles(all: set<Thread>, locks: set<Lock>, c: seq<Thread>, was: map<Thread, int>, t: Thread)
    requires Closed(all, locks) && Chain(all, locks, c) && SettledBefore(all, locks, c, was)
    requires Donated(all, c, was, was[c[0]])
    requires |c| <= MAX_DEPTH + 1 || was[c[MAX_DEPTH + 1]] >= was[c[0]]
    requires t in all && Blocker(t) != null
    ensures t.priority <= Blocker(t).priority
  {
    if t in c {
      var i :| 0 <= i < |c| && c[i] == t;
      assert i < |c| - 1 && Blocker(t) == c[i + 1];
      assert i > 0 ==> was[c[i]] <= was[c[i + 1]];
    } else {
      assert t.priority <= was[Blocker(t)];
      assert Blocker(t) in c ==> exists i | 0 <= i < |c| :: c[i] == Blocker(t);
    }
  }

  /** Hands the priority of `cur` down the chain, to a depth of eight.  Each of the first eight blockers
      ends with the larger of its own priority and that of `cur`, and nothing else changes.  Order is
      restored everywhere exactly when the chain has at most eight links, or its ninth already ranks
      high enough. */
  method NestedDonation(cur: Thread, ghost all: set<Thread>, ghost locks: set<Lock>, ghost c: seq<Thread>)
    requires Closed(all, locks) && Chain(all, locks, c) && c[0] == cur && Settled(all, locks, cur)
    modifies all`priority
    ensures forall t | t in all && t !in c :: t.priority == old(t.priority)
    ensures forall i | 0 <= i < |c| ::
              c[i].priority == if i <= 8 then Max(old(c[i].priority), old(cur.priority)) else old(c[i].priority)
    ensures Settled(all, locks, null) <==> |c| <= 9 || old(c[9].priority) >= old(cur.priority)
  {
    ghost var was: map<Thread, int> := map t: Thread | t in all :: t.priority;
    ghost var depth := HandDown(cur, all, locks, c, was);
    Handed(all, locks, c, was, depth);
    DonatedSettles(all, locks, c, was);
  }

  /** The loop of the donation. */
  method HandDown(cur: Thread, ghost all: set<Thread>, ghost locks: set<Lock>, ghost c: seq<Thread>, ghost was: map<Thread, int>)
      returns (ghost reached: nat)
    requires Closed(all, locks) && Chain(all, locks, c) && c[0] == cur && was.Keys == all && HandedDown(all, c, was, 0)
    modifies all`priority
    ensures reached <= MAX_DEPTH && reached < |c| && HandedDown(all, c, was, reached)
    ensures reached + 1 == |c| || reached == MAX_DEPTH || was[c[reached + 1]] >= was[cur]
  {
    var t := cur;
    var depth := 0;
    while t.waitingOn != null && depth < MAX_DEPTH
      invariant depth <= MAX_DEPTH && depth < |c| && t == c[depth]
      invariant HandedDown(all, c, was, depth)
      decreases MAX_DEPTH - depth
    {
      var holder := t.waitingOn.holder;
      if holder == null || holder.priority >= t.priority {
        break;
      }
      assert holder == c[depth + 1];
      holder.priority := t.priority;
      t, depth := holder, depth + 1;
    }
    reached := depth;
  }

  /** The first `depth` blockers have been raised, and nothing else has changed. */
  ghost predicate HandedDown(all: set<Thread>, c: seq<Thread>, was: map<Thread, int>, depth: nat)
    requires was.Keys == all && depth < |c| && forall i | 0 <= i < |c| :: c[i] in all
    reads all
  {
    && (forall t | t in all && t !in c :: t.priority == was[t])
    && (forall i | depth < i < |c| :: c[i].priority == was[c[i]])
    && (forall i | 0 <= i <= depth :: c[i].priority == was[c[0]])
    && (forall i | 1 <= i <= depth :: was[c[i]] < was[c[0]])
  }

  /** Where the loop stops, the rest of the chain already ranks high enough. */
  lemma Handed(all: set<Thread>, locks: set<Lock>, c: seq<Thread>, was: map<Thread, int>, depth: nat)
    requires Closed(all, locks) && Chain(all, locks, c) && SettledBefore(all, locks, c, was)
    requires depth <= MAX_DEPTH && depth < |c| && HandedDown(all, c, was, depth)
    requires depth + 1 == |c| || depth == MAX_DEPTH || was[c[depth + 1]] >= was[c[0]]
    ensures Donated(all, c, was, was[c[0]])
  {
    forall i | 0 <= i < |c|
      ensures c[i].priority == if i <= MAX_DEPTH then Max(was[c[i]], was[c[0]]) else was[c[i]]
    {
      if i > depth { ChainRises(all, locks, c, was, depth + 1, i); }
    }
  }

  // ------------------------------------------------------------------ taking donations back

  /** A higher priority comes first.  Priorities are those of one moment. */
  function Higher(priorities: map<Thread, int>): (Thread, Thread) -> bool {
    (a, b) => a in priorities && b in priorities && priorities[a] > priorities[b]
  }

  lemma HigherIsStrictWeak(priorities: map<Thread, int>, dom: set<Thread>)
    requires dom <= priorities.Keys
    ensures StrictWeakOrder(Higher(priorities), dom)
  {
  }

  lemma SortedDescends(priorities: map<Thread, int>, xs: seq<Thread>)
    requires Members(xs) <= priorities.Keys && Sorted(Higher(priorities), xs)
    ensures forall i, j | 0 <= i < j < |xs| :: xs[i] in priorities && xs[j] in priorities && priorities[xs[i]] >= priorities[xs[j]]
  {
    forall i, j | 0 <= i < j < |xs|
      ensures xs[i] in priorities && xs[j] in priorities && priorities[xs[i]] >= priorities[xs[j]]
    {
      assert xs[i] in Members(xs) && xs[j] in Members(xs);
      assert !Higher(priorities)(xs[j], xs[i]);
    }
  }

  /** The list in order of priority, best first. */
  method SortDonors(donors: seq<Thread>) returns (sorted: seq<Thread>)
    ensures multiset(sorted) == multiset(donors) && Members(sorted) == Members(donors)
    ensures Descending(sorted)
  {
    var priorities: map<Thread, int> := map t: Thread | t in donors :: t.priority;
    HigherIsStrictWeak(priorities, Members(donors));
    sorted := SortSequence(Higher(priorities), donors);
    SameMembers(donors, sorted);
    SortedDescends(priorities, sorted);
  }

  ghost predicate Descending(donors: seq<Thread>)
    reads donors
  {
    forall i, j | 0 <= i < j < |donors| :: donors[i].priority >= donors[j].priority
  }

  /** `p` is the larger of the base priority and the highest donor's. */
  ghost predicate IsHighest(p: int, base: int, donors: seq<Thread>)
    reads donors
  {
    && p >= base && (forall i | 0 <= i < |donors| :: donors[i].priority <= p)
    && (p == base || exists i | 0 <= i < |donors| :: donors[i].priority == p)
  }

  /** Sorts the donors and takes the best of them, unless the base priority is higher. */
  method Reprioritise(cur: Thread)
    requires cur !in cur.donors
    modifies cur`priority, cur`donors
    ensures multiset(cur.donors) == multiset(old(cur.donors)) && Members(cur.donors) == Members(old(cur.donors))
    ensures Descending(cur.donors) && IsHighest(cur.priority, cur.basePriority, cur.donors)
  {
    cur.priority := cur.basePriority;
    if cur.donors != [] {
      var sorted := SortDonors(cur.donors);
      NotAMember(sorted, cur.donors, cur);
      cur.donors := sorted;
      if sorted[0].priority > cur.priority {
        cur.priority := sorted[0].priority;
      }
    }
  }

  /** The system call: a new base priority, which donors may still outrank. */
  method SetPriority(cur: Thread, newPriority: int)
    requires cur !in cur.donors
    modifies cur`priority, cur`basePriority, cur`donors
    ensures cur.basePriority == newPriority && Members(cur.donors) == Members(old(cur.donors))
    ensures IsHighest(cur.priority, newPriority, cur.donors)
  {
    cur.basePriority := newPriority;
    Reprioritise(cur);
  }

  // ------------------------------------------------------------------ forgetting donors

  /** What is left of the donors without those in `gone`. */
  function Keep(donors: seq<Thread>, gone: set<Thread>): seq<Thread> {
    if donors == [] then []
    else (if donors[0] in gone then [] else [donors[0]]) + Keep(donors[1..], gone)
  }

  lemma {:induction false} KeepMembers(donors: seq<Thread>, gone: set<Thread>)
    ensures Members(Keep(donors, gone)) == Members(donors) - gone
  {
    if donors != [] {
      KeepMembers(donors[1..], gone);
      var first := if donors[0] in gone then [] else [donors[0]];
      MembersConcat(first, Keep(donors[1..], gone));
      MembersConcat([donors[0]], donors[1..]);
      assert donors == [donors[0]] + donors[1..];
    }
  }

  lemma MembersConcat(xs: seq<Thread>, ys: seq<Thread>)
    ensures Members(xs + ys) == Members(xs) + Members(ys)
  {
  }

  lemma NotAMember(xs: seq<Thread>, ys: seq<Thread>, t: Thread)
    requires Members(xs) <= Members(ys) && t !in ys
    ensures t !in xs
  {
    assert t !in Members(ys);
    assert t !in Members(xs);
  }

  /** The list when the loop ends, from a state in which it looks at element `i`. */
  function KeptFrom(donors: seq<Thread>, i: nat, gone: set<Thread>): seq<Thread>
    requires i <= |donors|
  {
    donors[..i] + Keep(donors[i..], gone)
  }

  lemma KeptFromStart(donors: seq<Thread>, gone: set<Thread>)
    ensures KeptFrom(donors, 0, gone) == Keep(donors, gone) && KeptFrom(donors, |donors|, gone) == donors
  {
    assert donors[0..] == donors;
  }

  lemma KeptFromNext(donors: seq<Thread>, i: nat, gone: set<Thread>)
    requires i < |donors|
    ensures donors[i] in gone ==> KeptFrom(donors[..i] + donors[i + 1..], i, gone) == KeptFrom(donors, i, gone)
    ensures donors[i] !in gone ==> KeptFrom(donors, i + 1, gone) == KeptFrom(donors, i, gone)
  {
    assert donors[i..][1..] == donors[i + 1..];
    var without := donors[..i] + donors[i + 1..];
    assert without[..i] == donors[..i] && without[i..] == donors[i + 1..];
    assert donors[..i + 1] == donors[..i] + [donors[i]];
  }

  ghost function WaitersOf(donors: seq<Thread>, lock: Lock): set<Thread>
    reads donors
  {
    set t | t in donors && t.waitingOn == lock
  }

  method ForgetWaiters(cur: Thread, lock: Lock)
    modifies cur`donors
    ensures cur.donors == Keep(old(cur.donors), old(WaitersOf(cur.donors, lock)))
  {
    ghost var before := cur.donors;
    ghost var gone := WaitersOf(before, lock);
    KeptFromStart(before, gone);
    var i := 0;
    while i < |cur.donors|
      invariant i <= |cur.donors|
      invariant KeptFrom(cur.donors, i, gone) == Keep(before, gone)
      invariant forall t | t in cur.donors :: t in before
      decreases |cur.donors| - i
    {
      KeptFromNext(cur.donors, i, gone);
      assert cur.donors[i] in before && (cur.donors[i] in gone <==> cur.donors[i].waitingOn == lock);
      if cur.donors[i].waitingOn == lock {
        cur.donors := cur.donors[..i] + cur.donors[i + 1..];
      } else {
        i := i + 1;
      }
    }
    KeptFromStart(cur.donors, gone);
  }

  /** Releasing a lock: exactly the donors that do not wait for it are left, whatever the order of the
      list was, and the priority is the best of theirs and the base priority. */
  method RecallDonation(cur: Thread, lock: Lock)
    requires cur !in cur.donors
    modifies cur`priority, cur`donors
    ensures multiset(cur.donors) == multiset(Keep(old(cur.donors), old(WaitersOf(cur.donors, lock))))
    ensures Members(cur.donors) == Members(old(cur.donors)) - old(WaitersOf(cur.donors, lock))
    ensures IsHighest(cur.priority, cur.basePriority, cur.donors)
  {
    KeepMembers(cur.donors, WaitersOf(cur.donors, lock));
    ForgetWaiters(cur, lock);
    NotAMember(cur.donors, old(cur.donors), cur);
    Reprioritise(cur);
  }

  // ------------------------------------------------------------------ locks

  /** The first half of acquiring a lock that is held: `cur` says what it waits for, joins the holder's
      donors at some position and donates.  If order held everywhere before, it does again, unless
      the chain goes on for more than eight links to a thread that ranks below `cur`. */
  method WaitForLock(cur: Thread, lock: Lock, at: nat, ghost all: set<Thread>, ghost locks: set<Lock>, ghost d: seq<Thread>)
    requires Closed(all, locks) && Settled(all, locks, null) && cur in all && lock in locks && cur.waitingOn == null
    requires Chain(all, locks, d) && lock.holder == d[0] && cur !in d && at <= |d[0].donors|
    modifies cur`waitingOn, lock.holder`donors, all`priority
    ensures cur.waitingOn == lock && lock.holder.donors == old(lock.holder.donors[..at] + [cur] + lock.holder.donors[at..])
    ensures forall t | t in all && t !in d :: t.priority == old(t.priority)
    ensures forall i | 0 <= i < |d| ::
              d[i].priority == if i < 8 then Max(old(d[i].priority), old(cur.priority)) else old(d[i].priority)
    ensures Closed(all, locks)
    ensures Settled(all, locks, null) <==> |d| <= 8 || old(d[8].priority) >= old(cur.priority)
  {
    Enlist(cur, lock, at, all, locks, d);
    DonateDown(cur, all, locks, d);
  }

  /** The same donation, told from the holder on. */
  method DonateDown(cur: Thread, ghost all: set<Thread>, ghost locks: set<Lock>, ghost d: seq<Thread>)
    requires Closed(all, locks) && Chain(all, locks, [cur] + d) && Settled(all, locks, cur)
    modifies all`priority
    ensures forall t | t in all && t !in d :: t.priority == old(t.priority)
    ensures forall i | 0 <= i < |d| ::
              d[i].priority == if i < 8 then Max(old(d[i].priority), old(cur.priority)) else old(d[i].priority)
    ensures Settled(all, locks, null) <==> |d| <= 8 || old(d[8].priority) >= old(cur.priority)
  {
    ghost var c := [cur] + d;
    NestedDonation(cur, all, locks, c);
    assert c[0] == cur && forall i | 0 <= i < |d| :: d[i] == c[i + 1];
  }

  /** `cur` waits for the lock and is a donor of its holder, and has not donated yet. */
  method Enlist(cur: Thread, lock: Lock, at: nat, ghost all: set<Thread>, ghost locks: set<Lock>, ghost d: seq<Thread>)
    requires Closed(all, locks) && Settled(all, locks, null) && cur in all && lock in locks && cur.waitingOn == null
    requires Chain(all, locks, d) && lock.holder == d[0] && cur !in d && at <= |d[0].donors|
    modifies cur`waitingOn, lock.holder`donors
    ensures cur.waitingOn == lock && lock.holder.donors == old(lock.holder.donors[..at] + [cur] + lock.holder.donors[at..])
    ensures Closed(all, locks) && Chain(all, locks, [cur] + d) && Settled(all, locks, cur)
  {
    var holder := lock.holder;
    cur.waitingOn := lock;
    holder.donors := holder.donors[..at] + [cur] + holder.donors[at..];
    assert forall t | t in all && t != cur :: Blocker(t) == old(Blocker(t));
  }

  /** The second half: `cur` has got the semaphore and takes the lock.  The threads that still wait for it
      now wait for `cur`, but nothing makes them its donors; order survives exactly if they rank no higher. */
  method TakeLock(cur: Thread, lock: Lock, ghost all: set<Thread>, ghost locks: set<Lock>)
    requires Closed(all, locks) && Settled(all, locks, null) && cur in all && lock in locks && lock.holder == null
    requires cur.waitingOn == null || cur.waitingOn == lock
    modifies cur`waitingOn, lock
    ensures cur.waitingOn == null && lock.holder == cur && Closed(all, locks)
    ensures Settled(all, locks, null) <==>
              old(forall t | t in all && t != cur && t.waitingOn == lock :: t.priority <= cur.priority)
  {
    cur.waitingOn := null;
    lock.holder := cur;
    assert forall t | t in all && t != cur ::
             t.waitingOn == old(t.waitingOn) && Blocker(t) == if t.waitingOn == lock then cur else old(Blocker(t));
  }

  /** Whoever stays blocked on `cur` when it gives `lock` up ranks no higher than the base priority or than
      some donor that stays. */
  ghost predicate Outranked(cur: Thread, lock: Lock, all: set<Thread>, locks: set<Lock>)
    requires Closed(all, locks) && cur in all
    reads all, locks, cur.donors
  {
    forall t | t in all && Blocker(t) == cur && t.waitingOn != lock :: BelowKept(t.priority, cur, lock)
  }

  ghost predicate BelowKept(p: int, cur: Thread, lock: Lock)
    reads cur, cur.donors
  {
    p <= cur.basePriority || exists d | d in cur.donors :: d.waitingOn != lock && p <= d.priority
  }

  lemma HighestIs(p: int, base: int, donors: seq<Thread>, q: int)
    requires IsHighest(p, base, donors)
    ensures q <= p <==> q <= base || exists d | d in donors :: q <= d.priority
  {
    if q <= p && p != base {
      var i :| 0 <= i < |donors| && donors[i].priority == p;
      assert donors[i] in donors;
    }
  }

  /** The first half of releasing a lock.  Order survives exactly if nobody who stays blocked on `cur`
      outranks what it is left with. */
  method GiveUpLock(cur: Thread, lock: Lock, ghost all: set<Thread>, ghost locks: set<Lock>)
    requires Closed(all, locks) && Settled(all, locks, null) && cur in all && lock in locks
    requires lock.holder == cur && cur.waitingOn == null && cur !in cur.donors
    modifies cur`priority, cur`donors, lock
    ensures lock.holder == null && Members(cur.donors) == Members(old(cur.donors)) - old(WaitersOf(cur.donors, lock))
    ensures IsHighest(cur.priority, cur.basePriority, cur.donors)
    ensures Closed(all, locks)
    ensures Settled(all, locks, null) <==> old(Outranked(cur, lock, all, locks))
  {
    ghost var before := cur.donors;
    ghost var gone := WaitersOf(before, lock);
    RecallDonation(cur, lock);
    lock.holder := null;
    forall t | t in all && t != cur ensures t.priority <= cur.priority <==> old(BelowKept(t.priority, cur, lock)) {
      HighestIs(cur.priority, cur.basePriority, cur.donors, t.priority);
      KeptDonors(cur.donors, before, gone);
    }
    assert forall t | t in all :: Blocker(t) == if t.waitingOn == lock then null else old(Blocker(t));
  }

  lemma KeptDonors(after: seq<Thread>, before: seq<Thread>, gone: set<Thread>)
    requires Members(after) == Members(before) - gone
    ensures forall d :: d in after <==> d in before && d !in gone
  {
    forall d ensures d in after <==> d in before && d !in gone {
      assert d in Members(after) <==> d in Members(before) && d !in gone;
    }
  }

  // ------------------------------------------------------------------ a lock handed over

  method NewThread(priority: int) returns (t: Thread)
    ensures fresh(t) && t.priority == t.basePriority == priority && t.waitingOn == null && t.donors == []
  {
    t := new Thread;
    t.priority, t.basePriority, t.waitingOn, t.donors := priority, priority, null, [];
  }

  method NewLock() returns (l: Lock)
    ensures fresh(l) && l.holder == null
  {
    l := new Lock;
    l.holder := null;
  }

  /** Four threads and two locks. */
  datatype Cast = Cast(a: Thread, b: Thread, c: Thread, d: Thread, l: Lock, m: Lock) {
    ghost predicate Distinct() {
      a != b && a != c && a != d && b != c && b != d && c != d && l != m
    }

    ghost function Threads(): set<Thread> { {a, b, c, d} }

    ghost function Locks(): set<Lock> { {l, m} }

    ghost predicate Ranks(pa: int, pb: int, pc: int, pd: int)
      reads Threads()
    {
      a.priority == pa && b.priority == pb && c.priority == pc && d.priority == pd
    }

    ghost predicate Waits(la: Lock?, lb: Lock?, lc: Lock?, ld: Lock?)
      reads Threads()
    {
      a.waitingOn == la && b.waitingOn == lb && c.waitingOn == lc && d.waitingOn == ld
    }

    ghost predicate HandedOver()
      reads Threads(), Locks()
    {
      && Distinct() && l.holder == b && m.holder == b && Waits(null, null, l, m) && b.donors == [d]
      && b.basePriority == 10 && c.priority == 40
      && Closed(Threads(), Locks()) && Settled(Threads(), Locks(), null)
    }
  }

  method Meet() returns (x: Cast)
    ensures fresh(x.Threads()) && fresh(x.Locks()) && x.Distinct()
    ensures x.Ranks(5, 10, 40, 50) && x.b.basePriority == 10 && x.Waits(null, null, null, null)
    ensures x.l.holder == null && x.m.holder == null && x.a.donors == [] && x.b.donors == []
  {
    var a := NewThread(5);
    var b := NewThread(10);
    var c := NewThread(40);
    var d := NewThread(50);
    var l := NewLock();
    var m := NewLock();
    x := Cast(a, b, c, d, l, m);
  }

  /** Nobody waits, and A takes one lock and B the other. */
  method Begin(x: Cast)
    requires x.Distinct() && x.Waits(null, null, null, null) && x.l.holder == null && x.m.holder == null
    modifies x.a`waitingOn, x.b`waitingOn, x.Locks()
    ensures x.Waits(null, null, null, null) && x.l.holder == x.a && x.m.holder == x.b
  {
    TakeLock(x.a, x.l, x.Threads(), x.Locks());
    TakeLock(x.b, x.m, x.Threads(), x.Locks());
  }

  /** B and C wait for A's lock. */
  method TwoWait(x: Cast)
    requires x.Distinct() && x.Ranks(5, 10, 40, 50) && x.Waits(null, null, null, null)
    requires x.l.holder == x.a && x.m.holder == x.b && x.a.donors == []
    modifies x.Threads()`priority, x.Threads()`waitingOn, x.a`donors
    ensures x.Ranks(40, 10, 40, 50) && x.Waits(null, x.l, x.l, null) && x.a.donors == [x.c, x.b]
  {
    WaitForLock(x.b, x.l, 0, x.Threads(), x.Locks(), [x.a]);
    assert x.Ranks(10, 10, 40, 50);
    WaitForLock(x.c, x.l, 0, x.Threads(), x.Locks(), [x.a]);
  }

  /** D waits for B's. */
  method ThirdWaits(x: Cast)
    requires x.Distinct() && x.Ranks(40, 10, 40, 50) && x.Waits(null, x.l, x.l, null)
    requires x.l.holder == x.a && x.m.holder == x.b && x.b.donors == []
    modifies x.Threads()`priority, x.d`waitingOn, x.b`donors
    ensures x.Ranks(50, 50, 40, 50) && x.Waits(null, x.l, x.l, x.m) && x.b.donors == [x.d]
  {
    var chain := [x.b, x.a];
    assert Chain(x.Threads(), x.Locks(), chain);
    WaitForLock(x.d, x.m, 0, x.Threads(), x.Locks(), chain);
    assert chain[0] == x.b && chain[1] == x.a;
  }

  /** A gives its lock to B, which so becomes the one C waits for. */
  method HandOver(x: Cast)
    requires x.Distinct() && x.Ranks(50, 50, 40, 50) && x.Waits(null, x.l, x.l, x.m)
    requires x.l.holder == x.a && x.m.holder == x.b && x.a.donors == [x.c, x.b]
    requires x.b.donors == [x.d] && x.b.basePriority == 10
    modifies x.a`priority, x.a`donors, x.b`waitingOn, x.l
    ensures x.HandedOver()
  {
    GiveUpLock(x.a, x.l, x.Threads(), x.Locks());
    TakeLock(x.b, x.l, x.Threads(), x.Locks());
  }

  /** B gives the other lock up and is left with its base priority. */
  method LoseDonation(x: Cast)
    requires x.HandedOver()
    modifies x.b`priority, x.b`donors, x.m
    ensures x.l.holder == x.b && x.c.waitingOn == x.l && x.b.donors == [] && x.b.priority == 10 && x.c.priority == 40
    ensures Closed(x.Threads(), x.Locks())
  {
    GiveUpLock(x.b, x.m, x.Threads(), x.Locks());
    assert x.b.donors != [] ==> x.b.donors[0] in x.b.donors;
    KeptDonors(x.b.donors, [x.d], {x.d});
  }

  /** A run in which order is lost.  B and C wait for A's lock and D for B's; A gives its lock up and B
      gets it; C is now blocked on B without being its donor, so that when B gives the other lock up, and
      with it the donation of D, it falls back below C. */
  method HandOverLosesDonor() returns (x: Cast)
    ensures Closed(x.Threads(), x.Locks()) && Blocker(x.c) == x.b && x.c !in x.b.donors
    ensures x.b.priority < x.c.priority && !Settled(x.Threads(), x.Locks(), null)
  {
    x := Meet();
    Begin(x);
    TwoWait(x);
    ThirdWaits(x);
    HandOver(x);
    LoseDonation(x);
  }
}
