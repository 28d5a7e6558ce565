/** Natural merge sort on sequences: what `list_sort` computes, pass by pass. */
module ListSortSpec {
  import opened Seqs

  /** `less` orders the members of `xs` as a strict weak order. */
  ghost predicate StrictWeakOrder<T>(less: (T, T) -> bool, xs: set<T>) {
    && (forall a :: a in xs ==> !less(a, a))
    && (forall a, b, c :: a in xs && b in xs && c in xs && less(a, b) && less(b, c) ==> less(a, c))
    && (forall a, b, c :: a in xs && b in xs && c in xs && Tied(less, a, b) && Tied(less, b, c) ==> Tied(less, a, c))
  }

  predicate Tied<T>(less: (T, T) -> bool, a: T, b: T) {
    !less(a, b) && !less(b, a)
  }

  function Members<T>(xs: seq<T>): set<T> {
    set x | x in xs
  }

  lemma MembersSlice<T>(xs: seq<T>, i: nat, j: nat)
    requires i <= j <= |xs|
    ensures Members(xs[i..j]) <= Members(xs)
  {
  }

  /** Nondecreasing: no member is less than an earlier one. */
  ghost predicate Sorted<T>(less: (T, T) -> bool, xs: seq<T>) {
    forall i, j :: 0 <= i < j < |xs| ==> !less(xs[j], xs[i])
  }

  /** The members tied with `x`, in order. */
  function TiedWith<T>(less: (T, T) -> bool, x: T, xs: seq<T>): seq<T> {
    if xs == [] then []
    else (if Tied(less, x, xs[0]) then [xs[0]] else []) + TiedWith(less, x, xs[1..])
  }

  /** Same members, and tied members keep their order. */
  ghost predicate StableRearrangement<T>(less: (T, T) -> bool, xs: seq<T>, ys: seq<T>) {
    && multiset(ys) == multiset(xs)
    && (forall x :: x in xs ==> TiedWith(less, x, ys) == TiedWith(less, x, xs))
  }

  /** `a` comes before `b` somewhere in `xs`. */
  ghost predicate InOrder<T>(xs: seq<T>, a: T, b: T) {
    exists i, j | 0 <= i < j < |xs| :: xs[i] == a && xs[j] == b
  }

  lemma InOrderCons<T>(y: T, xs: seq<T>, a: T, b: T)
    ensures InOrder([y] + xs, a, b) <==> (y == a && b in xs) || InOrder(xs, a, b)
  {
    var ys := [y] + xs;
    if InOrder(ys, a, b) {
      var i, j :| 0 <= i < j < |ys| && ys[i] == a && ys[j] == b;
      assert xs[j - 1] == b;
      if i > 0 { assert xs[i - 1] == a; }
    }
    if y == a && b in xs {
      var j :| 0 <= j < |xs| && xs[j] == b;
      assert ys[0] == a && ys[j + 1] == b;
    }
    if InOrder(xs, a, b) {
      var i, j :| 0 <= i < j < |xs| && xs[i] == a && xs[j] == b;
      assert ys[i + 1] == a && ys[j + 1] == b;
    }
  }

  lemma {:induction false} TiedMember<T>(less: (T, T) -> bool, x: T, xs: seq<T>, b: T)
    ensures b in TiedWith(less, x, xs) <==> b in xs && Tied(less, x, b)
  {
    if xs != [] {
      TiedMember(less, x, xs[1..], b);
      assert xs == [xs[0]] + xs[1..];
    }
  }

  lemma {:induction false} TiedInOrder<T>(less: (T, T) -> bool, x: T, xs: seq<T>, a: T, b: T)
    ensures InOrder(TiedWith(less, x, xs), a, b) <==> Tied(less, x, a) && Tied(less, x, b) && InOrder(xs, a, b)
  {
    if xs != [] {
      var y, rest := xs[0], xs[1..];
      assert xs == [y] + rest;
      TiedInOrder(less, x, rest, a, b);
      InOrderCons(y, rest, a, b);
      TiedMember(less, x, rest, b);
      if Tied(less, x, y) {
        InOrderCons(y, TiedWith(less, x, rest), a, b);
      } else {
        assert TiedWith(less, x, xs) == TiedWith(less, x, rest);
      }
    }
  }

  /** What stability means: of two tied members the one that came first still does. */
  lemma StableKeepsOrder<T>(less: (T, T) -> bool, xs: seq<T>, ys: seq<T>, a: T, b: T)
    requires StableRearrangement(less, xs, ys) && a in xs && !less(a, a) && !less(a, b) && !less(b, a)
    ensures InOrder(xs, a, b) <==> InOrder(ys, a, b)
  {
    TiedInOrder(less, a, xs, a, b);
    TiedInOrder(less, a, ys, a, b);
  }

  // ------------------------------------------------------------------ merging

  /** The left run wins ties. */
  function Merge<T>(less: (T, T) -> bool, xs: seq<T>, ys: seq<T>): (r: seq<T>)
    ensures |r| == |xs| + |ys|
    decreases |xs| + |ys|
  {
    if xs == [] then ys
    else if ys == [] then xs
    else if !less(ys[0], xs[0]) then [xs[0]] + Merge(less, xs[1..], ys)
    else [ys[0]] + Merge(less, xs, ys[1..])
  }

  lemma {:induction false} MergeMembers<T>(less: (T, T) -> bool, xs: seq<T>, ys: seq<T>)
    ensures multiset(Merge(less, xs, ys)) == multiset(xs) + multiset(ys)
    decreases |xs| + |ys|
  {
    if xs != [] && ys != [] {
      if !less(ys[0], xs[0]) {
        assert xs == [xs[0]] + xs[1..];
        MergeMembers(less, xs[1..], ys);
      } else {
        assert ys == [ys[0]] + ys[1..];
        MergeMembers(less, xs, ys[1..]);
      }
    }
  }

  /** A strict weak order leaves no gaps: "not greater" is transitive. */
  lemma NotLessTrans<T>(less: (T, T) -> bool, dom: set<T>, a: T, b: T, c: T)
    requires StrictWeakOrder(less, dom) && a in dom && b in dom && c in dom
    requires !less(b, a) && !less(c, b)
    ensures !less(c, a)
  {
  }

  lemma InMerge<T>(less: (T, T) -> bool, xs: seq<T>, ys: seq<T>, x: T)
    ensures x in Merge(less, xs, ys) <==> x in xs || x in ys
  {
    MergeMembers(less, xs, ys);
    assert x in multiset(Merge(less, xs, ys)) <==> x in multiset(xs) || x in multiset(ys);
  }

  /** Putting a member in front of a sorted sequence none of whose members is less. */
  lemma SortedCons<T>(less: (T, T) -> bool, x: T, xs: seq<T>)
    requires Sorted(less, xs) && (forall y :: y in xs ==> !less(y, x))
    ensures Sorted(less, [x] + xs)
  {
  }

  lemma {:induction false} MergeSorted<T>(less: (T, T) -> bool, dom: set<T>, xs: seq<T>, ys: seq<T>)
    requires StrictWeakOrder(less, dom) && Members(xs) <= dom && Members(ys) <= dom
    requires Sorted(less, xs) && Sorted(less, ys)
    ensures Sorted(less, Merge(less, xs, ys))
    decreases |xs| + |ys|
  {
    if xs != [] && ys != [] {
      var (x, rest) := if !less(ys[0], xs[0]) then (xs[0], Merge(less, xs[1..], ys)) else (ys[0], Merge(less, xs, ys[1..]));
      if !less(ys[0], xs[0]) {
        assert Members(xs[1..]) <= Members(xs);
        MergeSorted(less, dom, xs[1..], ys);
      } else {
        assert Members(ys[1..]) <= Members(ys);
        MergeSorted(less, dom, xs, ys[1..]);
      }
      forall y | y in rest ensures !less(y, x) { HeadLeast(less, dom, xs, ys, y); }
      SortedCons(less, x, rest);
    }
  }

  /** The first member of a merge is not greater than any other. */
  lemma HeadLeast<T>(less: (T, T) -> bool, dom: set<T>, xs: seq<T>, ys: seq<T>, y: T)
    requires StrictWeakOrder(less, dom) && Members(xs) <= dom && Members(ys) <= dom
    requires xs != [] && ys != [] && Sorted(less, xs) && Sorted(less, ys)
    requires if !less(ys[0], xs[0]) then y in Merge(less, xs[1..], ys) else y in Merge(less, xs, ys[1..])
    ensures !less(y, if !less(ys[0], xs[0]) then xs[0] else ys[0])
  {
    assert xs[0] in Members(xs) && ys[0] in Members(ys);
    if !less(ys[0], xs[0]) {
      InMerge(less, xs[1..], ys, y);
      if y in ys {
        var i :| 0 <= i < |ys| && ys[i] == y;
        assert y in Members(ys) && !less(y, ys[0]);
        NotLessTrans(less, dom, xs[0], ys[0], y);
      }
    } else {
      InMerge(less, xs, ys[1..], y);
      if y in xs {
        var i :| 0 <= i < |xs| && xs[i] == y;
        assert y in Members(xs) && !less(y, xs[0]);
        NotLessTrans(less, dom, ys[0], xs[0], y);
      }
    }
  }

  lemma {:induction false} TiedConcat<T>(less: (T, T) -> bool, x: T, xs: seq<T>, ys: seq<T>)
    ensures TiedWith(less, x, xs + ys) == TiedWith(less, x, xs) + TiedWith(less, x, ys)
  {
    if xs == [] {
      assert xs + ys == ys;
    } else {
      assert (xs + ys)[1..] == xs[1..] + ys;
      TiedConcat(less, x, xs[1..], ys);
      ConcatAssoc(if Tied(less, x, xs[0]) then [xs[0]] else [], TiedWith(less, x, xs[1..]), TiedWith(less, x, ys));
    }
  }

  /** If the head of `ys` is less than everything in `xs`, its class has no member there. */
  lemma {:induction false} NoneTied<T>(less: (T, T) -> bool, dom: set<T>, x: T, y: T, xs: seq<T>)
    requires StrictWeakOrder(less, dom) && x in dom && y in dom && Members(xs) <= dom
    requires Tied(less, x, y) && (forall z :: z in xs ==> less(y, z))
    ensures TiedWith(less, x, xs) == []
  {
    if xs != [] {
      assert xs[0] in Members(xs);
      assert Members(xs[1..]) <= Members(xs);
      assert Tied(less, y, x);
      assert !Tied(less, x, xs[0]);
      NoneTied(less, dom, x, y, xs[1..]);
    }
  }

  lemma {:induction false} MergeStable<T>(less: (T, T) -> bool, dom: set<T>, xs: seq<T>, ys: seq<T>, x: T)
    requires StrictWeakOrder(less, dom) && Members(xs + ys) <= dom && x in dom && Sorted(less, xs)
    ensures TiedWith(less, x, Merge(less, xs, ys)) == TiedWith(less, x, xs + ys)
    decreases |xs| + |ys|
  {
    if xs == [] {
      assert xs + ys == ys;
    } else if ys == [] {
      assert xs + ys == xs;
    } else if !less(ys[0], xs[0]) {
      assert (xs + ys)[1..] == xs[1..] + ys;
      MergeStable(less, dom, xs[1..], ys, x);
    } else {
      assert Members(xs + ys[1..]) <= Members(xs + ys);
      MergeStable(less, dom, xs, ys[1..], x);
      PassOver(less, dom, xs, ys, x);
    }
  }

  /** Moving the head of `ys` over `xs` changes no class. */
  lemma PassOver<T>(less: (T, T) -> bool, dom: set<T>, xs: seq<T>, ys: seq<T>, x: T)
    requires StrictWeakOrder(less, dom) && Members(xs + ys) <= dom && x in dom && Sorted(less, xs)
    requires xs != [] && ys != [] && less(ys[0], xs[0])
    ensures TiedWith(less, x, [ys[0]] + (xs + ys[1..])) == TiedWith(less, x, xs + ys)
  {
    var y, zs := ys[0], ys[1..];
    if Tied(less, x, y) {
      forall z | z in xs ensures less(y, z) { BelowAll(less, dom, xs, ys, z); }
      assert y in Members(xs + ys) && Members(xs) <= Members(xs + ys);
      NoneTied(less, dom, x, y, xs);
    }
    Exchange(less, x, y, xs, zs);
    assert ys == [y] + zs;
  }

  lemma Exchange<T>(less: (T, T) -> bool, x: T, y: T, xs: seq<T>, zs: seq<T>)
    requires Tied(less, x, y) ==> TiedWith(less, x, xs) == []
    ensures TiedWith(less, x, [y] + (xs + zs)) == TiedWith(less, x, xs + ([y] + zs))
  {
    TiedConcat(less, x, xs, zs);
    TiedConcat(less, x, xs, [y] + zs);
    assert ([y] + (xs + zs))[1..] == xs + zs;
    assert ([y] + zs)[1..] == zs;
  }

  lemma BelowAll<T>(less: (T, T) -> bool, dom: set<T>, xs: seq<T>, ys: seq<T>, z: T)
    requires StrictWeakOrder(less, dom) && Members(xs + ys) <= dom && Sorted(less, xs)
    requires xs != [] && ys != [] && less(ys[0], xs[0]) && z in xs
    ensures less(ys[0], z)
  {
    var i :| 0 <= i < |xs| && xs[i] == z;
    assert xs[0] in Members(xs + ys) && z in Members(xs + ys) && ys[0] in Members(xs + ys);
    if !less(ys[0], z) { NotLessTrans(less, dom, xs[0], z, ys[0]); }
  }

  // ------------------------------------------------------------------ natural runs

  /** Length of the nondecreasing run at the front of `xs`. */
  function RunLen<T>(less: (T, T) -> bool, xs: seq<T>): (n: nat)
    requires xs != []
    ensures 1 <= n <= |xs|
    decreases |xs|
  {
    if |xs| == 1 || less(xs[1], xs[0]) then 1 else 1 + RunLen(less, xs[1..])
  }

  function Runs<T>(less: (T, T) -> bool, xs: seq<T>): nat
    decreases |xs|
  {
    if xs == [] then 0 else 1 + Runs(less, xs[RunLen(less, xs)..])
  }

  /** Where the second of the first two runs ends. */
  function PairEnd<T>(less: (T, T) -> bool, xs: seq<T>): (b: nat)
    requires xs != [] && RunLen(less, xs) < |xs|
    ensures RunLen(less, xs) < b <= |xs|
  {
    RunLen(less, xs) + RunLen(less, xs[RunLen(less, xs)..])
  }

  /** One pass of `list_sort`: adjacent pairs of natural runs are merged. */
  function Pass<T>(less: (T, T) -> bool, xs: seq<T>): (ys: seq<T>)
    ensures |ys| == |xs|
    decreases |xs|
  {
    if xs == [] || RunLen(less, xs) == |xs| then xs
    else
      var a, b := RunLen(less, xs), PairEnd(less, xs);
      Merge(less, xs[..a], xs[a..b]) + Pass(less, xs[b..])
  }

  /** The number of runs a pass counts. */
  function PassCount<T>(less: (T, T) -> bool, xs: seq<T>): nat
    decreases |xs|
  {
    if xs == [] then 0
    else if RunLen(less, xs) == |xs| then 1
    else 1 + PassCount(less, xs[PairEnd(less, xs)..])
  }

  lemma PassUnfolds<T>(less: (T, T) -> bool, xs: seq<T>, l: seq<T>, r: seq<T>, zs: seq<T>, a: nat, b: nat)
    requires xs != [] && a == RunLen(less, xs) < |xs| && xs[..a] == l
    requires b == PairEnd(less, xs) && xs[b..] == zs && xs[a..b] == r
    ensures Pass(less, xs) == Merge(less, l, r) + Pass(less, zs)
    ensures PassCount(less, xs) == 1 + PassCount(less, zs)
  {
  }

  lemma {:induction false} RunIsSorted<T>(less: (T, T) -> bool, dom: set<T>, xs: seq<T>)
    requires xs != [] && StrictWeakOrder(less, dom) && Members(xs) <= dom
    ensures Sorted(less, xs[..RunLen(less, xs)])
    ensures RunLen(less, xs) < |xs| ==> less(xs[RunLen(less, xs)], xs[RunLen(less, xs) - 1])
    decreases |xs|
  {
    if !(|xs| == 1 || less(xs[1], xs[0])) {
      assert Members(xs[1..]) <= Members(xs);
      RunIsSorted(less, dom, xs[1..]);
      var n := RunLen(less, xs[1..]);
      var rest := xs[1..][..n];
      forall y | y in rest ensures !less(y, xs[0]) {
        var i :| 0 <= i < n && rest[i] == y;
        assert rest[i] == xs[i + 1] && rest[0] == xs[1];
        assert xs[0] in Members(xs) && xs[1] in Members(xs) && y in Members(xs);
        assert i > 0 ==> !less(rest[i], rest[0]);
        if i > 0 { NotLessTrans(less, dom, xs[0], xs[1], y); }
      }
      SortedCons(less, xs[0], rest);
      assert [xs[0]] + rest == xs[..n + 1];
    }
  }

  lemma {:induction false} RunsDropOne<T>(less: (T, T) -> bool, xs: seq<T>)
    requires xs != []
    ensures Runs(less, xs[1..]) <= Runs(less, xs)
  {
    var n := RunLen(less, xs);
    if n > 1 {
      assert xs[1..][n - 1..] == xs[n..];
    } else {
      assert n == 1;
    }
  }

  lemma {:induction false} RunsDrop<T>(less: (T, T) -> bool, xs: seq<T>, k: nat)
    requires k <= |xs|
    ensures Runs(less, xs[k..]) <= Runs(less, xs)
  {
    if k == 0 {
      assert xs[0..] == xs;
    } else {
      RunsDrop(less, xs, k - 1);
      RunsDropOne(less, xs[k - 1..]);
      assert xs[k - 1..][1..] == xs[k..];
    }
  }

  /** A sorted prefix lies inside the first run. */
  lemma {:induction false} RunCovers<T>(less: (T, T) -> bool, xs: seq<T>, k: nat)
    requires 1 <= k <= |xs| && Sorted(less, xs[..k])
    ensures RunLen(less, xs) >= k
    decreases k
  {
    if k > 1 {
      assert xs[..k][1] == xs[1] && xs[..k][0] == xs[0];
      assert xs[1..][..k - 1] == xs[..k][1..];
      RunCovers(less, xs[1..], k - 1);
    }
  }

  lemma RunsAppend<T>(less: (T, T) -> bool, xs: seq<T>, ys: seq<T>)
    requires xs != [] && Sorted(less, xs)
    ensures Runs(less, xs + ys) <= 1 + Runs(less, ys)
  {
    assert (xs + ys)[..|xs|] == xs;
    RunCovers(less, xs + ys, |xs|);
    var n := RunLen(less, xs + ys);
    assert (xs + ys)[n..] == ys[n - |xs|..];
    RunsDrop(less, ys, n - |xs|);
  }

  // ------------------------------------------------------------------ one pass

  lemma SecondRunSorted<T>(less: (T, T) -> bool, dom: set<T>, xs: seq<T>, a: nat, b: nat)
    requires StrictWeakOrder(less, dom) && Members(xs) <= dom
    requires a < |xs| && b == a + RunLen(less, xs[a..])
    ensures Sorted(less, xs[a..b])
  {
    var tail := xs[a..];
    assert Members(tail) <= Members(xs);
    RunIsSorted(less, dom, tail);
    assert tail[..b - a] == xs[a..b];
  }

  /** The two runs a pass merges first become one. */
  lemma MergedRun<T>(less: (T, T) -> bool, dom: set<T>, xs: seq<T>, a: nat, b: nat)
    requires StrictWeakOrder(less, dom) && Members(xs) <= dom && xs != [] && RunLen(less, xs) < |xs|
    requires a == RunLen(less, xs) && b == PairEnd(less, xs)
    ensures Sorted(less, xs[..a]) && Sorted(less, Merge(less, xs[..a], xs[a..b]))
  {
    RunIsSorted(less, dom, xs);
    SecondRunSorted(less, dom, xs, a, b);
    MembersSlice(xs, a, b);
    assert xs[..a] == xs[0..a];
    MembersSlice(xs, 0, a);
    MergeSorted(less, dom, xs[..a], xs[a..b]);
  }

  lemma ThreeParts<T>(xs: seq<T>, a: nat, b: nat)
    requires a <= b <= |xs|
    ensures xs == xs[..a] + xs[a..b] + xs[b..]
    ensures multiset(xs) == multiset(xs[..a]) + multiset(xs[a..b]) + multiset(xs[b..])
  {
    assert xs == xs[..a] + xs[a..b] + xs[b..];
  }

  lemma {:induction false} PassMembers<T>(less: (T, T) -> bool, xs: seq<T>)
    ensures multiset(Pass(less, xs)) == multiset(xs)
    decreases |xs|
  {
    if xs != [] && RunLen(less, xs) < |xs| {
      var a := RunLen(less, xs);
      var b := PairEnd(less, xs);
      MergeMembers(less, xs[..a], xs[a..b]);
      PassMembers(less, xs[b..]);
      ThreeParts(xs, a, b);
    }
  }

  lemma {:induction false} PassStable<T>(less: (T, T) -> bool, dom: set<T>, xs: seq<T>, x: T)
    requires StrictWeakOrder(less, dom) && Members(xs) <= dom && x in dom
    ensures TiedWith(less, x, Pass(less, xs)) == TiedWith(less, x, xs)
    decreases |xs|
  {
    if xs != [] && RunLen(less, xs) < |xs| {
      var a := RunLen(less, xs);
      var b := PairEnd(less, xs);
      var left, right, rest := xs[..a], xs[a..b], xs[b..];
      ThreeParts(xs, a, b);
      assert Members(rest) <= Members(xs) && Members(left + right) <= Members(xs);
      MergedRun(less, dom, xs, a, b);
      MergeStable(less, dom, left, right, x);
      PassStable(less, dom, rest, x);
      TiedConcat(less, x, Merge(less, left, right), Pass(less, rest));
      TiedConcat(less, x, left + right, rest);
    }
  }

  lemma TwoRuns<T>(less: (T, T) -> bool, xs: seq<T>)
    requires xs != [] && RunLen(less, xs) < |xs|
    ensures Runs(less, xs) == 2 + Runs(less, xs[PairEnd(less, xs)..])
  {
    var a, b := RunLen(less, xs), PairEnd(less, xs);
    DropDrop(xs, a, b);
    RunsUnfolds(less, xs, xs[a..], a);
    RunsUnfolds(less, xs[a..], xs[b..], b - a);
  }

  lemma RunsUnfolds<T>(less: (T, T) -> bool, xs: seq<T>, ys: seq<T>, n: nat)
    requires xs != [] && n == RunLen(less, xs) && xs[n..] == ys
    ensures Runs(less, xs) == 1 + Runs(less, ys)
  {
  }

  /** A pass counts half of the natural runs, rounded up, and leaves no more runs than it counts. */
  lemma {:induction false} PassHalves<T>(less: (T, T) -> bool, dom: set<T>, xs: seq<T>)
    requires StrictWeakOrder(less, dom) && Members(xs) <= dom
    ensures PassCount(less, xs) == (Runs(less, xs) + 1) / 2
    ensures Runs(less, Pass(less, xs)) <= PassCount(less, xs)
    decreases |xs|
  {
    if xs != [] && RunLen(less, xs) < |xs| {
      var a := RunLen(less, xs);
      var b := PairEnd(less, xs);
      MergedRun(less, dom, xs, a, b);
      assert Members(xs[b..]) <= Members(xs);
      PassHalves(less, dom, xs[b..]);
      TwoRuns(less, xs);
      PassUnfolds(less, xs, xs[..a], xs[a..b], xs[b..], a, b);
      RunsAppend(less, Merge(less, xs[..a], xs[a..b]), Pass(less, xs[b..]));
    }
  }

  /** A pass that counts at most one run has sorted the list. */
  lemma PassSorts<T>(less: (T, T) -> bool, dom: set<T>, xs: seq<T>)
    requires StrictWeakOrder(less, dom) && Members(xs) <= dom && PassCount(less, xs) <= 1
    ensures Sorted(less, Pass(less, xs))
  {
    if xs != [] {
      RunIsSorted(less, dom, xs);
      if RunLen(less, xs) == |xs| {
        assert xs[..|xs|] == xs;
      } else {
        var a := RunLen(less, xs);
        var b := PairEnd(less, xs);
        MergedRun(less, dom, xs, a, b);
        assert xs[b..] == [];
        var m := Merge(less, xs[..a], xs[a..b]);
        assert m + [] == m;
      }
    }
  }

  lemma SameMembers<T>(xs: seq<T>, ys: seq<T>)
    requires multiset(xs) == multiset(ys)
    ensures Members(xs) == Members(ys)
  {
    forall x ensures x in xs <==> x in ys {
      assert x in multiset(xs) <==> x in multiset(ys);
    }
  }

  /** One more pass keeps the members and the order of ties. */
  lemma PassOk<T>(less: (T, T) -> bool, dom: set<T>, xs: seq<T>, ys: seq<T>)
    requires StrictWeakOrder(less, dom) && Members(xs) == dom && Members(ys) == dom && StableRearrangement(less, xs, ys)
    ensures Members(Pass(less, ys)) == dom && StableRearrangement(less, xs, Pass(less, ys))
  {
    PassMembers(less, ys);
    SameMembers(ys, Pass(less, ys));
    forall x | x in xs ensures TiedWith(less, x, Pass(less, ys)) == TiedWith(less, x, xs) {
      assert x in Members(xs);
      PassStable(less, dom, ys, x);
    }
  }

  /** The whole sort, for callers that see a list only as a sequence. */
  method SortSequence<T>(less: (T, T) -> bool, xs: seq<T>) returns (ys: seq<T>)
    requires StrictWeakOrder(less, Members(xs))
    ensures Sorted(less, ys) && StableRearrangement(less, xs, ys)
  {
    ghost var dom := Members(xs);
    ghost var before := xs;
    var runs := PassCount(less, xs);
    ys := Pass(less, xs);
    PassOk(less, dom, xs, xs);
    while runs > 1
      invariant Members(before) == dom && Members(ys) == dom && StableRearrangement(less, xs, ys)
      invariant ys == Pass(less, before) && runs == PassCount(less, before)
      decreases Runs(less, before)
    {
      PassHalves(less, dom, before);
      before := ys;
      runs := PassCount(less, ys);
      ys := Pass(less, ys);
      PassOk(less, dom, xs, before);
    }
    PassSorts(less, dom, before);
  }
}
