/** The kernel's intrusive doubly linked list and its in-place merge sort. */
module List {
  import opened ListSortSpec
  import opened Seqs

  /** A list element: two links.  The struct it is embedded in is whatever `less` looks at. */
  class Elem {
    var prev: Elem?
    var next: Elem?

    constructor ()
      ensures prev == null && next == null
    {
      prev, next := null, null;
    }
  }

  /** `c` is a whole list, header elements included, linked both ways. */
  ghost predicate Chain(c: seq<Elem>)
    reads c
  {
    && |c| >= 2
    && (forall i, j :: 0 <= i < j < |c| ==> c[i] != c[j])
    && c[0].prev == null && c[|c| - 1].next == null
    && (forall i :: 0 <= i < |c| - 1 ==> c[i].next == c[i + 1])
    && (forall i :: 0 < i < |c| ==> c[i].prev == c[i - 1])
  }

  /** The list after the elements `j` up to `k` have moved before element `i`. */
  function Moved(c: seq<Elem>, i: nat, j: nat, k: nat): (d: seq<Elem>)
    requires i <= j <= k <= |c|
    ensures |d| == |c|
  {
    c[..i] + c[j..k] + c[i..j] + c[k..]
  }

  ghost predicate Within(c: seq<Elem>, nodes: set<Elem>) {
    forall m :: 0 <= m < |c| ==> c[m] in nodes
  }

  lemma MovedWithin(c: seq<Elem>, nodes: set<Elem>, i: nat, j: nat, k: nat)
    requires i <= j <= k <= |c| && Within(c, nodes)
    ensures Within(Moved(c, i, j, k), nodes)
  {
  }

  lemma MovedAt(d: seq<Elem>, p: nat, q: nat, k: nat)
    requires p < q < k < |d|
    ensures var e := Moved(d, p, q, q + 1);
            e[p + 1] == d[p] && e[q + 1] == d[q + 1] && e[k] == d[k]
  {
  }

  /** The links of `c` are those of a list except at the three seams of a move. */
  ghost predicate Reseamed(c: seq<Elem>, i: nat, j: nat, k: nat)
    requires 1 <= i < j < k < |c|
    reads c
  {
    && (forall m, n :: 0 <= m < n < |c| ==> c[m] != c[n])
    && c[0].prev == null && c[|c| - 1].next == null
    && c[i - 1].next == c[j] && c[j].prev == c[i - 1]
    && c[k - 1].next == c[i] && c[i].prev == c[k - 1]
    && c[j - 1].next == c[k] && c[k].prev == c[j - 1]
    && (forall m :: 0 <= m < |c| - 1 && m != i - 1 && m != j - 1 && m != k - 1 ==> c[m].next == c[m + 1])
    && (forall m :: 0 < m < |c| && m != i && m != j && m != k ==> c[m].prev == c[m - 1])
  }

  /** Takes the elements from `first` up to `last` (exclusive) out of the list and links them in
      just before `before`, which lies earlier or later in it. */
  method Splice(before: Elem, first: Elem, last: Elem, ghost nodes: set<Elem>, ghost c: seq<Elem>, ghost i: nat, ghost j: nat,
                ghost k: nat)
    requires Chain(c) && Within(c, nodes) && 1 <= j <= k < |c| && (1 <= i < j || k <= i < |c|)
    requires before == c[i] && first == c[j] && last == c[k]
    modifies nodes
    ensures i < j ==> Chain(Moved(c, i, j, k))
    ensures k <= i ==> Chain(Moved(c, j, k, i))
  {
    if first == last {
      if i < j { Unmoved(c, i, j); } else { MovedNothing(c, j, i); }
      return;
    }
    assert last.prev == c[k - 1];
    Relink(before, first, last.prev, nodes, c, i, j, k);
    if i < j {
      Rearranged(c, i, j, k);
    } else if k < i {
      Rearranged(c, j, k, i);
    } else {
      Unmoved(c, j, k);
    }
  }

  /** The six assignments. */
  method Relink(before: Elem, first: Elem, end: Elem, ghost nodes: set<Elem>, ghost c: seq<Elem>, ghost i: nat, ghost j: nat, ghost k: nat)
    requires Chain(c) && Within(c, nodes) && 1 <= j < k < |c| && (1 <= i < j || k <= i < |c|)
    requires before == c[i] && first == c[j] && end == c[k - 1]
    modifies nodes
    ensures i < j ==> Reseamed(c, i, j, k)
    ensures k < i ==> Reseamed(c, j, k, i)
    ensures i == k ==> Chain(c)
  {
    assert end.next == c[k] && first.prev == c[j - 1] && before.prev == c[i - 1];
    first.prev.next := end.next;
    end.next.prev := first.prev;
    assert before.prev == if i == k then c[j - 1] else c[i - 1];
    first.prev := before.prev;
    end.next := before;
    before.prev.next := first;
    before.prev := end;
  }

  lemma MovedNothing(c: seq<Elem>, j: nat, i: nat)
    requires j <= i <= |c|
    ensures Moved(c, j, j, i) == c
  {
  }

  lemma Unmoved(c: seq<Elem>, i: nat, j: nat)
    requires i <= j <= |c|
    ensures Moved(c, i, j, j) == c
  {
  }

  lemma Rearranged(c: seq<Elem>, i: nat, j: nat, k: nat)
    requires 1 <= i < j < k < |c| && Reseamed(c, i, j, k)
    ensures Chain(Moved(c, i, j, k))
  {
    var d := Moved(c, i, j, k);
    forall m, n | 0 <= m < n < |d| ensures d[m] != d[n] {
      MovedIs(c, i, j, k, m);
      MovedIs(c, i, j, k, n);
    }
    forall m | 0 <= m < |d| - 1 ensures d[m].next == d[m + 1] { MovedNext(c, i, j, k, m); }
    forall m | 0 < m < |d| ensures d[m].prev == d[m - 1] { MovedPrev(c, i, j, k, m); }
    MovedIs(c, i, j, k, 0);
    MovedIs(c, i, j, k, |c| - 1);
  }

  lemma MovedIs(c: seq<Elem>, i: nat, j: nat, k: nat, m: nat)
    requires 1 <= i < j < k < |c| && m < |c|
    ensures Source(i, j, k, m) < |c| && Moved(c, i, j, k)[m] == c[Source(i, j, k, m)]
  {
  }

  lemma MovedNext(c: seq<Elem>, i: nat, j: nat, k: nat, m: nat)
    requires 1 <= i < j < k < |c| && Reseamed(c, i, j, k) && m < |c| - 1
    ensures Moved(c, i, j, k)[m].next == Moved(c, i, j, k)[m + 1]
  {
    MovedIs(c, i, j, k, m);
    MovedIs(c, i, j, k, m + 1);
  }

  lemma MovedPrev(c: seq<Elem>, i: nat, j: nat, k: nat, m: nat)
    requires 1 <= i < j < k < |c| && Reseamed(c, i, j, k) && 0 < m < |c|
    ensures Moved(c, i, j, k)[m].prev == Moved(c, i, j, k)[m - 1]
  {
    MovedIs(c, i, j, k, m);
    MovedIs(c, i, j, k, m - 1);
  }

  /** Where each element of a spliced list comes from. */
  function Source(i: nat, j: nat, k: nat, m: nat): nat
    requires i < j < k
  {
    if m < i || k <= m then m else if m < i + (k - j) then m - i + j else m - (k - j)
  }

  type Order = (Elem, Elem) -> bool

  /** Finds the end of the nondecreasing run that starts at `a` and ends not after `b`. */
  method FindEndOfRun(a: Elem, b: Elem, less: Order, ghost c: seq<Elem>, ghost i: nat, ghost j: nat)
      returns (e: Elem, ghost k: nat)
    requires Chain(c) && 1 <= i < j < |c| && a == c[i] && b == c[j]
    ensures i < k <= j && e == c[k] && k == i + RunLen(less, c[i..j])
  {
    assert a.next == c[i + 1];
    e, k := a.next, i + 1;
    assert c[k - 1..j] == c[i..j];
    while e != b && !less(e, e.prev)
      invariant i < k <= j && e == c[k]
      invariant RunLen(less, c[i..j]) == k - 1 - i + RunLen(less, c[k - 1..j])
      decreases j - k
    {
      assert c[k - 1..j][1..] == c[k..j];
      e, k := e.next, k + 1;
    }
  }

  /** Merges the run from `a0` up to `a1b0` with the run from there up to `b1`, in place. */
  method InplaceMerge(a0: Elem, a1b0: Elem, b1: Elem, less: Order, ghost nodes: set<Elem>, ghost c: seq<Elem>, ghost i: nat,
                      ghost j: nat, ghost k: nat)
      returns (ghost d: seq<Elem>)
    requires Chain(c) && Within(c, nodes) && 1 <= i <= j <= k < |c| && a0 == c[i] && a1b0 == c[j] && b1 == c[k]
    modifies nodes
    ensures Chain(d) && Within(d, nodes) && d == c[..i] + Merge(less, c[i..j], c[j..k]) + c[k..]
  {
    var x, y := a0, a1b0;
    ghost var p, q := i, j;
    d := c;
    while x != y && y != b1
      invariant |d| == |c| && Chain(d) && Within(d, nodes) && i <= p <= q <= k
      invariant x == d[p] && y == d[q] && b1 == d[k]
      invariant MergeFrom(less, d, p, q, k) == MergeFrom(less, c, i, j, k)
      decreases k - p
    {
      x, y, d, q := MergeStep(x, y, less, nodes, d, p, q, k);
      p := p + 1;
    }
    MergeFromStart(less, c, i, j, k);
  }

  /** The list after one turn of the merge loop: the head of the second run jumps the queue if it is less. */
  function Stepped(less: Order, d: seq<Elem>, p: nat, q: nat): (r: (seq<Elem>, nat))
    requires p < q < |d|
    ensures |r.0| == |d|
  {
    if !less(d[q], d[p]) then (d, q) else (Moved(d, p, q, q + 1), q + 1)
  }

  /** The list when the loop ends, from a state in which runs start at `p` and `q` and end at `k`. */
  function MergeFrom(less: Order, d: seq<Elem>, p: nat, q: nat, k: nat): (r: seq<Elem>)
    requires p <= q <= k < |d|
    decreases k - p
  {
    if p == q || q == k then d
    else var (d', q') := Stepped(less, d, p, q); MergeFrom(less, d', p + 1, q', k)
  }

  method MergeStep(x: Elem, y: Elem, less: Order, ghost nodes: set<Elem>, ghost d: seq<Elem>, ghost p: nat, ghost q: nat,
                   ghost k: nat)
      returns (x': Elem, y': Elem, ghost d': seq<Elem>, ghost q': nat)
    requires Chain(d) && Within(d, nodes) && 1 <= p < q < k < |d| && x == d[p] && y == d[q]
    modifies nodes
    ensures (d', q') == Stepped(less, d, p, q) && Chain(d') && Within(d', nodes)
    ensures |d'| == |d| && x' == d'[p + 1] && q' <= k && y' == d'[q'] && d'[k] == d[k]
  {
    assert x.next == d[p + 1];
    x', y', d', q' := x, y, d, q;
    if !less(y, x) {
      x' := x.next;
    } else {
      y' := JumpQueue(x, y, nodes, d, p, q, k);
      d', q' := Moved(d, p, q, q + 1), q + 1;
    }
  }

  method JumpQueue(x: Elem, y: Elem, ghost nodes: set<Elem>, ghost d: seq<Elem>, ghost p: nat, ghost q: nat, ghost k: nat)
      returns (y': Elem)
    requires Chain(d) && Within(d, nodes) && 1 <= p < q < k < |d| && x == d[p] && y == d[q]
    modifies nodes
    ensures var e := Moved(d, p, q, q + 1);
            && Chain(e) && Within(e, nodes) && y' == e[q + 1] && e[p + 1] == x && e[k] == d[k]
  {
    assert y.next == d[q + 1];
    y' := y.next;
    assert y'.prev == d[q];
    Splice(x, y'.prev, y', nodes, d, p, q, q + 1);
    MovedWithin(d, nodes, p, q, q + 1);
    MovedAt(d, p, q, k);
  }

  /** The loop merges the two runs and touches nothing else. */
  lemma {:induction false} MergeFromStart(less: Order, d: seq<Elem>, p: nat, q: nat, k: nat)
    requires p <= q <= k < |d|
    ensures MergeFrom(less, d, p, q, k) == d[..p] + Merge(less, d[p..q], d[q..k]) + d[k..]
    decreases k - p
  {
    if p == q || q == k {
      assert Merge(less, d[p..q], d[q..k]) == d[p..k];
    } else {
      MergeUnfolds(less, d, p, q, k);
      if !less(d[q], d[p]) {
        MergeFromStart(less, d, p + 1, q, k);
        TakeLeft(less, d, p, q, k);
      } else {
        MergeFromStart(less, Moved(d, p, q, q + 1), p + 1, q + 1, k);
        TakeRight(less, d, p, q, k);
      }
    }
  }

  lemma MergeUnfolds(less: Order, d: seq<Elem>, p: nat, q: nat, k: nat)
    requires p < q < k < |d|
    ensures MergeFrom(less, d, p, q, k) ==
              if !less(d[q], d[p]) then MergeFrom(less, d, p + 1, q, k)
              else MergeFrom(less, Moved(d, p, q, q + 1), p + 1, q + 1, k)
  {
  }

  lemma TakeLeft(less: Order, d: seq<Elem>, p: nat, q: nat, k: nat)
    requires p < q < k < |d| && !less(d[q], d[p])
    ensures d[..p + 1] + Merge(less, d[p + 1..q], d[q..k]) == d[..p] + Merge(less, d[p..q], d[q..k])
  {
    assert d[p..q][1..] == d[p + 1..q];
    assert d[..p + 1] == d[..p] + [d[p]];
  }

  lemma TakeRight(less: Order, d: seq<Elem>, p: nat, q: nat, k: nat)
    requires p < q < k < |d| && less(d[q], d[p])
    ensures var e := Moved(d, p, q, q + 1);
            && e[..p + 1] + Merge(less, e[p + 1..q + 1], e[q + 1..k]) == d[..p] + Merge(less, d[p..q], d[q..k])
            && e[k..] == d[k..]
  {
    var e := Moved(d, p, q, q + 1);
    assert e[k..] == d[k..];
    assert d[q..k][1..] == d[q + 1..k];
    assert e[..p + 1] == d[..p] + [d[q]];
    assert e[p + 1..q + 1] == d[p..q];
    assert e[q + 1..k] == d[q + 1..k];
  }

  // ------------------------------------------------------------------ the list

  class List {
    const head: Elem
    const tail: Elem
    ghost var elems: seq<Elem>

    ghost predicate Valid()
      reads this, head, tail, elems
    {
      Chain([head] + elems + [tail])
    }

    /** Everything that makes up the list. */
    ghost function Nodes(): set<Elem>
      reads this
    {
      {head, tail} + Members(elems)
    }

    constructor ()
      ensures Valid() && elems == [] && fresh(head) && fresh(tail)
    {
      var h := new Elem();
      var t := new Elem();
      h.next := t;
      t.prev := h;
      head, tail, elems := h, t, [];
    }

    /** One pass over the list, merging adjacent runs; returns how many runs it put out. */
    method MergePass(less: Order) returns (runs: nat)
      requires Valid()
      modifies this`elems, Nodes()
      ensures Valid() && elems == Pass(less, old(elems)) && runs == PassCount(less, old(elems))
    {
      ghost var start := [head] + elems + [tail];
      ghost var c;
      NodesCover();
      runs, c := PassLoop(head, tail, less, Nodes(), start);
      Interior(head, elems, tail);
      Ends(c, head, tail);
      elems := c[1..|c| - 1];
    }

    /** Natural merge sort: passes until one run is left.  For any strict weak order the result is
        sorted and a stable rearrangement, and the links are those of a proper list. */
    method Sort(less: Order)
      requires Valid() && StrictWeakOrder(less, Members(elems))
      modifies this`elems, Nodes()
      ensures Valid() && Sorted(less, elems) && StableRearrangement(less, old(elems), elems)
      ensures forall a, b | InOrder(old(elems), a, b) && !less(a, b) && !less(b, a) :: InOrder(elems, a, b)
    {
      ghost var xs := elems;
      ghost var dom := Members(xs);
      var runs := MergePass(less);
      PassOk(less, dom, xs, xs);
      ghost var before := xs;
      while runs > 1
        invariant Valid() && Nodes() == old(Nodes())
        invariant Members(before) == dom && Members(elems) == dom && StableRearrangement(less, xs, elems)
        invariant elems == Pass(less, before) && runs == PassCount(less, before)
        decreases Runs(less, before)
      {
        PassHalves(less, dom, before);
        before := elems;
        runs := MergePass(less);
        PassOk(less, dom, xs, before);
      }
      PassSorts(less, dom, before);
      KeepsOrder(less, xs, elems);
    }

    lemma NodesCover()
      ensures Within([head] + elems + [tail], Nodes())
    {
    }
  }

  lemma KeepsOrder(less: Order, xs: seq<Elem>, ys: seq<Elem>)
    requires StrictWeakOrder(less, Members(xs)) && StableRearrangement(less, xs, ys)
    ensures forall a, b | InOrder(xs, a, b) && !less(a, b) && !less(b, a) :: InOrder(ys, a, b)
  {
    forall a, b | InOrder(xs, a, b) && !less(a, b) && !less(b, a) ensures InOrder(ys, a, b) {
      assert a in Members(xs);
      StableKeepsOrder(less, xs, ys, a, b);
    }
  }

  lemma Interior(h: Elem, xs: seq<Elem>, t: Elem)
    ensures ([h] + xs + [t])[1..|xs| + 1] == xs
  {
  }

  lemma Ends(c: seq<Elem>, h: Elem, t: Elem)
    requires |c| >= 2 && c[0] == h && c[|c| - 1] == t
    ensures [h] + c[1..|c| - 1] + [t] == c
  {
  }

  lemma WholePass(less: Order, c: seq<Elem>)
    requires |c| >= 2
    ensures var (d, count) := PassFrom(less, c, 1, |c| - 1, 0);
            |d| == |c| && d[1..|c| - 1] == Pass(less, c[1..|c| - 1]) && count == PassCount(less, c[1..|c| - 1])
  {
    var n := |c| - 1;
    PassFromStart(less, c, 1, n, 0);
    var ys := Pass(less, c[1..n]);
    assert c[1..1] == [];
    assert [] + ys == ys;
  }

  /** The loop of one pass. */
  method PassLoop(head: Elem, tail: Elem, less: Order, ghost nodes: set<Elem>, ghost start: seq<Elem>)
      returns (runs: nat, ghost c: seq<Elem>)
    requires Chain(start) && Within(start, nodes) && head == start[0] && tail == start[|start| - 1]
    modifies nodes
    ensures Chain(c) && |c| == |start| && c[0] == head && c[|c| - 1] == tail
    ensures c[1..|c| - 1] == Pass(less, start[1..|c| - 1]) && runs == PassCount(less, start[1..|c| - 1])
  {
    ghost var n := |start| - 1;
    ghost var p := 1;
    c, runs := start, 0;
    assert head.next == c[1];
    var a0 := head.next;
    while a0 != tail
      invariant Passing(less, start, c, p, n, runs) && Chain(c) && Within(c, nodes) && a0 == c[p]
      decreases n - p
    {
      PassingNext(less, start, c, p, n, runs);
      a0, c, p := MergePair(a0, tail, less, nodes, c, p, n);
      runs := runs + 1;
    }
    PassingDone(less, start, c, n, runs);
  }

  /** A pass over `start` that has come to element `p` of `c`. */
  ghost predicate Passing(less: Order, start: seq<Elem>, c: seq<Elem>, p: nat, n: nat, runs: nat) {
    && 1 <= p <= n && |c| == |start| == n + 1 && c[0] == start[0] && c[n] == start[n]
    && PassFrom(less, c, p, n, runs) == PassFrom(less, start, 1, n, 0)
  }

  lemma PassingNext(less: Order, start: seq<Elem>, c: seq<Elem>, p: nat, n: nat, runs: nat)
    requires Passing(less, start, c, p, n, runs) && p < n
    ensures var (d, k) := PairMerged(less, c, p, n);
            Passing(less, start, d, k, n, runs + 1) && p < k
  {
    PassUnrolls(less, c, p, n, runs);
  }

  lemma PassingDone(less: Order, start: seq<Elem>, c: seq<Elem>, n: nat, runs: nat)
    requires Passing(less, start, c, n, n, runs)
    ensures c[1..n] == Pass(less, start[1..n]) && runs == PassCount(less, start[1..n])
  {
    WholePass(less, start);
  }

  lemma PassUnrolls(less: Order, c: seq<Elem>, p: nat, n: nat, runs: nat)
    requires 1 <= p < n == |c| - 1
    ensures var (d, k) := PairMerged(less, c, p, n);
            PassFrom(less, c, p, n, runs) == PassFrom(less, d, k, n, runs + 1)
  {
  }

  /** Merges the run at `a0` with the one after it, if there is one; returns where the next pair starts. */
  method MergePair(a0: Elem, end: Elem, less: Order, ghost nodes: set<Elem>, ghost c: seq<Elem>, ghost p: nat, ghost n: nat)
      returns (b1: Elem, ghost d: seq<Elem>, ghost k: nat)
    requires Chain(c) && Within(c, nodes) && 1 <= p < n == |c| - 1 && a0 == c[p] && end == c[n]
    modifies nodes
    ensures (d, k) == PairMerged(less, c, p, n) && Chain(d) && Within(d, nodes) && b1 == d[k]
  {
    var a1b0, j := FindEndOfRun(a0, end, less, c, p, n);
    assert a1b0 == end <==> j == n;
    if a1b0 == end {
      return end, c, n;
    }
    b1, k := FindEndOfRun(a1b0, end, less, c, j, n);
    PairIs(less, c, p, j, k, n);
    d := InplaceMerge(a0, a1b0, b1, less, nodes, c, p, j, k);
  }

  lemma PairIs(less: Order, c: seq<Elem>, p: nat, j: nat, k: nat, n: nat)
    requires 1 <= p < j < k <= n == |c| - 1 && j == p + RunLen(less, c[p..n]) && k == j + RunLen(less, c[j..n])
    ensures var d := c[..p] + Merge(less, c[p..j], c[j..k]) + c[k..];
            PairMerged(less, c, p, n) == (d, k) && d[k] == c[k]
  {
    assert |c[..p] + Merge(less, c[p..j], c[j..k])| == k;
  }

  /** The list after the pair of runs at `p` has been merged, and where the next pair starts. */
  function PairMerged(less: Order, c: seq<Elem>, p: nat, n: nat): (r: (seq<Elem>, nat))
    requires 1 <= p < n == |c| - 1
    ensures |r.0| == |c| && p < r.1 <= n && r.0[0] == c[0] && r.0[n] == c[n] && r.0[r.1] == c[r.1]
  {
    var j := p + RunLen(less, c[p..n]);
    if j == n then (c, n)
    else
      var k := j + RunLen(less, c[j..n]);
      (c[..p] + Merge(less, c[p..j], c[j..k]) + c[k..], k)
  }

  /** The list and the run count when the pass ends, from a state in which element `p` comes next. */
  function PassFrom(less: Order, c: seq<Elem>, p: nat, n: nat, runs: nat): (seq<Elem>, nat)
    requires 1 <= p <= n == |c| - 1
    decreases n - p
  {
    if p == n then (c, runs)
    else var (d, k) := PairMerged(less, c, p, n); PassFrom(less, d, k, n, runs + 1)
  }

  /** The loop computes one pass over what is left and counts its runs. */
  lemma {:induction false} PassFromStart(less: Order, c: seq<Elem>, p: nat, n: nat, runs: nat)
    requires 1 <= p <= n == |c| - 1
    ensures var (d, count) := PassFrom(less, c, p, n, runs);
            && |d| == |c| && d[1..n] == c[1..p] + Pass(less, c[p..n]) && count == runs + PassCount(less, c[p..n])
    decreases n - p
  {
    if p == n {
      assert c[1..n] == c[1..p] + [];
    } else {
      var j := p + RunLen(less, c[p..n]);
      if j == n {
        LastRun(less, c, p, n);
        assert PassFrom(less, c, p, n, runs) == PassFrom(less, c, n, n, runs + 1) == (c, runs + 1);
      } else {
        var k := j + RunLen(less, c[j..n]);
        var d := c[..p] + Merge(less, c[p..j], c[j..k]) + c[k..];
        assert PairMerged(less, c, p, n) == (d, k);
        PassFromStart(less, d, k, n, runs + 1);
        PairMergedStep(less, c, p, j, k, n);
      }
    }
  }

  lemma LastRun(less: Order, c: seq<Elem>, p: nat, n: nat)
    requires 1 <= p < n <= |c| && RunLen(less, c[p..n]) == n - p
    ensures c[1..n] + Pass(less, c[n..n]) == c[1..p] + Pass(less, c[p..n])
    ensures 1 + PassCount(less, c[n..n]) == PassCount(less, c[p..n])
  {
    assert c[n..n] == [];
    assert c[1..n] + [] == c[1..p] + c[p..n];
  }

  lemma PairMergedStep(less: Order, c: seq<Elem>, p: nat, j: nat, k: nat, n: nat)
    requires 1 <= p < j < k <= n <= |c| && j == p + RunLen(less, c[p..n]) && k == j + RunLen(less, c[j..n])
    ensures var d := c[..p] + Merge(less, c[p..j], c[j..k]) + c[k..];
            && d[1..k] + Pass(less, d[k..n]) == c[1..p] + Pass(less, c[p..n])
            && 1 + PassCount(less, d[k..n]) == PassCount(less, c[p..n])
  {
    var m := Merge(less, c[p..j], c[j..k]);
    FirstPair(c, p, j, k, n);
    PassUnfolds(less, c[p..n], c[p..j], c[j..k], c[k..n], j - p, k - p);
    Replaced(c, m, p, k, n);
    ConcatAssoc(c[1..p], m, Pass(less, c[k..n]));
  }

  lemma FirstPair(c: seq<Elem>, p: nat, j: nat, k: nat, n: nat)
    requires p < j < k <= n <= |c|
    ensures var xs := c[p..n];
            && xs[..j - p] == c[p..j] && xs[j - p..k - p] == c[j..k]
            && xs[j - p..] == c[j..n] && xs[k - p..] == c[k..n]
  {
    SubTake(c, p, n, j - p);
    SubSlice(c, p, n, j - p, k - p);
    SubDrop(c, p, n, j - p);
    SubDrop(c, p, n, k - p);
  }
}
