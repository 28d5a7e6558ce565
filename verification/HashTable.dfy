/** The kernel's chained hash table, which resizes itself. */
module HashTable {
  import opened Bitmap
  import opened Division
  import opened ListSortSpec
  import opened Options
  import opened Seqs

  // ------------------------------------------------------------------ powers of two

  /** The highest power of two that is at most `x`. */
  function Top(x: nat): (p: nat)
    requires x >= 1
    ensures p <= x < 2 * p
  {
    if x == 1 then 1 else 2 * Top(x / 2)
  }

  /** `x` with its lowest set bit turned off. */
  function TurnOffLeast(x: nat): nat
    requires x >= 1
  {
    And(x, x - 1)
  }

  predicate IsPowerOf2(x: nat) { x != 0 && TurnOffLeast(x) == 0 }

  lemma {:induction false} AndSelf(x: nat)
    ensures And(x, x) == x
  {
    if x > 0 { AndSelf(x / 2); }
  }

  lemma TurnOffCases(x: nat)
    requires x >= 1
    ensures TurnOffLeast(x) == if x % 2 == 1 then x - 1 else 2 * TurnOffLeast(x / 2)
  {
    if x % 2 == 1 {
      assert (x - 1) / 2 == x / 2;
      AndSelf(x / 2);
      if x == 1 { assert And(1, 0) == 0; }
    } else {
      assert (x - 1) / 2 == x / 2 - 1;
    }
  }

  /** Turning bits off from below keeps the top one, unless it is the only one left. */
  lemma {:induction false} TurnOffKeepsTop(x: nat)
    requires x >= 1
    ensures TurnOffLeast(x) < x
    ensures TurnOffLeast(x) == 0 ==> x == Top(x)
    ensures TurnOffLeast(x) != 0 ==> Top(TurnOffLeast(x)) == Top(x)
  {
    TurnOffCases(x);
    if x > 1 {
      if x % 2 == 1 {
        assert (x - 1) / 2 == x / 2;
      } else {
        TurnOffKeepsTop(x / 2);
      }
    }
  }

  lemma {:induction false} TopIsPower(x: nat) returns (k: nat)
    requires x >= 1
    ensures Top(x) == Pow2(k)
  {
    if x == 1 {
      k := 0;
    } else {
      k := TopIsPower(x / 2);
      k := k + 1;
    }
  }

  /** Taking the low bits is taking the remainder, for a power of two. */
  lemma {:induction false} LowBits(h: nat, k: nat)
    ensures And(h, Pow2(k) - 1) == h % Pow2(k)
  {
    if k > 0 {
      LowBits(h / 2, k - 1);
      AndLow(h, Pow2(k - 1));
      HalfMod(h, Pow2(k - 1));
    }
  }

  lemma AndLow(h: nat, m: nat)
    requires m >= 1
    ensures And(h, 2 * m - 1) == 2 * And(h / 2, m - 1) + h % 2
  {
    assert (2 * m - 1) / 2 == m - 1 && (2 * m - 1) % 2 == 1;
  }

  lemma HalfMod(h: nat, m: nat)
    requires m >= 1
    ensures 2 * (h / 2 % m) + h % 2 == h % (2 * m)
  {
    var q, r := h / 2 / m, h / 2 % m;
    DivMod(h / 2, m);
    assert h == q * (2 * m) + (2 * r + h % 2) by { Assoc(q, 2, m); Assoc(2, q, m); }
    QuotientIs(h, 2 * m, q, 2 * r + h % 2);
  }

  /** The bucket count that suits `elems` elements. */
  method IdealBuckets(elems: nat) returns (n: nat)
    ensures n == Top(if elems / 2 < 4 then 4 else elems / 2)
    ensures n >= 4 && exists k :: n == Pow2(k)
  {
    n := elems / 2;
    if n < 4 {
      n := 4;
    }
    ghost var start := n;
    while !IsPowerOf2(n)
      invariant n >= 1 && Top(n) == Top(start)
      decreases n
    {
      TurnOffKeepsTop(n);
      n := TurnOffLeast(n);
    }
    TurnOffKeepsTop(n);
    ghost var k := TopIsPower(start);
    assert Top(start) >= 4 by { assert Top(start / 2) >= 2; }
  }

  // ------------------------------------------------------------------ buckets

  /** Everything in the buckets, each as often as it occurs. */
  function Contents<T>(buckets: seq<seq<T>>): multiset<T> {
    if buckets == [] then multiset{} else multiset(buckets[0]) + Contents(buckets[1..])
  }

  lemma {:induction false} ContentsEmpty<T>(buckets: seq<seq<T>>)
    requires forall i | 0 <= i < |buckets| :: buckets[i] == []
    ensures Contents(buckets) == multiset{}
  {
    if buckets != [] { ContentsEmpty(buckets[1..]); }
  }

  lemma {:induction false} ContentsUpdate<T>(buckets: seq<seq<T>>, i: nat, bucket: seq<T>)
    requires i < |buckets|
    ensures Contents(buckets[i := bucket]) + multiset(buckets[i]) == Contents(buckets) + multiset(bucket)
  {
    var after := buckets[i := bucket];
    if i > 0 {
      ContentsUpdate(buckets[1..], i - 1, bucket);
      assert after[1..] == buckets[1..][i - 1 := bucket] && after[0] == buckets[0] && buckets[1..][i - 1] == buckets[i];
      Rearrange(multiset(buckets[0]), Contents(buckets[1..]), Contents(after[1..]), multiset(buckets[i]), multiset(bucket));
    } else {
      assert after[1..] == buckets[1..];
      Rotate(multiset(bucket), Contents(buckets[1..]), multiset(buckets[0]));
    }
  }

  // Sums of multisets, rearranged.

  lemma Rearrange<T>(a: multiset<T>, r: multiset<T>, r': multiset<T>, x: multiset<T>, y: multiset<T>)
    requires r' + x == r + y
    ensures a + r' + x == a + r + y
  {
    assert a + r' + x == a + (r' + x);
    assert a + r + y == a + (r + y);
  }

  lemma Rotate<T>(a: multiset<T>, r: multiset<T>, x: multiset<T>)
    ensures a + r + x == x + r + a
  {
  }

  lemma Grown<T>(after: multiset<T>, before: multiset<T>, b: multiset<T>, e: T)
    requires after + b == before + (multiset{e} + b)
    ensures after == before + multiset{e}
  {
    assert before + (multiset{e} + b) == before + multiset{e} + b;
    assert after + b - b == after && before + multiset{e} + b - b == before + multiset{e};
  }

  lemma Shrunk<T>(after: multiset<T>, before: multiset<T>, b: multiset<T>, e: T)
    requires e in b && after + b == before + (b - multiset{e})
    ensures after == before - multiset{e}
  {
    assert b == multiset{e} + (b - multiset{e});
    assert after + b == after + multiset{e} + (b - multiset{e});
    var c := b - multiset{e};
    assert after + multiset{e} + c - c == after + multiset{e} && before + c - c == before;
  }

  lemma Move<T>(done: multiset<T>, done': multiset<T>, first: multiset<T>, rest: multiset<T>)
    requires done' == done + first
    ensures done' + rest == done + (first + rest)
  {
  }

  lemma {:induction false} ContentsHas<T>(buckets: seq<seq<T>>, x: T)
    ensures x in Contents(buckets) <==> exists i | 0 <= i < |buckets| :: x in buckets[i]
  {
    if buckets != [] {
      ContentsHas(buckets[1..], x);
      if x in Contents(buckets[1..]) {
        var i :| 0 <= i < |buckets[1..]| && x in buckets[1..][i];
        assert x in buckets[i + 1];
      }
      if i :| 0 <= i < |buckets| && x in buckets[i] {
        assert i > 0 ==> x in buckets[1..][i - 1];
      }
    }
  }

  /** What `less` and `hash` owe the table: equivalence is an equivalence, and respects the hash. */
  ghost predicate Compatible<T(!new)>(hash: T -> nat, less: (T, T) -> bool) {
    && (forall a :: Tied(less, a, a))
    && (forall a, b, c :: Tied(less, a, b) && Tied(less, b, c) ==> Tied(less, a, c))
    && (forall a, b :: Tied(less, a, b) ==> hash(a) == hash(b))
  }

  /** No element occurs twice, and no two elements are equivalent. */
  ghost predicate OneEach<T(!new)>(less: (T, T) -> bool, m: multiset<T>) {
    && (forall a | a in m :: m[a] == 1)
    && (forall a, b | a in m && b in m && Tied(less, a, b) :: a == b)
  }

  function BucketOf<T>(hash: T -> nat, e: T, count: nat): (i: nat)
    requires count >= 1
    ensures i < count
  {
    AndBelow(hash(e), count - 1);
    And(hash(e), count - 1)
  }

  lemma {:induction false} AndBelow(x: nat, y: nat)
    ensures And(x, y) <= y
  {
    if x > 0 && y > 0 { AndBelow(x / 2, y / 2); }
  }

  /** The bucket count being a power of two, masking the hash spreads it evenly. */
  lemma BucketIsRemainder<T>(hash: T -> nat, e: T, k: nat)
    ensures BucketOf(hash, e, Pow2(k)) == hash(e) % Pow2(k)
  {
    LowBits(hash(e), k);
  }

  /** Every element is in the bucket its hash selects. */
  ghost predicate InPlace<T(!new)>(hash: T -> nat, buckets: seq<seq<T>>) {
    buckets != [] && forall i, e | 0 <= i < |buckets| && e in buckets[i] :: BucketOf(hash, e, |buckets|) == i
  }

  /** An element in the table can only be in its own bucket. */
  lemma InItsBucket<T(!new)>(hash: T -> nat, buckets: seq<seq<T>>, e: T)
    requires InPlace(hash, buckets)
    ensures e in Contents(buckets) <==> e in buckets[BucketOf(hash, e, |buckets|)]
  {
    ContentsHas(buckets, e);
  }

  /** `r` is the element of `m` equivalent to `e`, if there is one. */
  ghost predicate IsMatch<T(!new)>(less: (T, T) -> bool, m: multiset<T>, e: T, r: Option<T>) {
    match r
    case Some(x) => x in m && Tied(less, x, e)
    case None => forall x | x in m :: !Tied(less, x, e)
  }

  // ------------------------------------------------------------------ the table

  class Table<T(!new, ==)> {
    var count: nat
    var buckets: seq<seq<T>>
    const hash: T -> nat
    const less: (T, T) -> bool

    ghost predicate Valid()
      reads this
    {
      && Compatible(hash, less)
      && |buckets| >= 4 && (exists k :: |buckets| == Pow2(k))
      && InPlace(hash, buckets) && OneEach(less, Elements()) && count == |Elements()|
    }

    ghost function Elements(): multiset<T>
      reads this
    {
      Contents(buckets)
    }

    constructor (hash: T -> nat, less: (T, T) -> bool)
      requires Compatible(hash, less)
      ensures Valid() && Elements() == multiset{} && this.hash == hash && this.less == less
    {
      this.hash, this.less, count := hash, less, 0;
      buckets := [[], [], [], []];
      new;
      ContentsEmpty(buckets);
      assert Pow2(2) == 4;
    }

    /** Looks for an element equivalent to `e` in one bucket. */
    method FindElem(bucket: nat, e: T) returns (r: Option<T>)
      requires bucket < |buckets|
      ensures IsMatch(less, multiset(buckets[bucket]), e, r)
    {
      var i := 0;
      while i < |buckets[bucket]|
        invariant i <= |buckets[bucket]| && forall j | 0 <= j < i :: !Tied(less, buckets[bucket][j], e)
      {
        var x := buckets[bucket][i];
        if !less(x, e) && !less(e, x) {
          return Some(x);
        }
        i := i + 1;
      }
      return None;
    }

    method Find(e: T) returns (r: Option<T>)
      requires Valid()
      ensures IsMatch(less, Elements(), e, r)
    {
      var b := BucketOf(hash, e, |buckets|);
      r := FindElem(b, e);
      WholeTable(hash, less, buckets, e, r);
    }

    /** Puts `e` at the front of its bucket. */
    method InsertElem(e: T)
      requires buckets != [] && InPlace(hash, buckets) && count == |Elements()|
      modifies this
      ensures |buckets| == |old(buckets)| && InPlace(hash, buckets) && count == |Elements()|
      ensures Elements() == old(Elements()) + multiset{e}
    {
      var b := BucketOf(hash, e, |buckets|);
      Pushed(hash, buckets, e);
      buckets := buckets[b := [e] + buckets[b]];
      count := count + 1;
    }

    /** Takes `e` out of its bucket. */
    method RemoveElem(e: T)
      requires buckets != [] && InPlace(hash, buckets) && count == |Elements()| && e in Elements()
      modifies this
      ensures |buckets| == |old(buckets)| && InPlace(hash, buckets) && count == |Elements()|
      ensures Elements() == old(Elements()) - multiset{e}
    {
      InItsBucket(hash, buckets, e);
      var b := BucketOf(hash, e, |buckets|);
      Unlinked(hash, buckets, e);
      buckets := buckets[b := Unlink(buckets[b], e)];
      count := count - 1;
    }

    /** Inserts `e` unless an equivalent element is there already, which is returned. */
    method Insert(e: T, memory: bool) returns (r: Option<T>)
      requires Valid()
      modifies this
      ensures Valid() && IsMatch(less, old(Elements()), e, r)
      ensures Elements() == if r.Some? then old(Elements()) else old(Elements()) + multiset{e}
    {
      r := Find(e);
      if r.None? {
        MayJoin(less, Elements(), e);
        InsertElem(e);
      }
      Rehash(memory);
    }

    /** Inserts `e` in place of an equivalent element, which is returned. */
    method Replace(e: T, memory: bool) returns (r: Option<T>)
      requires Valid()
      modifies this
      ensures Valid() && IsMatch(less, old(Elements()), e, r)
      ensures Elements() == (if r.Some? then old(Elements()) - multiset{r.value} else old(Elements())) + multiset{e}
    {
      r := Find(e);
      if r.Some? {
        MayLeave(less, hash, Elements(), e, r.value);
        RemoveElem(r.value);
      }
      MayJoin(less, Elements(), e);
      InsertElem(e);
      Rehash(memory);
    }

    /** Removes the element equivalent to `e`, if there is one, and returns it. */
    method Delete(e: T, memory: bool) returns (r: Option<T>)
      requires Valid()
      modifies this
      ensures Valid() && IsMatch(less, old(Elements()), e, r)
      ensures Elements() == if r.Some? then old(Elements()) - multiset{r.value} else old(Elements())
    {
      r := Find(e);
      if r.Some? {
        MayLeave(less, hash, Elements(), e, r.value);
        RemoveElem(r.value);
        Rehash(memory);
      }
    }

    /** Resizes to suit the number of elements, if the new bucket array can be had.  Whatever happens,
        the elements are the same. */
    method Rehash(memory: bool)
      requires Valid()
      modifies this
      ensures Valid() && Elements() == old(Elements()) && count == old(count)
      ensures |buckets| == if memory then Top(if count / 2 < 4 then 4 else count / 2) else |old(buckets)|
    {
      var n := IdealBuckets(count);
      if n == |buckets| || !memory {
        return;
      }
      var moved := Redistribute(hash, buckets, n);
      buckets := moved;
    }
  }

  /** Moves everything to `n` new buckets. */
  method Redistribute<T(!new)>(hash: T -> nat, buckets: seq<seq<T>>, n: nat) returns (r: seq<seq<T>>)
    requires n >= 1
    ensures |r| == n && InPlace(hash, r) && Contents(r) == Contents(buckets)
  {
    r := seq(n, _ => []);
    ContentsEmpty(r);
    assert buckets[0..] == buckets;
    var i := 0;
    while i < |buckets|
      invariant i <= |buckets| && |r| == n && InPlace(hash, r)
      invariant Contents(r) + Contents(buckets[i..]) == Contents(buckets)
    {
      assert buckets[i..][0] == buckets[i] && buckets[i..][1..] == buckets[i + 1..];
      var next := Distribute(hash, buckets[i], r);
      Move(Contents(r), Contents(next), multiset(buckets[i]), Contents(buckets[i + 1..]));
      r := next;
      i := i + 1;
    }
    assert buckets[i..] == [];
  }

  /** Moves the elements of one old bucket, front to back, each to the front of its new bucket. */
  method Distribute<T(!new)>(hash: T -> nat, bucket: seq<T>, buckets: seq<seq<T>>) returns (r: seq<seq<T>>)
    requires buckets != [] && InPlace(hash, buckets)
    ensures |r| == |buckets| && InPlace(hash, r) && Contents(r) == Contents(buckets) + multiset(bucket)
  {
    r := buckets;
    var rest := bucket;
    while rest != []
      invariant |r| == |buckets| && InPlace(hash, r)
      invariant Contents(r) + multiset(rest) == Contents(buckets) + multiset(bucket)
      decreases |rest|
    {
      var e := rest[0];
      var b := BucketOf(hash, e, |r|);
      Pushed(hash, r, e);
      assert rest == [e] + rest[1..];
      Move(Contents(r), Contents(r[b := [e] + r[b]]), multiset{e}, multiset(rest[1..]));
      r := r[b := [e] + r[b]];
      rest := rest[1..];
    }
  }

  lemma Pushed<T(!new)>(hash: T -> nat, buckets: seq<seq<T>>, e: T)
    requires buckets != [] && InPlace(hash, buckets)
    ensures var b := BucketOf(hash, e, |buckets|);
            var after := buckets[b := [e] + buckets[b]];
            InPlace(hash, after) && Contents(after) == Contents(buckets) + multiset{e}
  {
    var b := BucketOf(hash, e, |buckets|);
    ContentsUpdate(buckets, b, [e] + buckets[b]);
    assert multiset([e] + buckets[b]) == multiset{e} + multiset(buckets[b]);
    Grown(Contents(buckets[b := [e] + buckets[b]]), Contents(buckets), multiset(buckets[b]), e);
  }

  lemma Unlinked<T(!new)>(hash: T -> nat, buckets: seq<seq<T>>, e: T)
    requires buckets != [] && InPlace(hash, buckets) && e in buckets[BucketOf(hash, e, |buckets|)]
    ensures var b := BucketOf(hash, e, |buckets|);
            var after := buckets[b := Unlink(buckets[b], e)];
            InPlace(hash, after) && Contents(after) == Contents(buckets) - multiset{e}
  {
    var b := BucketOf(hash, e, |buckets|);
    UnlinkOne(buckets[b], e);
    ContentsUpdate(buckets, b, Unlink(buckets[b], e));
    Shrunk(Contents(buckets[b := Unlink(buckets[b], e)]), Contents(buckets), multiset(buckets[b]), e);
  }

  /** An element equivalent to none may join; one may leave. */
  lemma MayJoin<T(!new)>(less: (T, T) -> bool, m: multiset<T>, e: T)
    requires OneEach(less, m) && Tied(less, e, e) && forall x | x in m :: !Tied(less, x, e)
    ensures OneEach(less, m + multiset{e})
  {
  }

  lemma MayLeave<T(!new)>(less: (T, T) -> bool, hash: T -> nat, m: multiset<T>, e: T, x: T)
    requires Compatible(hash, less) && OneEach(less, m) && x in m && Tied(less, x, e)
    ensures OneEach(less, m - multiset{x}) && forall y | y in m - multiset{x} :: !Tied(less, y, e)
  {
    assert Tied(less, e, x);
    forall y | y in m && Tied(less, y, e) ensures y == x { assert Tied(less, y, x); }
  }

  /** What is found in the right bucket is found in the table. */
  lemma WholeTable<T(!new)>(hash: T -> nat, less: (T, T) -> bool, buckets: seq<seq<T>>, e: T, r: Option<T>)
    requires Compatible(hash, less) && InPlace(hash, buckets)
    requires IsMatch(less, multiset(buckets[BucketOf(hash, e, |buckets|)]), e, r)
    ensures IsMatch(less, Contents(buckets), e, r)
  {
    if r.Some? {
      InItsBucket(hash, buckets, r.value);
    } else {
      forall x | x in Contents(buckets) ensures !Tied(less, x, e) { InItsBucket(hash, buckets, x); }
    }
  }
}
