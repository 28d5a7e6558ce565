/** A few facts about slices and concatenation. */
module Seqs {

  lemma ConcatAssoc<T>(a: seq<T>, b: seq<T>, c: seq<T>)
    ensures a + b + c == a + (b + c)
  {
  }

  lemma SliceJoin<T>(c: seq<T>, a: nat, b: nat, d: nat)
    requires a <= b <= d <= |c|
    ensures c[a..b] + c[b..d] == c[a..d] && c[a..a] == []
  {
  }

  lemma TakeMore<T>(c: seq<T>, a: nat, b: nat)
    requires a <= b <= |c|
    ensures c[..a] + c[a..b] == c[..b] && |c[..a]| == a && |c[a..b]| == b - a
  {
  }

  lemma SubSlice<T>(c: seq<T>, p: nat, n: nat, a: nat, b: nat)
    requires p <= n <= |c| && a <= b <= n - p
    ensures c[p..n][a..b] == c[p + a..p + b]
  {
    var l, r := c[p..n][a..b], c[p + a..p + b];
    forall i | 0 <= i < b - a ensures l[i] == r[i] {}
  }

  lemma SubDrop<T>(c: seq<T>, p: nat, n: nat, a: nat)
    requires p <= n <= |c| && a <= n - p
    ensures c[p..n][a..] == c[p + a..n]
  {
    var l, r := c[p..n][a..], c[p + a..n];
    forall i | 0 <= i < n - p - a ensures l[i] == r[i] {}
  }

  lemma SubTake<T>(c: seq<T>, p: nat, n: nat, b: nat)
    requires p <= n <= |c| && b <= n - p
    ensures c[p..n][..b] == c[p..p + b]
  {
    var l, r := c[p..n][..b], c[p..p + b];
    forall i | 0 <= i < b ensures l[i] == r[i] {}
  }

  lemma DropDrop<T>(c: seq<T>, a: nat, b: nat)
    requires a <= b <= |c|
    ensures c[a..][b - a..] == c[b..]
  {
    var l, r := c[a..][b - a..], c[b..];
    forall i | 0 <= i < |c| - b ensures l[i] == r[i] {}
  }

  /** Replacing the elements `p` up to `k` by as many others. */
  lemma Replaced<T>(c: seq<T>, m: seq<T>, p: nat, k: nat, n: nat)
    requires 1 <= p <= k <= n <= |c| && |m| == k - p
    ensures (c[..p] + m + c[k..])[1..k] == c[1..p] + m && (c[..p] + m + c[k..])[k..n] == c[k..n]
  {
  }

  // Taking element `i` out of a sequence that is then, or has been, rotated by `h`.

  lemma RotateThenRemove<T>(xs: seq<T>, h: nat, i: nat)
    requires h < i < |xs|
    ensures var ys, order := xs[..i] + xs[i + 1..], xs[h..] + xs[..h];
            ys[h..] + ys[..h] == order[..i - h] + order[i - h + 1..]
  {
    var ys, order := xs[..i] + xs[i + 1..], xs[h..] + xs[..h];
    var l, r := ys[h..] + ys[..h], order[..i - h] + order[i - h + 1..];
    forall k | 0 <= k < |l| ensures l[k] == r[k] {
      assert l[k] == if k < |ys| - h then ys[h + k] else ys[k - (|ys| - h)];
      assert r[k] == if k < i - h then order[k] else order[k + 1];
    }
  }

  lemma RemoveThenRotate<T>(xs: seq<T>, h: nat, i: nat)
    requires i < h < |xs|
    ensures var ys, order := xs[..i] + xs[i + 1..], xs[h..] + xs[..h];
            var at := |xs| - h + i;
            ys[h - 1..] + ys[..h - 1] == order[..at] + order[at + 1..]
  {
    var ys, order := xs[..i] + xs[i + 1..], xs[h..] + xs[..h];
    var at := |xs| - h + i;
    var l, r := ys[h - 1..] + ys[..h - 1], order[..at] + order[at + 1..];
    forall k | 0 <= k < |l| ensures l[k] == r[k] {
      assert l[k] == if k < |xs| - h then ys[h - 1 + k] else ys[k - (|xs| - h)];
      assert r[k] == if k < at then order[k] else order[k + 1];
    }
  }

  lemma DropFirst<T>(xs: seq<T>, i: nat)
    requires i < |xs|
    ensures var order := xs[i..] + xs[..i];
            order[..0] + order[1..] == xs[i + 1..] + xs[..i]
  {
    var order := xs[i..] + xs[..i];
    var l, r := order[..0] + order[1..], xs[i + 1..] + xs[..i];
    forall k | 0 <= k < |l| ensures l[k] == r[k] {}
  }

  // Taking one element off a linked list.

  function Unlink<T(==)>(list: seq<T>, e: T): seq<T> {
    if list == [] then [] else if list[0] == e then list[1..] else [list[0]] + Unlink(list[1..], e)
  }

  lemma {:induction false} UnlinkOne<T>(list: seq<T>, e: T)
    ensures multiset(Unlink(list, e)) == multiset(list) - multiset{e}
    ensures forall x | x in Unlink(list, e) :: x in list
  {
    if list != [] {
      assert list == [list[0]] + list[1..];
      UnlinkOne(list[1..], e);
    }
  }
}
