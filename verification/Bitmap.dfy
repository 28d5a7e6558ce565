/** The kernel's bitmap: an array of bits packed into 32-bit words. */
module Bitmap {
  import opened Division

  const WORD_BITS: nat := 32

  // ------------------------------------------------------------------ one word

  /** Bit `k` of a word. */
  predicate Bit(w: nat, k: nat) {
    if k == 0 then w % 2 == 1 else Bit(w / 2, k - 1)
  }

  /** The bitwise operations, by their low bits. */
  function Or(x: nat, y: nat): nat
    decreases x + y
  {
    if x == 0 && y == 0 then 0
    else 2 * Or(x / 2, y / 2) + (if x % 2 == 1 || y % 2 == 1 then 1 else 0)
  }

  function And(x: nat, y: nat): nat
    decreases x + y
  {
    if x == 0 || y == 0 then 0
    else 2 * And(x / 2, y / 2) + (if x % 2 == 1 && y % 2 == 1 then 1 else 0)
  }

  /** `x & ~y`. */
  function AndNot(x: nat, y: nat): nat
    decreases x + y
  {
    if x == 0 then 0
    else 2 * AndNot(x / 2, y / 2) + (if x % 2 == 1 && y % 2 == 0 then 1 else 0)
  }

  lemma {:induction false} ZeroBit(k: nat)
    ensures !Bit(0, k)
  {
    if k > 0 { ZeroBit(k - 1); }
  }

  lemma OrHalves(x: nat, y: nat)
    ensures Or(x, y) / 2 == Or(x / 2, y / 2) && (Or(x, y) % 2 == 1 <==> x % 2 == 1 || y % 2 == 1)
  {
    if x == 0 && y == 0 { assert Or(0, 0) == 0; }
  }

  lemma AndNotHalves(x: nat, y: nat)
    ensures AndNot(x, y) / 2 == AndNot(x / 2, y / 2) && (AndNot(x, y) % 2 == 1 <==> x % 2 == 1 && y % 2 == 0)
  {
    if x == 0 { assert AndNot(0, y / 2) == 0; }
  }

  lemma {:induction false} OrBit(x: nat, y: nat, k: nat)
    ensures Bit(Or(x, y), k) <==> Bit(x, k) || Bit(y, k)
  {
    OrHalves(x, y);
    if k > 0 { OrBit(x / 2, y / 2, k - 1); }
  }

  lemma {:induction false} AndNotBit(x: nat, y: nat, k: nat)
    ensures Bit(AndNot(x, y), k) <==> Bit(x, k) && !Bit(y, k)
  {
    AndNotHalves(x, y);
    if k > 0 { AndNotBit(x / 2, y / 2, k - 1); }
  }

  lemma {:induction false} MaskBit(k: nat, j: nat)
    ensures Bit(Pow2(k), j) <==> j == k
  {
    if k == 0 {
      if j > 0 { ZeroBit(j - 1); }
    } else if j > 0 {
      MaskBit(k - 1, j - 1);
    }
  }

  /** Testing against a mask of one bit. */
  lemma {:induction false} AndMask(x: nat, k: nat)
    ensures And(x, Pow2(k)) != 0 <==> Bit(x, k)
  {
    if x == 0 {
      ZeroBit(k);
    } else if k > 0 {
      AndMask(x / 2, k - 1);
    } else {
      assert And(x / 2, 0) == 0;
    }
  }

  /** A word stays within its width. */
  lemma {:induction false} Widths(x: nat, y: nat, n: nat)
    requires x < Pow2(n) && y < Pow2(n)
    ensures Or(x, y) < Pow2(n) && AndNot(x, y) < Pow2(n)
  {
    OrHalves(x, y);
    AndNotHalves(x, y);
    if n > 0 { Widths(x / 2, y / 2, n - 1); }
  }

  lemma {:induction false} MaskFits(k: nat, n: nat)
    requires k < n
    ensures Pow2(k) < Pow2(n)
  {
    if k > 0 { MaskFits(k - 1, n - 1); }
  }

  /** The word with bit `k` set or cleared. */
  function Updated(w: nat, k: nat, value: bool): nat {
    if value then Or(w, Pow2(k)) else AndNot(w, Pow2(k))
  }

  lemma OneBit(w: nat, k: nat, value: bool, j: nat)
    ensures Bit(Updated(w, k, value), j) == if j == k then value else Bit(w, j)
  {
    OrBit(w, Pow2(k), j);
    AndNotBit(w, Pow2(k), j);
    MaskBit(k, j);
  }

  lemma UpdatedFits(w: nat, k: nat, value: bool)
    requires w < B32 && k < WORD_BITS
    ensures Updated(w, k, value) < B32
  {
    Powers();
    MaskFits(k, WORD_BITS);
    Widths(w, Pow2(k), WORD_BITS);
  }

  // ------------------------------------------------------------------ many words

  function WordCount(bitCount: nat): nat { (bitCount + WORD_BITS - 1) / WORD_BITS }

  predicate AllAre(bits: seq<bool>, start: nat, count: nat, value: bool)
    requires start + count <= |bits|
  {
    forall i | start <= i < start + count :: bits[i] == value
  }

  /** `bits` with the `count` bits from `start` on set to `value`. */
  function Filled(bits: seq<bool>, start: nat, count: nat, value: bool): (r: seq<bool>)
    requires start + count <= |bits|
  {
    seq(|bits|, i requires 0 <= i < |bits| => if start <= i < start + count then value else bits[i])
  }

  /** `NotFound` is the error value, the largest unsigned number. */
  datatype Scanned = Found(index: nat) | NotFound

  /** The first group of `count` equal bits at or after `start`, if there is one. */
  predicate IsFirstGroup(bits: seq<bool>, start: nat, count: nat, value: bool, r: Scanned) {
    match r
    case Found(i) =>
      && start <= i && i + count <= |bits| && AllAre(bits, i, count, value)
      && (forall j | start <= j < i :: !AllAre(bits, j, count, value))
    case NotFound =>
      forall j | start <= j && j + count <= |bits| :: !AllAre(bits, j, count, value)
  }

  /** A group of no bits is found where the search starts, not at zero as the comment on the source says. */
  lemma EmptyGroup(bits: seq<bool>, start: nat, value: bool, r: Scanned)
    requires start <= |bits| && IsFirstGroup(bits, start, 0, value, r)
    ensures r == Found(start)
  {
    assert AllAre(bits, start, 0, value);
  }

  /** Searching for a single clear bit finds the first. */
  lemma FirstClear(bits: seq<bool>, r: Scanned)
    requires IsFirstGroup(bits, 0, 1, false, r)
    ensures r.Found? ==> r.index < |bits| && !bits[r.index] && Filled(bits, r.index, 1, true) == bits[r.index := true]
    ensures forall j | 0 <= j < (if r.Found? then r.index else |bits|) :: bits[j]
  {
    forall j | 0 <= j < (if r.Found? then r.index else |bits|) ensures bits[j] {
      assert !AllAre(bits, j, 1, false);
    }
  }

  /** The bits that `words` stand for: bit `k` of word `w` is bit `32w + k`. */
  function Unpacked(bitCount: nat, words: seq<nat>): (r: seq<bool>)
    requires |words| == WordCount(bitCount)
    ensures |r| == bitCount
  {
    seq(bitCount, i requires 0 <= i < bitCount => Bit(words[i / WORD_BITS], i % WORD_BITS))
  }

  lemma UnpackedSet(bitCount: nat, words: seq<nat>, index: nat, value: bool)
    requires |words| == WordCount(bitCount) && index < bitCount
    ensures var w, k := index / WORD_BITS, index % WORD_BITS;
            Unpacked(bitCount, words[w := Updated(words[w], k, value)]) == Unpacked(bitCount, words)[index := value]
  {
    var w, k := index / WORD_BITS, index % WORD_BITS;
    var after := words[w := Updated(words[w], k, value)];
    forall i | 0 <= i < bitCount
      ensures Unpacked(bitCount, after)[i] == Unpacked(bitCount, words)[index := value][i]
    {
      OneBit(words[w], k, value, i % WORD_BITS);
    }
  }

  class BitMap {
    const bitCount: nat
    const words: array<nat>

    ghost predicate Valid()
      reads words
    {
      words.Length == WordCount(bitCount) && forall w | 0 <= w < words.Length :: words[w] < B32
    }

    /** The array of bits that the words stand for. */
    ghost function Bits(): (r: seq<bool>)
      requires Valid()
      reads words
      ensures |r| == bitCount
    {
      Unpacked(bitCount, words[..])
    }

    constructor (bitCount: nat)
      ensures Valid() && fresh(words) && this.bitCount == bitCount
      ensures AllAre(Bits(), 0, bitCount, false)
    {
      this.bitCount := bitCount;
      words := new nat[WordCount(bitCount)](_ => 0);
      new;
      SetMultiple(0, bitCount, false);
    }

    method Set(index: nat, value: bool)
      requires Valid() && index < bitCount
      modifies words
      ensures Valid() && Bits() == old(Bits())[index := value]
    {
      var w, k := index / WORD_BITS, index % WORD_BITS;
      ghost var before := words[..];
      UpdatedFits(words[w], k, value);
      UnpackedSet(bitCount, before, index, value);
      words[w] := if value then Or(words[w], Pow2(k)) else AndNot(words[w], Pow2(k));
      assert words[..] == before[w := Updated(before[w], k, value)];
    }

    method Test(index: nat) returns (value: bool)
      requires Valid() && index < bitCount
      ensures value == Bits()[index]
    {
      AndMask(words[index / WORD_BITS], index % WORD_BITS);
      value := And(words[index / WORD_BITS], Pow2(index % WORD_BITS)) != 0;
    }

    method SetMultiple(start: nat, count: nat, value: bool)
      requires Valid() && start + count <= bitCount
      modifies words
      ensures Valid() && Bits() == Filled(old(Bits()), start, count, value)
    {
      ghost var before := Bits();
      var i := 0;
      while i < count
        invariant i <= count && Valid() && Bits() == Filled(before, start, i, value)
      {
        Set(start + i, value);
        i := i + 1;
      }
    }

    method Contains(start: nat, count: nat, value: bool) returns (r: bool)
      requires Valid() && start + count <= bitCount
      ensures r <==> !AllAre(Bits(), start, count, !value)
    {
      var i := 0;
      while i < count
        invariant i <= count && AllAre(Bits(), start, i, !value)
      {
        var bit := Test(start + i);
        if bit == value {
          return true;
        }
        i := i + 1;
      }
      return false;
    }

    method Scan(start: nat, count: nat, value: bool) returns (r: Scanned)
      requires Valid() && start <= bitCount
      ensures IsFirstGroup(Bits(), start, count, value, r)
    {
      if count <= bitCount {
        var last := bitCount - count;
        var i := start;
        while i <= last
          invariant start <= i && forall j | start <= j < i && j <= last :: !AllAre(Bits(), j, count, value)
        {
          var other := Contains(i, count, !value);
          if !other {
            return Found(i);
          }
          i := i + 1;
        }
      }
      return NotFound;
    }

    /** Finds the first group of `count` bits equal to `value` and flips them. */
    method ScanAndFlip(start: nat, count: nat, value: bool) returns (r: Scanned)
      requires Valid() && start <= bitCount
      modifies words
      ensures IsFirstGroup(old(Bits()), start, count, value, r)
      ensures Valid() && Bits() == if r.Found? then Filled(old(Bits()), r.index, count, !value) else old(Bits())
    {
      r := Scan(start, count, value);
      if r.Found? {
        SetMultiple(r.index, count, !value);
      }
    }
  }
}
