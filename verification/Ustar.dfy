/** Headers of archive members in the "ustar" interchange format. */
module Ustar {
  import opened Machine
  import opened Options
  import opened Seqs

  const SLASH: Byte := 47
  const DOT: Byte := 46
  const SPACE: Byte := 32
  const ZERO: Byte := 48

  // ------------------------------------------------------------------ names

  /** Does a name begin in a way that could lead an extractor out of its directory? */
  predicate Antisocial(name: seq<Byte>) {
    || (|name| >= 1 && name[0] == SLASH)
    || (|name| >= 2 && name[0] == DOT && name[1] == SLASH)
    || (|name| >= 3 && name[0] == DOT && name[1] == DOT && name[2] == SLASH)
  }

  function AfterSlash(name: seq<Byte>): (rest: seq<Byte>)
    requires Antisocial(name)
    ensures |rest| < |name|
  {
    if name[0] == SLASH then name[1..] else if name[1] == SLASH then name[2..] else name[3..]
  }

  /** The name without such beginnings; what is left may not be nothing, or the parent directory. */
  function Strip(name: seq<Byte>): seq<Byte>
    decreases |name|
  {
    if Antisocial(name) then Strip(AfterSlash(name))
    else if name == [] || name == [DOT, DOT] then [DOT]
    else name
  }

  lemma Beginnings(name: seq<Byte>)
    ensures Antisocial(name) <==> [47] <= name || [46, 47] <= name || [46, 46, 47] <= name
  {
  }

  /** What stripping is for: no name begins with "/", "./" or "../" after it, none is empty or "..", and
      doing it twice changes nothing. */
  lemma {:induction false} StripIsSafe(name: seq<Byte>)
    ensures var r := Strip(name);
            && !([47] <= r) && !([46, 47] <= r) && !([46, 46, 47] <= r) && r != [] && r != [46, 46]
            && Strip(r) == r && |r| <= if name == [] then 1 else |name|
    ensures forall b | b in Strip(name) :: b in name || b == DOT
    decreases |name|
  {
    Beginnings(name);
    Beginnings([DOT]);
    if Antisocial(name) { StripIsSafe(AfterSlash(name)); }
  }

  /** A string of "/", "./" and "../". */
  predicate Climbs(s: seq<Byte>) {
    || s == []
    || ([47] <= s && Climbs(s[1..]))
    || ([46, 47] <= s && Climbs(s[2..]))
    || ([46, 46, 47] <= s && Climbs(s[3..]))
  }

  /** It takes away such a string and nothing else; if nothing is left then, or "..", it answers ".". */
  lemma {:induction false} StripExact(name: seq<Byte>) returns (n: nat)
    ensures n <= |name| && Climbs(name[..n])
    ensures !([47] <= name[n..]) && !([46, 47] <= name[n..]) && !([46, 46, 47] <= name[n..])
    ensures Strip(name) == if name[n..] == [] || name[n..] == [46, 46] then [46] else name[n..]
    decreases |name|
  {
    Beginnings(name);
    if Antisocial(name) {
      var rest := AfterSlash(name);
      var m := StripExact(rest);
      var d := |name| - |rest|;
      n := d + m;
      assert name[n..] == rest[m..];
      assert name[..n][d..] == rest[..m];
    } else {
      n := 0;
      assert name[0..] == name;
    }
  }

  /** The loop, which skips to just behind the next slash. */
  method StripPrefixes(name: seq<Byte>) returns (r: seq<Byte>)
    ensures r == Strip(name)
  {
    r := name;
    while Antisocial(r)
      invariant Strip(r) == Strip(name)
      decreases |r|
    {
      var i := 0;
      while r[i] != SLASH
        invariant i < |r| && forall k | 0 <= k < i :: r[k] != SLASH
        invariant exists k | i <= k < |r| :: r[k] == SLASH
        decreases |r| - i
      {
        i := i + 1;
      }
      r := r[i + 1..];
    }
    if r == [] || r == [DOT, DOT] {
      r := [DOT];
    }
  }

  // ------------------------------------------------------------------ octal numbers

  predicate IsOctal(b: Byte) { ZERO <= b <= ZERO + 7 }

  predicate AllOctal(s: seq<Byte>) { forall k | 0 <= k < |s| :: IsOctal(s[k]) }

  function Digit(b: Byte): nat
    requires IsOctal(b)
  {
    b - ZERO
  }

  /** The value of a string of octal digits. */
  function OctVal(s: seq<Byte>): nat
    requires AllOctal(s)
  {
    if s == [] then 0 else 8 * OctVal(s[..|s| - 1]) + Digit(s[|s| - 1])
  }

  function Pow8(w: nat): (p: nat)
    ensures p > 0
  {
    if w == 0 then 1 else 8 * Pow8(w - 1)
  }

  /** The last `w` octal digits of a value. */
  function Octal(v: nat, w: nat): (s: seq<Byte>)
    ensures |s| == w && AllOctal(s)
  {
    if w == 0 then [] else Octal(v / 8, w - 1) + [ZERO + v % 8]
  }

  lemma {:induction false} OctalRoundTrip(v: nat, w: nat)
    requires v < Pow8(w)
    ensures OctVal(Octal(v, w)) == v
  {
    if w > 0 {
      OctalRoundTrip(v / 8, w - 1);
      assert Octal(v, w)[..w - 1] == Octal(v / 8, w - 1);
    }
  }

  lemma {:induction false} OctValConcat(s: seq<Byte>, t: seq<Byte>)
    requires AllOctal(s) && AllOctal(t)
    ensures AllOctal(s + t) && OctVal(s + t) == OctVal(s) * Pow8(|t|) + OctVal(t)
    decreases |t|
  {
    if t == [] {
      assert s + t == s;
    } else {
      var init := t[..|t| - 1];
      OctValConcat(s, init);
      assert (s + t)[..|s + t| - 1] == s + init;
      Distribute(OctVal(s), Pow8(|init|), OctVal(init));
    }
  }

  lemma Distribute(a: nat, p: nat, b: nat)
    ensures 8 * (a * p + b) == a * (8 * p) + 8 * b
  {
  }

  /** Each digit in its place. */
  lemma {:induction false} OctalAt(v: nat, w: nat, i: nat)
    requires i < w
    ensures Octal(v, w)[i] == 48 + v / Pow8(w - 1 - i) % 8
    decreases w
  {
    if i < w - 1 {
      OctalAt(v / 8, w - 1, i);
      DivDiv(v, Pow8(w - 2 - i));
    } else {
      assert Pow8(0) == 1;
    }
  }

  lemma DivDiv(v: nat, p: nat)
    requires p > 0
    ensures v / 8 / p == v / (8 * p)
  {
    var q, r := v / 8 / p, v / 8 % p;
    var d := 8 * r + v % 8;
    assert v == 8 * (v / 8) + v % 8 && v / 8 == p * q + r;
    assert v == (8 * p) * q + d by { assert 8 * (p * q) == (8 * p) * q; }
    Quotient(v, 8 * p, q, d);
  }

  lemma Quotient(v: nat, m: nat, q: nat, d: nat)
    requires m > 0 && v == m * q + d && d < m
    ensures v / m == q
  {
    assert (v / m - q) * m == d - v % m;
    NoMultiple(v / m - q, m);
  }

  lemma NoMultiple(x: int, m: int)
    requires -m < x * m < m
    ensures x == 0
  {
  }

  /** The digits of a value in reverse, as many as it has. */
  function Reversed(v: nat): seq<Byte> {
    if v == 0 then [] else [ZERO + v % 8] + Reversed(v / 8)
  }

  function Backwards(s: seq<Byte>): seq<Byte> {
    if s == [] then [] else Backwards(s[1..]) + [s[0]]
  }

  function Repeat(b: Byte, n: nat): (s: seq<Byte>)
    ensures |s| == n
  {
    seq(n, _ => b)
  }

  lemma {:induction false} ReversedFits(v: nat, w: nat)
    requires v < Pow8(w)
    ensures |Reversed(v)| <= w
    ensures Repeat(ZERO, w - |Reversed(v)|) + Backwards(Reversed(v)) == Octal(v, w)
  {
    if v == 0 {
      ZeroOctal(w);
    } else {
      ReversedFits(v / 8, w - 1);
      var r := Reversed(v / 8);
      assert Reversed(v)[1..] == r;
      ConcatAssoc(Repeat(ZERO, w - 1 - |r|), Backwards(r), [ZERO + v % 8]);
    }
  }

  lemma {:induction false} ZeroOctal(w: nat)
    ensures Octal(0, w) == Repeat(ZERO, w)
  {
    if w > 0 { ZeroOctal(w - 1); }
  }

  lemma BackwardsCons(b: Byte, s: seq<Byte>)
    ensures Backwards([b] + s) == Backwards(s) + [b]
  {
    assert ([b] + s)[1..] == s;
  }

  method MakeDigits(value: nat) returns (buf: seq<Byte>)
    ensures buf == Reversed(value)
  {
    buf := [];
    var v := value;
    while v > 0
      invariant buf + Reversed(v) == Reversed(value)
      decreases v
    {
      ConcatAssoc(buf, [ZERO + v % 8], Reversed(v / 8));
      buf, v := buf + [ZERO + v % 8], v / 8;
    }
    assert buf + [] == buf;
  }

  method PutReversed(start: seq<Byte>, buf: seq<Byte>) returns (out: seq<Byte>)
    ensures out == start + Backwards(buf)
  {
    out := start;
    var i := |buf|;
    while i > 0
      invariant 0 <= i <= |buf| && out == start + Backwards(buf[i..])
    {
      i := i - 1;
      assert buf[i..] == [buf[i]] + buf[i + 1..];
      BackwardsCons(buf[i], buf[i + 1..]);
      ConcatAssoc(start, Backwards(buf[i + 1..]), [buf[i]]);
      out := out + [buf[i]];
    }
    assert buf[0..] == buf;
  }

  lemma {:induction false} ReversedLength(v: nat)
    ensures v < Pow8(|Reversed(v)|) && (v > 0 ==> Pow8(|Reversed(v)| - 1) <= v)
  {
    if v > 0 { ReversedLength(v / 8); }
  }

  lemma {:induction false} Pow8Grows(a: nat, b: nat)
    requires a <= b
    ensures Pow8(a) <= Pow8(b)
  {
    if a < b { Pow8Grows(a, b - 1); }
  }

  /** An unsigned octal conversion with a field width and the zero flag: digits are made in reverse, then
      put out behind as many zeros as the width asks for.  All of the value is put out, in a longer field if
      the width is too small, and no longer than that. */
  method FormatOctal(value: nat, width: nat) returns (out: seq<Byte>)
    ensures var w := |out|;
            && w >= 1 && w >= width && value < Pow8(w) && out == Octal(value, w)
            && (w > 1 && w > width ==> Pow8(w - 1) <= value)
    ensures 0 < width && value < Pow8(width) ==> |out| == width
  {
    var buf := MakeDigits(value);
    if |buf| < 1 {
      buf := [ZERO];
    }
    var pad := if width > |buf| then width - |buf| else 0;
    out := PutReversed(Repeat(ZERO, pad), buf);
    ReversedLength(value);
    ghost var w := if width > |buf| then width else |buf|;
    Pow8Grows(|Reversed(value)|, w);
    ReversedFits(value, w);
    if value == 0 {
      ZeroOctal(w);
      assert Backwards([ZERO]) == [ZERO];
      assert Repeat(ZERO, w - 1) + [ZERO] == Repeat(ZERO, w);
    } else if 0 < width && value < Pow8(width) {
      ReversedFits(value, width);
    }
  }

  const ULONG_MAX: nat := 0xFFFF_FFFF

  /** How many octal digits a field begins with. */
  function DigitCount(s: seq<Byte>): (n: nat)
    ensures n <= |s| && (forall k | 0 <= k < n :: IsOctal(s[k])) && (n < |s| ==> !IsOctal(s[n]))
  {
    if s == [] || !IsOctal(s[0]) then 0 else 1 + DigitCount(s[1..])
  }

  /** The number in an octal field: at least one digit, then a space or a null byte, and no more than 32
      bits. */
  function OctalField(s: seq<Byte>): Option<nat> {
    var n := DigitCount(s);
    if 0 < n < |s| && (s[n] == SPACE || s[n] == 0) && OctVal(s[..n]) <= ULONG_MAX then Some(OctVal(s[..n])) else None
  }

  /** What an octal field is, without a word on how it is read. */
  lemma OctalFieldExact(s: seq<Byte>, v: nat)
    ensures OctalField(s) == Some(v) <==>
            exists n | 0 < n < |s| :: (s[n] == 32 || s[n] == 0) && (forall k | 0 <= k < n :: 48 <= s[k] <= 55)
              && OctVal(s[..n]) == v <= 0xFFFF_FFFF
  {
    if n :| 0 < n < |s| && (s[n] == 32 || s[n] == 0) && (forall k | 0 <= k < n :: 48 <= s[k] <= 55)
            && OctVal(s[..n]) == v <= 0xFFFF_FFFF {
      DigitCountIs(s, n);
    }
  }

  lemma {:induction false} DigitCountIs(s: seq<Byte>, n: nat)
    requires n <= |s| && (forall k | 0 <= k < n :: IsOctal(s[k])) && (n < |s| ==> !IsOctal(s[n]))
    ensures DigitCount(s) == n
  {
    if n > 0 { DigitCountIs(s[1..], n - 1); }
  }

  /** More digits, more value. */
  lemma {:induction false} OctValGrows(s: seq<Byte>, m: nat)
    requires AllOctal(s) && m <= |s|
    ensures OctVal(s[..m]) <= OctVal(s)
    decreases |s|
  {
    if m < |s| {
      OctValGrows(s[..|s| - 1], m);
      assert s[..|s| - 1][..m] == s[..m];
    } else {
      assert s[..m] == s;
    }
  }

  lemma OctValNext(s: seq<Byte>, i: nat)
    requires i < |s| && (forall k | 0 <= k <= i :: IsOctal(s[k]))
    ensures OctVal(s[..i + 1]) == 8 * OctVal(s[..i]) + Digit(s[i])
  {
    assert s[..i + 1][..i] == s[..i];
  }

  /** Reads an octal field digit by digit, with a check against overflow before each. */
  method ParseOctalField(s: seq<Byte>) returns (r: Option<nat>)
    ensures r == OctalField(s)
  {
    var value := 0;
    var ofs := 0;
    while ofs < |s|
      invariant ofs <= |s| && (forall k | 0 <= k < ofs :: IsOctal(s[k])) && value == OctVal(s[..ofs]) <= ULONG_MAX
    {
      var c := s[ofs];
      if IsOctal(c) {
        OctValNext(s, ofs);
        if value > ULONG_MAX / 8 {
          TooLarge(s, ofs + 1);
          return None;
        }
        value := Digit(c) + value * 8;
      } else {
        DigitCountIs(s, ofs);
        return if (c == SPACE || c == 0) && ofs > 0 then Some(value) else None;
      }
      ofs := ofs + 1;
    }
    DigitCountIs(s, ofs);
    return None;
  }

  lemma TooLarge(s: seq<Byte>, m: nat)
    requires m <= |s| && (forall k | 0 <= k < m :: IsOctal(s[k])) && OctVal(s[..m]) > ULONG_MAX
    ensures OctalField(s) == None
  {
    var n := DigitCount(s);
    assert n < |s| ==> n >= m;
    OctValGrows(s[..n], m);
    assert s[..n][..m] == s[..m];
  }

  /** Parsing what was formatted. */
  lemma FieldRoundTrip(v: nat, w: nat)
    requires 0 < w && v < Pow8(w) && v <= ULONG_MAX
    ensures OctalField(Octal(v, w) + [0]) == Some(v)
  {
    var s := Octal(v, w) + [0];
    DigitCountIs(s, w);
    assert s[..w] == Octal(v, w);
    OctalRoundTrip(v, w);
  }

  // ------------------------------------------------------------------ headers

  /** The header, field by field in the order of the format. */
  datatype Header = Header(name: seq<Byte>, mode: seq<Byte>, uid: seq<Byte>, gid: seq<Byte>, size: seq<Byte>, mtime: seq<Byte>,
                           chksum: seq<Byte>, typeflag: Byte, linkname: seq<Byte>, magic: seq<Byte>, version: seq<Byte>,
                           uname: seq<Byte>, gname: seq<Byte>, devmajor: seq<Byte>, devminor: seq<Byte>, prefix: seq<Byte>,
                           padding: seq<Byte>)

  predicate Sized(h: Header) {
    && |h.name| == 100 && |h.mode| == 8 && |h.uid| == 8 && |h.gid| == 8 && |h.size| == 12 && |h.mtime| == 12
    && |h.chksum| == 8 && |h.linkname| == 100 && |h.magic| == 6 && |h.version| == 2 && |h.uname| == 32 && |h.gname| == 32
    && |h.devmajor| == 8 && |h.devminor| == 8 && |h.prefix| == 155 && |h.padding| == 12
  }

  /** The 512 bytes of a header: what comes before the checksum, the checksum and what comes after. */
  function Before(h: Header): (s: seq<Byte>)
    requires Sized(h)
    ensures |s| == 148
  {
    h.name + h.mode + h.uid + h.gid + h.size + h.mtime
  }

  function Behind(h: Header): (s: seq<Byte>)
    requires Sized(h)
    ensures |s| == 356
  {
    [h.typeflag] + h.linkname + h.magic + h.version + h.uname + h.gname + h.devmajor + h.devminor + h.prefix + h.padding
  }

  function Bytes(h: Header): (s: seq<Byte>)
    requires Sized(h)
    ensures |s| == 512
  {
    Before(h) + h.chksum + Behind(h)
  }

  /** Where the fields are. */
  lemma Layout(h: Header)
    requires Sized(h)
    ensures var b := Bytes(h);
            && b[..100] == h.name && b[100..108] == h.mode && b[108..116] == h.uid && b[116..124] == h.gid
            && b[124..136] == h.size && b[136..148] == h.mtime && b[148..156] == h.chksum && b[156] == h.typeflag
            && b[157..257] == h.linkname && b[257..263] == h.magic && b[263..265] == h.version && b[265..297] == h.uname
            && b[297..329] == h.gname && b[329..337] == h.devmajor && b[337..345] == h.devminor && b[345..500] == h.prefix
            && b[500..] == h.padding
  {
  }

  function Sum(s: seq<Byte>): nat {
    if s == [] then 0 else Sum(s[..|s| - 1]) + s[|s| - 1]
  }

  /** The sum of the bytes of a header whose checksum field is blank. */
  function Checksum(h: Header): nat
    requires Sized(h)
  {
    Sum(Before(h) + Repeat(SPACE, 8) + Behind(h))
  }

  lemma {:induction false} SumConcat(s: seq<Byte>, t: seq<Byte>)
    ensures Sum(s + t) == Sum(s) + Sum(t)
    decreases |t|
  {
    if t == [] {
      assert s + t == s;
    } else {
      SumConcat(s, t[..|t| - 1]);
      assert (s + t)[..|s + t| - 1] == s + t[..|t| - 1];
    }
  }

  lemma SumOne(b: Byte)
    ensures Sum([b]) == b
  {
    assert [b][..0] == [];
    assert Sum([]) == 0;
  }

  /** One byte more or less shows. */
  lemma SumUpdate(s: seq<Byte>, i: nat, x: Byte)
    requires i < |s|
    ensures Sum(s[i := x]) == Sum(s) - s[i] + x
  {
    var a, c := s[..i], s[i + 1..];
    assert s == a + [s[i]] + c;
    assert s[i := x] == a + [x] + c;
    SumConcat(a + [s[i]], c);
    SumConcat(a, [s[i]]);
    SumConcat(a + [x], c);
    SumConcat(a, [x]);
    SumOne(s[i]);
    SumOne(x);
  }

  /** The sum of the bytes outside the checksum field, and of eight spaces. */
  lemma ChecksumIs(h: Header)
    requires Sized(h)
    ensures Checksum(h) == Sum(Bytes(h)[..148]) + 8 * 32 + Sum(Bytes(h)[156..])
  {
    SumConcat(Before(h) + Repeat(SPACE, 8), Behind(h));
    SumConcat(Before(h), Repeat(SPACE, 8));
    SumRepeat(SPACE, 8);
    assert Bytes(h)[..148] == Before(h) && Bytes(h)[156..] == Behind(h);
  }

  lemma {:induction false} SumRepeat(b: Byte, n: nat)
    ensures Sum(Repeat(b, n)) == n * b
  {
    if n > 0 {
      SumRepeat(b, n - 1);
      assert Repeat(b, n)[..n - 1] == Repeat(b, n - 1);
      assert n * b == (n - 1) * b + b;
    }
  }

  /** It does not depend on the checksum field. */
  lemma ChecksumIgnoresItself(h: Header, field: seq<Byte>)
    requires Sized(h) && |field| == 8
    ensures Checksum(h.(chksum := field)) == Checksum(h)
  {
  }

  lemma {:induction false} SumBound(s: seq<Byte>)
    ensures Sum(s) <= 255 * |s|
  {
    if s != [] { SumBound(s[..|s| - 1]); }
  }

  /** Adds the bytes up, taking each in the checksum field for a space. */
  method CalculateChksum(h: Header) returns (sum: nat)
    requires Sized(h)
    ensures sum == Checksum(h)
  {
    var header := Bytes(h);
    ghost var blank := Before(h) + Repeat(SPACE, 8) + Behind(h);
    sum := 0;
    var i := 0;
    while i < 512
      invariant i <= 512 && sum == Sum(blank[..i])
    {
      var inField := 148 <= i < 156;
      assert blank[i] == if inField then SPACE else header[i];
      assert blank[..i + 1][..i] == blank[..i];
      sum := sum + (if inField then SPACE else header[i]);
      i := i + 1;
    }
    assert blank[..512] == blank;
  }

  datatype Kind = Regular | Directory

  const REGULAR: Byte := 48
  const DIRECTORY: Byte := 53

  /** A string in a field of `n` bytes, null bytes behind it. */
  function Field(s: seq<Byte>, n: nat): (f: seq<Byte>)
    requires |s| <= n
    ensures |f| == n
  {
    s + Repeat(0, n - |s|)
  }

  const USTAR: seq<Byte> := [117, 115, 116, 97, 114]
  const ROOT: seq<Byte> := [114, 111, 111, 116]
  const MTIME: nat := 1136102400

  /** The header for a member, its checksum still missing. */
  function Unsummed(name: seq<Byte>, kind: Kind, size: nat): (h: Header)
    requires |name| <= 99
    ensures Sized(h)
  {
    Header(Field(name, 100), Field(Octal(if kind == Regular then 420 else 493, 7), 8), Field(Octal(0, 7), 8), Field(Octal(0, 7), 8),
           Field(Octal(size, 11), 12), Field(Octal(MTIME, 11), 12), Repeat(0, 8),
           if kind == Regular then REGULAR else DIRECTORY, Repeat(0, 100), Field(USTAR, 6), [ZERO, ZERO],
           Field(ROOT, 32), Field(ROOT, 32), Repeat(0, 8), Repeat(0, 8), Repeat(0, 155), Repeat(0, 12))
  }

  function HeaderFor(name: seq<Byte>, kind: Kind, size: nat): (h: Header)
    requires |name| <= 99
    ensures Sized(h)
  {
    var h := Unsummed(name, kind, size);
    h.(chksum := Field(Octal(Checksum(h), 7), 8))
  }

  lemma Pow8s()
    ensures Pow8(7) == 2097152 && Pow8(11) == 8589934592
  {
    assert Pow8(4) == 4096;
  }

  /** Fills in a header, unless the stripped name is too long. */
  method MakeHeader(fileName: seq<Byte>, kind: Kind, size: nat) returns (r: Option<Header>)
    requires size < 0x8000_0000
    ensures r == if |Strip(fileName)| > 99 then None else Some(HeaderFor(Strip(fileName), kind, size))
  {
    var name := StripPrefixes(fileName);
    if |name| > 99 {
      return None;
    }
    Pow8s();
    var mode := FormatOctal(if kind == Regular then 420 else 493, 7);
    var id := FormatOctal(0, 7);
    var sizeDigits := FormatOctal(size, 11);
    var mtime := FormatOctal(MTIME, 11);
    var h := Header(Field(name, 100), Field(mode, 8), Field(id, 8), Field(id, 8), Field(sizeDigits, 12), Field(mtime, 12), Repeat(0, 8),
                    if kind == Regular then REGULAR else DIRECTORY, Repeat(0, 100), Field(USTAR, 6), [ZERO, ZERO],
                    Field(ROOT, 32), Field(ROOT, 32), Repeat(0, 8), Repeat(0, 8), Repeat(0, 155), Repeat(0, 12));
    var sum := CalculateChksum(h);
    SumBound(Before(h) + Repeat(SPACE, 8) + Behind(h));
    var chksum := FormatOctal(sum, 7);
    r := Some(h.(chksum := Field(chksum, 8)));
  }

  lemma NextDigit(v: nat, w: nat, s: seq<Byte>)
    requires Octal(v / 8, w) == s
    ensures Octal(v, w + 1) == s + [48 + v % 8]
  {
  }

  lemma Modes()
    ensures Octal(0, 7) == [48, 48, 48, 48, 48, 48, 48]
    ensures Octal(420, 7) == [48, 48, 48, 48, 54, 52, 52] && Octal(493, 7) == [48, 48, 48, 48, 55, 53, 53]
  {
    ZeroOctal(4);
    ZeroOctal(7);
    NextDigit(6, 4, [48, 48, 48, 48]);
    NextDigit(52, 5, [48, 48, 48, 48, 54]);
    NextDigit(420, 6, [48, 48, 48, 48, 54, 52]);
    NextDigit(7, 4, [48, 48, 48, 48]);
    NextDigit(61, 5, [48, 48, 48, 48, 55]);
    NextDigit(493, 6, [48, 48, 48, 48, 55, 53]);
  }

  lemma Date()
    ensures Octal(MTIME, 11) == [49, 48, 51, 53, 53, 55, 48, 54, 48, 48, 48]
  {
    NextDigit(1, 0, []);
    NextDigit(8, 1, [49]);
    NextDigit(67, 2, [49, 48]);
    NextDigit(541, 3, [49, 48, 51]);
    NextDigit(4333, 4, [49, 48, 51, 53]);
    NextDigit(34671, 5, [49, 48, 51, 53, 53]);
    NextDigit(277368, 6, [49, 48, 51, 53, 53, 55]);
    NextDigit(2218950, 7, [49, 48, 51, 53, 53, 55, 48]);
    NextDigit(17751600, 8, [49, 48, 51, 53, 53, 55, 48, 54]);
    NextDigit(142012800, 9, [49, 48, 51, 53, 53, 55, 48, 54, 48]);
    NextDigit(MTIME, 10, [49, 48, 51, 53, 53, 55, 48, 54, 48, 48]);
  }

  /** What is in a header that was made, byte by byte. */
  ghost predicate Spelled(b: seq<Byte>, name: seq<Byte>, kind: Kind, size: nat)
    requires |b| == 512 && |name| <= 99
  {
    && b[..100] == name + Zeros(100 - |name|)
    && b[100..108] == [48, 48, 48, 48] + (if kind == Regular then [54, 52, 52] else [55, 53, 53]) + [0]
    && b[108..116] == b[116..124] == [48, 48, 48, 48, 48, 48, 48, 0]
    && b[124..136] == Octal(size, 11) + [0] && b[136..148] == [49, 48, 51, 53, 53, 55, 48, 54, 48, 48, 48, 0]
    && b[148..156] == Octal(Sum(b[..148]) + 256 + Sum(b[156..]), 7) + [0]
    && b[156] == (if kind == Regular then 48 else 53) && b[157..257] == Zeros(100)
    && b[257..263] == [117, 115, 116, 97, 114, 0] && b[263..265] == [48, 48]
    && b[265..297] == b[297..329] == [114, 111, 111, 116] + Zeros(28) && b[329..] == Zeros(183)
  }

  lemma HeaderBytes(name: seq<Byte>, kind: Kind, size: nat)
    requires |name| <= 99
    ensures Spelled(Bytes(HeaderFor(name, kind, size)), name, kind, size)
  {
    var h := HeaderFor(name, kind, size);
    Modes();
    Date();
    ChecksumIgnoresItself(Unsummed(name, kind, size), h.chksum);
    HeaderText(h, name, kind, size);
  }

  lemma HeaderText(h: Header, name: seq<Byte>, kind: Kind, size: nat)
    requires Sized(h) && |name| <= 99 && h.name == Field(name, 100)
    requires h.mode == Field(if kind == Regular then [48, 48, 48, 48, 54, 52, 52] else [48, 48, 48, 48, 55, 53, 53], 8)
    requires h.uid == h.gid == Field([48, 48, 48, 48, 48, 48, 48], 8) && h.size == Field(Octal(size, 11), 12)
    requires h.mtime == Field([49, 48, 51, 53, 53, 55, 48, 54, 48, 48, 48], 12) && h.chksum == Field(Octal(Checksum(h), 7), 8)
    requires h.typeflag == (if kind == Regular then 48 else 53) && h.linkname == Repeat(0, 100)
    requires h.magic == Field([117, 115, 116, 97, 114], 6) && h.version == [48, 48]
    requires h.uname == h.gname == Field([114, 111, 111, 116], 32)
    requires h.devmajor == h.devminor == Repeat(0, 8) && h.prefix == Repeat(0, 155) && h.padding == Repeat(0, 12)
    ensures Spelled(Bytes(h), name, kind, size)
  {
    Layout(h);
    Tail(h);
    ChecksumIs(h);
  }

  lemma Tail(h: Header)
    requires Sized(h)
    ensures Bytes(h)[329..] == h.devmajor + h.devminor + h.prefix + h.padding
  {
  }

  // ------------------------------------------------------------------ parsing

  datatype Parsed = EndOfArchive | Member(name: seq<Byte>, kind: Kind, size: nat) | Malformed(reason: string)

  /** The string at the start of a field. */
  function StringOf(f: seq<Byte>): (s: seq<Byte>)
    ensures forall k | 0 <= k < |s| :: s[k] != 0
  {
    if f == [] || f[0] == 0 then [] else [f[0]] + StringOf(f[1..])
  }

  predicate AllZeros(s: seq<Byte>) { forall k | 0 <= k < |s| :: s[k] == 0 }

  /** What a header says. */
  function Parse(h: Header): Parsed
    requires Sized(h)
  {
    if AllZeros(Bytes(h)) then EndOfArchive
    else if h.magic != Field(USTAR, 6) then Malformed("not a ustar archive")
    else if h.version != [ZERO, ZERO] then Malformed("invalid ustar version")
    else if OctalField(h.chksum).None? then Malformed("corrupt chksum field")
    else if OctalField(h.chksum).value != Checksum(h) then Malformed("checksum mismatch")
    else if h.name[99] != 0 || h.prefix[0] != 0 then Malformed("file name too long")
    else if h.typeflag != REGULAR && h.typeflag != DIRECTORY then Malformed("unimplemented file type")
    else if h.typeflag == DIRECTORY then Member(Strip(StringOf(h.name)), Directory, 0)
    else if OctalField(h.size).None? then Malformed("corrupt file size field")
    else if OctalField(h.size).value > 0x7FFF_FFFF then Malformed("file too large")
    else Member(Strip(StringOf(h.name)), Regular, OctalField(h.size).value)
  }

  method IsAllZeros(s: seq<Byte>) returns (r: bool)
    ensures r == AllZeros(s)
  {
    var i := 0;
    while i < |s|
      invariant i <= |s| && forall k | 0 <= k < i :: s[k] == 0
    {
      if s[i] != 0 {
        return false;
      }
      i := i + 1;
    }
    return true;
  }

  method ParseHeader(h: Header) returns (r: Parsed)
    requires Sized(h)
    ensures r == Parse(h)
    ensures r.EndOfArchive? <==> forall k | 0 <= k < 512 :: Bytes(h)[k] == 0
    ensures var b := Bytes(h);
            r.Member? ==>
              && b[257..263] == [117, 115, 116, 97, 114, 0] && b[263] == 48 && b[264] == 48
              && b[99] == 0 && b[345] == 0 && r.size < 0x8000_0000
  {
    MemberExact(h);
    var zeros := IsAllZeros(Bytes(h));
    if zeros {
      return EndOfArchive;
    }
    if h.magic != Field(USTAR, 6) {
      return Malformed("not a ustar archive");
    } else if h.version[0] != ZERO || h.version[1] != ZERO {
      return Malformed("invalid ustar version");
    }
    var chksum := ParseOctalField(h.chksum);
    if chksum.None? {
      return Malformed("corrupt chksum field");
    }
    var sum := CalculateChksum(h);
    if chksum.value != sum {
      return Malformed("checksum mismatch");
    } else if h.name[99] != 0 || h.prefix[0] != 0 {
      return Malformed("file name too long");
    } else if h.typeflag != REGULAR && h.typeflag != DIRECTORY {
      return Malformed("unimplemented file type");
    }
    var size := 0;
    if h.typeflag == REGULAR {
      var field := ParseOctalField(h.size);
      if field.None? {
        return Malformed("corrupt file size field");
      } else if field.value > 0x7FFF_FFFF {
        return Malformed("file too large");
      }
      size := field.value;
    }
    var name := StripPrefixes(StringOf(h.name));
    r := Member(name, if h.typeflag == REGULAR then Regular else Directory, size);
  }

  /** A field's string ends before the first null byte. */
  lemma {:induction false} StringOfIs(f: seq<Byte>, n: nat)
    requires n <= |f| && (forall k | 0 <= k < n :: f[k] != 0) && (n < |f| ==> f[n] == 0)
    ensures StringOf(f) == f[..n]
  {
    if n > 0 { StringOfIs(f[1..], n - 1); }
  }

  lemma {:induction false} StringOfField(s: seq<Byte>, n: nat)
    requires |s| < n && forall k | 0 <= k < |s| :: s[k] != 0
    ensures StringOf(Field(s, n)) == s
  {
    if s != [] {
      StringOfField(s[1..], n - 1);
      assert Field(s, n)[1..] == Field(s[1..], n - 1);
    }
  }

  /** Parsing a header that was made gives back the stripped name, the kind and the size, which for a
      directory is nothing. */
  lemma HeaderRoundTrip(fileName: seq<Byte>, kind: Kind, size: nat)
    requires size < 0x8000_0000 && |Strip(fileName)| <= 99 && forall k | 0 <= k < |fileName| :: fileName[k] != 0
    ensures Parse(HeaderFor(Strip(fileName), kind, size)) == Member(Strip(fileName), kind, if kind == Regular then size else 0)
  {
    var name := Strip(fileName);
    var h := HeaderFor(name, kind, size);
    StripIsSafe(fileName);
    NoNulls(fileName);
    StringOfField(name, 100);
    ChecksumField(name, kind, size);
    SizeField(size);
    ParsesAs(h, name, kind, size);
  }

  lemma NoNulls(fileName: seq<Byte>)
    requires forall k | 0 <= k < |fileName| :: fileName[k] != 0
    ensures forall k | 0 <= k < |Strip(fileName)| :: Strip(fileName)[k] != 0
  {
    StripIsSafe(fileName);
    var name := Strip(fileName);
    forall k | 0 <= k < |name| ensures name[k] != 0 { assert name[k] in name; }
  }

  lemma ChecksumField(name: seq<Byte>, kind: Kind, size: nat)
    requires |name| <= 99
    ensures var h := HeaderFor(name, kind, size);
            OctalField(h.chksum) == Some(Checksum(h))
  {
    var u := Unsummed(name, kind, size);
    var sum := Checksum(u);
    Pow8s();
    SumBound(Before(u) + Repeat(SPACE, 8) + Behind(u));
    FieldRoundTrip(sum, 7);
    assert Field(Octal(sum, 7), 8) == Octal(sum, 7) + [0];
    ChecksumIgnoresItself(u, Field(Octal(sum, 7), 8));
  }

  lemma SizeField(size: nat)
    requires size < 0x8000_0000
    ensures OctalField(Field(Octal(size, 11), 12)) == Some(size)
  {
    Pow8s();
    FieldRoundTrip(size, 11);
    assert Field(Octal(size, 11), 12) == Octal(size, 11) + [0];
  }

  lemma ParsesAs(h: Header, name: seq<Byte>, kind: Kind, size: nat)
    requires Sized(h) && h.typeflag == (if kind == Regular then REGULAR else DIRECTORY)
    requires h.magic == Field(USTAR, 6) && h.version == [ZERO, ZERO] && OctalField(h.chksum) == Some(Checksum(h))
    requires h.name[99] == 0 && h.prefix[0] == 0 && StringOf(h.name) == name && Strip(name) == name
    requires OctalField(h.size) == Some(size) && size < 0x8000_0000
    ensures Parse(h) == Member(name, kind, if kind == Regular then size else 0)
  {
    NotAllZeros(h);
  }

  lemma NotAllZeros(h: Header)
    requires Sized(h) && h.typeflag != 0
    ensures !AllZeros(Bytes(h))
  {
    assert Bytes(h)[156] == h.typeflag;
  }

  /** The headers of members, byte by byte. */
  lemma MemberExact(h: Header)
    requires Sized(h)
    ensures var b := Bytes(h);
            Parse(h).Member? <==>
              && b[257..263] == [117, 115, 116, 97, 114, 0] && b[263] == 48 && b[264] == 48
              && b[99] == 0 && b[345] == 0 && (b[156] == 48 || b[156] == 53)
              && OctalField(b[148..156]) == Some(Sum(b[..148]) + 256 + Sum(b[156..]))
              && (b[156] == 48 ==> OctalField(b[124..136]).Some? && OctalField(b[124..136]).value < 0x8000_0000)
  {
    var b := Bytes(h);
    Layout(h);
    ChecksumIs(h);
    assert Field(USTAR, 6) == [117, 115, 116, 97, 114, 0];
    assert b[99] == h.name[99] && b[345] == h.prefix[0] && b[263] == h.version[0] && b[264] == h.version[1];
    assert b[257] == h.magic[0];
    assert h.version == [h.version[0], h.version[1]];
  }

  /** What a member's header says. */
  lemma MemberIs(h: Header)
    requires Sized(h) && Parse(h).Member?
    ensures var b, m := Bytes(h), Parse(h);
            && m.name == Strip(StringOf(b[..100])) && m.size < 0x8000_0000
            && (m.kind == Regular <==> b[156] == 48) && (m.kind == Directory <==> b[156] == 53)
            && (b[156] == 48 ==> OctalField(b[124..136]) == Some(m.size)) && (b[156] == 53 ==> m.size == 0)
  {
    Layout(h);
  }

  /** A header in which a single byte outside the checksum field has changed is not taken for a member, or
      for the end of the archive. */
  lemma OneByteIsCaught(h: Header, h': Header, i: nat, x: Byte)
    requires Sized(h) && Sized(h') && Parse(h).Member?
    requires i < 512 && !(148 <= i < 156) && Bytes(h)[i] != x && Bytes(h') == Bytes(h)[i := x]
    ensures Parse(h').Malformed?
  {
    Layout(h);
    Layout(h');
    assert h'.chksum == h.chksum;
    SumsDiffer(h, h', i, x);
    assert Bytes(h')[148] == h.chksum[0] && IsOctal(h.chksum[0]);
  }

  lemma SumsDiffer(h: Header, h': Header, i: nat, x: Byte)
    requires Sized(h) && Sized(h')
    requires i < 512 && !(148 <= i < 156) && Bytes(h)[i] != x && Bytes(h') == Bytes(h)[i := x]
    ensures Checksum(h') != Checksum(h)
  {
    var b, b' := Bytes(h), Bytes(h');
    ChecksumIs(h);
    ChecksumIs(h');
    if i < 148 {
      SumUpdate(b[..148], i, x);
      assert b'[..148] == b[..148][i := x] && b'[156..] == b[156..];
    } else {
      SumUpdate(b[156..], i - 156, x);
      assert b'[156..] == b[156..][i - 156 := x] && b'[..148] == b[..148];
    }
  }

  /** Whatever the header, a member's name has no antisocial beginning. */
  lemma ParsedNameIsSafe(h: Header)
    requires Sized(h) && Parse(h).Member?
    ensures var name := Parse(h).name;
            && !([47] <= name) && !([46, 47] <= name) && !([46, 46, 47] <= name) && name != [] && name != [46, 46]
            && |name| <= 99
  {
    StripIsSafe(StringOf(h.name));
    StringOfLength(h.name);
  }

  lemma {:induction false} StringOfLength(f: seq<Byte>)
    ensures |StringOf(f)| <= |f|
    ensures f != [] && f[|f| - 1] == 0 ==> |StringOf(f)| < |f|
  {
    if f != [] && f[0] != 0 { StringOfLength(f[1..]); }
  }
}
