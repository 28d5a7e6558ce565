/** The initial user stack: the command line's words, laid out as a C program expects them. */
module ArgStack {
  import opened Division
  import opened Machine
  import opened Options
  import opened Seqs
  import opened Tokens

  /** What separates the words of a command line. */
  const BLANK: set<Byte> := {32}

  /** The lowest address of the one stack page. */
  const BASE: nat := PHYS_BASE - PGSIZE
  const MAX_ARGS: nat := 128

  // ------------------------------------------------------------------ words of memory

  /** A value as `k` bytes, the lowest first, and back. */
  function Digits(v: nat, k: nat): (s: seq<Byte>)
    ensures |s| == k
  {
    if k == 0 then [] else [v % 256] + Digits(v / 256, k - 1)
  }

  function Value(s: seq<Byte>): nat {
    if s == [] then 0 else s[0] as int + 256 * Value(s[1..])
  }

  function Word(v: nat): (w: seq<Byte>)
    ensures |w| == 4
  {
    Digits(v, 4)
  }

  function WordAt(mem: seq<Byte>, i: nat): nat
    requires i + 4 <= |mem|
  {
    Value(mem[i..i + 4])
  }

  function Pow256(k: nat): nat {
    if k == 0 then 1 else 256 * Pow256(k - 1)
  }

  lemma {:induction false} ValueDigits(v: nat, k: nat)
    requires v < Pow256(k)
    ensures Value(Digits(v, k)) == v
  {
    if k > 0 {
      ValueDigits(v / 256, k - 1);
      assert Digits(v, k)[1..] == Digits(v / 256, k - 1);
    }
  }

  /** A word of memory has its lowest byte first. */
  lemma WordAtIs(mem: seq<Byte>, i: nat)
    requires i + 4 <= |mem|
    ensures var b0: int, b1: int, b2: int, b3: int := mem[i], mem[i + 1], mem[i + 2], mem[i + 3];
            WordAt(mem, i) == b0 + 0x100 * b1 + 0x1_0000 * b2 + 0x100_0000 * b3
  {
    var w := mem[i..i + 4];
    assert w[1..][1..] == w[2..] && w[2..][1..] == w[3..] && w[3..][1..] == [];
    assert Value(w[3..]) == w[3] && Value(w[2..]) == w[2] as int + 256 * Value(w[3..]);
    assert Value(w[1..]) == w[1] as int + 256 * Value(w[2..]) && Value(w) == w[0] as int + 256 * Value(w[1..]);
  }

  lemma WordRoundTrip(v: nat)
    requires v < B32
    ensures Value(Word(v)) == v
  {
    assert Pow256(4) == B32;
    ValueDigits(v, 4);
  }

  // ------------------------------------------------------------------ the layout

  /** The strings, each with its null byte, the first lowest. */
  function Strings(words: seq<seq<Byte>>): (s: seq<Byte>) {
    if words == [] then [] else words[0] + [0] + Strings(words[1..])
  }

  /** Where string `i` is, if the strings end at the top. */
  function StringAddress(words: seq<seq<Byte>>, i: nat): int
    requires i <= |words|
  {
    PHYS_BASE - |Strings(words[i..])|
  }

  /** The next multiple of four. */
  function Align(n: nat): (r: nat)
    ensures r % 4 == 0 && n <= r < n + 4
    decreases if n % 4 == 0 then 0 else 4 - n % 4
  {
    if n % 4 == 0 then n else Align(n + 1)
  }

  /** The pointers to the strings from `i` on, and then `rest`. */
  function Pointers(words: seq<seq<Byte>>, i: nat, rest: seq<Byte>): (s: seq<Byte>)
    requires i <= |words| && |Strings(words)| <= PGSIZE
    ensures |s| == 4 * (|words| - i) + |rest|
    decreases |words| - i
  {
    if i == |words| then rest
    else
      StringsFit(words, i);
      Word(StringAddress(words, i)) + Pointers(words, i + 1, rest)
  }

  lemma {:induction false} StringsFit(words: seq<seq<Byte>>, i: nat)
    requires i <= |words|
    ensures |Strings(words[i..])| <= |Strings(words)|
  {
    if i == 0 {
      assert words[0..] == words;
    } else {
      StringsFit(words[1..], i - 1);
      DropDrop(words, 1, i);
    }
  }

  /** How much of the page the whole takes. */
  function Needed(words: seq<seq<Byte>>): nat {
    Align(|Strings(words)|) + 4 * (|words| + 1) + 12
  }

  /** The padded strings, and with the null pointer before them. */
  function Padded(words: seq<seq<Byte>>): (s: seq<Byte>)
    ensures |s| == Align(|Strings(words)|)
  {
    Zeros(Align(|Strings(words)|) - |Strings(words)|) + Strings(words)
  }

  function Ended(words: seq<seq<Byte>>): seq<Byte> { Word(0) + Padded(words) }

  /** The stack from its pointer up: return address, argc, argv, the pointers with their null, padding and
      the strings. */
  function Layout(words: seq<seq<Byte>>): (s: seq<Byte>)
    requires Needed(words) <= PGSIZE
    ensures |s| == Needed(words)
  {
    Word(0) + (Word(|words|) + (Word(PHYS_BASE - Needed(words) + 12) + Pointers(words, 0, Ended(words))))
  }

  // ------------------------------------------------------------------ pushing

  /** What is on the stack: the page from the stack pointer up. */
  ghost predicate Holds(mem: seq<Byte>, sp: nat, s: seq<Byte>) {
    |mem| == PGSIZE && BASE <= sp <= PHYS_BASE && mem[sp - BASE..] == s
  }

  /** Pushes bytes, unless they would go below the page. */
  method Push(page: array<Byte>, sp: nat, bytes: seq<Byte>) returns (r: Option<nat>)
    requires page.Length == PGSIZE && BASE <= sp <= PHYS_BASE
    modifies page
    ensures r.Some? <==> sp - |bytes| >= BASE
    ensures r.Some? ==> r.value == sp - |bytes| && Holds(page[..], r.value, bytes + old(page[..][sp - BASE..]))
  {
    if sp - |bytes| < BASE {
      return None;
    }
    var at := sp - |bytes| - BASE;
    var i := 0;
    while i < |bytes|
      invariant i <= |bytes|
      invariant forall k | 0 <= k < i :: page[at + k] == bytes[k]
      invariant forall k | at + i <= k < PGSIZE :: page[k] == old(page[..][k])
    {
      page[at + i] := bytes[i];
      i := i + 1;
    }
    r := Some(sp - |bytes|);
  }

  method StrLen(buf: array<Byte>, at: nat, ghost end: nat) returns (n: nat)
    requires StringAt(buf[..], at, end)
    ensures n == end - at
  {
    n := 0;
    while buf[at + n] != 0
      invariant n <= end - at
      decreases end - at - n
    {
      n := n + 1;
    }
  }

  /** A string with its null byte. */
  method Text(buf: array<Byte>, at: nat, ghost word: seq<Byte>) returns (text: seq<Byte>)
    requires at + |word| < buf.Length && StringAt(buf[..], at, at + |word|) && buf[..][at..at + |word|] == word
    ensures text == word + [0]
  {
    var len := StrLen(buf, at, at + |word|);
    text := buf[at..at + len + 1];
    assert text == buf[..][at..at + |word|] + [buf[at + |word|]];
  }

  /** The addresses of the strings from the `i`th on. */
  ghost predicate Noted(addresses: seq<nat>, words: seq<seq<Byte>>, i: nat)
  {
    i <= |words| && |addresses| == |words| - i && forall k: nat | i <= k < |words| :: addresses[k - i] == StringAddress(words, k)
  }

  lemma NotedNext(addresses: seq<nat>, words: seq<seq<Byte>>, i: nat, at: nat)
    requires i < |words| && Noted(addresses, words, i + 1) && at == StringAddress(words, i)
    ensures Noted([at] + addresses, words, i)
  {
  }

  /** Pushes the strings in reverse and notes where each went. */
  method PushStrings(page: array<Byte>, buf: array<Byte>, argv: seq<nat>, ghost words: seq<seq<Byte>>, ghost end: nat)
      returns (r: Option<(nat, seq<nat>)>)
    requires page.Length == PGSIZE && page != buf && Collected(buf[..], argv, words, end, end)
    modifies page
    ensures r.Some? <==> |Strings(words)| <= PGSIZE
    ensures r.Some? ==>
              && Holds(page[..], r.value.0, Strings(words)) && |r.value.1| == |words|
              && forall k | 0 <= k < |words| :: r.value.1[k] == StringAddress(words, k)
  {
    var sp, addresses := PHYS_BASE, [];
    var i := |argv|;
    while i > 0
      invariant 0 <= i <= |argv| && Holds(page[..], sp, Strings(words[i..])) && Noted(addresses, words, i)
    {
      i := i - 1;
      var text := Text(buf, argv[i], words[i]);
      StringsNext(words, i);
      StringsFit(words, i);
      var pushed := Push(page, sp, text);
      if pushed.None? {
        return None;
      }
      NotedNext(addresses, words, i, pushed.value);
      sp, addresses := pushed.value, [pushed.value] + addresses;
    }
    assert words[0..] == words;
    r := Some((sp, addresses));
  }

  lemma StringsNext(words: seq<seq<Byte>>, i: nat)
    requires i < |words|
    ensures Strings(words[i..]) == words[i] + [0] + Strings(words[i + 1..])
  {
    DropDrop(words, i, i + 1);
  }

  /** Pads down to the next multiple of four, `target`. */
  method AlignDown(page: array<Byte>, sp0: nat, ghost s: seq<Byte>, ghost target: nat) returns (sp: nat)
    requires page.Length == PGSIZE && Holds(page[..], sp0, s) && target % 4 == 0 && BASE <= target <= sp0 < target + 4
    modifies page
    ensures sp == target && Holds(page[..], sp, Zeros(sp0 - target) + s)
  {
    sp := sp0;
    ZeroMore(0, s);
    while sp % 4 != 0
      invariant target <= sp <= sp0 && Holds(page[..], sp, Zeros(sp0 - sp) + s)
      decreases sp
    {
      Between(sp, target, sp0);
      ZeroMore(sp0 - sp, s);
      sp := PushZero(page, sp);
    }
    Between(sp, target, sp0);
  }

  lemma AlignIs(n: nat)
    requires n <= PGSIZE
    ensures var target := PHYS_BASE - Align(n);
            target % 4 == 0 && target <= PHYS_BASE - n < target + 4 && target >= BASE
  {
  }

  lemma Between(sp: nat, target: nat, sp0: nat)
    requires target % 4 == 0 && target <= sp <= sp0 < target + 4
    ensures sp % 4 == 0 <==> sp == target
  {
  }

  /** `*--sp = 0`, where there is room. */
  method PushZero(page: array<Byte>, sp0: nat) returns (sp: nat)
    requires page.Length == PGSIZE && BASE < sp0 <= PHYS_BASE
    modifies page
    ensures sp == sp0 - 1 && Holds(page[..], sp, [0] + old(page[..][sp0 - BASE..]))
  {
    sp := sp0 - 1;
    page[sp - BASE] := 0;
  }

  lemma ZeroMore(k: nat, s: seq<Byte>)
    ensures [0] + (Zeros(k) + s) == Zeros(k + 1) + s && Zeros(0) + s == s
  {
  }

  /** Pushes the pointers in reverse. */
  method PushPointers(page: array<Byte>, sp0: nat, addresses: seq<nat>, ghost words: seq<seq<Byte>>, ghost rest: seq<Byte>)
      returns (r: Option<nat>)
    requires page.Length == PGSIZE && |Strings(words)| <= PGSIZE && |addresses| == |words| && Holds(page[..], sp0, rest)
    requires forall k | 0 <= k < |words| :: addresses[k] == StringAddress(words, k)
    modifies page
    ensures r.Some? <==> sp0 - 4 * |words| >= BASE
    ensures r.Some? ==> r.value == sp0 - 4 * |words| && Holds(page[..], r.value, Pointers(words, 0, rest))
  {
    var sp := sp0;
    var i := |addresses|;
    while i > 0
      invariant 0 <= i <= |addresses| && sp == sp0 - 4 * (|words| - i) && Holds(page[..], sp, Pointers(words, i, rest))
    {
      i := i - 1;
      StringsFit(words, i);
      var pushed := Push(page, sp, Word(addresses[i]));
      if pushed.None? {
        return None;
      }
      sp := pushed.value;
    }
    r := Some(sp);
  }

  /** Pushes argv, argc and a return address. */
  method PushCall(page: array<Byte>, sp0: nat, argc: nat, ghost s: seq<Byte>) returns (r: Option<nat>)
    requires page.Length == PGSIZE && Holds(page[..], sp0, s) && argc < B32
    modifies page
    ensures r.Some? <==> sp0 - 12 >= BASE
    ensures r.Some? ==> r.value == sp0 - 12 && Holds(page[..], r.value, Word(0) + (Word(argc) + (Word(sp0) + s)))
  {
    var a := Push(page, sp0, Word(sp0));
    if a.None? {
      return None;
    }
    var b := Push(page, a.value, Word(argc));
    if b.None? {
      return None;
    }
    r := Push(page, b.value, Word(0));
  }

  /** Lays the words of the command line out on the zeroed stack page.  It works exactly if there are at
      most 128 of them and the whole fits. */
  method SetupStack(page: array<Byte>, buf: array<Byte>, ghost end: nat) returns (esp: Option<nat>)
    requires page.Length == PGSIZE && page != buf && StringAt(buf[..], 0, end)
    modifies page, buf
    ensures var words := Words(BLANK, old(buf[..][0..end]));
            && (esp.Some? <==> |words| <= MAX_ARGS && Needed(words) <= PGSIZE)
            && (esp.Some? ==> esp.value == PHYS_BASE - Needed(words) && Holds(page[..], esp.value, Layout(words)))
  {
    ghost var words := Words(BLANK, buf[..][0..end]);
    var argv := Tokenize(BLANK, buf, end, MAX_ARGS);
    if argv.None? {
      return None;
    }
    esp := LayOut(page, buf, argv.value, words, end);
  }

  /** Pushes the strings, the padding and the rest. */
  method LayOut(page: array<Byte>, buf: array<Byte>, argv: seq<nat>, ghost words: seq<seq<Byte>>, ghost end: nat) returns (esp: Option<nat>)
    requires page.Length == PGSIZE && page != buf && Collected(buf[..], argv, words, end, end) && |words| <= MAX_ARGS
    modifies page
    ensures esp.Some? <==> Needed(words) <= PGSIZE
    ensures esp.Some? ==> esp.value == PHYS_BASE - Needed(words) && Holds(page[..], esp.value, Layout(words))
  {
    var strings := PushStrings(page, buf, argv, words, end);
    if strings.None? {
      return None;
    }
    var sp := Pad(page, strings.value.0, words);
    esp := PushVector(page, sp, strings.value.1, words);
  }

  method Pad(page: array<Byte>, sp0: nat, ghost words: seq<seq<Byte>>) returns (sp: nat)
    requires page.Length == PGSIZE && |Strings(words)| <= PGSIZE && Holds(page[..], sp0, Strings(words))
    modifies page
    ensures sp == PHYS_BASE - Align(|Strings(words)|) && Holds(page[..], sp, Padded(words))
  {
    AlignIs(|Strings(words)|);
    sp := AlignDown(page, sp0, Strings(words), PHYS_BASE - Align(|Strings(words)|));
  }

  /** Pushes the null pointer, the pointers and the call. */
  method PushVector(page: array<Byte>, sp: nat, addresses: seq<nat>, ghost words: seq<seq<Byte>>) returns (esp: Option<nat>)
    requires page.Length == PGSIZE && |Strings(words)| <= PGSIZE && |addresses| == |words| < B32
    requires Holds(page[..], sp, Padded(words)) && forall k | 0 <= k < |words| :: addresses[k] == StringAddress(words, k)
    modifies page
    ensures esp.Some? <==> sp - (4 * (|words| + 1) + 12) >= BASE
    ensures esp.Some? ==>
              && esp.value == sp - (4 * (|words| + 1) + 12)
              && Holds(page[..], esp.value, Word(0) + (Word(|words|) + (Word(esp.value + 12) + Pointers(words, 0, Ended(words)))))
  {
    var null_ := Push(page, sp, Word(0));
    if null_.None? {
      return None;
    }
    var pointers := PushPointers(page, null_.value, addresses, words, Ended(words));
    if pointers.None? {
      return None;
    }
    esp := PushCall(page, pointers.value, |addresses|, Pointers(words, 0, Ended(words)));
  }

  // ------------------------------------------------------------------ from the command line

  /** A copy of the command line, cut to fit in a page. */
  function Truncated(cmdline: seq<Byte>): (r: seq<Byte>)
    ensures r <= cmdline && |r| == if |cmdline| < 4096 then |cmdline| else 4095
  {
    if |cmdline| < PGSIZE then cmdline else cmdline[..PGSIZE - 1]
  }

  method CopyCommandLine(cmdline: seq<Byte>) returns (buf: array<Byte>)
    requires forall k | 0 <= k < |cmdline| :: cmdline[k] != 0
    ensures fresh(buf) && StringAt(buf[..], 0, |Truncated(cmdline)|) && buf[..][0..|Truncated(cmdline)|] == Truncated(cmdline)
    ensures buf.Length == PGSIZE && (|cmdline| < PGSIZE ==> buf[..|cmdline|] == cmdline && buf[|cmdline|] == 0)
    ensures |cmdline| >= PGSIZE ==> buf[..PGSIZE - 1] == cmdline[..PGSIZE - 1] && buf[PGSIZE - 1] == 0
  {
    var n := if |cmdline| < PGSIZE - 1 then |cmdline| else PGSIZE - 1;
    buf := new Byte[PGSIZE](_ => 0);
    var i := 0;
    while i < n
      invariant i <= n && (forall k | 0 <= k < i :: buf[k] == cmdline[k]) && forall k | i <= k < PGSIZE :: buf[k] == 0
    {
      buf[i] := cmdline[i];
      i := i + 1;
    }
    assert buf[..][0..n] == cmdline[..n];
    if |cmdline| < PGSIZE { assert cmdline[..n] == cmdline; }
  }

  /** The stack for a command line. */
  method SetupCommandLine(page: array<Byte>, cmdline: seq<Byte>) returns (esp: Option<nat>)
    requires page.Length == PGSIZE && forall k | 0 <= k < |cmdline| :: cmdline[k] != 0
    modifies page
    ensures var words := Words({32}, if |cmdline| < PGSIZE then cmdline else cmdline[..PGSIZE - 1]);
            && (esp.Some? <==> |words| <= 128 && Needed(words) <= PGSIZE)
            && (esp.Some? ==> esp.value == PHYS_BASE - Needed(words) && Holds(page[..], esp.value, Layout(words)))
  {
    var buf := CopyCommandLine(cmdline);
    esp := SetupStack(page, buf, |Truncated(cmdline)|);
  }

  // ------------------------------------------------------------------ reading it back

  /** The string at a place in memory. */
  function StringIn(mem: seq<Byte>, i: nat): seq<Byte>
    decreases |mem| - i
  {
    if i < |mem| && mem[i] != 0 then [mem[i]] + StringIn(mem, i + 1) else []
  }

  lemma {:induction false} StringInIs(mem: seq<Byte>, i: nat, w: seq<Byte>)
    requires i + |w| < |mem| && mem[i..i + |w|] == w && mem[i + |w|] == 0 && forall k | 0 <= k < |w| :: w[k] != 0
    ensures StringIn(mem, i) == w
    decreases |w|
  {
    if w != [] {
      assert mem[i] == mem[i..i + |w|][0] == w[0];
      assert mem[i + 1..i + 1 + |w[1..]|] == mem[i..i + |w|][1..];
      StringInIs(mem, i + 1, w[1..]);
    }
  }

  /** Where memory ends in the strings, string `i` is at its address. */
  lemma {:induction false} StringsEnd(mem: seq<Byte>, words: seq<seq<Byte>>, i: nat)
    requires i <= |words| && |Strings(words)| <= |mem| && mem[|mem| - |Strings(words)|..] == Strings(words)
    ensures |Strings(words[i..])| <= |mem| && mem[|mem| - |Strings(words[i..])|..] == Strings(words[i..])
    decreases i
  {
    if i == 0 {
      assert words[0..] == words;
    } else {
      StringsEnd(mem, words, i - 1);
      StringsNext(words, i - 1);
      var s, t := Strings(words[i - 1..]), Strings(words[i..]);
      DropDrop(mem, |mem| - |s|, |mem| - |t|);
      assert s[|s| - |t|..] == t;
    }
  }

  lemma {:induction false} PointerAt(words: seq<seq<Byte>>, i: nat, rest: seq<Byte>, k: nat)
    requires i <= k < |words| && |Strings(words)| <= PGSIZE
    ensures 0 <= StringAddress(words, k) < B32 && Pointers(words, i, rest)[4 * (k - i)..4 * (k - i) + 4] == Word(StringAddress(words, k))
    decreases k - i
  {
    StringsFit(words, k);
    var s := Pointers(words, i, rest);
    if k > i {
      PointerAt(words, i + 1, rest, k);
      assert s[4..] == Pointers(words, i + 1, rest);
      SubSlice(s, 4, |s|, 4 * (k - i - 1), 4 * (k - i));
      assert s[4..|s|] == s[4..];
    }
  }

  lemma {:induction false} AfterPointers(words: seq<seq<Byte>>, i: nat, rest: seq<Byte>)
    requires i <= |words| && |Strings(words)| <= PGSIZE
    ensures Pointers(words, i, rest)[4 * (|words| - i)..] == rest
    decreases |words| - i
  {
    var s := Pointers(words, i, rest);
    if i < |words| {
      AfterPointers(words, i + 1, rest);
      assert s[4..] == Pointers(words, i + 1, rest);
      DropDrop(s, 4, 4 * (|words| - i));
    } else {
      assert s[0..] == s;
    }
  }

  lemma Piece(mem: seq<Byte>, at: nat, s: seq<Byte>, i: nat, v: nat)
    requires at <= |mem| && mem[at..] == s && i + 4 <= |s| && v < B32 && s[i..i + 4] == Word(v)
    ensures at + i + 4 <= |mem| && WordAt(mem, at + i) == v
  {
    SubSlice(mem, at, |mem|, i, i + 4);
    assert mem[at..|mem|] == mem[at..];
    WordRoundTrip(v);
  }

  lemma ThreeWords(a: seq<Byte>, b: seq<Byte>, c: seq<Byte>, p: seq<Byte>)
    requires |a| == |b| == |c| == 4
    ensures var s := a + (b + (c + p));
            s[0..4] == a && s[4..8] == b && s[8..12] == c && s[12..] == p
  {
    var s := a + (b + (c + p));
    assert s[4..] == b + (c + p);
    assert s[12..] == p;
  }

  lemma NeededIs(words: seq<seq<Byte>>)
    ensures Needed(words) % 4 == 0 && |Strings(words)| <= Needed(words) - 16 - 4 * |words|
    ensures Needed(words) <= PGSIZE ==> (PHYS_BASE - Needed(words)) % 4 == 0 && BASE <= PHYS_BASE - Needed(words)
  {
  }

  /** What a program finds: argc, argv, and through argv every word of the command line in order, with a
      null pointer at the end.  The stack pointer is aligned, everything is inside the page, and the
      strings lie above the pointers, one after another. */
  lemma ReadBack(mem: seq<Byte>, words: seq<seq<Byte>>, esp: nat)
    requires Needed(words) <= PGSIZE && esp == PHYS_BASE - Needed(words) && Holds(mem, esp, Layout(words))
    requires forall i, k | 0 <= i < |words| && 0 <= k < |words[i]| :: words[i][k] != 0
    ensures Readable(mem, words, esp)
  {
    NeededIs(words);
    HeadReads(mem, esp - BASE, |words|, esp + 12, Pointers(words, 0, Ended(words)));
    ArgsReadBack(mem, words, esp);
  }

  lemma ArgsReadBack(mem: seq<Byte>, words: seq<seq<Byte>>, esp: nat)
    requires |mem| == PGSIZE && BASE <= esp && esp + 16 + 4 * |words| + |Strings(words)| <= PHYS_BASE
    requires mem[esp - BASE + 12..] == Pointers(words, 0, Ended(words))
    requires forall i, k | 0 <= i < |words| && 0 <= k < |words[i]| :: words[i][k] != 0
    ensures ArgsReadable(mem, words, esp)
  {
    var at := esp - BASE + 12;
    NullPointer(mem, at, words);
    AllPointers(mem, at, words);
    AllTexts(mem, at + 4 * |words| + 4, words);
    Combine(mem, words, esp);
  }

  ghost predicate Readable(mem: seq<Byte>, words: seq<seq<Byte>>, esp: nat) {
    && |mem| == PGSIZE && BASE <= esp && esp + 16 + 4 * |words| <= PHYS_BASE && esp % 4 == 0
    && WordAt(mem, esp - BASE) == 0 && WordAt(mem, esp - BASE + 4) == |words| && WordAt(mem, esp - BASE + 8) == esp + 12
    && ArgsReadable(mem, words, esp)
  }

  ghost predicate ArgsReadable(mem: seq<Byte>, words: seq<seq<Byte>>, esp: nat)
    requires |mem| == PGSIZE && BASE <= esp && esp + 16 + 4 * |words| <= PHYS_BASE
  {
    && WordAt(mem, esp - BASE + 12 + 4 * |words|) == 0
    && forall i: nat | i < |words| :: ArgReadable(mem, words, esp, i)
  }

  /** Through pointer `i` one reads word `i`; it lies above the pointers and just below the next word. */
  ghost predicate ArgReadable(mem: seq<Byte>, words: seq<seq<Byte>>, esp: nat, i: nat)
    requires |mem| == PGSIZE && BASE <= esp && esp + 16 + 4 * |words| <= PHYS_BASE && i < |words|
  {
    var p := WordAt(mem, esp - BASE + 12 + 4 * i);
    && esp + 16 + 4 * |words| <= p && p + |words[i]| < PHYS_BASE && StringIn(mem, p - BASE) == words[i]
    && (i + 1 < |words| ==> WordAt(mem, esp - BASE + 12 + 4 * (i + 1)) == p + |words[i]| + 1)
  }

  ghost predicate PointersRead(mem: seq<Byte>, at: nat, words: seq<seq<Byte>>) {
    && at + 4 * |words| <= |mem|
    && forall i: nat {:trigger PointerRead(mem, at, words, i)} | i < |words| :: PointerRead(mem, at, words, i)
  }

  ghost predicate PointerRead(mem: seq<Byte>, at: nat, words: seq<seq<Byte>>, i: nat)
    requires i < |words| && at + 4 * |words| <= |mem|
  {
    WordAt(mem, at + 4 * i) == StringAddress(words, i)
  }

  ghost predicate TextsRead(mem: seq<Byte>, words: seq<seq<Byte>>) {
    forall i: nat {:trigger TextRead(mem, words, i)} | i < |words| :: TextRead(mem, words, i)
  }

  ghost predicate TextRead(mem: seq<Byte>, words: seq<seq<Byte>>, i: nat)
    requires i < |words|
  {
    BASE <= StringAddress(words, i) && StringIn(mem, StringAddress(words, i) - BASE) == words[i]
  }

  lemma AllPointers(mem: seq<Byte>, at: nat, words: seq<seq<Byte>>)
    requires |Strings(words)| <= PGSIZE && at <= |mem| && mem[at..] == Pointers(words, 0, Ended(words))
    ensures PointersRead(mem, at, words)
  {
    AfterPointers(words, 0, Ended(words));
    forall i: nat | i < |words| ensures PointerRead(mem, at, words, i) {
      PointerAt(words, 0, Ended(words), i);
      Piece(mem, at, mem[at..], 4 * i, StringAddress(words, i));
    }
  }

  lemma AllTexts(mem: seq<Byte>, pad: nat, words: seq<seq<Byte>>)
    requires |mem| == PGSIZE && pad <= |mem| && mem[pad..] == Padded(words)
    requires forall i, k | 0 <= i < |words| && 0 <= k < |words[i]| :: words[i][k] != 0
    ensures TextsRead(mem, words)
  {
    var n := |Strings(words)|;
    assert Padded(words)[|Padded(words)| - n..] == Strings(words);
    DropDrop(mem, pad, |mem| - n);
    forall i: nat | i < |words| ensures TextRead(mem, words, i) {
      StringsEnd(mem, words, i);
      StringsNext(words, i);
      EndText(mem, |mem| - |Strings(words[i..])|, words[i], Strings(words[i + 1..]));
    }
  }

  lemma Combine(mem: seq<Byte>, words: seq<seq<Byte>>, esp: nat)
    requires |mem| == PGSIZE && BASE <= esp && esp + 16 + 4 * |words| + |Strings(words)| <= PHYS_BASE
    requires PointersRead(mem, esp - BASE + 12, words) && TextsRead(mem, words)
    requires WordAt(mem, esp - BASE + 12 + 4 * |words|) == 0
    ensures ArgsReadable(mem, words, esp)
  {
    forall i: nat | i < |words| ensures ArgReadable(mem, words, esp, i) {
      ArgReads(mem, words, esp, i);
    }
  }

  lemma ArgReads(mem: seq<Byte>, words: seq<seq<Byte>>, esp: nat, i: nat)
    requires |mem| == PGSIZE && BASE <= esp && esp + 16 + 4 * |words| + |Strings(words)| <= PHYS_BASE && i < |words|
    requires PointersRead(mem, esp - BASE + 12, words) && TextsRead(mem, words)
    ensures ArgReadable(mem, words, esp, i)
  {
    StringsFit(words, i);
    StringsNext(words, i);
    assert PointerRead(mem, esp - BASE + 12, words, i) && TextRead(mem, words, i);
    assert i + 1 < |words| ==> PointerRead(mem, esp - BASE + 12, words, i + 1);
  }

  lemma HeadReads(mem: seq<Byte>, at: nat, n: nat, a: nat, p: seq<Byte>)
    requires at <= |mem| && n < B32 && a < B32 && mem[at..] == Word(0) + (Word(n) + (Word(a) + p))
    ensures at + 12 <= |mem| && WordAt(mem, at) == 0 && WordAt(mem, at + 4) == n && WordAt(mem, at + 8) == a && mem[at + 12..] == p
  {
    var s := mem[at..];
    ThreeWords(Word(0), Word(n), Word(a), p);
    Piece(mem, at, s, 0, 0);
    Piece(mem, at, s, 4, n);
    Piece(mem, at, s, 8, a);
    DropDrop(mem, at, at + 12);
  }

  lemma NullPointer(mem: seq<Byte>, at: nat, words: seq<seq<Byte>>)
    requires |Strings(words)| <= PGSIZE && at <= |mem| && mem[at..] == Pointers(words, 0, Ended(words))
    ensures at + 4 * |words| + 4 <= |mem| && WordAt(mem, at + 4 * |words|) == 0
    ensures mem[at + 4 * |words| + 4..] == Padded(words)
  {
    AfterPointers(words, 0, Ended(words));
    NullAt(mem, at, Pointers(words, 0, Ended(words)), 4 * |words|, Padded(words));
  }

  lemma NullAt(mem: seq<Byte>, at: nat, s: seq<Byte>, n: nat, rest: seq<Byte>)
    requires at <= |mem| && mem[at..] == s && n <= |s| && s[n..] == Word(0) + rest
    ensures at + n + 4 <= |mem| && WordAt(mem, at + n) == 0 && mem[at + n + 4..] == rest
  {
    DropDrop(mem, at, at + n);
    FirstWord(mem, at + n, rest);
  }

  lemma FirstWord(mem: seq<Byte>, at: nat, rest: seq<Byte>)
    requires at <= |mem| && mem[at..] == Word(0) + rest
    ensures at + 4 <= |mem| && WordAt(mem, at) == 0 && mem[at + 4..] == rest
  {
    assert (Word(0) + rest)[0..4] == Word(0) && (Word(0) + rest)[4..] == rest;
    Piece(mem, at, Word(0) + rest, 0, 0);
    DropDrop(mem, at, at + 4);
  }

  lemma EndText(mem: seq<Byte>, j: nat, w: seq<Byte>, rest: seq<Byte>)
    requires j <= |mem| && mem[j..] == w + [0] + rest && forall k | 0 <= k < |w| :: w[k] != 0
    ensures StringIn(mem, j) == w
  {
    var t := w + [0] + rest;
    SubTake(mem, j, |mem|, |w|);
    assert mem[j..|mem|] == mem[j..] && t[..|w|] == w && t[|w|] == 0;
    assert mem[j + |w|] == mem[j..][|w|];
    StringInIs(mem, j, w);
  }

  /** The words of a command line have no null bytes, as reading back asks. */
  lemma WordsHaveNoNulls(cmdline: seq<Byte>)
    requires forall k | 0 <= k < |cmdline| :: cmdline[k] != 0
    ensures var words := Words(BLANK, Truncated(cmdline));
            forall i, k | 0 <= i < |words| && 0 <= k < |words[i]| :: words[i][k] != 0
  {
    var words := Words(BLANK, Truncated(cmdline));
    forall i, k | 0 <= i < |words| && 0 <= k < |words[i]| ensures words[i][k] != 0 {
      WordsAreWords(BLANK, Truncated(cmdline), i);
      assert words[i][k] in Truncated(cmdline);
    }
  }
}
