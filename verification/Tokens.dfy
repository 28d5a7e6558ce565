/** Splitting a string in place, as `strtok_r` does.  A set of delimiters is the bytes of a C string, so it does not hold the null byte. */
module Tokens {
  import opened Machine
  import opened Options
  import opened Seqs

  function WordLen(delims: set<Byte>, s: seq<Byte>): (n: nat)
    ensures n <= |s| && (n < |s| ==> s[n] in delims) && forall i | 0 <= i < n :: s[i] !in delims
  {
    if s == [] || s[0] in delims then 0 else 1 + WordLen(delims, s[1..])
  }

  /** The words of a string: what lies between delimiters, leaving out what is empty. */
  function Words(delims: set<Byte>, s: seq<Byte>): seq<seq<Byte>>
    decreases |s|
  {
    if s == [] then []
    else if s[0] in delims then Words(delims, s[1..])
    else [s[..WordLen(delims, s)]] + Words(delims, s[WordLen(delims, s)..])
  }

  lemma {:induction false} SkipSpaces(delims: set<Byte>, s: seq<Byte>, k: nat)
    requires k <= |s| && forall i | 0 <= i < k :: s[i] in delims
    ensures Words(delims, s) == Words(delims, s[k..])
  {
    if k > 0 {
      SkipSpaces(delims, s[1..], k - 1);
      DropDrop(s, 1, k);
    }
  }

  lemma {:induction false} WordLenIs(delims: set<Byte>, s: seq<Byte>, n: nat)
    requires n <= |s| && (n < |s| ==> s[n] in delims) && forall i | 0 <= i < n :: s[i] !in delims
    ensures WordLen(delims, s) == n
  {
    if n > 0 { WordLenIs(delims, s[1..], n - 1); }
  }

  /** A string without delimiters is one word, or none if it is empty. */
  lemma OneWord(delims: set<Byte>, w: seq<Byte>)
    requires forall k | 0 <= k < |w| :: w[k] !in delims
    ensures Words(delims, w) == if w == [] then [] else [w]
  {
    WordLenIs(delims, w, |w|);
    assert w[..|w|] == w && w[|w|..] == [];
  }

  /** At any delimiter the string can be split, and its parts taken alone. */
  lemma {:induction false} WordsSplit(delims: set<Byte>, s: seq<Byte>, d: Byte, t: seq<Byte>)
    requires d in delims
    ensures Words(delims, s + [d] + t) == Words(delims, s) + Words(delims, t)
    decreases |s|
  {
    var all := s + [d] + t;
    if s == [] {
      assert all[1..] == t;
    } else if s[0] in delims {
      WordsSplit(delims, s[1..], d, t);
      assert all[1..] == s[1..] + [d] + t;
    } else {
      var n := WordLen(delims, s);
      WordLenIs(delims, all, n);
      WordsSplit(delims, s[n..], d, t);
      assert all[..n] == s[..n] && all[n..] == s[n..] + [d] + t;
      ConcatAssoc([s[..n]], Words(delims, s[n..]), Words(delims, t));
    }
  }

  /** Words are not empty, have no delimiters, and no other bytes than the string. */
  lemma {:induction false} WordsAreWords(delims: set<Byte>, s: seq<Byte>, i: nat)
    requires i < |Words(delims, s)|
    ensures var w := Words(delims, s)[i];
            w != [] && (forall k | 0 <= k < |w| :: w[k] !in delims && w[k] in s)
    decreases |s|
  {
    if s[0] in delims {
      WordsAreWords(delims, s[1..], i);
    } else if i > 0 {
      WordsAreWords(delims, s[WordLen(delims, s)..], i - 1);
    }
  }

  /** A null-terminated string lies in `buf` from `at` to `end`. */
  ghost predicate StringAt(buf: seq<Byte>, at: nat, end: nat) {
    at <= end < |buf| && buf[end] == 0 && forall k | at <= k < end :: buf[k] != 0
  }

  /** The first place at or after `start` that is not a delimiter. */
  method SkipDelimiters(delims: set<Byte>, buf: array<Byte>, start: nat, ghost end: nat) returns (t: nat)
    requires StringAt(buf[..], start, end) && 0 !in delims
    ensures start <= t <= end && buf[t] !in delims && forall k | start <= k < t :: buf[k] in delims
  {
    t := start;
    while buf[t] in delims
      invariant start <= t <= end && forall k | start <= k < t :: buf[k] in delims
      decreases end - t
    {
      t := t + 1;
    }
  }

  /** The end of the word at `t`. */
  method WordEnd(delims: set<Byte>, buf: array<Byte>, t: nat, ghost end: nat) returns (e: nat)
    requires StringAt(buf[..], t, end)
    ensures t <= e <= end && (e < end ==> buf[e] in delims) && forall k | t <= k < e :: buf[k] !in delims
  {
    e := t;
    while buf[e] !in delims && buf[e] != 0
      invariant t <= e <= end && forall k | t <= k < e :: buf[k] !in delims
      decreases end - e
    {
      e := e + 1;
    }
  }

  /** What a call leaves: the word at `t` ends at `e` in a null byte, nothing else has changed, and the
      words from `save` on are the rest. */
  ghost predicate Cut(delims: set<Byte>, before: seq<Byte>, after: seq<Byte>, start: nat, end: nat, t: nat, e: nat, save: nat) {
    && start <= t < e <= save <= end < |before| == |after| && (e < save || e == end)
    && StringAt(after, t, e) && StringAt(after, save, end)
    && (forall k | 0 <= k < |after| && k != e :: after[k] == before[k])
    && Words(delims, before[start..end]) == [after[t..e]] + Words(delims, after[save..end])
  }

  /** The next word at or after `start`, ended in place by a null byte, and where to go on from. */
  method StrtokR(delims: set<Byte>, buf: array<Byte>, start: nat, ghost end: nat) returns (token: Option<nat>, save: nat, ghost e: nat)
    requires StringAt(buf[..], start, end) && 0 !in delims
    modifies buf
    ensures token.None? ==> buf[..] == old(buf[..]) && Words(delims, old(buf[start..end])) == []
    ensures token.Some? ==> Cut(delims, old(buf[..]), buf[..], start, end, token.value, e, save)
  {
    ghost var b := buf[..];
    var t := SkipDelimiters(delims, buf, start, end);
    if buf[t] == 0 {
      SkipSpaces(delims, b[start..end], end - start);
      return None, t, t;
    }
    var s := WordEnd(delims, buf, t, end);
    e := s;
    token := Some(t);
    Split(delims, b, start, t, s, end);
    if buf[s] != 0 {
      buf[s] := 0;
      save := s + 1;
      SpaceFirst(delims, b, s, end);
      assert buf[..][s + 1..end] == b[s + 1..end];
    } else {
      save := s;
    }
    assert buf[..][t..s] == b[t..s];
  }

  /** Delimiters up to `t`, then a word up to `e`. */
  lemma Split(delims: set<Byte>, b: seq<Byte>, start: nat, t: nat, e: nat, end: nat)
    requires start <= t < e <= end <= |b| && (forall k | start <= k < t :: b[k] in delims)
    requires (forall k | t <= k < e :: b[k] !in delims) && (e < end ==> b[e] in delims)
    ensures e == t + WordLen(delims, b[t..end]) && Words(delims, b[start..end]) == [b[t..e]] + Words(delims, b[e..end])
  {
    SplitSkip(delims, b, start, t, end);
    SplitWord(delims, b, t, e, end);
  }

  lemma SplitSkip(delims: set<Byte>, b: seq<Byte>, start: nat, t: nat, end: nat)
    requires start <= t <= end <= |b| && (forall k | start <= k < t :: b[k] in delims)
    ensures Words(delims, b[start..end]) == Words(delims, b[t..end])
  {
    SkipSpaces(delims, b[start..end], t - start);
    SubDrop(b, start, end, t - start);
  }

  lemma SplitWord(delims: set<Byte>, b: seq<Byte>, t: nat, e: nat, end: nat)
    requires t < e <= end <= |b| && (forall k | t <= k < e :: b[k] !in delims) && (e < end ==> b[e] in delims)
    ensures e == t + WordLen(delims, b[t..end]) && Words(delims, b[t..end]) == [b[t..e]] + Words(delims, b[e..end])
  {
    SubTake(b, t, end, e - t);
    SubDrop(b, t, end, e - t);
    FirstWord(delims, b[t..end], e - t, b[t..e], b[e..end]);
  }

  lemma FirstWord(delims: set<Byte>, s: seq<Byte>, n: nat, w: seq<Byte>, rest: seq<Byte>)
    requires 0 < n <= |s| && (n < |s| ==> s[n] in delims) && (forall i | 0 <= i < n :: s[i] !in delims) && s[..n] == w && s[n..] == rest
    ensures WordLen(delims, s) == n && Words(delims, s) == [w] + Words(delims, rest)
  {
    WordLenIs(delims, s, n);
  }

  lemma SpaceFirst(delims: set<Byte>, b: seq<Byte>, e: nat, end: nat)
    requires e < end <= |b| && b[e] in delims
    ensures Words(delims, b[e..end]) == Words(delims, b[e + 1..end])
  {
    SubDrop(b, e, end, 1);
  }

  /** The strings at `argv` are `words`, and no call that goes on from `save` can touch them. */
  ghost predicate Collected(buf: seq<Byte>, argv: seq<nat>, words: seq<seq<Byte>>, save: nat, end: nat) {
    && |argv| == |words|
    && forall i | 0 <= i < |argv| ::
         var e := argv[i] + |words[i]|;
         && e <= end < |buf| && (e < save || e == save == end) && StringAt(buf, argv[i], e) && buf[argv[i]..e] == words[i]
  }

  lemma CollectedNext(delims: set<Byte>, before: seq<Byte>, after: seq<Byte>, argv: seq<nat>, words: seq<seq<Byte>>, start: nat, end: nat, t: nat, e: nat,
                      save: nat)
    requires Collected(before, argv, words, start, end) && Cut(delims, before, after, start, end, t, e, save)
    ensures Collected(after, argv + [t], words + [after[t..e]], save, end)
  {
    forall i | 0 <= i < |argv|
      ensures var f := argv[i] + |words[i]|;
              f < save && StringAt(after, argv[i], f) && after[argv[i]..f] == words[i]
    {
      var f := argv[i] + |words[i]|;
      assert f < start;
      assert after[argv[i]..f] == before[argv[i]..f];
    }
  }

  /** Between two calls: `words` are collected, and a call from `from` on has found `token`, or nothing. */
  ghost predicate Going(delims: set<Byte>, b: seq<Byte>, now: seq<Byte>, args: seq<nat>, words: seq<seq<Byte>>, all: seq<seq<Byte>>, from: nat, end: nat,
                        token: Option<nat>, e: nat, save: nat)
  {
    && StringAt(b, from, end) && Collected(b, args, words, from, end) && words + Words(delims, b[from..end]) == all
    && (if token.Some? then Cut(delims, b, now, from, end, token.value, e, save) else now == b && Words(delims, b[from..end]) == [])
  }

  lemma GoesOn(delims: set<Byte>, b: seq<Byte>, now: seq<Byte>, next: seq<Byte>, args: seq<nat>, words: seq<seq<Byte>>, all: seq<seq<Byte>>, from: nat,
               end: nat, t: nat, e: nat, save: nat, token': Option<nat>, e': nat, save': nat)
    requires Going(delims, b, now, args, words, all, from, end, Some(t), e, save)
    requires if token'.Some? then Cut(delims, now, next, save, end, token'.value, e', save') else next == now && Words(delims, now[save..end]) == []
    ensures Going(delims, now, next, args + [t], words + [now[t..e]], all, save, end, token', e', save') && from < save
  {
    CollectedNext(delims, b, now, args, words, from, end, t, e, save);
    ConcatAssoc(words, [now[t..e]], Words(delims, now[save..end]));
  }

  lemma OneMore(delims: set<Byte>, b: seq<Byte>, now: seq<Byte>, args: seq<nat>, words: seq<seq<Byte>>, all: seq<seq<Byte>>, from: nat, end: nat, t: nat,
                e: nat, save: nat)
    requires Going(delims, b, now, args, words, all, from, end, Some(t), e, save)
    ensures |all| > |args|
  {
  }

  lemma Ended(delims: set<Byte>, b: seq<Byte>, args: seq<nat>, words: seq<seq<Byte>>, all: seq<seq<Byte>>, from: nat, end: nat, e: nat, save: nat)
    requires Going(delims, b, b, args, words, all, from, end, None, e, save)
    ensures words == all && Collected(b, args, all, end, end)
  {
    assert words + [] == words;
  }

  /** Collects the words of the string in `buf`, at most `most` of them. */
  method Tokenize(delims: set<Byte>, buf: array<Byte>, ghost end: nat, most: nat) returns (argv: Option<seq<nat>>)
    requires StringAt(buf[..], 0, end) && 0 !in delims
    modifies buf
    ensures argv.Some? <==> |Words(delims, old(buf[..][0..end]))| <= most
    ensures argv.Some? ==> Collected(buf[..], argv.value, Words(delims, old(buf[..][0..end])), end, end)
  {
    ghost var b, from, words := buf[..], 0, [];
    ghost var all := Words(delims, b[0..end]);
    var args: seq<nat> := [];
    var token, save, e := StrtokR(delims, buf, 0, end);
    while token.Some?
      invariant Going(delims, b, buf[..], args, words, all, from, end, token, e, save) && |args| <= most
      decreases token.Some?, end - from
    {
      ghost var now := buf[..];
      if |args| >= most {
        OneMore(delims, b, now, args, words, all, from, end, token.value, e, save);
        return None;
      }
      var token', save';
      ghost var e';
      token', save', e' := StrtokR(delims, buf, save, end);
      GoesOn(delims, b, now, buf[..], args, words, all, from, end, token.value, e, save, token', e', save');
      words, b, from := words + [now[token.value..e]], now, save;
      args := args + [token.value];
      token, save, e := token', save', e';
    }
    Ended(delims, b, args, words, all, from, end, e, save);
    argv := Some(args);
  }
}
