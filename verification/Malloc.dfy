/** The kernel's block allocator: pages split into equal blocks, one size per descriptor. */
module Malloc {
  import opened Division
  import opened Machine
  import opened Options
  import opened Seqs

  /** The size of an arena header. */
  const HEADER: nat := 12

  /** The block sizes, one per descriptor. */
  const SIZES: seq<nat> := [16, 32, 64, 128, 256, 512, 1024]
  const DESCS: nat := 7

  function PerArena(d: nat): nat
    requires d < DESCS
  {
    (PGSIZE - HEADER) / SIZES[d]
  }

  /** A page, or a run of pages, that belongs to the allocator. */
  datatype Arena = Small(desc: nat, freeCount: nat) | Big(pages: nat)

  /** A block is known by its page and its place in the page. */
  datatype Block = Block(page: nat, idx: nat)

  type Arenas = map<nat, Arena>

  /** The loop that sets the descriptors up. */
  method Init() returns (sizes: seq<nat>, perArena: seq<nat>)
    ensures sizes == SIZES && |perArena| == DESCS && forall d | 0 <= d < DESCS :: perArena[d] == PerArena(d)
    ensures forall d | 0 <= d < |sizes| :: sizes[d] == (if d == 0 then 16 else 2 * sizes[d - 1])
    ensures forall d | 0 <= d < |sizes| :: 12 + perArena[d] * sizes[d] <= 4096 < 12 + (perArena[d] + 1) * sizes[d]
  {
    sizes, perArena := [], [];
    var size := 16;
    while size < PGSIZE / 2
      invariant |sizes| == |perArena| <= DESCS && sizes == SIZES[..|sizes|]
      invariant size == (SIZES + [2048])[|sizes|]
      invariant forall d | 0 <= d < |perArena| :: perArena[d] == PerArena(d)
      decreases PGSIZE - size
    {
      sizes, perArena := sizes + [size], perArena + [(PGSIZE - HEADER) / size];
      size := size * 2;
    }
  }

  // ------------------------------------------------------------------ addresses

  function Address(size: nat, b: Block): nat { b.page * PGSIZE + HEADER + b.idx * size }

  /** The blocks of an arena fit between its header and the end of the page. */
  lemma BlockFits(d: nat, idx: nat)
    requires d < DESCS && idx < PerArena(d)
    ensures HEADER + idx * SIZES[d] + SIZES[d] <= PGSIZE
  {
    if d == 0 {} else if d == 1 {} else if d == 2 {} else if d == 3 {} else if d == 4 {} else if d == 5 {} else {}
  }

  /** From the address of a block its arena and place can be computed, as `free` does. */
  lemma AddressRoundTrip(d: nat, b: Block)
    requires d < DESCS && b.idx < PerArena(d)
    ensures var a := Address(SIZES[d], b);
            && a / PGSIZE == b.page && a % PGSIZE >= HEADER
            && (a % PGSIZE - HEADER) % SIZES[d] == 0 && (a % PGSIZE - HEADER) / SIZES[d] == b.idx
  {
    BlockFits(d, b.idx);
    QuotientIs(Address(SIZES[d], b), PGSIZE, b.page, HEADER + b.idx * SIZES[d]);
    QuotientIs(b.idx * SIZES[d], SIZES[d], b.idx, 0);
  }

  // ------------------------------------------------------------------ free lists

  ghost predicate Distinct(list: seq<Block>) {
    forall i, j | 0 <= i < j < |list| :: list[i] != list[j]
  }

  /** How many of the blocks are in page `p`. */
  function CountPage(list: seq<Block>, p: nat): nat {
    if list == [] then 0 else (if list[0].page == p then 1 else 0) + CountPage(list[1..], p)
  }

  /** The places of those blocks. */
  ghost function Places(list: seq<Block>, p: nat): set<nat> {
    set i | 0 <= i < |list| && list[i].page == p :: list[i].idx
  }

  lemma {:induction false} CountIsPlaces(list: seq<Block>, p: nat)
    requires Distinct(list)
    ensures CountPage(list, p) == |Places(list, p)|
  {
    if list != [] {
      var rest := list[1..];
      CountIsPlaces(rest, p);
      if list[0].page == p {
        assert list[0].idx !in Places(rest, p);
        assert Places(list, p) == {list[0].idx} + Places(rest, p) by { PlacesCons(list, p); }
      } else {
        assert Places(list, p) == Places(rest, p) by { PlacesCons(list, p); }
      }
    } else {
      assert Places(list, p) == {};
    }
  }

  lemma PlacesCons(list: seq<Block>, p: nat)
    requires list != []
    ensures Places(list, p) == (if list[0].page == p then {list[0].idx} else {}) + Places(list[1..], p)
  {
    var rest := list[1..];
    forall k | k in Places(rest, p) ensures k in Places(list, p) {
      var i :| 0 <= i < |rest| && rest[i].page == p && rest[i].idx == k;
      assert list[i + 1].idx in Places(list, p);
    }
    forall k | k in Places(list, p) ensures k in (if list[0].page == p then {list[0].idx} else {}) + Places(rest, p) {
      var i :| 0 <= i < |list| && list[i].page == p && list[i].idx == k;
      if i > 0 { assert rest[i - 1].idx in Places(rest, p); }
    }
    if list[0].page == p { assert list[0].idx in Places(list, p); }
  }

  ghost function Below(n: nat): set<nat> {
    if n == 0 then {} else Below(n - 1) + {n - 1}
  }

  lemma {:induction false} BelowIs(n: nat)
    ensures |Below(n)| == n && (forall k :: k in Below(n) <==> 0 <= k < n)
  {
    if n > 0 { BelowIs(n - 1); }
  }

  lemma SubsetSize(a: set<nat>, b: set<nat>)
    requires a <= b
    ensures |a| <= |b| && (|a| == |b| ==> a == b)
  {
    var c := b - a;
    assert b == a + c;
    if |a| == |b| { assert |c| == 0; }
  }

  lemma PlacesAre(list: seq<Block>, p: nat, k: nat)
    ensures k in Places(list, p) <==> Block(p, k) in list
  {
    if Block(p, k) in list {
      var i :| 0 <= i < |list| && list[i] == Block(p, k);
      assert list[i].idx in Places(list, p);
    }
  }

  /** A page has as many free blocks as there are places exactly if every place is free. */
  lemma AllFree(list: seq<Block>, p: nat, n: nat)
    requires Distinct(list) && forall i | 0 <= i < |list| && list[i].page == p :: list[i].idx < n
    ensures CountPage(list, p) <= n
    ensures CountPage(list, p) == n <==> forall k: nat | k < n :: Block(p, k) in list
  {
    CountIsPlaces(list, p);
    BelowIs(n);
    var places := Places(list, p);
    assert places <= Below(n);
    SubsetSize(places, Below(n));
    forall k: nat ensures k in places <==> Block(p, k) in list { PlacesAre(list, p, k); }
    if forall k: nat | k < n :: Block(p, k) in list {
      assert places == Below(n);
    }
  }

  /** A list without the first `n` blocks of page `p`. */
  function DropBelow(list: seq<Block>, p: nat, n: nat): seq<Block> {
    if list == [] then []
    else (if list[0].page == p && list[0].idx < n then [] else [list[0]]) + DropBelow(list[1..], p, n)
  }

  lemma {:induction false} DropBelowHas(list: seq<Block>, p: nat, n: nat, b: Block)
    ensures b in DropBelow(list, p, n) <==> b in list && !(b.page == p && b.idx < n)
  {
    if list != [] { DropBelowHas(list[1..], p, n, b); }
  }

  lemma {:induction false} DropBelowDistinct(list: seq<Block>, p: nat, n: nat)
    requires Distinct(list)
    ensures Distinct(DropBelow(list, p, n))
  {
    if list != [] {
      DropBelowDistinct(list[1..], p, n);
      DropBelowHas(list[1..], p, n, list[0]);
      assert list[0] !in list[1..];
    }
  }

  lemma {:induction false} DropBelowCount(list: seq<Block>, p: nat, n: nat, q: nat)
    requires q != p
    ensures CountPage(DropBelow(list, p, n), q) == CountPage(list, q)
  {
    if list != [] {
      DropBelowCount(list[1..], p, n, q);
      var rest := DropBelow(list[1..], p, n);
      assert [] + rest == rest && ([list[0]] + rest)[1..] == rest;
    }
  }

  lemma {:induction false} DropBelowNone(list: seq<Block>, p: nat)
    ensures DropBelow(list, p, 0) == list
  {
    if list != [] { DropBelowNone(list[1..], p); }
  }

  lemma {:induction false} DropNext(list: seq<Block>, p: nat, n: nat)
    requires Distinct(list)
    ensures Unlink(DropBelow(list, p, n), Block(p, n)) == DropBelow(list, p, n + 1)
  {
    if list != [] {
      DropNext(list[1..], p, n);
      var rest, next := DropBelow(list[1..], p, n), DropBelow(list[1..], p, n + 1);
      assert [] + rest == rest && [] + next == next;
      if list[0] == Block(p, n) {
        assert list[0] !in list[1..];
        DropBelowSame(list[1..], p, n);
        assert ([list[0]] + rest)[1..] == rest;
      } else if !(list[0].page == p && list[0].idx < n) {
        assert ([list[0]] + rest)[1..] == rest && ([list[0]] + rest)[0] == list[0];
      }
    }
  }

  lemma {:induction false} DropBelowSame(list: seq<Block>, p: nat, n: nat)
    requires Block(p, n) !in list
    ensures DropBelow(list, p, n) == DropBelow(list, p, n + 1)
  {
    if list != [] {
      assert list[0] in list;
      DropBelowSame(list[1..], p, n);
    }
  }

  lemma {:induction false} CountNone(list: seq<Block>, p: nat)
    requires forall i | 0 <= i < |list| :: list[i].page != p
    ensures CountPage(list, p) == 0
  {
    if list != [] { CountNone(list[1..], p); }
  }

  // ------------------------------------------------------------------ the invariant

  function PagesOf(a: Arena): nat { if a.Big? then a.pages else 1 }

  /** Arenas do not overlap, and none is at address zero. */
  ghost predicate Apart(arenas: Arenas) {
    && (forall p | p in arenas :: p >= 1 && PagesOf(arenas[p]) >= 1)
    && (forall p, q | p in arenas && q in arenas && p < q :: p + PagesOf(arenas[p]) <= q)
  }

  /** A free list holds blocks of its own arenas, each once. */
  ghost predicate ListOk(arenas: Arenas, d: nat, list: seq<Block>)
    requires d < DESCS
  {
    && Distinct(list)
    && forall i | 0 <= i < |list| ::
         list[i].page in arenas && arenas[list[i].page].Small? && arenas[list[i].page].desc == d && list[i].idx < PerArena(d)
  }

  /** An arena counts its free blocks, and is not entirely free. */
  ghost predicate ArenaOk(arenas: Arenas, free: seq<seq<Block>>, p: nat)
    requires |free| == DESCS && p in arenas
  {
    arenas[p].Small? ==>
      var d := arenas[p].desc;
      d < DESCS && arenas[p].freeCount == CountPage(free[d], p) < PerArena(d)
  }

  ghost predicate Inv(arenas: Arenas, free: seq<seq<Block>>) {
    && |free| == DESCS && Apart(arenas)
    && (forall d | 0 <= d < DESCS :: ListOk(arenas, d, free[d]))
    && (forall p | p in arenas :: ArenaOk(arenas, free, p))
  }

  /** A block that has been handed out. */
  ghost predicate IsLive(arenas: Arenas, free: seq<seq<Block>>, b: Block)
    requires |free| == DESCS
  {
    && b.page in arenas
    && match arenas[b.page]
       case Small(d, _) => d < DESCS && b.idx < PerArena(d) && b !in free[d]
       case Big(_) => b.idx == 0
  }

  function Capacity(a: Arena): nat
    requires a.Small? ==> a.desc < DESCS
    requires a.Big? ==> a.pages >= 1
  {
    match a
    case Small(d, _) => SIZES[d]
    case Big(n) => n * PGSIZE - HEADER
  }

  function AddressIn(a: Arena, b: Block): nat
    requires a.Small? ==> a.desc < DESCS
  {
    if a.Small? then Address(SIZES[a.desc], b) else b.page * PGSIZE + HEADER
  }

  /** A live block lies inside its arena, behind the header. */
  lemma LiveInside(arenas: Arenas, free: seq<seq<Block>>, b: Block)
    requires Inv(arenas, free) && IsLive(arenas, free, b)
    ensures var a := arenas[b.page];
            && (a.Small? ==> a.desc < DESCS) && (a.Big? ==> a.pages >= 1)
            && b.page * PGSIZE + HEADER <= AddressIn(a, b)
            && AddressIn(a, b) + Capacity(a) <= (b.page + PagesOf(a)) * PGSIZE
  {
    var a := arenas[b.page];
    if a.Small? { BlockFits(a.desc, b.idx); }
  }

  /** Live blocks do not overlap each other or any arena's header. */
  lemma LiveDisjoint(arenas: Arenas, free: seq<seq<Block>>, b: Block, c: Block)
    requires Inv(arenas, free) && IsLive(arenas, free, b) && IsLive(arenas, free, c) && b != c
    ensures var (x, y) := (arenas[b.page], arenas[c.page]);
            && (x.Small? ==> x.desc < DESCS) && (x.Big? ==> x.pages >= 1)
            && (y.Small? ==> y.desc < DESCS) && (y.Big? ==> y.pages >= 1)
            && (|| AddressIn(x, b) + Capacity(x) <= AddressIn(y, c)
                || AddressIn(y, c) + Capacity(y) <= AddressIn(x, b))
  {
    LiveInside(arenas, free, b);
    LiveInside(arenas, free, c);
    if b.page == c.page {
      var a := arenas[b.page];
      if b.idx < c.idx { Spaced(SIZES[a.desc], b.idx, c.idx); } else { Spaced(SIZES[a.desc], c.idx, b.idx); }
    }
  }

  lemma Spaced(size: nat, i: nat, j: nat)
    requires i < j
    ensures i * size + size <= j * size
  {
    assert (i + 1) * size <= j * size;
  }

  lemma LiveOffHeaders(arenas: Arenas, free: seq<seq<Block>>, b: Block, p: nat)
    requires Inv(arenas, free) && IsLive(arenas, free, b) && p in arenas
    ensures var x := arenas[b.page];
            && (x.Small? ==> x.desc < DESCS) && (x.Big? ==> x.pages >= 1)
            && (AddressIn(x, b) + Capacity(x) <= p * PGSIZE || p * PGSIZE + HEADER <= AddressIn(x, b))
  {
    LiveInside(arenas, free, b);
  }

  // ------------------------------------------------------------------ allocating

  /** `n` pages from `p` on that no arena covers: what the page allocator hands out. */
  ghost predicate FreeRun(arenas: Arenas, p: nat, n: nat) {
    p >= 1 && forall q | q in arenas :: q + PagesOf(arenas[q]) <= p || p + n <= q
  }

  /** Exactly one more block, or one less, is live. */
  ghost predicate OneMore(arenas: Arenas, free: seq<seq<Block>>, arenas': Arenas, free': seq<seq<Block>>, b: Block)
    requires |free| == |free'| == DESCS
  {
    && !IsLive(arenas, free, b) && IsLive(arenas', free', b)
    && (forall c | c != b :: IsLive(arenas', free', c) <==> IsLive(arenas, free, c))
    && (forall p | p in arenas :: p in arenas' && PagesOf(arenas'[p]) == PagesOf(arenas[p]))
  }

  /** The blocks of a new arena, in order. */
  method NewBlocks(d: nat, p: nat) returns (blocks: seq<Block>)
    requires d < DESCS
    ensures |blocks| == PerArena(d) && forall i | 0 <= i < |blocks| :: blocks[i] == Block(p, i)
  {
    blocks := [];
    var i := 0;
    while i < PerArena(d)
      invariant i == |blocks| <= PerArena(d) && forall j | 0 <= j < i :: blocks[j] == Block(p, j)
    {
      blocks := blocks + [Block(p, i)];
      i := i + 1;
    }
  }

  lemma PerArenaPositive(d: nat)
    requires d < DESCS
    ensures PerArena(d) >= 3
  {
    if d == 0 {} else if d == 1 {} else if d == 2 {} else if d == 3 {} else if d == 4 {} else if d == 5 {} else {}
  }

  lemma {:induction false} CountAll(list: seq<Block>, p: nat)
    requires forall i | 0 <= i < |list| :: list[i].page == p
    ensures CountPage(list, p) == |list|
  {
    if list != [] { CountAll(list[1..], p); }
  }

  lemma PoppedLive(arenas: Arenas, free: seq<seq<Block>>, d: nat, arenas': Arenas, free': seq<seq<Block>>)
    requires Inv(arenas, free) && d < DESCS && free[d] != []
    requires var b := free[d][0];
             && b.page in arenas && arenas[b.page].Small? && arenas[b.page].freeCount >= 1
             && arenas' == arenas[b.page := Small(d, arenas[b.page].freeCount - 1)] && free' == free[d := free[d][1..]]
    ensures OneMore(arenas, free, arenas', free', free[d][0])
  {
    assert ListOk(arenas, d, free[d]) && ArenaOk(arenas, free, free[d][0].page);
  }

  /** Taking the first block off a free list. */
  lemma Popped(arenas: Arenas, free: seq<seq<Block>>, d: nat)
    requires Inv(arenas, free) && d < DESCS && free[d] != []
    ensures var b := free[d][0];
            && b.page in arenas && arenas[b.page].Small? && arenas[b.page].freeCount >= 1
            && var arenas' := arenas[b.page := Small(d, arenas[b.page].freeCount - 1)];
               var free' := free[d := free[d][1..]];
               Inv(arenas', free') && OneMore(arenas, free, arenas', free', b)
  {
    var b := free[d][0];
    assert ListOk(arenas, d, free[d]) && ArenaOk(arenas, free, b.page);
    var arenas', free' := arenas[b.page := Small(d, arenas[b.page].freeCount - 1)], free[d := free[d][1..]];
    forall e | 0 <= e < DESCS ensures ListOk(arenas', e, free'[e]) {
      assert ListOk(arenas, e, free[e]);
    }
    forall p | p in arenas' ensures ArenaOk(arenas', free', p) {
      assert ArenaOk(arenas, free, p);
    }
    PoppedLive(arenas, free, d, arenas', free');
  }

  /** A new arena whose first block is handed out at once. */
  lemma Opened(arenas: Arenas, free: seq<seq<Block>>, d: nat, p: nat, blocks: seq<Block>)
    requires Inv(arenas, free) && d < DESCS && free[d] == [] && FreeRun(arenas, p, 1)
    requires |blocks| == PerArena(d) && forall i | 0 <= i < |blocks| :: blocks[i] == Block(p, i)
    ensures blocks != [] && var arenas' := arenas[p := Small(d, PerArena(d) - 1)];
            var free' := free[d := blocks[1..]];
            Inv(arenas', free') && OneMore(arenas, free, arenas', free', blocks[0])
  {
    PerArenaPositive(d);
    var arenas', free' := arenas[p := Small(d, PerArena(d) - 1)], free[d := blocks[1..]];
    assert p !in arenas;
    CountAll(blocks[1..], p);
    forall e | 0 <= e < DESCS ensures ListOk(arenas', e, free'[e]) {
      assert ListOk(arenas, e, free[e]);
    }
    forall q | q in arenas' ensures ArenaOk(arenas', free', q) {
      if q != p {
        assert ArenaOk(arenas, free, q);
        CountNone(blocks[1..], q);
      }
    }
    forall c | c != blocks[0] ensures IsLive(arenas', free', c) <==> IsLive(arenas, free, c) {
      if c.page == p && c.idx < PerArena(d) { assert blocks[1..][c.idx - 1] == c; }
    }
  }

  lemma OpenedBig(arenas: Arenas, free: seq<seq<Block>>, p: nat, n: nat)
    requires Inv(arenas, free) && n >= 1 && FreeRun(arenas, p, n)
    ensures Inv(arenas[p := Big(n)], free) && OneMore(arenas, free, arenas[p := Big(n)], free, Block(p, 0))
  {
    assert p !in arenas;
    var arenas' := arenas[p := Big(n)];
    forall d | 0 <= d < DESCS ensures ListOk(arenas', d, free[d]) { assert ListOk(arenas, d, free[d]); }
    forall q | q in arenas' ensures ArenaOk(arenas', free, q) {
      if q != p { assert ArenaOk(arenas, free, q); }
    }
  }

  // ------------------------------------------------------------------ freeing

  /** Every block but `b` is as live as before, and `b` no longer is. */
  ghost predicate OneLess(arenas: Arenas, free: seq<seq<Block>>, arenas': Arenas, free': seq<seq<Block>>, b: Block)
    requires |free| == |free'| == DESCS
  {
    forall c :: IsLive(arenas', free', c) <==> IsLive(arenas, free, c) && c != b
  }

  /** Is `b` the only live block of its arena? */
  ghost predicate IsLast(arenas: Arenas, free: seq<seq<Block>>, b: Block)
    requires |free| == DESCS
  {
    IsLive(arenas, free, b) && forall c | IsLive(arenas, free, c) && c.page == b.page :: c == b
  }

  lemma LastIsCounted(arenas: Arenas, free: seq<seq<Block>>, b: Block)
    requires Inv(arenas, free) && IsLive(arenas, free, b) && arenas[b.page].Small?
    ensures var (d, fc) := (arenas[b.page].desc, arenas[b.page].freeCount);
            && d < DESCS && Distinct([b] + free[d]) && fc + 1 == CountPage([b] + free[d], b.page) <= PerArena(d)
            && (fc + 1 == PerArena(d) <==> IsLast(arenas, free, b))
            && (fc + 1 == PerArena(d) ==> forall k: nat | k < PerArena(d) :: Block(b.page, k) in [b] + free[d])
  {
    var d, p := arenas[b.page].desc, b.page;
    assert ArenaOk(arenas, free, p) && ListOk(arenas, d, free[d]);
    var list := [b] + free[d];
    assert list[1..] == free[d];
    AllFree(list, p, PerArena(d));
    if IsLast(arenas, free, b) {
      forall k: nat | k < PerArena(d) ensures Block(p, k) in list {
        assert IsLive(arenas, free, Block(p, k)) <==> Block(p, k) !in free[d];
        assert Block(p, k) in free[d] || Block(p, k) == b;
      }
    }
  }

  /** A block goes back on its free list. */
  lemma Returned(arenas: Arenas, free: seq<seq<Block>>, b: Block)
    requires Inv(arenas, free) && IsLive(arenas, free, b) && arenas[b.page].Small? && !IsLast(arenas, free, b)
    ensures arenas[b.page].desc < DESCS
    ensures var (d, fc) := (arenas[b.page].desc, arenas[b.page].freeCount);
            var arenas' := arenas[b.page := Small(d, fc + 1)];
            var free' := free[d := [b] + free[d]];
            Inv(arenas', free') && OneLess(arenas, free, arenas', free', b)
  {
    LastIsCounted(arenas, free, b);
    var d, fc := arenas[b.page].desc, arenas[b.page].freeCount;
    var arenas', free' := arenas[b.page := Small(d, fc + 1)], free[d := [b] + free[d]];
    assert ([b] + free[d])[1..] == free[d];
    forall e | 0 <= e < DESCS ensures ListOk(arenas', e, free'[e]) { assert ListOk(arenas, e, free[e]); }
    forall p | p in arenas' ensures ArenaOk(arenas', free', p) { assert ArenaOk(arenas, free, p); }
    ReturnedLive(arenas, free, b);
  }

  lemma ReturnedLive(arenas: Arenas, free: seq<seq<Block>>, b: Block)
    requires |free| == DESCS && IsLive(arenas, free, b) && arenas[b.page].Small? && arenas[b.page].desc < DESCS
    ensures var (d, fc) := (arenas[b.page].desc, arenas[b.page].freeCount);
            OneLess(arenas, free, arenas[b.page := Small(d, fc + 1)], free[d := [b] + free[d]], b)
  {
    var d := arenas[b.page].desc;
    assert forall c :: c in [b] + free[d] <==> c == b || c in free[d];
  }

  lemma EmptiedList(arenas: Arenas, list: seq<Block>, d: nat, b: Block)
    requires d < DESCS && ListOk(arenas, d, list) && b.idx < PerArena(d)
    ensures forall c :: c in DropBelow([b] + list, b.page, PerArena(d)) <==> c in list && c.page != b.page
  {
    forall c ensures c in DropBelow([b] + list, b.page, PerArena(d)) <==> c in list && c.page != b.page {
      DropBelowHas([b] + list, b.page, PerArena(d), c);
      assert c in [b] + list <==> c == b || c in list;
    }
  }

  /** The last block goes, and the arena with it. */
  lemma Emptied(arenas: Arenas, free: seq<seq<Block>>, b: Block)
    requires Inv(arenas, free) && IsLast(arenas, free, b) && arenas[b.page].Small?
    ensures arenas[b.page].desc < DESCS
    ensures var d := arenas[b.page].desc;
            var free' := free[d := DropBelow([b] + free[d], b.page, PerArena(d))];
            Inv(arenas - {b.page}, free') && OneLess(arenas, free, arenas - {b.page}, free', b)
  {
    LastIsCounted(arenas, free, b);
    var d, p := arenas[b.page].desc, b.page;
    var list, n := [b] + free[d], PerArena(d);
    var arenas', free' := arenas - {p}, free[d := DropBelow(list, p, n)];
    assert list[1..] == free[d];
    DropBelowDistinct(list, p, n);
    EmptiedList(arenas, free[d], d, b);
    forall e | 0 <= e < DESCS ensures ListOk(arenas', e, free'[e]) {
      assert ListOk(arenas, e, free[e]);
      assert forall i | 0 <= i < |free'[e]| :: free'[e][i] in free'[e];
    }
    forall q | q in arenas' ensures ArenaOk(arenas', free', q) {
      assert ArenaOk(arenas, free, q);
      DropBelowCount(list, p, n, q);
    }
    EmptiedLive(arenas, free, arenas', free', b);
  }

  lemma EmptiedLive(arenas: Arenas, free: seq<seq<Block>>, arenas': Arenas, free': seq<seq<Block>>, b: Block)
    requires |free| == |free'| == DESCS && IsLast(arenas, free, b) && arenas[b.page].Small? && arenas[b.page].desc < DESCS
    requires arenas' == arenas - {b.page} && forall e | 0 <= e < DESCS :: e != arenas[b.page].desc ==> free'[e] == free[e]
    requires forall c :: c in free'[arenas[b.page].desc] <==> c in free[arenas[b.page].desc] && c.page != b.page
    ensures OneLess(arenas, free, arenas', free', b)
  {
  }

  /** Takes the blocks of a page that is entirely free off the free list, one by one. */
  method RemoveBlocks(list: seq<Block>, p: nat, n: nat) returns (r: seq<Block>)
    requires Distinct(list) && forall k: nat | k < n :: Block(p, k) in list
    ensures r == DropBelow(list, p, n)
  {
    r := list;
    DropBelowNone(list, p);
    var i := 0;
    while i < n
      invariant i <= n && r == DropBelow(list, p, i)
    {
      DropBelowHas(list, p, i, Block(p, i));
      assert Block(p, i) in r;
      DropNext(list, p, i);
      r := Unlink(r, Block(p, i));
      i := i + 1;
    }
  }

  /** Takes the first block off a free list. */
  method PopBlock(arenas: Arenas, free: seq<seq<Block>>, d: nat) returns (b: Block, arenas': Arenas, free': seq<seq<Block>>)
    requires Inv(arenas, free) && d < DESCS && free[d] != []
    ensures Inv(arenas', free') && OneMore(arenas, free, arenas', free', b) && arenas'[b.page].Small? && arenas'[b.page].desc == d
    ensures arenas'.Keys == arenas.Keys
  {
    Popped(arenas, free, d);
    b := free[d][0];
    arenas', free' := arenas[b.page := Small(d, arenas[b.page].freeCount - 1)], free[d := free[d][1..]];
  }

  /** Puts the blocks of a new arena on the empty free list and takes the first. */
  method OpenArena(arenas: Arenas, free: seq<seq<Block>>, d: nat, p: nat) returns (b: Block, arenas': Arenas, free': seq<seq<Block>>)
    requires Inv(arenas, free) && d < DESCS && free[d] == [] && FreeRun(arenas, p, 1)
    ensures Inv(arenas', free') && OneMore(arenas, free, arenas', free', b) && arenas'[b.page].Small? && arenas'[b.page].desc == d
    ensures arenas'.Keys == arenas.Keys + {p}
  {
    var blocks := NewBlocks(d, p);
    Opened(arenas, free, d, p, blocks);
    b := blocks[0];
    arenas', free' := arenas[p := Small(d, PerArena(d) - 1)], free[d := blocks[1..]];
  }

  /** Puts a block back on its free list; if its arena is then entirely free, the arena goes. */
  method PushBlock(arenas: Arenas, free: seq<seq<Block>>, b: Block) returns (arenas': Arenas, free': seq<seq<Block>>)
    requires Inv(arenas, free) && IsLive(arenas, free, b) && arenas[b.page].Small?
    ensures Inv(arenas', free') && OneLess(arenas, free, arenas', free', b)
    ensures arenas'.Keys == if IsLast(arenas, free, b) then arenas.Keys - {b.page} else arenas.Keys
    ensures forall p | p in arenas' :: PagesOf(arenas'[p]) == PagesOf(arenas[p])
  {
    LastIsCounted(arenas, free, b);
    var d, fc := arenas[b.page].desc, arenas[b.page].freeCount;
    var list := [b] + free[d];
    if fc + 1 >= PerArena(d) {
      Emptied(arenas, free, b);
      list := RemoveBlocks(list, b.page, PerArena(d));
      arenas', free' := arenas - {b.page}, free[d := list];
    } else {
      Returned(arenas, free, b);
      arenas', free' := arenas[b.page := Small(d, fc + 1)], free[d := list];
    }
  }

  // ------------------------------------------------------------------ the allocator

  /** The smallest descriptor whose blocks hold `size` bytes, or `DESCS` if none does. */
  function SizeClass(size: nat): (d: nat)
    ensures d <= DESCS && (d < DESCS ==> size <= SIZES[d]) && forall e | 0 <= e < d :: SIZES[e] < size
  {
    if size <= 16 then 0 else if size <= 32 then 1 else if size <= 64 then 2 else if size <= 128 then 3
    else if size <= 256 then 4 else if size <= 512 then 5 else if size <= 1024 then 6 else 7
  }

  /** The pages asked for to hold a big block and its header, in unsigned 32-bit arithmetic. */
  function PageCount(size: nat): nat {
    ((size + HEADER) % B32 + PGSIZE - 1) % B32 / PGSIZE
  }

  /** If the sum does not wrap around, either the count is right or it is zero, which no page allocator
      grants; if it does, one page at most is asked for, and that is far too little. */
  lemma PageCountIs(size: nat)
    requires size < B32
    ensures var n := PageCount(size);
            if size + HEADER < B32 then n == 0 || (n - 1) * PGSIZE < size + HEADER <= n * PGSIZE
            else n <= 1 && PGSIZE < size
  {
    var x := size + HEADER;
    if x + PGSIZE - 1 < B32 {
      Unwrapped(x);
      Unwrapped(x + PGSIZE - 1);
    } else if x < B32 {
      Unwrapped(x);
      assert (x + PGSIZE - 1) % B32 == x + PGSIZE - 1 - B32;
    } else {
      assert x % B32 == x - B32;
      Unwrapped(x - B32 + PGSIZE - 1);
    }
  }

  /** The largest request gets one page. */
  lemma LargestWraps()
    ensures PageCount(B32 - 1) == 1
  {
    PageCountIs(B32 - 1);
    assert (B32 - 1 + HEADER) % B32 == HEADER - 1;
  }

  lemma Unwrapped(x: nat)
    requires x < B32
    ensures x % B32 == x
  {
  }

  /** Can a request be met?  From a free list, or with a page from the page allocator, or with many. */
  predicate CanServe(free: seq<seq<Block>>, size: nat, palloc: nat -> Option<nat>)
    requires |free| == DESCS
  {
    && size > 0
    && if SizeClass(size) < DESCS then free[SizeClass(size)] != [] || palloc(1).Some? else palloc(PageCount(size)).Some?
  }

  class Allocator {
    var arenas: Arenas
    var free: seq<seq<Block>>

    ghost predicate Valid()
      reads this
    {
      Inv(arenas, free)
    }

    constructor ()
      ensures Valid() && arenas == map[]
    {
      arenas := map[];
      free := seq(DESCS, _ => []);
    }

    /** Hands out a new block: a block of the smallest size that is enough, or whole pages.  It holds `size`
        bytes exactly if adding the header does not wrap around.  `palloc` is what the page allocator answers to a request for so many pages. */
    method Allocate(size: nat, palloc: nat -> Option<nat>) returns (r: Option<nat>, ghost b: Block)
      requires Valid() && size < B32
      requires forall n: nat :: palloc(n).Some? ==> n > 0 && FreeRun(arenas, palloc(n).value, n)
      modifies this
      ensures Valid() && |old(free)| == DESCS
      ensures r.Some? <==> CanServe(old(free), size, palloc)
      ensures r.None? ==> arenas == old(arenas) && free == old(free)
      ensures r.Some? ==>
                && OneMore(old(arenas), old(free), arenas, free, b)
                && var a := arenas[b.page];
                   && (a.Small? ==> a.desc < DESCS) && (a.Big? ==> a.pages >= 1)
                   && r.value == AddressIn(a, b) && (size <= Capacity(a) <==> size + HEADER < B32)
                   && (if a.Small? then a.desc == SizeClass(size) else a.pages == PageCount(size) && SizeClass(size) == DESCS)
    {
      b := Block(0, 0);
      if size == 0 {
        return None, b;
      }
      var d := 0;
      while d < DESCS && SIZES[d] < size
        invariant d <= DESCS && forall e | 0 <= e < d :: SIZES[e] < size
      {
        d := d + 1;
      }
      assert d == SizeClass(size);
      if d == DESCS {
        r, b := AllocateBig(size, palloc);
      } else {
        r, b := AllocateSmall(d, palloc(1));
      }
    }

    method AllocateBig(size: nat, palloc: nat -> Option<nat>) returns (r: Option<nat>, ghost b: Block)
      requires Valid() && size < B32 && forall n: nat :: palloc(n).Some? ==> n > 0 && FreeRun(arenas, palloc(n).value, n)
      modifies this
      ensures Valid() && |old(free)| == DESCS
      ensures r.Some? <==> palloc(PageCount(size)).Some?
      ensures r.None? ==> arenas == old(arenas) && free == old(free)
      ensures r.Some? ==>
                && OneMore(old(arenas), old(free), arenas, free, b)
                && arenas[b.page].Big? && arenas[b.page].pages == PageCount(size) >= 1
                && (size + HEADER <= PageCount(size) * PGSIZE <==> size + HEADER < B32)
                && Some(b.page) == palloc(PageCount(size)) && r.value == b.page * PGSIZE + HEADER
    {
      b := Block(0, 0);
      var n := PageCount(size);
      PageCountIs(size);
      var page := palloc(n);
      if page.None? {
        return None, b;
      }
      OpenedBig(arenas, free, page.value, n);
      b := Block(page.value, 0);
      arenas := arenas[page.value := Big(n)];
      r := Some(page.value * PGSIZE + HEADER);
    }

    method AllocateSmall(d: nat, page: Option<nat>) returns (r: Option<nat>, ghost b: Block)
      requires Valid() && d < DESCS && (page.Some? ==> FreeRun(arenas, page.value, 1))
      modifies this
      ensures Valid() && |old(free)| == DESCS
      ensures r.Some? <==> old(free)[d] != [] || page.Some?
      ensures r.None? ==> arenas == old(arenas) && free == old(free)
      ensures r.Some? ==>
                && OneMore(old(arenas), old(free), arenas, free, b) && arenas[b.page].Small? && arenas[b.page].desc == d
                && r.value == Address(SIZES[d], b)
                && arenas.Keys == old(arenas).Keys + (if old(free)[d] == [] then {page.value} else {})
    {
      b := Block(0, 0);
      if free[d] == [] && page.None? {
        return None, b;
      }
      var block, arenas', free';
      if free[d] == [] {
        block, arenas', free' := OpenArena(arenas, free, d, page.value);
      } else {
        block, arenas', free' := PopBlock(arenas, free, d);
      }
      b, r := block, Some(Address(SIZES[d], block));
      arenas, free := arenas', free';
    }

    /** Takes back the live block at `address`.  Its pages go back to the page allocator exactly if no
        other block of its arena is live. */
    method Free(address: nat, ghost b: Block)
      requires Valid() && IsLive(arenas, free, b)
      requires (arenas[b.page].Small? ==> arenas[b.page].desc < DESCS) && address == AddressIn(arenas[b.page], b)
      modifies this
      ensures Valid() && |old(free)| == DESCS && OneLess(old(arenas), old(free), arenas, free, b)
      ensures arenas.Keys == if old(IsLast(arenas, free, b)) then old(arenas).Keys - {b.page} else old(arenas).Keys
      ensures forall p | p in arenas :: PagesOf(arenas[p]) == PagesOf(old(arenas)[p])
    {
      var page := address / PGSIZE;
      if arenas[b.page].Small? { AddressRoundTrip(arenas[b.page].desc, b); }
      assert page == b.page;
      if arenas[page].Big? {
        BigGone(arenas, free, b);
        arenas := arenas - {page};
      } else {
        var block := Block(page, (address % PGSIZE - HEADER) / SIZES[arenas[page].desc]);
        assert block == b;
        var arenas', free' := PushBlock(arenas, free, block);
        arenas, free := arenas', free';
      }
    }
  }

  lemma BigGone(arenas: Arenas, free: seq<seq<Block>>, b: Block)
    requires Inv(arenas, free) && IsLive(arenas, free, b) && arenas[b.page].Big?
    ensures Inv(arenas - {b.page}, free) && OneLess(arenas, free, arenas - {b.page}, free, b) && IsLast(arenas, free, b)
  {
    var arenas' := arenas - {b.page};
    forall d | 0 <= d < DESCS ensures ListOk(arenas', d, free[d]) { assert ListOk(arenas, d, free[d]); }
    forall q | q in arenas' ensures ArenaOk(arenas', free, q) { assert ArenaOk(arenas, free, q); }
  }
}
