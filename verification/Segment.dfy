/** Loading the segments of an executable, at once or page by page on demand. */
module Segment {
  import opened Division
  import opened Machine
  import opened Options

  /** The fields of a program header that loading looks at, each 32 bits wide. */
  datatype Phdr = Phdr(offset: nat, vaddr: nat, filesz: nat, memsz: nat)

  predicate Fits(ph: Phdr) {
    ph.offset < B32 && ph.vaddr < B32 && ph.filesz < B32 && ph.memsz < B32
  }

  predicate IsUserVaddr(a: nat) { a < PHYS_BASE }

  function RoundUp(n: nat): nat { (n + PGSIZE - 1) / PGSIZE * PGSIZE }

  /** Is this a loadable segment of a file of `length` bytes? */
  predicate ValidateSegment(ph: Phdr, length: nat) {
    && ph.offset % PGSIZE == ph.vaddr % PGSIZE
    && ph.offset <= length
    && ph.memsz >= ph.filesz
    && ph.memsz != 0
    && IsUserVaddr(ph.vaddr)
    && IsUserVaddr((ph.vaddr + ph.memsz) % B32)
    && (ph.vaddr + ph.memsz) % B32 >= ph.vaddr
    && ph.vaddr >= PGSIZE
  }

  /** The checks in 32-bit arithmetic are what they are meant to be: the offsets agree within a page, the
      file reaches the first byte, and the memory is neither empty nor shorter than the file's part, off
      page zero and below the kernel. */
  lemma ValidateExact(ph: Phdr, length: nat)
    requires Fits(ph)
    ensures ValidateSegment(ph, length) <==>
            && ph.offset % 4096 == ph.vaddr % 4096 && ph.offset <= length
            && 0 < ph.memsz && ph.filesz <= ph.memsz
            && 4096 <= ph.vaddr && ph.vaddr + ph.memsz < 0xC000_0000
  {
    if ph.vaddr < PHYS_BASE && ph.vaddr + ph.memsz < PHYS_BASE { Small(ph.vaddr + ph.memsz); }
    if ValidateSegment(ph, length) { NoWrap(ph.vaddr, ph.memsz); }
  }

  /** Where a segment goes: file offset and address of its first page, and how many bytes are read and
      zeroed.  Unsigned 32-bit arithmetic. */
  datatype Plan = Plan(ofs: nat, upage: nat, readBytes: nat, zeroBytes: nat)

  function PlanOf(ph: Phdr): Plan {
    var pageOffset := ph.vaddr % PGSIZE;
    var end := RoundUp((pageOffset + ph.memsz) % B32) % B32;
    var read := if ph.filesz > 0 then (pageOffset + ph.filesz) % B32 else 0;
    Plan(ph.offset - ph.offset % PGSIZE, ph.vaddr - pageOffset, read, (end - read) % B32)
  }

  /** A plan that loading can carry out: whole pages, inside user memory and off page zero. */
  predicate Loadable(p: Plan) {
    && p.ofs % PGSIZE == 0 && p.upage % PGSIZE == 0 && (p.readBytes + p.zeroBytes) % PGSIZE == 0
    && PGSIZE <= p.upage && p.upage + p.readBytes + p.zeroBytes <= PHYS_BASE
  }

  function Pages(p: Plan): nat { (p.readBytes + p.zeroBytes) / PGSIZE }

  /** Nothing wraps around for an accepted segment. */
  lemma AcceptedIsLoadable(ph: Phdr, length: nat)
    requires Fits(ph) && ValidateSegment(ph, length)
    ensures var p := PlanOf(ph);
            && Loadable(p) && Pages(p) >= 1
            && p.upage + ph.vaddr % PGSIZE == ph.vaddr && p.ofs + ph.vaddr % PGSIZE == ph.offset
            && p.readBytes == (if ph.filesz > 0 then ph.vaddr % PGSIZE + ph.filesz else 0)
            && p.readBytes + p.zeroBytes == RoundUp(ph.vaddr % PGSIZE + ph.memsz)
  {
    var pageOffset := ph.vaddr % PGSIZE;
    NoWrap(ph.vaddr, ph.memsz);
    PageStart(ph.vaddr);
    PageStart(ph.offset);
    var end := RoundUp(pageOffset + ph.memsz);
    RoundUpIs(pageOffset + ph.memsz);
    PagesBelow(ph.vaddr - pageOffset, end, ph.vaddr + ph.memsz);
    var read := if ph.filesz > 0 then pageOffset + ph.filesz else 0;
    Small(pageOffset + ph.memsz);
    Small(pageOffset + ph.filesz);
    Small(end);
    Small(end - read);
    assert PlanOf(ph) == Plan(ph.offset - ph.offset % PGSIZE, ph.vaddr - pageOffset, read, end - read);
    WholePages(end);
  }

  lemma Small(n: nat)
    requires n < B32
    ensures n % B32 == n
  {
  }

  lemma WholePages(n: nat)
    requires n > 0 && n % PGSIZE == 0
    ensures n / PGSIZE >= 1
  {
  }

  lemma NoWrap(a: nat, n: nat)
    requires a < PHYS_BASE && n < B32 && (a + n) % B32 < PHYS_BASE && (a + n) % B32 >= a
    ensures a + n < PHYS_BASE
  {
  }

  lemma PageStart(a: nat)
    ensures (a - a % PGSIZE) % PGSIZE == 0 && (a >= PGSIZE ==> a - a % PGSIZE >= PGSIZE)
  {
  }

  lemma RoundUpIs(n: nat)
    ensures n <= RoundUp(n) < n + PGSIZE && RoundUp(n) % PGSIZE == 0
  {
  }

  /** Whole pages that begin before a limit on a page boundary end before it. */
  lemma PagesBelow(start: nat, size: nat, end: nat)
    requires start % PGSIZE == 0 && size % PGSIZE == 0 && end < PHYS_BASE && start + size < end + PGSIZE
    ensures start + size <= PHYS_BASE
  {
    assert PHYS_BASE % PGSIZE == 0;
  }

  // ------------------------------------------------------------------ what memory should hold

  /** The planned contents of page `k`: file bytes up to the planned count, then zeros. */
  function ImageAt(p: Plan, file: seq<Byte>, k: nat): (page: seq<Byte>)
    ensures |page| == PGSIZE
  {
    seq(PGSIZE, j requires 0 <= j < PGSIZE =>
      var at := k * PGSIZE + j;
      if at < p.readBytes && p.ofs + at < |file| then file[p.ofs + at] else 0)
  }

  /** The ELF meaning of a program header: `filesz` bytes of the file from `offset` on appear from
      `vaddr` on, and zeros follow, to the end of the last page.  What comes before `vaddr` on its page
      comes before `offset` in the file, if anything is read at all. */
  lemma ImageIsElf(ph: Phdr, file: seq<Byte>, at: nat)
    requires Fits(ph) && ValidateSegment(ph, |file|) && ph.offset + ph.filesz <= |file|
    requires at < Pages(PlanOf(ph)) * PGSIZE
    ensures var p := PlanOf(ph);
            var i := p.upage + at - ph.vaddr;
            && p.ofs + p.readBytes <= |file| && 0 <= ph.offset + i
            && p.upage <= ph.vaddr && ph.vaddr + ph.memsz <= p.upage + Pages(p) * PGSIZE
            && ImageAt(p, file, at / PGSIZE)[at % PGSIZE] == if 0 < ph.filesz && i < ph.filesz then file[ph.offset + i] else 0
  {
    AcceptedIsLoadable(ph, |file|);
    RoundUpIs(ph.vaddr % PGSIZE + ph.memsz);
    assert at / PGSIZE * PGSIZE + at % PGSIZE == at;
  }

  // ------------------------------------------------------------------ lazy loading

  datatype Kind = FileBacked | ZeroFill

  datatype Entry = Entry(kind: Kind, writable: bool, ofs: int, readBytes: nat, zeroBytes: nat)

  /** What is recorded for page `k`.  File offsets are signed and 32 bits wide. */
  function EntryAt(p: Plan, k: nat, writable: bool): Entry {
    var left := p.readBytes - k * PGSIZE;
    if left <= 0 then Entry(ZeroFill, writable, 0, 0, PGSIZE)
    else
      var read := if left < PGSIZE then left else PGSIZE;
      Entry(FileBacked, writable, Wrap32(p.ofs + k * PGSIZE), read, PGSIZE - read)
  }

  /** The contents a page fault gives the page, unless the file turns out to be too short. */
  function FaultIn(e: Entry, file: seq<Byte>): Option<seq<Byte>>
    requires e.ofs >= 0
  {
    match e.kind
    case ZeroFill => Some(Zeros(PGSIZE))
    case FileBacked =>
      if e.ofs + e.readBytes <= |file| then Some(file[e.ofs..e.ofs + e.readBytes] + Zeros(e.zeroBytes)) else None
  }

  /** Faulting in a recorded page gives the planned contents. */
  lemma FaultGivesImage(p: Plan, k: nat, writable: bool, file: seq<Byte>)
    requires p.ofs + p.readBytes <= |file| < B32 / 2
    ensures EntryAt(p, k, writable).ofs >= 0 && FaultIn(EntryAt(p, k, writable), file) == Some(ImageAt(p, file, k))
  {
    var e := EntryAt(p, k, writable);
    if e.kind == ZeroFill {
      assert Zeros(PGSIZE) == ImageAt(p, file, k);
    } else {
      assert file[e.ofs..e.ofs + e.readBytes] + Zeros(e.zeroBytes) == ImageAt(p, file, k);
    }
  }

  /** If the file lacks some of the bytes, however many, the fault on the first page that misses any fails;
      the faults on the pages before it do not. */
  lemma FaultFails(p: Plan, writable: bool, file: seq<Byte>, k: nat)
    requires p.ofs <= |file| < B32 / 2 && |file| < p.ofs + p.readBytes && k <= (|file| - p.ofs) / PGSIZE
    ensures var e := EntryAt(p, k, writable);
            && k * PGSIZE < p.readBytes && e.ofs == p.ofs + k * PGSIZE
            && (FaultIn(e, file) == None <==> k == (|file| - p.ofs) / PGSIZE)
  {
    var first := (|file| - p.ofs) / PGSIZE;
    assert first * PGSIZE <= |file| - p.ofs < first * PGSIZE + PGSIZE;
    assert k < first ==> (k + 1) * PGSIZE <= first * PGSIZE;
  }

  // ------------------------------------------------------------------ the two loaders

  /** The address of page `k`. */
  function Address(p: Plan, k: nat): nat { p.upage + k * PGSIZE }

  /** `after` is `before` with a value for each of the first `n` pages, none of which it had. */
  ghost predicate Extends<T>(before: map<nat, T>, after: map<nat, T>, p: Plan, n: nat, value: nat -> T) {
    && (forall u | u in before :: u in after && after[u] == before[u])
    && (forall k: nat | k < n :: Address(p, k) !in before && Address(p, k) in after && after[Address(p, k)] == value(k))
    && (forall u | u in after && u !in before :: exists k: nat | k < n :: u == Address(p, k))
  }

  lemma Extended<T>(before: map<nat, T>, after: map<nat, T>, p: Plan, n: nat, value: nat -> T)
    requires Extends(before, after, p, n, value) && Address(p, n) !in after
    ensures Extends(before, after[Address(p, n) := value(n)], p, n + 1, value)
  {
    var next := after[Address(p, n) := value(n)];
    forall u | u in next && u !in before ensures exists k: nat | k < n + 1 :: u == Address(p, k) {
      if u != Address(p, n) {
        var k: nat :| k < n && u == Address(p, k);
      }
    }
  }

  /** None of the planned pages is there yet. */
  ghost predicate Free<T>(table: map<nat, T>, p: Plan, n: nat) {
    forall k: nat | k < n :: Address(p, k) !in table
  }

  /** Where a loader stands that has page `k` before it. */
  ghost predicate AtPage(p: Plan, k: int, upage: int, readBytes: int, zeroBytes: int) {
    && 0 <= k <= Pages(p) && readBytes >= 0 && zeroBytes >= 0 && upage == Address(p, k) && readBytes + zeroBytes == (Pages(p) - k) * PGSIZE
    && readBytes == if k * PGSIZE < p.readBytes then p.readBytes - k * PGSIZE else 0
  }

  lemma NextPage(p: Plan, k: int, upage: int, readBytes: int, zeroBytes: int)
    requires AtPage(p, k, upage, readBytes, zeroBytes) && (readBytes > 0 || zeroBytes > 0)
    ensures k < Pages(p)
    ensures var read := if readBytes < PGSIZE then readBytes else PGSIZE;
            && zeroBytes >= PGSIZE - read
            && AtPage(p, k + 1, upage + PGSIZE, readBytes - read, zeroBytes - (PGSIZE - read))
  {
    assert k < Pages(p);
    assert (Pages(p) - k) * PGSIZE == (Pages(p) - (k + 1)) * PGSIZE + PGSIZE;
  }

  ghost predicate AtOffset(p: Plan, k: nat, ofs: int) {
    ofs == Wrap32(p.ofs + k * PGSIZE)
  }

  /** What the lazy loader records for the page before it, and where it stands then. */
  method NextEntry(p: Plan, ghost k: nat, ofs: int, upage: nat, readBytes: nat, zeroBytes: nat, writable: bool)
      returns (e: Entry, ofs': int, upage': nat, readBytes': nat, zeroBytes': nat)
    requires AtPage(p, k, upage, readBytes, zeroBytes) && AtOffset(p, k, ofs) && (readBytes > 0 || zeroBytes > 0)
    ensures k < Pages(p) && e == EntryAt(p, k, writable)
    ensures AtPage(p, k + 1, upage', readBytes', zeroBytes') && AtOffset(p, k + 1, ofs')
  {
    NextPage(p, k, upage, readBytes, zeroBytes);
    WrapNext(p.ofs, k);
    var pageReadBytes := if readBytes < PGSIZE then readBytes else PGSIZE;
    var pageZeroBytes := PGSIZE - pageReadBytes;
    e := Entry(if pageReadBytes > 0 then FileBacked else ZeroFill, writable,
               if pageReadBytes > 0 then ofs else 0, pageReadBytes, pageZeroBytes);
    readBytes', zeroBytes' := readBytes - pageReadBytes, zeroBytes - pageZeroBytes;
    upage', ofs' := upage + PGSIZE, Wrap32(ofs + PGSIZE);
  }

  /** A page that is in the way was there before. */
  lemma Blocked<T>(before: map<nat, T>, after: map<nat, T>, p: Plan, k: nat, n: nat, value: nat -> T)
    requires Extends(before, after, p, k, value) && Address(p, k) in after && k < n
    ensures !Free(before, p, n)
  {
    assert forall j: nat | j < k :: Address(p, j) != Address(p, k);
  }

  /** A page that is mapped: what it holds, and whether the process may write it. */
  datatype Page = Page(data: seq<Byte>, writable: bool)

  class AddressSpace {
    /** The supplemental page table, and the contents of the pages that are mapped. */
    var spt: map<nat, Entry>
    var mem: map<nat, Page>

    /** Records every page of the segment and reads nothing.  `budget` is how many more table entries
        memory has room for. */
    method LoadLazily(p: Plan, writable: bool, budget: nat) returns (ok: bool)
      requires Loadable(p)
      modifies this`spt
      ensures ok <==> Free(old(spt), p, Pages(p)) && Pages(p) <= budget
      ensures ok ==> Extends(old(spt), spt, p, Pages(p), k => EntryAt(p, k, writable))
      ensures forall u | u in spt && u !in old(spt) :: spt[u].writable == writable
    {
      var ofs, upage, readBytes, zeroBytes, room := Wrap32(p.ofs), p.upage, p.readBytes, p.zeroBytes, budget;
      ghost var k := 0;
      while readBytes > 0 || zeroBytes > 0
        invariant AtPage(p, k, upage, readBytes, zeroBytes) && AtOffset(p, k, ofs) && room == budget - k
        invariant Extends(old(spt), spt, p, k, k => EntryAt(p, k, writable))
        decreases Pages(p) - k
      {
        if upage in spt || room == 0 {
          NextPage(p, k, upage, readBytes, zeroBytes);
          RecordedAs(old(spt), spt, p, k, writable);
          if upage in spt { Blocked(old(spt), spt, p, k, Pages(p), k => EntryAt(p, k, writable)); }
          return false;
        }
        Extended(old(spt), spt, p, k, k => EntryAt(p, k, writable));
        var at := upage;
        var e: Entry;
        e, ofs, upage, readBytes, zeroBytes := NextEntry(p, k, ofs, upage, readBytes, zeroBytes, writable);
        spt, room := spt[at := e], room - 1;
        k := k + 1;
      }
      RecordedAs(old(spt), spt, p, k, writable);
      ok := true;
    }

    /** Reads every page of the segment at once, from consecutive places of the file. */
    method LoadEagerly(p: Plan, file: seq<Byte>, writable: bool, budget: nat) returns (ok: bool)
      requires Loadable(p)
      modifies this`mem
      ensures ok <==> Free(old(mem), p, Pages(p)) && Pages(p) <= budget && (p.readBytes == 0 || p.ofs + p.readBytes <= |file|)
      ensures ok ==> Extends(old(mem), mem, p, Pages(p), k => Page(ImageAt(p, file, k), writable))
      ensures forall u | u in mem && u !in old(mem) :: mem[u].writable == writable
    {
      var pos, upage, readBytes, zeroBytes, room := p.ofs, p.upage, p.readBytes, p.zeroBytes, budget;
      ghost var k := 0;
      while readBytes > 0 || zeroBytes > 0
        invariant AtPage(p, k, upage, readBytes, zeroBytes)
        invariant pos == p.ofs + (p.readBytes - readBytes) && room == budget - k
        invariant pos <= |file| || readBytes == p.readBytes
        invariant Extends(old(mem), mem, p, k, k => Page(ImageAt(p, file, k), writable))
        decreases Pages(p) - k
      {
        var pageReadBytes := if readBytes < PGSIZE then readBytes else PGSIZE;
        var pageZeroBytes := PGSIZE - pageReadBytes;
        if room == 0 || (pageReadBytes > 0 && pos + pageReadBytes > |file|) || upage in mem {
          LoadedAs(old(mem), mem, p, file, k, writable);
          return false;
        }
        ReadPageIsImage(p, file, k, pos, pageReadBytes);
        NextPage(p, k, upage, readBytes, zeroBytes);
        Extended(old(mem), mem, p, k, k => Page(ImageAt(p, file, k), writable));
        mem, room := mem[upage := Page(ReadPage(file, pos, pageReadBytes), writable)], room - 1;
        readBytes, zeroBytes := readBytes - pageReadBytes, zeroBytes - pageZeroBytes;
        upage, pos := upage + PGSIZE, pos + pageReadBytes;
        k := k + 1;
      }
      LoadedAs(old(mem), mem, p, file, k, writable);
      ok := true;
    }
  }

  /** Every page a loader has added carries the right it was given. */
  lemma RecordedAs(before: map<nat, Entry>, after: map<nat, Entry>, p: Plan, n: nat, writable: bool)
    requires Extends(before, after, p, n, k => EntryAt(p, k, writable))
    ensures forall u | u in after && u !in before :: after[u].writable == writable
  {
  }

  lemma LoadedAs(before: map<nat, Page>, after: map<nat, Page>, p: Plan, file: seq<Byte>, n: nat, writable: bool)
    requires Extends(before, after, p, n, k => Page(ImageAt(p, file, k), writable))
    ensures forall u | u in after && u !in before :: after[u].writable == writable
  {
  }

  lemma WrapNext(ofs: nat, k: nat)
    ensures Wrap32(Wrap32(ofs + k * PGSIZE) + PGSIZE) == Wrap32(ofs + (k + 1) * PGSIZE)
  {
    WrapStep(ofs + k * PGSIZE);
    assert ofs + k * PGSIZE + PGSIZE == ofs + (k + 1) * PGSIZE;
  }

  lemma WrapStep(a: int)
    ensures Wrap32(Wrap32(a) + PGSIZE) == Wrap32(a + PGSIZE)
  {
  }

  function ReadPage(file: seq<Byte>, pos: nat, n: nat): (page: seq<Byte>)
    requires n <= PGSIZE && (n > 0 ==> pos + n <= |file|)
  {
    (if n > 0 then file[pos..pos + n] else []) + Zeros(PGSIZE - n)
  }

  lemma ReadPageIsImage(p: Plan, file: seq<Byte>, k: nat, pos: nat, n: nat)
    requires n <= PGSIZE && (n > 0 ==> pos == p.ofs + k * PGSIZE && pos + n <= |file|)
    requires n == var left := p.readBytes - k * PGSIZE; if left <= 0 then 0 else if left < PGSIZE then left else PGSIZE
    ensures ReadPage(file, pos, n) == ImageAt(p, file, k)
  {
  }

  /** The pages a loader adds are those that meet the segment's memory, and no others. */
  lemma PagesOfSegment<T>(ph: Phdr, length: nat, before: map<nat, T>, after: map<nat, T>, value: nat -> T, u: nat)
    requires Fits(ph) && ValidateSegment(ph, length)
    requires Extends(before, after, PlanOf(ph), Pages(PlanOf(ph)), value)
    ensures u in after && u !in before <==> u % PGSIZE == 0 && ph.vaddr < u + PGSIZE && u < ph.vaddr + ph.memsz
    ensures u in after && u !in before ==> PGSIZE <= u && u + PGSIZE <= PHYS_BASE
  {
    AcceptedIsLoadable(ph, length);
    var p := PlanOf(ph);
    if u in after && u !in before {
      var k: nat :| k < Pages(p) && u == Address(p, k);
      RoundUpIs(ph.vaddr % PGSIZE + ph.memsz);
      PageAligned(p.upage, k, Pages(p));
    }
    if u % PGSIZE == 0 && ph.vaddr < u + PGSIZE && u < ph.vaddr + ph.memsz {
      var k := PageNumber(ph, length, u);
    }
  }

  lemma PageNumber(ph: Phdr, length: nat, u: nat) returns (k: nat)
    requires Fits(ph) && ValidateSegment(ph, length)
    requires u % PGSIZE == 0 && ph.vaddr < u + PGSIZE && u < ph.vaddr + ph.memsz
    ensures k < Pages(PlanOf(ph)) && u == Address(PlanOf(ph), k)
  {
    AcceptedIsLoadable(ph, length);
    RoundUpIs(ph.vaddr % PGSIZE + ph.memsz);
    PageIndex(PlanOf(ph).upage, u, Pages(PlanOf(ph)));
    k := (u - PlanOf(ph).upage) / PGSIZE;
  }

  lemma PageAligned(upage: nat, k: nat, n: nat)
    requires upage % PGSIZE == 0 && k < n
    ensures (upage + k * PGSIZE) % PGSIZE == 0 && k * PGSIZE + PGSIZE <= n * PGSIZE && (k * PGSIZE) / PGSIZE == k
  {
    assert (k + 1) * PGSIZE <= n * PGSIZE;
  }

  lemma PageIndex(upage: nat, u: nat, n: nat)
    requires upage % PGSIZE == 0 && u % PGSIZE == 0 && upage < u + PGSIZE && u < upage + n * PGSIZE
    ensures upage <= u && (u - upage) / PGSIZE < n && u == upage + (u - upage) / PGSIZE * PGSIZE
  {
  }

  /** Faulting in a page that the lazy loader recorded gives the page the eager loader leaves, with the
      same right to write.  At each address of it either the file's byte shows or a zero. */
  lemma LazyEqualsEager(ph: Phdr, file: seq<Byte>, writable: bool, spt0: map<nat, Entry>, spt: map<nat, Entry>,
                        mem0: map<nat, Page>, mem: map<nat, Page>, u: nat, j: nat)
    requires Fits(ph) && ValidateSegment(ph, |file|) && ph.offset + ph.filesz <= |file| < B32 / 2
    requires Extends(spt0, spt, PlanOf(ph), Pages(PlanOf(ph)), k => EntryAt(PlanOf(ph), k, writable))
    requires Extends(mem0, mem, PlanOf(ph), Pages(PlanOf(ph)), k => Page(ImageAt(PlanOf(ph), file, k), writable))
    requires u % PGSIZE == 0 && ph.vaddr < u + PGSIZE && u < ph.vaddr + ph.memsz && j < PGSIZE
    ensures u in spt && u in mem && spt[u].ofs >= 0 && FaultIn(spt[u], file) == Some(mem[u].data)
    ensures spt[u].writable == writable == mem[u].writable
    ensures var i := u + j - ph.vaddr;
            && |mem[u].data| == PGSIZE && 0 <= ph.offset + i
            && mem[u].data[j] == if 0 < ph.filesz && i < ph.filesz then file[ph.offset + i] else 0
  {
    var k := PageNumber(ph, |file|, u);
    PageByte(ph, file, k, j);
    FaultGivesImage(PlanOf(ph), k, writable, file);
  }

  lemma PageByte(ph: Phdr, file: seq<Byte>, k: nat, j: nat)
    requires Fits(ph) && ValidateSegment(ph, |file|) && ph.offset + ph.filesz <= |file|
    requires k < Pages(PlanOf(ph)) && j < PGSIZE
    ensures var p := PlanOf(ph);
            var i := Address(p, k) + j - ph.vaddr;
            && p.ofs + p.readBytes <= |file| && 0 <= ph.offset + i
            && ImageAt(p, file, k)[j] == if 0 < ph.filesz && i < ph.filesz then file[ph.offset + i] else 0
  {
    InPage(k, j, Pages(PlanOf(ph)));
    ImageIsElf(ph, file, k * PGSIZE + j);
  }

  lemma InPage(k: nat, j: nat, n: nat)
    requires k < n && j < PGSIZE
    ensures (k * PGSIZE + j) / PGSIZE == k && (k * PGSIZE + j) % PGSIZE == j && k * PGSIZE + j < n * PGSIZE
  {
    assert (k + 1) * PGSIZE <= n * PGSIZE;
  }
}
