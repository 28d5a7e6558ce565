/** The page loops of the mmap and munmap system calls. */
module Mmap {
  import opened Division
  import opened Machine
  import opened Options
  import opened Segment

  /** A supplemental page table entry, as far as mappings care: the mapping it belongs to, if any, and
      the part of the file it shows. */
  datatype MapEntry = MapEntry(md: Option<nat>, ofs: nat, readBytes: nat)

  datatype Mapping = Mapping(md: nat, addr: nat, length: nat)

  /** `u` is one of the pages of a mapping of `length` bytes at `addr`. */
  predicate IsPageOf(addr: nat, length: nat, u: nat) {
    addr <= u < addr + length && (u - addr) % PGSIZE == 0
  }

  function EntryFor(md: nat, addr: nat, length: nat, u: nat): MapEntry
    requires IsPageOf(addr, length, u)
  {
    var ofs := u - addr;
    MapEntry(Some(md), ofs, if length - ofs < PGSIZE then length - ofs else PGSIZE)
  }

  /** `after` is `before` with an entry for each page of a mapping, none of which it had. */
  ghost predicate Mapped(before: map<nat, MapEntry>, after: map<nat, MapEntry>, md: nat, addr: nat, length: nat, whole: nat) {
    && length <= whole
    && (forall u | u in before :: !IsPageOf(addr, length, u) && u in after && after[u] == before[u])
    && (forall u: nat | IsPageOf(addr, length, u) :: u in after && after[u] == EntryFor(md, addr, whole, u))
    && (forall u | u in after && u !in before :: IsPageOf(addr, length, u))
  }

  /** Every byte of the file shows on exactly one page of the mapping, at its own offset. */
  lemma EntriesTile(md: nat, addr: nat, length: nat, o: nat, u: nat)
    requires o < length && IsPageOf(addr, length, u)
    ensures IsPageOf(addr, length, addr + o - o % PGSIZE)
    ensures var e := EntryFor(md, addr, length, u);
            && 0 < e.readBytes <= PGSIZE && e.ofs + e.readBytes <= length && e.ofs == u - addr && e.md == Some(md)
            && (e.ofs <= o < e.ofs + e.readBytes <==> u == addr + o - o % PGSIZE)
  {
  }

  ghost predicate Owned(mappings: seq<Mapping>, md: nat, u: nat) {
    exists i | 0 <= i < |mappings| :: mappings[i].md == md && IsPageOf(mappings[i].addr, mappings[i].length, u)
  }

  ghost predicate AllOwned(spt: map<nat, MapEntry>, mappings: seq<Mapping>) {
    forall u | u in spt && spt[u].md.Some? :: Owned(mappings, spt[u].md.value, u)
  }

  lemma MappedNext(before: map<nat, MapEntry>, mid: map<nat, MapEntry>, md: nat, addr: nat, offset: nat, whole: nat)
    requires offset % PGSIZE == 0 && offset < whole && addr + offset !in before && Mapped(before, mid, md, addr, offset, whole)
    requires forall u: nat | IsPageOf(addr, whole, u) :: u !in before
    ensures IsPageOf(addr, whole, addr + offset)
    ensures var next := if offset + PGSIZE < whole then offset + PGSIZE else whole;
            Mapped(before, mid[addr + offset := EntryFor(md, addr, whole, addr + offset)], md, addr, next, whole)
  {
    var next := if offset + PGSIZE < whole then offset + PGSIZE else whole;
    forall u: nat | IsPageOf(addr, next, u) ensures u == addr + offset || IsPageOf(addr, offset, u) {}
  }

  lemma MappedOwned(before: map<nat, MapEntry>, after: map<nat, MapEntry>, mappings: seq<Mapping>, m: Mapping, whole: nat)
    requires AllOwned(before, mappings) && Mapped(before, after, m.md, m.addr, m.length, whole)
    ensures AllOwned(after, mappings + [m])
  {
    var grown := mappings + [m];
    forall u | u in after && after[u].md.Some? ensures Owned(grown, after[u].md.value, u) {
      if u in before {
        var i :| 0 <= i < |mappings| && mappings[i].md == after[u].md.value && IsPageOf(mappings[i].addr, mappings[i].length, u);
        assert grown[i] == mappings[i];
      } else {
        assert grown[|mappings|] == m;
      }
    }
  }

  /** A page table without the pages of one mapping. */
  function Without(spt: map<nat, MapEntry>, md: nat): map<nat, MapEntry> {
    map u | u in spt && spt[u].md != Some(md) :: spt[u]
  }

  /** Taking a new mapping's pages out again gives back the page table from before. */
  lemma MappedUndone(before: map<nat, MapEntry>, after: map<nat, MapEntry>, mappings: seq<Mapping>, m: Mapping, whole: nat)
    requires AllOwned(before, mappings) && (forall i | 0 <= i < |mappings| :: mappings[i].md != m.md)
    requires Mapped(before, after, m.md, m.addr, m.length, whole)
    ensures Without(after, m.md) == before
  {
    forall u | u in before && before[u].md.Some? ensures before[u].md.value != m.md {
      assert Owned(mappings, before[u].md.value, u);
    }
  }

  class Process {
    var spt: map<nat, MapEntry>
    /** The pages with a present page table entry. */
    var present: set<nat>
    var mappings: seq<Mapping>
    var nextMd: nat

    /** Mapping numbers are used once, and every page that carries one belongs to that mapping. */
    ghost predicate Valid()
      reads this
    {
      && (forall i | 0 <= i < |mappings| :: mappings[i].md < nextMd)
      && (forall i, j | 0 <= i < j < |mappings| :: mappings[i].md != mappings[j].md)
      && AllOwned(spt, mappings)
    }

    /** Is every page of the range free and below the kernel?  Addresses are 32 bits wide. */
    method RangeFree(addr: nat, length: nat) returns (ok: bool)
      requires addr % PGSIZE == 0 && addr < PHYS_BASE && length < B32 / 2
      ensures ok <==> addr + RoundUp(length) <= PHYS_BASE &&
                      forall u: nat | IsPageOf(addr, length, u) :: u !in spt && u !in present
    {
      var offset := 0;
      while offset < length
        invariant offset % PGSIZE == 0 && offset < length + PGSIZE && addr + offset <= PHYS_BASE
        invariant forall u: nat | IsPageOf(addr, length, u) && u < addr + offset :: u !in spt && u !in present
      {
        var upage := (addr + offset) % B32;
        var last: nat := (upage + PGSIZE - 1) % B32;
        if !IsUserVaddr(upage) || !IsUserVaddr(last) || upage in spt || upage in present {
          assert upage == addr + offset ==> IsPageOf(addr, length, upage);
          return false;
        }
        offset := offset + PGSIZE;
      }
      ok := true;
    }

    /** Inserts the entries one by one, until one cannot be allocated; `done` is how far it got. */
    method InsertPages(md: nat, addr: nat, length: nat, budget: nat) returns (done: nat)
      requires forall u: nat | IsPageOf(addr, length, u) :: u !in spt
      modifies this`spt
      ensures done >= length <==> RoundUp(length) / PGSIZE <= budget
      ensures done < length ==> Mapped(old(spt), spt, md, addr, done, length)
      ensures done >= length ==> Mapped(old(spt), spt, md, addr, length, length)
    {
      var offset, room := 0, budget;
      while offset < length
        invariant offset % PGSIZE == 0 && offset < length + PGSIZE && room == budget - offset / PGSIZE
        invariant Mapped(old(spt), spt, md, addr, if offset < length then offset else length, length)
      {
        if room == 0 {
          return offset;
        }
        var upage := addr + offset;
        MappedNext(old(spt), spt, md, addr, offset, length);
        spt := spt[upage := MapEntry(Some(md), offset, if length - offset < PGSIZE then length - offset else PGSIZE)];
        offset, room := offset + PGSIZE, room - 1;
      }
      done := offset;
    }

    /** Maps a file of `file.value` bytes at `addr`, if that is possible.  What is mapped then lies wholly
        in user memory, over no page that was there, and shows the whole file; a failure leaves the page
        table as it was.  `reopened` and `budget` say whether the file can be reopened, and how
        many table entries there is memory for, after the mapping's own record. */
    method MapFile(fd: nat, addr: nat, file: Option<nat>, reopened: bool, hasMemory: bool, budget: nat) returns (r: Option<nat>)
      requires Valid() && (file.Some? ==> file.value < B32 / 2)
      modifies this
      ensures Valid() && present == old(present)
      ensures r.Some? <==>
                && fd >= 2 && 0 < addr < PHYS_BASE && addr % PGSIZE == 0
                && file.Some? && file.value > 0 && reopened && hasMemory && RoundUp(file.value) / PGSIZE <= budget
                && addr + RoundUp(file.value) <= PHYS_BASE
                && forall u: nat | IsPageOf(addr, file.value, u) :: u !in old(spt) && u !in present
      ensures r.None? ==> spt == old(spt) && mappings == old(mappings)
      ensures r.Some? ==>
                && Mapped(old(spt), spt, r.value, addr, file.value, file.value)
                && mappings == old(mappings) + [Mapping(r.value, addr, file.value)] && r.value == old(nextMd)
    {
      if fd == 0 || fd == 1 || addr == 0 || addr % PGSIZE != 0 || !IsUserVaddr(addr) {
        return None;
      }
      if file.None? || file.value == 0 || !reopened {
        return None;
      }
      var length := file.value;
      var free := RangeFree(addr, length);
      if !free || !hasMemory {
        return None;
      }
      r := MapPages(addr, length, budget);
    }

    /** Numbers the mapping and inserts its pages; what it cannot finish it undoes. */
    method MapPages(addr: nat, length: nat, budget: nat) returns (r: Option<nat>)
      requires Valid() && forall u: nat | IsPageOf(addr, length, u) :: u !in spt
      modifies this`spt, this`mappings, this`nextMd
      ensures Valid() && (r.Some? <==> RoundUp(length) / PGSIZE <= budget)
      ensures r.None? ==> spt == old(spt) && mappings == old(mappings)
      ensures r.Some? ==>
                && Mapped(old(spt), spt, r.value, addr, length, length)
                && mappings == old(mappings) + [Mapping(r.value, addr, length)] && r.value == old(nextMd)
    {
      var md := nextMd;
      nextMd := nextMd + 1;
      var done := InsertPages(md, addr, length, budget);
      if done < length {
        MappedOwned(old(spt), spt, mappings, Mapping(md, addr, done), length);
        MappedUndone(old(spt), spt, mappings, Mapping(md, addr, done), length);
        mappings := mappings + [Mapping(md, addr, done)];
        DropAt(mappings, md, |mappings| - 1);
        Unmap(md);
        return None;
      }
      MappedOwned(old(spt), spt, mappings, Mapping(md, addr, length), length);
      mappings := mappings + [Mapping(md, addr, length)];
      return Some(md);
    }

    /** Removes the mapping and every page that belongs to it, and nothing else. */
    method Unmap(md: nat)
      requires Valid()
      modifies this`spt, this`mappings
      ensures Valid() && spt == Without(old(spt), md)
      ensures mappings == Drop(old(mappings), md)
    {
      var i := 0;
      while i < |mappings| && mappings[i].md != md
        invariant i <= |mappings| && forall j | 0 <= j < i :: mappings[j].md != md
      {
        i := i + 1;
      }
      if i == |mappings| {
        NoPages(spt, mappings, md);
        DropNone(mappings, md);
        return;
      }
      RemovePages(mappings[i]);
      StillOwned(old(spt), spt, mappings, i);
      DropAt(mappings, md, i);
      mappings := mappings[..i] + mappings[i + 1..];
    }

    /** Walks the mapping page by page and removes the pages that carry its number. */
    method RemovePages(m: Mapping)
      modifies this`spt
      ensures spt == map u | u in old(spt) && !(old(spt)[u].md == Some(m.md) && IsPageOf(m.addr, m.length, u)) :: old(spt)[u]
    {
      var offset := 0;
      while offset < m.length
        invariant offset % PGSIZE == 0
        invariant spt == map u | u in old(spt) && !(old(spt)[u].md == Some(m.md) && IsPageOf(m.addr, m.length, u)
                                                    && u < m.addr + offset) :: old(spt)[u]
      {
        var upage := m.addr + offset;
        if upage in spt && spt[upage].md == Some(m.md) {
          spt := spt - {upage};
        }
        offset := offset + PGSIZE;
      }
    }
  }

  /** The list of mappings without the one numbered `md`. */
  function Drop(mappings: seq<Mapping>, md: nat): seq<Mapping> {
    if mappings == [] then []
    else if mappings[0].md == md then mappings[1..]
    else [mappings[0]] + Drop(mappings[1..], md)
  }

  lemma {:induction false} DropNone(mappings: seq<Mapping>, md: nat)
    requires forall j | 0 <= j < |mappings| :: mappings[j].md != md
    ensures Drop(mappings, md) == mappings
  {
    if mappings != [] { DropNone(mappings[1..], md); }
  }

  lemma {:induction false} DropAt(mappings: seq<Mapping>, md: nat, i: nat)
    requires i < |mappings| && mappings[i].md == md && forall j | 0 <= j < i :: mappings[j].md != md
    ensures Drop(mappings, md) == mappings[..i] + mappings[i + 1..]
  {
    if i > 0 { DropAt(mappings[1..], md, i - 1); }
  }

  lemma NoPages(spt: map<nat, MapEntry>, mappings: seq<Mapping>, md: nat)
    requires AllOwned(spt, mappings) && forall j | 0 <= j < |mappings| :: mappings[j].md != md
    ensures Without(spt, md) == spt
  {
    forall u | u in spt && spt[u].md.Some? ensures spt[u].md.value != md {
      assert Owned(mappings, spt[u].md.value, u);
    }
  }

  /** Every page of a mapping lies in its range, so the walk finds them all; the rest keep their owners. */
  lemma StillOwned(before: map<nat, MapEntry>, after: map<nat, MapEntry>, mappings: seq<Mapping>, i: nat)
    requires AllOwned(before, mappings) && i < |mappings|
    requires forall j, k | 0 <= j < k < |mappings| :: mappings[j].md != mappings[k].md
    requires var m := mappings[i];
             after == map u | u in before && !(before[u].md == Some(m.md) && IsPageOf(m.addr, m.length, u)) :: before[u]
    ensures after == Without(before, mappings[i].md) && AllOwned(after, mappings[..i] + mappings[i + 1..])
  {
    var m, left := mappings[i], mappings[..i] + mappings[i + 1..];
    forall u | u in before && before[u].md == Some(m.md) ensures u !in after {
      assert Owned(mappings, m.md, u);
    }
    forall u | u in after && after[u].md.Some? ensures Owned(left, after[u].md.value, u) {
      var j :| 0 <= j < |mappings| && mappings[j].md == after[u].md.value && IsPageOf(mappings[j].addr, mappings[j].length, u);
      assert left[if j < i then j else j - 1] == mappings[j];
    }
  }
}
