/** Swap space: page-sized slots on a block device, and a bitmap of those in use. */
module Swap {
  import opened Bitmap
  import opened Machine

  const SECTORS_PER_PAGE: nat := 8

  /** A page put together from the sectors `first` on. */
  function PageAt(sectors: seq<seq<Byte>>, first: nat): (page: seq<Byte>)
    requires first + SECTORS_PER_PAGE <= |sectors| && forall s | 0 <= s < |sectors| :: |sectors[s]| == SECTOR_SIZE
    ensures |page| == PGSIZE
  {
    seq(PGSIZE, i requires 0 <= i < PGSIZE => sectors[first + i / SECTOR_SIZE][i % SECTOR_SIZE])
  }

  function Sector(page: seq<Byte>, i: nat): (s: seq<Byte>)
    requires |page| == PGSIZE && i < SECTORS_PER_PAGE
    ensures |s| == SECTOR_SIZE
  {
    page[i * SECTOR_SIZE..(i + 1) * SECTOR_SIZE]
  }

  /** Sectors that are the pieces of a page make up that page. */
  lemma PageFromSectors(sectors: seq<seq<Byte>>, first: nat, page: seq<Byte>)
    requires first + SECTORS_PER_PAGE <= |sectors| && |page| == PGSIZE
    requires forall s | 0 <= s < |sectors| :: |sectors[s]| == SECTOR_SIZE
    requires forall i | 0 <= i < SECTORS_PER_PAGE :: sectors[first + i] == Sector(page, i)
    ensures PageAt(sectors, first) == page
  {
    forall i | 0 <= i < PGSIZE ensures PageAt(sectors, first)[i] == page[i] {
      assert sectors[first + i / SECTOR_SIZE] == Sector(page, i / SECTOR_SIZE);
    }
  }

  predicate Sectors(sectors: seq<seq<Byte>>) {
    forall s | 0 <= s < |sectors| :: |sectors[s]| == SECTOR_SIZE
  }

  /** What is in swap: the slots in use and the pages they hold. */
  function Stored(used: seq<bool>, sectors: seq<seq<Byte>>): map<nat, seq<Byte>>
    requires Sectors(sectors) && |used| * SECTORS_PER_PAGE <= |sectors|
  {
    map s | 0 <= s < |used| && used[s] :: PageAt(sectors, s * SECTORS_PER_PAGE)
  }

  /** Two devices that agree on a slot hold the same page there. */
  lemma SamePage(a: seq<seq<Byte>>, b: seq<seq<Byte>>, first: nat)
    requires Sectors(a) && Sectors(b) && first + SECTORS_PER_PAGE <= |a| == |b|
    requires forall k | first <= k < first + SECTORS_PER_PAGE :: a[k] == b[k]
    ensures PageAt(a, first) == PageAt(b, first)
  {
  }

  /** Marking a free slot and writing its sectors adds one page and disturbs no other. */
  lemma StoredAdd(used: seq<bool>, before: seq<seq<Byte>>, after: seq<seq<Byte>>, slot: nat, page: seq<Byte>)
    requires Sectors(before) && Sectors(after) && |after| == |before| >= |used| * SECTORS_PER_PAGE
    requires slot < |used| && |page| == PGSIZE
    requires forall k | 0 <= k < |before| ::
               var first := slot * SECTORS_PER_PAGE;
               after[k] == if first <= k < first + SECTORS_PER_PAGE then Sector(page, k - first) else before[k]
    ensures Stored(used[slot := true], after) == Stored(used, before)[slot := page]
  {
    var l, r := Stored(used[slot := true], after), Stored(used, before)[slot := page];
    assert forall s :: s in l <==> s in r;
    forall s | s in l ensures l[s] == r[s] {
      if s == slot {
        PageFromSectors(after, slot * SECTORS_PER_PAGE, page);
      } else {
        SamePage(after, before, s * SECTORS_PER_PAGE);
      }
    }
  }

  lemma StoredRemove(used: seq<bool>, sectors: seq<seq<Byte>>, slot: nat)
    requires Sectors(sectors) && |used| * SECTORS_PER_PAGE <= |sectors| && slot < |used|
    ensures Stored(used[slot := false], sectors) == Stored(used, sectors) - {slot}
  {
  }

  class SwapTable {
    const device: array<seq<Byte>>
    const slots: nat
    const inUse: BitMap

    ghost predicate Valid()
      reads device, inUse.words
    {
      && inUse.Valid() && inUse.bitCount == slots && device.Length >= slots * SECTORS_PER_PAGE
      && Sectors(device[..])
    }

    ghost function Pages(): (m: map<nat, seq<Byte>>)
      requires Valid()
      reads device, inUse.words
    {
      Stored(inUse.Bits(), device[..])
    }

    /** One slot for every eight sectors; none in use. */
    constructor (device: array<seq<Byte>>)
      requires Sectors(device[..])
      ensures Valid() && this.device == device && slots == device.Length / SECTORS_PER_PAGE && Pages() == map[]
      ensures fresh(inUse) && fresh(inUse.words)
    {
      this.device := device;
      slots := device.Length / SECTORS_PER_PAGE;
      inUse := new BitMap(device.Length / SECTORS_PER_PAGE);
    }

    method WriteSectors(first: nat, page: seq<Byte>)
      requires Sectors(device[..]) && first + SECTORS_PER_PAGE <= device.Length && |page| == PGSIZE
      modifies device
      ensures Sectors(device[..])
      ensures forall k | 0 <= k < device.Length ::
                device[k] == if first <= k < first + SECTORS_PER_PAGE then Sector(page, k - first) else old(device[k])
    {
      var i := 0;
      while i < SECTORS_PER_PAGE
        invariant i <= SECTORS_PER_PAGE
        invariant forall k | 0 <= k < device.Length ::
                    device[k] == if first <= k < first + i then Sector(page, k - first) else old(device[..][k])
      {
        device[first + i] := Sector(page, i);
        i := i + 1;
      }
    }

    /** Writes a page to the first free slot.  Fails exactly when every slot is in use. */
    method Out(page: seq<Byte>) returns (r: Scanned)
      requires Valid() && |page| == PGSIZE
      modifies device, inUse.words
      ensures Valid()
      ensures r.NotFound? ==> Pages() == old(Pages()) && forall s | 0 <= s < slots :: s in old(Pages())
      ensures r.Found? ==> r.index < slots && r.index !in old(Pages()) && Pages() == old(Pages())[r.index := page]
      ensures r.Found? ==> forall s | 0 <= s < r.index :: s in old(Pages())
    {
      ghost var used, before := inUse.Bits(), device[..];
      r := inUse.ScanAndFlip(0, 1, false);
      FirstClear(used, r);
      if r.NotFound? {
        return;
      }
      WriteSectors(r.index * SECTORS_PER_PAGE, page);
      StoredAdd(used, before, device[..], r.index, page);
    }

    /** A frame is no part of the device or of the bitmap. */
    ghost predicate Apart(kpage: array<Byte>) {
      kpage as object != device && kpage as object != inUse.words
    }

    method ReadSectors(first: nat, kpage: array<Byte>)
      requires Sectors(device[..]) && first + SECTORS_PER_PAGE <= device.Length && kpage.Length == PGSIZE
      requires Apart(kpage)
      modifies kpage
      ensures kpage[..] == PageAt(device[..], first)
    {
      var i := 0;
      while i < SECTORS_PER_PAGE
        invariant i <= SECTORS_PER_PAGE
        invariant forall k | 0 <= k < i * SECTOR_SIZE :: kpage[k] == PageAt(device[..], first)[k]
      {
        ReadSector(first, i, kpage);
        i := i + 1;
      }
    }

    method ReadSector(first: nat, i: nat, kpage: array<Byte>)
      requires Sectors(device[..]) && first + SECTORS_PER_PAGE <= device.Length && kpage.Length == PGSIZE
      requires i < SECTORS_PER_PAGE && Apart(kpage)
      requires forall k | 0 <= k < i * SECTOR_SIZE :: kpage[k] == PageAt(device[..], first)[k]
      modifies kpage
      ensures forall k | 0 <= k < (i + 1) * SECTOR_SIZE :: kpage[k] == PageAt(device[..], first)[k]
    {
      var data := device[first + i];
      forall k | 0 <= k < SECTOR_SIZE {
        kpage[i * SECTOR_SIZE + k] := data[k];
      }
    }

    /** Reads a slot into a frame and frees it.  Fails, and changes nothing, unless the slot is in use. */
    method In(slot: nat, kpage: array<Byte>) returns (ok: bool)
      requires Valid() && kpage.Length == PGSIZE && Apart(kpage)
      modifies inUse.words, kpage
      ensures Valid() && (ok <==> slot in old(Pages()))
      ensures ok ==> kpage[..] == old(Pages())[slot] && Pages() == old(Pages()) - {slot}
      ensures !ok ==> kpage[..] == old(kpage[..]) && Pages() == old(Pages())
    {
      if slot >= slots {
        return false;
      }
      ok := inUse.Test(slot);
      if ok {
        ReadSectors(slot * SECTORS_PER_PAGE, kpage);
        StoredRemove(inUse.Bits(), device[..], slot);
        inUse.Set(slot, false);
      }
    }

    /** Frees a slot without reading it. */
    method Free(slot: nat)
      requires Valid()
      modifies inUse.words
      ensures Valid() && Pages() == old(Pages()) - {slot}
    {
      if slot < slots {
        var used := inUse.Test(slot);
        if used {
          StoredRemove(inUse.Bits(), device[..], slot);
          inUse.Set(slot, false);
        }
      }
    }
  }
}
