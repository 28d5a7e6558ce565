/** The bytes of a file, which lie in consecutive disk sectors, read and written a chunk at a time. */
module InodeData {
  import opened Machine
  import opened Seqs

  /** A disk sector holds data or the header of a file. */
  datatype Sector = Data(bytes: seq<Byte>) | Header(start: nat, length: nat)

  /** As few sectors as hold `length` bytes. */
  function SectorsFor(length: nat): (n: nat)
    ensures length <= n * SECTOR_SIZE < length + SECTOR_SIZE
  {
    (length + SECTOR_SIZE - 1) / SECTOR_SIZE
  }

  predicate IsData(s: Sector) { s.Data? && |s.bytes| == SECTOR_SIZE }

  /** The sectors of a file of `length` bytes from `start` on are there and hold data. */
  ghost predicate HasData(disk: seq<Sector>, start: nat, length: nat) {
    && start + SectorsFor(length) <= |disk|
    && forall i | start <= i < start + SectorsFor(length) :: IsData(disk[i])
  }

  /** The bytes of the file. */
  ghost function Contents(disk: seq<Sector>, start: nat, length: nat): (r: seq<Byte>)
    requires HasData(disk, start, length)
    ensures |r| == length
  {
    seq(length, i requires 0 <= i < length => disk[start + i / SECTOR_SIZE].bytes[i % SECTOR_SIZE])
  }

  function Min(a: int, b: int): int { if a < b then a else b }

  /** A transfer of `n` bytes out of `size` at `offset` stays inside the file. */
  predicate Fits(length: nat, size: nat, offset: nat, n: nat) {
    n <= size && (n > 0 ==> offset + n <= length)
  }

  /** It falls short of `size` only because the file ends. */
  predicate Complete(length: nat, size: nat, offset: nat, n: nat) {
    n < size ==> offset + n >= length
  }

  /** The part of a request that one sector can serve. */
  function Chunk(length: nat, size: nat, offset: nat): int {
    Min(size, Min(length - offset, SECTOR_SIZE - offset % SECTOR_SIZE))
  }

  /** It is as long as the request, the file and the sector allow. */
  lemma ChunkIs(length: nat, size: nat, offset: nat)
    requires size > 0 && offset < length
    ensures var n := Chunk(length, size, offset);
            && 0 < n <= size && offset + n <= length && offset % SECTOR_SIZE + n <= SECTOR_SIZE
            && (n == size || offset + n == length || offset % SECTOR_SIZE + n == SECTOR_SIZE)
  {
  }

  lemma ChunkInSector(disk: seq<Sector>, start: nat, length: nat, size: nat, offset: nat)
    requires HasData(disk, start, length) && Chunk(length, size, offset) > 0
    ensures var s, o, n := start + offset / SECTOR_SIZE, offset % SECTOR_SIZE, Chunk(length, size, offset);
            && offset + n <= length && o + n <= SECTOR_SIZE && s < start + SectorsFor(length) && IsData(disk[s])
            && disk[s].bytes[o..o + n] == Contents(disk, start, length)[offset..offset + n]
  {
    var s, o, n := start + offset / SECTOR_SIZE, offset % SECTOR_SIZE, Chunk(length, size, offset);
    var l, r := disk[s].bytes[o..o + n], Contents(disk, start, length)[offset..offset + n];
    SectorExists(length, offset);
    forall i | 0 <= i < n ensures l[i] == r[i] { SameSector(offset, i); }
  }

  lemma SectorExists(length: nat, offset: nat)
    requires offset < length
    ensures offset / SECTOR_SIZE < SectorsFor(length)
  {
  }

  lemma SectorEnd(offset: nat, n: nat)
    requires offset % SECTOR_SIZE + n == SECTOR_SIZE
    ensures (offset + n) % SECTOR_SIZE == 0
  {
  }

  lemma SameSector(offset: nat, i: nat)
    requires offset % SECTOR_SIZE + i < SECTOR_SIZE
    ensures (offset + i) / SECTOR_SIZE == offset / SECTOR_SIZE && (offset + i) % SECTOR_SIZE == offset % SECTOR_SIZE + i
  {
  }

  /** Reads up to `size` bytes at `offset`.  `memory` says whether a bounce buffer can be had: without
      one the read stops at the first chunk that is not a whole sector. */
  method ReadAt(disk: seq<Sector>, start: nat, length: nat, size0: nat, offset0: nat, memory: bool) returns (buffer: seq<Byte>)
    requires HasData(disk, start, length)
    ensures Fits(length, size0, offset0, |buffer|) && (memory ==> Complete(length, size0, offset0, |buffer|))
    ensures |buffer| > 0 ==> buffer == Contents(disk, start, length)[offset0..offset0 + |buffer|]
  {
    ghost var c := Contents(disk, start, length);
    var size, offset := size0, offset0;
    buffer := [];
    while size > 0
      invariant offset == offset0 + |buffer| && size == size0 - |buffer| && Fits(length, size0, offset0, |buffer|)
      invariant |buffer| > 0 ==> offset <= length && buffer == c[offset0..offset]
      decreases size
    {
      var chunk := Chunk(length, size, offset);
      if chunk <= 0 || (!(offset % SECTOR_SIZE == 0 && chunk == SECTOR_SIZE) && !memory) {
        break;
      }
      var data := ReadChunk(disk, start, length, size, offset);
      SliceJoin(c, offset0, offset, offset + chunk);
      buffer := buffer + data;
      size, offset := size - chunk, offset + chunk;
    }
  }

  /** Reads one chunk: a whole sector at once, part of one through the bounce buffer. */
  method ReadChunk(disk: seq<Sector>, start: nat, length: nat, size: nat, offset: nat) returns (data: seq<Byte>)
    requires HasData(disk, start, length) && size > 0 && offset < length
    ensures var n := |data|;
            && n == Chunk(length, size, offset) && 0 < n <= size && offset + n <= length
            && (n == size || offset + n == length || (offset + n) % SECTOR_SIZE == 0)
            && data == Contents(disk, start, length)[offset..offset + n]
  {
    var chunk := Chunk(length, size, offset);
    ChunkIs(length, size, offset);
    if offset % SECTOR_SIZE + chunk == SECTOR_SIZE { SectorEnd(offset, chunk); }
    ChunkInSector(disk, start, length, size, offset);
    var sector, ofs := start + offset / SECTOR_SIZE, offset % SECTOR_SIZE;
    if ofs == 0 && chunk == SECTOR_SIZE {
      assert disk[sector].bytes[0..SECTOR_SIZE] == disk[sector].bytes;
      data := disk[sector].bytes;
    } else {
      var bounce := disk[sector].bytes;
      data := bounce[ofs..ofs + chunk];
    }
  }

  // ------------------------------------------------------------------ writing

  /** `old` with `data` laid over it from `at` on. */
  function Overlaid(old_: seq<Byte>, at: nat, data: seq<Byte>): seq<Byte>
    requires at + |data| <= |old_|
  {
    old_[..at] + data + old_[at + |data|..]
  }

  /** `new_` has `data` from `at` on, and the bytes of `old_` everywhere else. */
  predicate Changed(old_: seq<Byte>, at: nat, data: seq<Byte>, new_: seq<Byte>) {
    && |new_| == |old_|
    && forall i | 0 <= i < |old_| :: new_[i] == if at <= i < at + |data| then data[i - at] else old_[i]
  }

  /** What a write of `data` at `offset` does to the disk: the file changes there and nothing else does. */
  ghost predicate Written(before: seq<Sector>, after: seq<Sector>, start: nat, length: nat, offset: nat, data: seq<Byte>)
    requires HasData(before, start, length) && offset + |data| <= length
  {
    && |after| == |before| && HasData(after, start, length)
    && (forall i | 0 <= i < |before| && !(start <= i < start + SectorsFor(length)) :: after[i] == before[i])
    && Changed(Contents(before, start, length), offset, data, Contents(after, start, length))
  }

  lemma ChunkWritten(disk: seq<Sector>, start: nat, length: nat, offset: nat, data: seq<Byte>)
    requires HasData(disk, start, length) && 0 < |data| && offset + |data| <= length
    requires offset % SECTOR_SIZE + |data| <= SECTOR_SIZE
    ensures var s, o := start + offset / SECTOR_SIZE, offset % SECTOR_SIZE;
            && s < start + SectorsFor(length) && IsData(disk[s])
            && Written(disk, disk[s := Data(Overlaid(disk[s].bytes, o, data))], start, length, offset, data)
  {
    var s, o := start + offset / SECTOR_SIZE, offset % SECTOR_SIZE;
    var after := disk[s := Data(Overlaid(disk[s].bytes, o, data))];
    var l, r := Contents(after, start, length), Contents(disk, start, length);
    forall i | 0 <= i < length ensures l[i] == if offset <= i < offset + |data| then data[i - offset] else r[i] {
      assert i / SECTOR_SIZE == offset / SECTOR_SIZE ==> i - offset == i % SECTOR_SIZE - o;
    }
  }

  lemma ChangedTwice(x: seq<Byte>, y: seq<Byte>, z: seq<Byte>, at: nat, a: seq<Byte>, b: seq<Byte>)
    requires Changed(x, at, a, y) && Changed(y, at + |a|, b, z)
    ensures Changed(x, at, a + b, z)
  {
  }

  lemma WrittenTwice(d0: seq<Sector>, d1: seq<Sector>, d2: seq<Sector>, start: nat, length: nat, offset: nat, a: seq<Byte>, b: seq<Byte>)
    requires HasData(d0, start, length) && offset + |a| + |b| <= length
    requires Written(d0, d1, start, length, offset, a) && Written(d1, d2, start, length, offset + |a|, b)
    ensures Written(d0, d2, start, length, offset, a + b)
  {
    ChangedTwice(Contents(d0, start, length), Contents(d1, start, length), Contents(d2, start, length), offset, a, b);
  }

  /** Writes up to `|buffer|` bytes at `offset`, unless writing is denied; files do not grow.  `memory` is
      as for reading. */
  method WriteAt(disk0: seq<Sector>, start: nat, length: nat, buffer: seq<Byte>, offset0: nat, denied: bool, memory: bool)
      returns (disk: seq<Sector>, n: nat)
    requires HasData(disk0, start, length)
    ensures Fits(length, |buffer|, offset0, n) && (denied ==> n == 0)
    ensures !denied && memory ==> Complete(length, |buffer|, offset0, n)
    ensures if n == 0 then disk == disk0 else Written(disk0, disk, start, length, offset0, buffer[..n])
  {
    disk, n := disk0, 0;
    if denied {
      return;
    }
    var size, offset := |buffer|, offset0;
    while size > 0
      invariant offset == offset0 + n && size == |buffer| - n && Fits(length, |buffer|, offset0, n)
      invariant if n == 0 then disk == disk0 else Written(disk0, disk, start, length, offset0, buffer[..n])
      decreases size
    {
      var chunk := Chunk(length, size, offset);
      if chunk <= 0 || (!(offset % SECTOR_SIZE == 0 && chunk == SECTOR_SIZE) && !memory) {
        break;
      }
      disk := WriteChunk(disk0, disk, start, length, buffer, offset0, n, chunk);
      size, offset, n := size - chunk, offset + chunk, n + chunk;
    }
  }

  /** Writes one chunk: a whole sector at once, part of one by reading, patching and writing it back. */
  method WriteChunk(ghost disk0: seq<Sector>, disk: seq<Sector>, start: nat, length: nat, buffer: seq<Byte>, offset0: nat,
                    done: nat, chunk: nat) returns (after: seq<Sector>)
    requires HasData(disk0, start, length) && done + chunk <= |buffer| && offset0 + done + chunk <= length
    requires if done == 0 then disk == disk0 else Written(disk0, disk, start, length, offset0, buffer[..done])
    requires 0 < chunk <= SECTOR_SIZE - (offset0 + done) % SECTOR_SIZE
    ensures Written(disk0, after, start, length, offset0, buffer[..done + chunk])
  {
    var offset := offset0 + done;
    var data := buffer[done..done + chunk];
    assert HasData(disk, start, length);
    after := PatchSector(disk, start, length, offset, data);
    TakeMore(buffer, done, done + chunk);
    FirstOrNext(disk0, disk, after, start, length, offset0, buffer[..done], data);
  }

  method PatchSector(disk: seq<Sector>, start: nat, length: nat, offset: nat, data: seq<Byte>) returns (after: seq<Sector>)
    requires HasData(disk, start, length) && 0 < |data| && offset + |data| <= length
    requires offset % SECTOR_SIZE + |data| <= SECTOR_SIZE
    ensures Written(disk, after, start, length, offset, data)
  {
    ChunkWritten(disk, start, length, offset, data);
    var sector, ofs := start + offset / SECTOR_SIZE, offset % SECTOR_SIZE;
    if ofs == 0 && |data| == SECTOR_SIZE {
      assert Overlaid(disk[sector].bytes, ofs, data) == data;
      after := disk[sector := Data(data)];
    } else {
      var bounce := disk[sector].bytes;
      after := disk[sector := Data(bounce[..ofs] + data + bounce[ofs + |data|..])];
    }
  }

  lemma FirstOrNext(d0: seq<Sector>, d1: seq<Sector>, d2: seq<Sector>, start: nat, length: nat, offset: nat, a: seq<Byte>, b: seq<Byte>)
    requires HasData(d0, start, length) && offset + |a| + |b| <= length
    requires if a == [] then d1 == d0 else Written(d0, d1, start, length, offset, a)
    requires HasData(d1, start, length) && Written(d1, d2, start, length, offset + |a|, b)
    ensures Written(d0, d2, start, length, offset, a + b)
  {
    if a == [] {
      assert a + b == b;
    } else {
      WrittenTwice(d0, d1, d2, start, length, offset, a, b);
    }
  }
}
