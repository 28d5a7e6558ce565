/** The file system: a flat directory of fixed-size files, which live on while they are open. */
module FileSystem {
  import opened Bitmap
  import opened FsInvariant
  import opened InodeData
  import opened Machine
  import opened Options
  import opened Seqs

  /** The first `count` free sectors in a row. */
  method FirstFit(used: seq<bool>, count: nat) returns (r: Scanned)
    ensures IsFirstGroup(used, 0, count, false, r)
  {
    var i := 0;
    while i + count <= |used|
      invariant forall j | 0 <= j < i && j + count <= |used| :: !AllAre(used, j, count, false)
      decreases |used| - i
    {
      if AllAre(used, i, count, false) {
        return Found(i);
      }
      i := i + 1;
    }
    return NotFound;
  }

  function FirstFree(used: seq<bool>): (i: nat)
    ensures i <= |used| && (i < |used| ==> !used[i]) && forall j | 0 <= j < i :: used[j]
  {
    if used == [] || !used[0] then 0 else 1 + FirstFree(used[1..])
  }

  /** Is there room for a header, and then for the data? */
  ghost predicate Room(used: seq<bool>, size: nat) {
    && FirstFree(used) < |used|
    && RoomFor(used[FirstFree(used) := true], SectorsFor(size))
  }

  ghost predicate RoomFor(used: seq<bool>, count: nat) {
    exists d | 0 <= d <= |used| - count :: AllAre(used, d, count, false)
  }

  /** A new inode of `size` zero bytes is on disk, and no file in `live` has noticed. */
  ghost predicate Prepared(disk0: seq<Sector>, used0: seq<bool>, disk: seq<Sector>, used: seq<bool>, live: set<nat>, s: nat, size: nat) {
    && s < |disk| == |disk0| == |used0| && !used0[s] && s !in live
    && SectorsOk(disk, used, live + {s}) && (forall t | t in live :: SameFile(disk0, disk, t))
    && (forall i: nat | i < |disk| && used0[i] :: used[i] && disk[i] == disk0[i])
    && Bytes(disk, s) == Zeros(size)
  }

  /** The new inode becomes a file once it has a name. */
  lemma Adopted(disk0: seq<Sector>, used0: seq<bool>, disk: seq<Sector>, used: seq<bool>, dir: seq<Slot>, dir': seq<Slot>,
                open: map<nat, Inode>, files: map<Handle, nat>, s: nat, size: nat)
    requires Inv(disk0, used0, dir, open, files, None) && Prepared(disk0, used0, disk, used, Live(dir, open), s, size)
    requires DirOk(dir') && Named(dir') == Named(dir) + {s}
    ensures Inv(disk, used, dir', open, files, None) && Live(dir', open) == Live(dir, open) + {s}
  {
    assert Live(dir', open) == Live(dir, open) + {s};
    forall t | t in open ensures t < |disk0| && disk[t] == disk0[t] { assert SameFile(disk0, disk, t); }
    OpenKept(disk0, disk, dir, dir', open, files, None);
  }

  /** Without a name it is as if it had never been, but for the data sectors, which stay marked. */
  lemma Withdrawn(disk0: seq<Sector>, used0: seq<bool>, disk: seq<Sector>, used: seq<bool>, dir: seq<Slot>,
                  open: map<nat, Inode>, files: map<Handle, nat>, s: nat, size: nat)
    requires Inv(disk0, used0, dir, open, files, None) && Prepared(disk0, used0, disk, used, Live(dir, open), s, size)
    ensures |used| == |disk| && Inv(disk, Filled(used, s, 1, false), dir, open, files, None)
  {
    forall t | t in open ensures t < |disk0| && disk[t] == disk0[t] { assert SameFile(disk0, disk, t); }
    OpenKept(disk0, disk, dir, dir, open, files, None);
    Scribbled(disk0, disk, used0, Filled(used, s, 1, false), Live(dir, open));
  }

  lemma Unharmed(disk: seq<Sector>, used: seq<bool>, live: set<nat>)
    requires SectorsOk(disk, used, live)
    ensures forall t | t in live :: SameFile(disk, disk, t)
  {
    Scribbled(disk, disk, used, used, live);
  }

  // ------------------------------------------------------------------ directory loops

  method FindName(dir: seq<Slot>, name: string) returns (i: nat)
    ensures i == FindSlot(dir, name)
  {
    i := 0;
    while i < |dir| && !(dir[i].inUse && dir[i].name == name)
      invariant i <= |dir| && FindSlot(dir, name) == i + FindSlot(dir[i..], name)
    {
      DropDrop(dir, i, i + 1);
      i := i + 1;
    }
  }

  method FindFree(dir: seq<Slot>) returns (i: nat)
    ensures i <= |dir| && (i < |dir| ==> !dir[i].inUse) && forall j | 0 <= j < i :: dir[j].inUse
  {
    i := 0;
    while i < |dir| && dir[i].inUse
      invariant i <= |dir| && forall j | 0 <= j < i :: dir[j].inUse
    {
      i := i + 1;
    }
  }

  /** A name can be added if it is good, new, and there is a slot for it. */
  ghost predicate CanName(dir: seq<Slot>, name: string) {
    ValidName(name) && Lookup(dir, name) == None && exists i | 0 <= i < |dir| :: !dir[i].inUse
  }

  method AddName(dir: seq<Slot>, name: string, s: nat) returns (ok: bool, after: seq<Slot>)
    requires DirOk(dir) && s !in Named(dir)
    ensures ok <==> CanName(dir, name)
    ensures ok ==> DirOk(after) && Named(after) == Named(dir) + {s}
    ensures ok ==> forall n :: Lookup(after, n) == if n == name then Some(s) else Lookup(dir, n)
  {
    after := dir;
    if name == "" || |name| > NAME_MAX {
      return false, dir;
    }
    var found := FindName(dir, name);
    if found < |dir| {
      return false, dir;
    }
    var i := FindFree(dir);
    if i == |dir| {
      return false, dir;
    }
    AddedOk(dir, i, name, s);
    NamedAdd(dir, i, Slot(s, name, true));
    forall n ensures Lookup(dir[i := Slot(s, name, true)], n) == if n == name then Some(s) else Lookup(dir, n) {
      LookupAdd(dir, i, name, s, n);
    }
    return true, dir[i := Slot(s, name, true)];
  }

  // ------------------------------------------------------------------ new inodes

  /** Writes a header and zeroed data to sectors that are free, and marks them. */
  method CreateInode(disk0: seq<Sector>, used0: seq<bool>, s: nat, size: nat, memory: bool)
      returns (ok: bool, disk: seq<Sector>, used: seq<bool>)
    requires |used0| == |disk0| && s < |disk0| && used0[s]
    ensures |used| == |disk| == |disk0|
    ensures ok <==> memory && RoomFor(used0, SectorsFor(size))
    ensures ok ==>
              && disk[s].Header? && disk[s].length == size
              && HasData(disk, disk[s].start, size) && Contents(disk, disk[s].start, size) == Zeros(size)
              && (forall i: nat | i < |disk| && disk[s].start <= i < disk[s].start + SectorsFor(size) :: !used0[i])
              && (forall i: nat | i < |disk| :: used[i] == (used0[i] || Owns(disk, s, i)))
              && (forall i: nat | i < |disk| && !Owns(disk, s, i) :: disk[i] == disk0[i])
  {
    ok, disk, used := false, disk0, used0;
    if !memory {
      return;
    }
    var n := SectorsFor(size);
    var r := FirstFit(used0, n);
    if r.NotFound? {
      return;
    }
    var start := r.index;
    assert AllAre(used0, start, n, false);
    used := Filled(used0, start, n, true);
    disk := ZeroSectors(disk0[s := Header(start, size)], start, n);
    ok := true;
  }

  method ZeroSectors(disk0: seq<Sector>, start: nat, n: nat) returns (disk: seq<Sector>)
    requires start + n <= |disk0|
    ensures |disk| == |disk0|
    ensures forall i | 0 <= i < |disk| :: disk[i] == if start <= i < start + n then Data(Zeros(SECTOR_SIZE)) else disk0[i]
  {
    disk := disk0;
    var i := 0;
    while i < n
      invariant i <= n && |disk| == |disk0|
      invariant forall k | 0 <= k < |disk| :: disk[k] == if start <= k < start + i then Data(Zeros(SECTOR_SIZE)) else disk0[k]
    {
      disk := disk[start + i := Data(Zeros(SECTOR_SIZE))];
      i := i + 1;
    }
  }

  /** Allocates a header sector and creates an inode there; if that fails, the sector is given back. */
  method AllocateInode(disk0: seq<Sector>, used0: seq<bool>, size: nat, memory: bool, ghost live: set<nat>)
      returns (r: Option<nat>, disk: seq<Sector>, used: seq<bool>)
    requires SectorsOk(disk0, used0, live)
    ensures r.Some? <==> memory && Room(used0, size)
    ensures r.Some? ==> Prepared(disk0, used0, disk, used, live, r.value, size)
  {
    r, disk, used := None, disk0, used0;
    var first := FirstFit(used0, 1);
    FirstClear(used0, first);
    if first.NotFound? {
      return;
    }
    var s := first.index;
    assert FirstFree(used0) == s;
    var marked := Filled(used0, s, 1, true);
    var ok;
    ok, disk, used := CreateInode(disk0, marked, s, size, memory);
    if ok {
      forall i: nat | i < |disk| && used0[i] ensures !Owns(disk, s, i) { assert marked[i]; }
      Founded(disk0, disk, used0, used, live, s, disk[s].start, size);
      assert IsFile(disk, s);
      r := Some(s);
    }
  }

  // ------------------------------------------------------------------ closing inodes

  /** What closing an inode leaves: if it was the last time and the file has no name, its sectors are free. */
  ghost predicate IsClosed(disk: seq<Sector>, used: seq<bool>, used': seq<bool>, dir: seq<Slot>, open: map<nat, Inode>,
                           open': map<nat, Inode>, s: nat, gone: bool)
  {
    && Live(dir, open') == (if gone then Live(dir, open) - {s} else Live(dir, open))
    && |used'| == |used| == |disk| && s < |disk| && disk[s].Header?
    && forall i: nat | i < |used| :: used'[i] == (used[i] && !(gone && Owns(disk, s, i)))
  }

  /** Takes an inode out of use; if it was removed, its sectors become free. */
  method CloseInode(ghost disk: seq<Sector>, used: seq<bool>, ghost dir: seq<Slot>, open: map<nat, Inode>,
                    ghost files: map<Handle, nat>, s: nat)
      returns (used': seq<bool>, open': map<nat, Inode>)
    requires Inv(disk, used, dir, open, files, Some(s))
    ensures Inv(disk, used', dir, open', files, None)
    ensures IsClosed(disk, used, used', dir, open, open', s, HandlesOf(files, s) == {} && s !in Named(dir))
  {
    assert InodeOk(disk, dir, open, files, Some(s), s) && FileOk(disk, used, s);
    used' := used;
    var inode := open[s];
    if inode.openCount > 1 {
      LetGo(disk, dir, open, files, s);
      open' := open[s := inode.(openCount := inode.openCount - 1)];
      assert Live(dir, open') == Live(dir, open);
      return;
    }
    Closed(disk, dir, open, files, s);
    open' := open - {s};
    if inode.removed {
      used' := Filled(used, s, 1, false);
      used' := Filled(used', inode.start, SectorsFor(inode.length), false);
      Released(disk, used, used', Live(dir, open), s);
      assert Live(dir, open) - {s} == Live(dir, open');
    } else {
      assert Live(dir, open) == Live(dir, open');
    }
  }

  /** Opens an inode that has a name: one more opener, or the first. */
  method OpenInode(disk: seq<Sector>, ghost used: seq<bool>, ghost dir: seq<Slot>, open: map<nat, Inode>,
                   ghost files: map<Handle, nat>, s: nat)
      returns (open': map<nat, Inode>)
    requires Inv(disk, used, dir, open, files, None) && s in Named(dir)
    ensures Inv(disk, used, dir, open', files, Some(s)) && Live(dir, open') == Live(dir, open)
  {
    Held(disk, used, dir, open, files, s);
    if s in open {
      open' := open[s := open[s].(openCount := open[s].openCount + 1)];
    } else {
      open' := open[s := Inode(1, false, disk[s].start, disk[s].length)];
    }
    assert Live(dir, open') == Live(dir, open);
  }

  /** Clears a directory slot and marks the inode, which the kernel holds, as removed. */
  method EraseName(ghost disk: seq<Sector>, ghost used: seq<bool>, dir: seq<Slot>, open: map<nat, Inode>,
                   ghost files: map<Handle, nat>, i: nat, s: nat)
      returns (dir': seq<Slot>, open': map<nat, Inode>)
    requires Inv(disk, used, dir, open, files, Some(s)) && i < |dir| && dir[i].inUse && dir[i].sector == s
    ensures Inv(disk, used, dir', open', files, Some(s)) && Live(dir', open') == Live(dir, open) && s !in Named(dir')
    ensures forall n :: Lookup(dir', n) == if n == dir[i].name then None else Lookup(dir, n)
  {
    Unnamed(disk, dir, open, files, s, i);
    NamedRemove(dir, i);
    dir', open' := dir[i := dir[i].(inUse := false)], open[s := open[s].(removed := true)];
    forall n ensures Lookup(dir', n) == if n == dir[i].name then None else Lookup(dir, n) {
      LookupRemove(dir, i, n);
    }
    LookupRemove(dir, i, dir[i].name);
  }

  /** What removing a file leaves: if it is not open, its sectors are free. */
  ghost predicate IsRemoved(disk: seq<Sector>, used: seq<bool>, used': seq<bool>, dir: seq<Slot>, dir': seq<Slot>,
                            open: map<nat, Inode>, open': map<nat, Inode>, s: nat, gone: bool)
  {
    && Live(dir', open') == (if gone then Live(dir, open) - {s} else Live(dir, open)) && s !in Named(dir')
    && |used'| == |used| == |disk| && s < |disk| && disk[s].Header?
    && forall i: nat | i < |used| :: used'[i] == (used[i] && !(gone && Owns(disk, s, i)))
  }

  /** Opens the inode, erases its name and closes it again. */
  method RemoveSlot(disk: seq<Sector>, used: seq<bool>, dir: seq<Slot>, open: map<nat, Inode>, ghost files: map<Handle, nat>,
                    i: nat, s: nat)
      returns (dir': seq<Slot>, open': map<nat, Inode>, used': seq<bool>)
    requires Inv(disk, used, dir, open, files, None) && i < |dir| && dir[i].inUse && dir[i].sector == s && s in Named(dir)
    ensures Inv(disk, used', dir', open', files, None)
    ensures IsRemoved(disk, used, used', dir, dir', open, open', s, HandlesOf(files, s) == {})
    ensures forall n :: Lookup(dir', n) == if n == dir[i].name then None else Lookup(dir, n)
  {
    open' := OpenInode(disk, used, dir, open, files, s);
    dir', open' := EraseName(disk, used, dir, open', files, i, s);
    used', open' := CloseInode(disk, used, dir', open', files, s);
  }

  // ------------------------------------------------------------------ denying writes

  /** The handles on the file at `s` through which writing is denied. */
  ghost function DenyingOf(files: map<Handle, nat>, denying: set<Handle>, s: nat): set<Handle> {
    set h | h in denying && h in files && files[h] == s
  }

  function CountAt(counts: map<nat, nat>, s: nat): nat {
    if s in counts then counts[s] else 0
  }

  /** Each file counts how many handles deny writing to it. */
  ghost predicate DenyOk(files: map<Handle, nat>, denying: set<Handle>, counts: map<nat, nat>) {
    denying <= files.Keys && forall s: nat {:trigger CountOk(files, denying, counts, s)} :: CountOk(files, denying, counts, s)
  }

  ghost predicate CountOk(files: map<Handle, nat>, denying: set<Handle>, counts: map<nat, nat>, s: nat) {
    CountAt(counts, s) == |DenyingOf(files, denying, s)|
  }

  lemma DenyAdded(files: map<Handle, nat>, denying: set<Handle>, counts: map<nat, nat>, h: Handle)
    requires DenyOk(files, denying, counts) && h in files && h !in denying
    ensures DenyOk(files, denying + {h}, counts[files[h] := CountAt(counts, files[h]) + 1])
  {
    var more, counts' := denying + {h}, counts[files[h] := CountAt(counts, files[h]) + 1];
    forall s: nat ensures CountOk(files, more, counts', s) {
      assert CountOk(files, denying, counts, s);
      assert DenyingOf(files, more, s) == if s == files[h] then DenyingOf(files, denying, s) + {h} else DenyingOf(files, denying, s);
    }
  }

  lemma DenyDropped(files: map<Handle, nat>, denying: set<Handle>, counts: map<nat, nat>, h: Handle)
    requires DenyOk(files, denying, counts) && h in denying
    ensures CountAt(counts, files[h]) > 0 && DenyOk(files, denying - {h}, counts[files[h] := CountAt(counts, files[h]) - 1])
  {
    assert h in DenyingOf(files, denying, files[h]) && CountOk(files, denying, counts, files[h]);
    var fewer, counts' := denying - {h}, counts[files[h] := CountAt(counts, files[h]) - 1];
    forall s: nat ensures CountOk(files, fewer, counts', s) {
      assert CountOk(files, denying, counts, s);
      assert DenyingOf(files, fewer, s) == if s == files[h] then DenyingOf(files, denying, s) - {h} else DenyingOf(files, denying, s);
    }
  }

  /** Handles that do not deny come and go. */
  lemma DenySame(files: map<Handle, nat>, after: map<Handle, nat>, denying: set<Handle>, counts: map<nat, nat>)
    requires DenyOk(files, denying, counts) && forall h | h in denying :: h in after && after[h] == files[h]
    ensures DenyOk(after, denying, counts)
  {
    forall s: nat ensures CountOk(after, denying, counts, s) {
      assert CountOk(files, denying, counts, s);
      assert DenyingOf(after, denying, s) == DenyingOf(files, denying, s);
    }
  }

  lemma NobodyDenies(files: map<Handle, nat>, denying: set<Handle>, counts: map<nat, nat>, s: nat)
    requires DenyOk(files, denying, counts)
    ensures CountAt(counts, s) > 0 <==> exists h | h in denying :: files[h] == s
  {
    assert CountOk(files, denying, counts, s);
    if h :| h in denying && files[h] == s { assert h in DenyingOf(files, denying, s); }
    if CountAt(counts, s) > 0 {
      var h :| h in DenyingOf(files, denying, s);
    }
  }

  /** No more handles deny writing than are open, as both functions that count insist. */
  lemma {:induction false} Fewer(a: set<Handle>, b: set<Handle>)
    requires a <= b
    ensures |a| <= |b|
    decreases a
  {
    if a != {} {
      var x :| x in a;
      Fewer(a - {x}, b - {x});
    }
  }

  class FileSystem {
    var disk: seq<Sector>
    /** The free map: which sectors are in use. */
    var used: seq<bool>
    /** The root directory, which never grows. */
    var dir: seq<Slot>
    /** The open inodes, by the sector of their header, and the open files. */
    var open: map<nat, Inode>
    var files: map<Handle, nat>
    var nextHandle: Handle
    /** The handles through which writing is denied, and how many there are for each inode. */
    var denying: set<Handle>
    var denyCount: map<nat, nat>

    ghost predicate Valid()
      reads this
    {
      && Inv(disk, used, dir, open, files, None) && (forall h | h in files :: h < nextHandle)
      && DenyOk(files, denying, denyCount)
    }

    ghost function LiveFiles(): set<nat>
      reads this
    {
      Live(dir, open)
    }

    /** A formatted disk: some sectors are taken, among them the headers of the free map and of the root
        directory, and there are no files. */
    constructor (disk: seq<Sector>, taken: set<nat>, entries: nat)
      requires |disk| >= 2 && 0 in taken && 1 in taken
      ensures Valid() && LiveFiles() == {} && |dir| == entries && forall n :: Lookup(dir, n) == None
    {
      this.disk := disk;
      used := seq(|disk|, i => i in taken);
      dir := seq(entries, _ => Slot(0, "", false));
      open, files, nextHandle, denying, denyCount := map[], map[], 0, {}, map[];
    }

    /** Creates a file of `size` zero bytes.  It works exactly if the name can be added and there is
        memory and room for it; if it does not, nothing that names or handles reach changes. */
    method Create(name: string, size: nat, memory: bool) returns (ok: bool, ghost s: nat)
      requires Valid()
      modifies this`disk, this`used, this`dir
      ensures Valid() && forall t | t in old(LiveFiles()) :: SameFile(old(disk), disk, t)
      ensures ok <==>
                && memory && Room(old(used), size) && 1 <= |name| <= 14
                && (forall i | 0 <= i < |old(dir)| && old(dir)[i].inUse :: old(dir)[i].name != name)
                && (exists i | 0 <= i < |old(dir)| :: !old(dir)[i].inUse)
      ensures !ok ==> dir == old(dir)
      ensures ok ==> forall n :: Lookup(dir, n) == if n == name then Some(s) else Lookup(old(dir), n)
      ensures ok ==> s !in old(LiveFiles()) && LiveFiles() == old(LiveFiles()) + {s} && Bytes(disk, s) == Zeros(size)
    {
      Unharmed(disk, used, LiveFiles());
      var r, disk', used' := AllocateInode(disk, used, size, memory, LiveFiles());
      if r.None? {
        return false, 0;
      }
      s := r.value;
      var dir';
      ok, dir' := AddName(dir, name, r.value);
      if ok {
        Adopted(disk, used, disk', used', dir, dir', open, files, s, size);
        disk, used, dir := disk', used', dir';
      } else {
        Withdrawn(disk, used, disk', used', dir, open, files, s, size);
        disk, used := disk', Filled(used', r.value, 1, false);
      }
    }

    /** Opens a file by name. */
    method Open(name: string, memory: bool) returns (r: Option<Handle>)
      requires Valid()
      modifies this`open, this`files, this`nextHandle
      ensures Valid() && LiveFiles() == old(LiveFiles())
      ensures r.Some? <==> memory && Lookup(dir, name).Some?
      ensures if r.Some? then r.value !in old(files) && files == old(files)[r.value := Lookup(dir, name).value]
              else files == old(files)
    {
      var i := FindName(dir, name);
      if i == |dir| || !memory {
        return None;
      }
      var s := dir[i].sector;
      assert s in Named(dir);
      var open' := OpenInode(disk, used, dir, open, files, s);
      HandleAdded(disk, dir, open', files, s, nextHandle);
      DenySame(files, files[nextHandle := s], denying, denyCount);
      r := Some(nextHandle);
      open, files, nextHandle := open', files[nextHandle := s], nextHandle + 1;
    }

    /** Nobody can write to the file until this handle allows it again or is closed. */
    method DenyWrite(h: Handle)
      requires Valid() && h in files
      modifies this`denying, this`denyCount
      ensures Valid() && denying == old(denying) + {h}
      ensures files[h] in open && CountAt(denyCount, files[h]) <= open[files[h]].openCount
    {
      if h !in denying {
        DenyAdded(files, denying, denyCount, h);
        denyCount := denyCount[files[h] := CountAt(denyCount, files[h]) + 1];
        denying := denying + {h};
      }
      assert InodeOk(disk, dir, open, files, None, files[h]) && CountOk(files, denying, denyCount, files[h]);
      Fewer(DenyingOf(files, denying, files[h]), HandlesOf(files, files[h]));
    }

    method AllowWrite(h: Handle)
      requires Valid() && h in files
      modifies this`denying, this`denyCount
      ensures Valid() && denying == old(denying) - {h}
    {
      if h in denying {
        DenyDropped(files, denying, denyCount, h);
        denyCount := denyCount[files[h] := CountAt(denyCount, files[h]) - 1];
        denying := denying - {h};
      }
    }

    /** Closes a file.  If that was the last handle on a file without a name, its sectors become free, and
        otherwise nothing else changes. */
    method Close(h: Handle)
      requires Valid() && h in files
      modifies this`open, this`files, this`used, this`denying, this`denyCount
      ensures Valid() && files == old(files) - {h} && denying == old(denying) - {h}
      ensures var s := old(files)[h];
              IsClosed(disk, old(used), used, dir, old(open), open, s, HandlesOf(files, s) == {} && s !in Named(dir))
    {
      AllowWrite(h);
      Detach(h);
    }

    method Detach(h: Handle)
      requires Valid() && h in files && h !in denying
      modifies this`open, this`files, this`used
      ensures Valid() && files == old(files) - {h}
      ensures var s := old(files)[h];
              IsClosed(disk, old(used), used, dir, old(open), open, s, HandlesOf(files, s) == {} && s !in Named(dir))
    {
      var s := files[h];
      HandleDropped(disk, dir, open, files, h);
      DenySame(files, files - {h}, denying, denyCount);
      var used', open' := CloseInode(disk, used, dir, open, files - {h}, s);
      used, open, files := used', open', files - {h};
    }

    /** Takes a file's name away.  Its bytes stay while it is open; if it is not, its sectors become free. */
    method Remove(name: string, memory: bool) returns (ok: bool)
      requires Valid()
      modifies this`dir, this`open, this`used
      ensures Valid() && (ok <==> memory && Lookup(old(dir), name).Some?)
      ensures !ok ==> dir == old(dir) && open == old(open) && used == old(used)
      ensures ok ==> forall n :: Lookup(dir, n) == if n == name then None else Lookup(old(dir), n)
      ensures ok ==>
                var s := Lookup(old(dir), name).value;
                IsRemoved(disk, old(used), used, old(dir), dir, old(open), open, s, HandlesOf(files, s) == {})
    {
      var i := FindName(dir, name);
      if i == |dir| || !memory {
        return false;
      }
      var s := dir[i].sector;
      assert s in Named(dir);
      dir, open, used := RemoveSlot(disk, used, dir, open, files, i, s);
      ok := true;
    }

    /** Reads from an open file, named or not. */
    method Read(h: Handle, size: nat, offset: nat, memory: bool) returns (buffer: seq<Byte>)
      requires Valid() && h in files
      ensures var bytes := Bytes(disk, files[h]);
              && |buffer| <= size && (|buffer| > 0 ==> offset + |buffer| <= |bytes|)
              && (memory && |buffer| < size ==> offset + |buffer| >= |bytes|)
              && (|buffer| > 0 ==> buffer == bytes[offset..offset + |buffer|])
    {
      var s := files[h];
      assert InodeOk(disk, dir, open, files, None, s) && FileOk(disk, used, s);
      buffer := ReadAt(disk, open[s].start, open[s].length, size, offset, memory);
    }

    /** Writes to an open file, unless some handle on it denies that; the bytes land there and every other
        file is unharmed. */
    method Write(h: Handle, buffer: seq<Byte>, offset: nat, memory: bool) returns (n: nat)
      requires Valid() && h in files
      modifies this`disk
      ensures Valid()
      ensures var before := old(Bytes(disk, files[h]));
              var denied := exists g | g in denying :: files[g] == files[h];
              && n <= |buffer| && (n > 0 ==> offset + n <= |before|) && (denied ==> n == 0)
              && (memory && !denied && n < |buffer| ==> offset + n >= |before|)
              && var after := Bytes(disk, files[h]);
              && |after| == |before|
              && forall i | 0 <= i < |before| :: after[i] == if offset <= i < offset + n then buffer[i - offset] else before[i]
      ensures forall t | t in LiveFiles() && t != files[h] :: SameFile(old(disk), disk, t)
    {
      var s := files[h];
      assert InodeOk(disk, dir, open, files, None, s) && FileOk(disk, used, s);
      var disk';
      NobodyDenies(files, denying, denyCount, s);
      disk', n := WriteAt(disk, open[s].start, open[s].length, buffer, offset, CountAt(denyCount, s) > 0, memory);
      if n == 0 {
        Unharmed(disk, used, LiveFiles());
      } else {
        WriteKeeps(disk, disk', used, dir, open, files, s, offset, buffer[..n]);
        disk := disk';
      }
    }
  }
}
