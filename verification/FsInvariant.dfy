/** What the file system keeps true: which file owns which sectors, and what its names, open inodes and
    handles stand for. */
module FsInvariant {
  import opened InodeData
  import opened Machine
  import opened Options

  const NAME_MAX: nat := 14

  /** A slot of the root directory. */
  datatype Slot = Slot(sector: nat, name: string, inUse: bool)

  /** An inode in memory. */
  datatype Inode = Inode(openCount: nat, removed: bool, start: nat, length: nat)

  type Handle = nat

  // ------------------------------------------------------------------ the directory

  predicate ValidName(name: string) { 1 <= |name| <= NAME_MAX }

  /** The first slot in use under this name, or the number of slots. */
  function FindSlot(dir: seq<Slot>, name: string): (i: nat)
    ensures i <= |dir|
    ensures i < |dir| ==> dir[i].inUse && dir[i].name == name
    ensures forall j | 0 <= j < i :: !(dir[j].inUse && dir[j].name == name)
  {
    if dir == [] || (dir[0].inUse && dir[0].name == name) then 0 else 1 + FindSlot(dir[1..], name)
  }

  predicate DirOk(dir: seq<Slot>) {
    && (forall i | 0 <= i < |dir| && dir[i].inUse :: ValidName(dir[i].name))
    && (forall i, j | 0 <= i < j < |dir| && dir[i].inUse && dir[j].inUse ::
          dir[i].name != dir[j].name && dir[i].sector != dir[j].sector)
  }

  /** The directory as a map from names to files; a file is known by the sector of its header. */
  function Lookup(dir: seq<Slot>, name: string): Option<nat> {
    var i := FindSlot(dir, name);
    if i < |dir| then Some(dir[i].sector) else None
  }

  /** The files that have a name. */
  function Named(dir: seq<Slot>): set<nat> {
    set i | 0 <= i < |dir| && dir[i].inUse :: dir[i].sector
  }

  lemma FindAt(dir: seq<Slot>, i: nat)
    requires DirOk(dir) && i < |dir| && dir[i].inUse
    ensures FindSlot(dir, dir[i].name) == i
  {
  }

  /** Where a slot is found, or that it is not, determines the lookup. */
  lemma LookupAt(dir: seq<Slot>, name: string, i: nat)
    requires DirOk(dir) && i < |dir| && dir[i].inUse && dir[i].name == name
    ensures Lookup(dir, name) == Some(dir[i].sector)
  {
    FindAt(dir, i);
  }

  lemma LookupNone(dir: seq<Slot>, name: string)
    requires forall j | 0 <= j < |dir| :: !(dir[j].inUse && dir[j].name == name)
    ensures Lookup(dir, name) == None
  {
  }

  /** Two directories with the same slots under a name agree on it. */
  lemma LookupSame(a: seq<Slot>, b: seq<Slot>, name: string)
    requires DirOk(a) && DirOk(b) && |a| == |b|
    requires forall j | 0 <= j < |a| ::
               (a[j].inUse && a[j].name == name <==> b[j].inUse && b[j].name == name) &&
               (a[j].inUse && a[j].name == name ==> a[j].sector == b[j].sector)
    ensures Lookup(a, name) == Lookup(b, name)
  {
    var i := FindSlot(a, name);
    if i < |a| { LookupAt(b, name, i); } else { LookupNone(b, name); }
  }

  lemma AddedOk(dir: seq<Slot>, i: nat, name: string, sector: nat)
    requires DirOk(dir) && i < |dir| && !dir[i].inUse && Lookup(dir, name) == None && sector !in Named(dir) && ValidName(name)
    ensures DirOk(dir[i := Slot(sector, name, true)])
  {
    forall j | 0 <= j < |dir| && dir[j].inUse ensures dir[j].name != name && dir[j].sector != sector {
      assert dir[j].sector in Named(dir);
    }
  }

  /** Filling a free slot adds one name. */
  lemma LookupAdd(dir: seq<Slot>, i: nat, name: string, sector: nat, n: string)
    requires DirOk(dir) && i < |dir| && !dir[i].inUse && Lookup(dir, name) == None && sector !in Named(dir) && ValidName(name)
    ensures Lookup(dir[i := Slot(sector, name, true)], n) == if n == name then Some(sector) else Lookup(dir, n)
  {
    AddedOk(dir, i, name, sector);
    var after := dir[i := Slot(sector, name, true)];
    if n == name { LookupAt(after, name, i); } else { LookupSame(after, dir, n); }
  }

  lemma NamedAdd(dir: seq<Slot>, i: nat, slot: Slot)
    requires i < |dir| && !dir[i].inUse && slot.inUse
    ensures Named(dir[i := slot]) == Named(dir) + {slot.sector}
  {
    var after := dir[i := slot];
    forall s | s in Named(dir) + {slot.sector} ensures s in Named(after) {
      if s == slot.sector {
        assert after[i].sector in Named(after);
      } else {
        var j :| 0 <= j < |dir| && dir[j].inUse && dir[j].sector == s;
        assert after[j].sector in Named(after);
      }
    }
  }

  /** Clearing a slot takes one name away. */
  lemma LookupRemove(dir: seq<Slot>, i: nat, n: string)
    requires DirOk(dir) && i < |dir| && dir[i].inUse
    ensures var after := dir[i := dir[i].(inUse := false)];
            DirOk(after) && Lookup(after, n) == if n == dir[i].name then None else Lookup(dir, n)
  {
    var after := dir[i := dir[i].(inUse := false)];
    if n == dir[i].name { LookupNone(after, n); } else { LookupSame(after, dir, n); }
  }

  lemma NamedRemove(dir: seq<Slot>, i: nat)
    requires DirOk(dir) && i < |dir| && dir[i].inUse
    ensures Named(dir[i := dir[i].(inUse := false)]) == Named(dir) - {dir[i].sector}
  {
    var after := dir[i := dir[i].(inUse := false)];
    forall s | s in Named(dir) - {dir[i].sector} ensures s in Named(after) {
      var j :| 0 <= j < |dir| && dir[j].inUse && dir[j].sector == s;
      assert after[j].sector in Named(after);
    }
  }

  // ------------------------------------------------------------------ ownership

  /** Sectors that belong to the file whose header is in sector `s`: the header and the data. */
  predicate Owns(disk: seq<Sector>, s: nat, i: nat)
    requires s < |disk| && disk[s].Header?
  {
    i == s || disk[s].start <= i < disk[s].start + SectorsFor(disk[s].length)
  }

  /** A file is all there, its sectors are marked used, and they are not the two reserved ones. */
  ghost predicate FileOk(disk: seq<Sector>, used: seq<bool>, s: nat)
    requires |used| == |disk|
  {
    IsFile(disk, s) && forall i: nat {:trigger Owns(disk, s, i)} | i < |disk| && Owns(disk, s, i) :: used[i] && i >= 2
  }

  ghost predicate FilesOk(disk: seq<Sector>, used: seq<bool>, live: set<nat>)
    requires |used| == |disk|
  {
    forall s {:trigger FileOk(disk, used, s)} | s in live :: FileOk(disk, used, s)
  }

  /** No sector has two owners. */
  ghost predicate Disjoint(disk: seq<Sector>, live: set<nat>)
    requires forall s | s in live :: s < |disk| && disk[s].Header?
  {
    forall s, t, i: nat {:trigger Owns(disk, s, i), Owns(disk, t, i)} |
      s in live && t in live && Owns(disk, s, i) && Owns(disk, t, i) :: s == t
  }

  ghost predicate SectorsOk(disk: seq<Sector>, used: seq<bool>, live: set<nat>) {
    && |used| == |disk| && |disk| >= 2 && used[0] && used[1]
    && FilesOk(disk, used, live) && (forall s | s in live :: s < |disk| && disk[s].Header?) && Disjoint(disk, live)
  }

  ghost predicate IsFile(disk: seq<Sector>, s: nat) {
    s < |disk| && disk[s].Header? && HasData(disk, disk[s].start, disk[s].length)
  }

  /** The bytes of a file. */
  ghost function Bytes(disk: seq<Sector>, s: nat): seq<Byte> {
    if IsFile(disk, s) then Contents(disk, disk[s].start, disk[s].length) else []
  }

  /** File `t` is the same on both disks. */
  ghost predicate SameFile(a: seq<Sector>, b: seq<Sector>, t: nat) {
    IsFile(a, t) && IsFile(b, t) && b[t] == a[t] && Bytes(b, t) == Bytes(a, t)
  }

  /** A file keeps its bytes when none of its sectors changes. */
  lemma BytesKept(a: seq<Sector>, b: seq<Sector>, used: seq<bool>, s: nat)
    requires |used| == |a| == |b| && FileOk(a, used, s)
    requires forall i: nat | i < |a| && Owns(a, s, i) :: b[i] == a[i]
    ensures SameFile(a, b, s) && FileOk(b, used, s)
  {
    assert Owns(a, s, s);
    var start, n := a[s].start, SectorsFor(a[s].length);
    forall i | start <= i < start + n ensures b[i] == a[i] { assert Owns(a, s, i); }
    forall i: nat | i < |b| && Owns(b, s, i) ensures used[i] && i >= 2 { assert Owns(a, s, i); }
  }

  /** Dropping a file from the set, or clearing sectors that no remaining file owns. */
  lemma Released(disk: seq<Sector>, used: seq<bool>, after: seq<bool>, live: set<nat>, s: nat)
    requires SectorsOk(disk, used, live) && s in live && |after| == |used|
    requires forall i: nat | i < |disk| :: after[i] == (used[i] && !Owns(disk, s, i))
    ensures SectorsOk(disk, after, live - {s})
  {
    assert FileOk(disk, used, s);
    forall t | t in live - {s} ensures FileOk(disk, after, t) {
      assert FileOk(disk, used, t);
      forall i: nat | i < |disk| && Owns(disk, t, i) ensures after[i] && i >= 2 {
        assert !Owns(disk, s, i);
      }
    }
  }

  /** Writing inside one file leaves the others alone. */
  lemma OtherFiles(a: seq<Sector>, b: seq<Sector>, used: seq<bool>, live: set<nat>, s: nat)
    requires SectorsOk(a, used, live) && s in live && |b| == |a|
    requires b[s] == a[s] && HasData(b, a[s].start, a[s].length)
    requires forall i: nat | i < |a| && !Owns(a, s, i) :: b[i] == a[i]
    ensures SectorsOk(b, used, live)
    ensures forall t | t in live && t != s :: SameFile(a, b, t)
  {
    assert FileOk(a, used, s);
    forall t | t in live
      ensures b[t] == a[t] && FileOk(b, used, t) && (t != s ==> SameFile(a, b, t))
    {
      assert FileOk(a, used, t);
      if t == s {
        forall i: nat | i < |b| && Owns(b, s, i) ensures used[i] && i >= 2 { assert Owns(a, s, i); }
      } else {
        forall i: nat | i < |a| && Owns(a, t, i) ensures b[i] == a[i] { assert !Owns(a, s, i); }
        BytesKept(a, b, used, t);
      }
    }
    forall s, t, i: nat | s in live && t in live && Owns(b, s, i) && Owns(b, t, i) ensures s == t {
      assert Owns(a, s, i) && Owns(a, t, i);
    }
  }

  /** Sectors that are not in use may be scribbled on, and marked. */
  lemma Scribbled(a: seq<Sector>, b: seq<Sector>, used: seq<bool>, after: seq<bool>, live: set<nat>)
    requires SectorsOk(a, used, live) && |a| == |b| == |after|
    requires forall i: nat | i < |a| && used[i] :: after[i] && b[i] == a[i]
    ensures SectorsOk(b, after, live) && forall t | t in live :: SameFile(a, b, t)
  {
    forall t | t in live ensures SameFile(a, b, t) && FileOk(b, after, t) {
      assert FileOk(a, used, t);
      BytesKept(a, b, used, t);
      assert FileOk(b, used, t);
    }
    forall s, t, i: nat | s in live && t in live && Owns(b, s, i) && Owns(b, t, i) ensures s == t {
      assert SameFile(a, b, s) && SameFile(a, b, t);
      assert Owns(a, s, i) && Owns(a, t, i);
    }
  }

  /** A new file on sectors that were free. */
  lemma Founded(a: seq<Sector>, b: seq<Sector>, used: seq<bool>, after: seq<bool>, live: set<nat>, s: nat, start: nat, length: nat)
    requires SectorsOk(a, used, live) && |a| == |b| == |after| && s < |a| && !used[s]
    requires b[s] == Header(start, length) && HasData(b, start, length)
    requires forall i: nat | i < |a| && start <= i < start + SectorsFor(length) :: !used[i] && i != s
    requires forall i: nat | i < |a| :: after[i] == (used[i] || Owns(b, s, i))
    requires forall i: nat | i < |a| && used[i] :: b[i] == a[i]
    ensures s !in live && SectorsOk(b, after, live + {s})
    ensures forall t | t in live :: SameFile(a, b, t)
  {
    forall t | t in live
      ensures t != s && SameFile(a, b, t) && FileOk(b, after, t)
      ensures forall i: nat | Owns(a, t, i) :: i < |a| && used[i]
    {
      assert FileOk(a, used, t);
      assert Owns(a, t, t);
      BytesKept(a, b, used, t);
    }
    assert FileOk(b, after, s);
    assert FilesOk(b, after, live + {s});
    FoundedApart(a, b, used, live, s);
  }

  lemma FoundedApart(a: seq<Sector>, b: seq<Sector>, used: seq<bool>, live: set<nat>, s: nat)
    requires |a| == |b| == |used| && (forall t | t in live :: t < |a| && a[t].Header? && b[t] == a[t]) && Disjoint(a, live)
    requires s < |b| && b[s].Header? && s !in live
    requires forall t, i: nat {:trigger Owns(a, t, i)} | t in live && Owns(a, t, i) :: i < |used| && used[i]
    requires forall i: nat {:trigger Owns(b, s, i)} | Owns(b, s, i) :: i < |used| && !used[i]
    ensures Disjoint(b, live + {s})
  {
    forall u, t, i: nat | u in live + {s} && t in live + {s} && Owns(b, u, i) && Owns(b, t, i) ensures u == t {
      assert u != s ==> Owns(a, u, i);
      assert t != s ==> Owns(a, t, i);
    }
  }

  // ------------------------------------------------------------------ open inodes and handles

  ghost function HandlesOf(files: map<Handle, nat>, s: nat): set<Handle> {
    set h | h in files && files[h] == s
  }

  /** An inode counts its handles, plus one while the kernel itself holds it, and has been removed exactly
      if it has no name. */
  ghost predicate InodeOk(disk: seq<Sector>, dir: seq<Slot>, open: map<nat, Inode>, files: map<Handle, nat>, held: Option<nat>, s: nat)
    requires s in open
  {
    var inode := open[s];
    && s < |disk| && disk[s] == Header(inode.start, inode.length)
    && inode.openCount == |HandlesOf(files, s)| + (if held == Some(s) then 1 else 0) && inode.openCount >= 1
    && (inode.removed <==> s !in Named(dir))
  }

  ghost predicate OpenOk(disk: seq<Sector>, dir: seq<Slot>, open: map<nat, Inode>, files: map<Handle, nat>, held: Option<nat>) {
    && (forall s {:trigger InodeOk(disk, dir, open, files, held, s)} | s in open :: InodeOk(disk, dir, open, files, held, s))
    && (forall h | h in files :: files[h] in open)
    && (held.Some? ==> held.value in open)
  }

  /** The files there are: those with a name and those that are open. */
  ghost function Live(dir: seq<Slot>, open: map<nat, Inode>): set<nat> {
    Named(dir) + open.Keys
  }

  ghost predicate Inv(disk: seq<Sector>, used: seq<bool>, dir: seq<Slot>, open: map<nat, Inode>, files: map<Handle, nat>,
                      held: Option<nat>)
  {
    DirOk(dir) && SectorsOk(disk, used, Live(dir, open)) && OpenOk(disk, dir, open, files, held)
  }

  /** A new handle takes over what the kernel held. */
  lemma HandleAdded(disk: seq<Sector>, dir: seq<Slot>, open: map<nat, Inode>, files: map<Handle, nat>, s: nat, h: Handle)
    requires OpenOk(disk, dir, open, files, Some(s)) && h !in files
    ensures OpenOk(disk, dir, open, files[h := s], None)
  {
    var after := files[h := s];
    forall t | t in open ensures InodeOk(disk, dir, open, after, None, t) {
      assert InodeOk(disk, dir, open, files, Some(s), t);
      if t == s {
        assert HandlesOf(after, s) == HandlesOf(files, s) + {h};
      } else {
        assert HandlesOf(after, t) == HandlesOf(files, t);
      }
    }
  }

  /** A handle that goes leaves the inode to the kernel. */
  lemma HandleDropped(disk: seq<Sector>, dir: seq<Slot>, open: map<nat, Inode>, files: map<Handle, nat>, h: Handle)
    requires OpenOk(disk, dir, open, files, None) && h in files
    ensures OpenOk(disk, dir, open, files - {h}, Some(files[h]))
  {
    var s, after := files[h], files - {h};
    forall t | t in open ensures InodeOk(disk, dir, open, after, Some(s), t) {
      assert InodeOk(disk, dir, open, files, None, t);
      if t == s {
        assert HandlesOf(files, s) == HandlesOf(after, s) + {h};
      } else {
        assert HandlesOf(after, t) == HandlesOf(files, t);
      }
    }
  }

  /** The kernel opens a file that has a name. */
  lemma Held(disk: seq<Sector>, used: seq<bool>, dir: seq<Slot>, open: map<nat, Inode>, files: map<Handle, nat>, s: nat)
    requires Inv(disk, used, dir, open, files, None) && s in Named(dir)
    ensures s < |disk| && disk[s].Header?
    ensures var inode := if s in open then open[s].(openCount := open[s].openCount + 1)
                         else Inode(1, false, disk[s].start, disk[s].length);
            Inv(disk, used, dir, open[s := inode], files, Some(s))
  {
    assert s in Live(dir, open);
    assert FileOk(disk, used, s);
    var inode := if s in open then open[s].(openCount := open[s].openCount + 1)
                 else Inode(1, false, disk[s].start, disk[s].length);
    var after := open[s := inode];
    assert Live(dir, after) == Live(dir, open);
    forall t | t in after ensures InodeOk(disk, dir, after, files, Some(s), t) {
      if t in open { assert InodeOk(disk, dir, open, files, None, t); } else { assert HandlesOf(files, t) == {}; }
    }
  }

  /** The kernel lets go, and the inode stays open. */
  lemma LetGo(disk: seq<Sector>, dir: seq<Slot>, open: map<nat, Inode>, files: map<Handle, nat>, s: nat)
    requires OpenOk(disk, dir, open, files, Some(s)) && open[s].openCount > 1
    ensures OpenOk(disk, dir, open[s := open[s].(openCount := open[s].openCount - 1)], files, None)
  {
    var after := open[s := open[s].(openCount := open[s].openCount - 1)];
    forall t | t in after ensures InodeOk(disk, dir, after, files, None, t) {
      assert InodeOk(disk, dir, open, files, Some(s), t);
    }
  }

  /** The last one lets go. */
  lemma Closed(disk: seq<Sector>, dir: seq<Slot>, open: map<nat, Inode>, files: map<Handle, nat>, s: nat)
    requires OpenOk(disk, dir, open, files, Some(s)) && open[s].openCount == 1
    ensures OpenOk(disk, dir, open - {s}, files, None)
  {
    assert InodeOk(disk, dir, open, files, Some(s), s);
    assert HandlesOf(files, s) == {};
    forall h | h in files ensures files[h] in open - {s} {
      assert h !in HandlesOf(files, s);
    }
    forall t | t in open - {s} ensures InodeOk(disk, dir, open - {s}, files, None, t) {
      assert InodeOk(disk, dir, open, files, Some(s), t);
    }
  }

  /** An open inode loses its name. */
  lemma Unnamed(disk: seq<Sector>, dir: seq<Slot>, open: map<nat, Inode>, files: map<Handle, nat>, s: nat, i: nat)
    requires DirOk(dir) && OpenOk(disk, dir, open, files, Some(s)) && i < |dir| && dir[i].inUse && dir[i].sector == s
    ensures var after := dir[i := dir[i].(inUse := false)];
            && Live(after, open[s := open[s].(removed := true)]) == Live(dir, open)
            && OpenOk(disk, after, open[s := open[s].(removed := true)], files, Some(s))
  {
    NamedRemove(dir, i);
    var after, open' := dir[i := dir[i].(inUse := false)], open[s := open[s].(removed := true)];
    forall t | t in open' ensures InodeOk(disk, after, open', files, Some(s), t) {
      assert InodeOk(disk, dir, open, files, Some(s), t);
    }
  }

  /** Open inodes do not notice changes elsewhere. */
  lemma OpenKept(a: seq<Sector>, b: seq<Sector>, dir: seq<Slot>, dir': seq<Slot>, open: map<nat, Inode>, files: map<Handle, nat>,
                 held: Option<nat>)
    requires OpenOk(a, dir, open, files, held)
    requires forall s | s in open :: s < |a| && s < |b| && b[s] == a[s] && (s in Named(dir') <==> s in Named(dir))
    ensures OpenOk(b, dir', open, files, held)
  {
    forall s | s in open ensures InodeOk(b, dir', open, files, held, s) {
      assert InodeOk(a, dir, open, files, held, s);
    }
  }

  /** Writing to an open file keeps everything in order, and every other file as it was. */
  lemma WriteKeeps(a: seq<Sector>, b: seq<Sector>, used: seq<bool>, dir: seq<Slot>, open: map<nat, Inode>, files: map<Handle, nat>,
                   s: nat, offset: nat, data: seq<Byte>)
    requires Inv(a, used, dir, open, files, None) && s in open && IsFile(a, s) && offset + |data| <= a[s].length
    requires Written(a, b, a[s].start, a[s].length, offset, data)
    ensures Inv(b, used, dir, open, files, None) && Changed(Bytes(a, s), offset, data, Bytes(b, s))
    ensures forall t | t in Live(dir, open) && t != s :: SameFile(a, b, t)
  {
    var live := Live(dir, open);
    assert FileOk(a, used, s);
    OtherFiles(a, b, used, live, s);
    assert forall t | t in live :: b[t] == a[t];
    OpenKept(a, b, dir, dir, open, files, None);
  }
}
