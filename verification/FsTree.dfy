/** The inode table of fisopfs as a directory tree: what every operation keeps
    (fisopfs/fs.c, fisopfs/fisopfs.c). First the table as a value and how it
    changes, then the code that changes it in place. */
module FsTree {
  import opened Common
  import opened Paths

  const MAX_INODES := 256
  const MAX_DEPTH := 4
  const ROOT_INDEX := 0
  const MIN_FILE_NLINKS := 1
  const MIN_DIR_NLINKS := 2

  datatype Kind = File | Dir

  datatype Inode = Inode(name: string, path: string, prev: string, kind: Kind, nlink: int, uid: int)

  // The table, its bitmap, the count of inodes ever made, and for every
  // directory how many files have been unlinked from it.
  datatype Fs = Fs(inodes: seq<Inode>, used: seq<bool>, amount: int, gone: seq<int>)

  function Blank(): Inode { Inode("", "", "", File, 0, 0) }

  // init_inode.
  function NewInode(path: string, kind: Kind, uid: int): Inode {
    Inode(FileName(path), path, PrevPath(path), kind, if kind == File then MIN_FILE_NLINKS else MIN_DIR_NLINKS, uid)
  }

  predicate Shaped(fs: Fs) { |fs.inodes| == |fs.used| == |fs.gone| == MAX_INODES }

  predicate Used(fs: Fs, i: nat)
    requires Shaped(fs)
  {
    i < MAX_INODES && fs.used[i]
  }

  // Entry j lies in the directory with path p.
  predicate IsChild(fs: Fs, p: string, j: nat)
    requires Shaped(fs)
  {
    Used(fs, j) && fs.inodes[j].prev == p
  }

  function Children(fs: Fs, p: string, n: nat): (c: nat)
    requires Shaped(fs) && n <= MAX_INODES
  {
    if n == 0 then 0 else Children(fs, p, n - 1) + if IsChild(fs, p, n - 1) then 1 else 0
  }

  predicate IsDirAt(fs: Fs, p: string, i: nat)
    requires Shaped(fs)
  {
    Used(fs, i) && fs.inodes[i].path == p && fs.inodes[i].kind == Dir
  }

  ghost predicate DirExists(fs: Fs, p: string)
    requires Shaped(fs)
  {
    exists i: nat :: IsDirAt(fs, p, i)
  }

  // One entry of the table, the root apart.
  ghost predicate EntryOk(fs: Fs, i: nat)
    requires Shaped(fs)
  {
    Used(fs, i) && i != ROOT_INDEX ==>
      && IsPath(fs.inodes[i].path)
      && fs.inodes[i].name == FileName(fs.inodes[i].path) && fs.inodes[i].prev == PrevPath(fs.inodes[i].path)
      && DirExists(fs, fs.inodes[i].prev)
      && (fs.inodes[i].kind == Dir ==> Depth(fs.inodes[i].path) <= MAX_DEPTH)
  }

  predicate Different(fs: Fs, i: nat, j: nat)
    requires Shaped(fs)
  {
    Used(fs, i) && Used(fs, j) && i != j ==> fs.inodes[i].path != fs.inodes[j].path
  }

  // The links of a directory: two, its entries, and the files it has lost.
  predicate LinksOk(fs: Fs, i: nat)
    requires Shaped(fs)
  {
    Used(fs, i) && fs.inodes[i].kind == Dir ==>
      && fs.gone[i] >= 0
      && fs.inodes[i].nlink == MIN_DIR_NLINKS + Children(fs, fs.inodes[i].path, MAX_INODES) + fs.gone[i]
  }

  function UsedCount(used: seq<bool>): (n: nat)
    ensures n <= |used|
  {
    if used == [] then 0 else UsedCount(used[..|used| - 1]) + if used[|used| - 1] then 1 else 0
  }

  predicate RootOk(fs: Fs)
    requires Shaped(fs)
  {
    && Used(fs, ROOT_INDEX) && fs.inodes[ROOT_INDEX].kind == Dir
    && fs.inodes[ROOT_INDEX].name == ROOT && fs.inodes[ROOT_INDEX].path == ROOT && fs.inodes[ROOT_INDEX].prev == ""
  }

  ghost predicate Tree(fs: Fs) {
    && Shaped(fs) && RootOk(fs)
    && (forall i: nat {:trigger EntryOk(fs, i)} :: EntryOk(fs, i))
    && (forall i: nat, j: nat {:trigger Different(fs, i, j)} :: Different(fs, i, j))
    && (forall i: nat {:trigger LinksOk(fs, i)} :: LinksOk(fs, i))
    && UsedCount(fs.used) <= fs.amount <= MAX_INODES
  }

  // ---------------------------------------------------------------------
  // Changes to the table

  function Added(fs: Fs, slot: nat, inode: Inode): Fs
    requires Shaped(fs) && slot < MAX_INODES
  {
    Fs(fs.inodes[slot := inode], fs.used[slot := true], fs.amount + 1, fs.gone[slot := 0])
  }

  function Linked(fs: Fs, d: nat, delta: int): Fs
    requires Shaped(fs) && d < MAX_INODES
  {
    Fs(fs.inodes[d := WithLinks(fs.inodes[d], fs.inodes[d].nlink + delta)], fs.used, fs.amount, fs.gone)
  }

  function WithLinks(x: Inode, nlink: int): Inode { Inode(x.name, x.path, x.prev, x.kind, nlink, x.uid) }

  function Removed(fs: Fs, i: nat): Fs
    requires Shaped(fs) && i < MAX_INODES
  {
    Fs(fs.inodes[i := Blank()], fs.used[i := false], fs.amount, fs.gone)
  }

  function Lost(fs: Fs, d: nat): Fs
    requires Shaped(fs) && d < MAX_INODES
  {
    Fs(fs.inodes, fs.used, fs.amount, fs.gone[d := fs.gone[d] + 1])
  }

  // A new entry at a free slot, and one more link for its directory d.
  function Created(fs: Fs, slot: nat, inode: Inode, d: nat): Fs
    requires Shaped(fs) && slot < MAX_INODES && d < MAX_INODES
  {
    Linked(Added(fs, slot, inode), d, 1)
  }

  lemma {:induction false} SameChildren(fs: Fs, fs': Fs, p: string, n: nat)
    requires Shaped(fs) && Shaped(fs') && n <= MAX_INODES
    requires forall j: nat {:trigger IsChild(fs', p, j)} :: j < n ==> (IsChild(fs', p, j) <==> IsChild(fs, p, j))
    ensures Children(fs', p, n) == Children(fs, p, n)
  {
    if n > 0 {
      SameChildren(fs, fs', p, n - 1);
      assert IsChild(fs', p, n - 1) <==> IsChild(fs, p, n - 1);
    }
  }

  lemma {:induction false} OneChildMore(fs: Fs, fs': Fs, p: string, n: nat, x: nat)
    requires Shaped(fs) && Shaped(fs') && x < n <= MAX_INODES && !IsChild(fs, p, x) && IsChild(fs', p, x)
    requires forall j: nat {:trigger IsChild(fs', p, j)} :: j < n && j != x ==> (IsChild(fs', p, j) <==> IsChild(fs, p, j))
    ensures Children(fs', p, n) == Children(fs, p, n) + 1
  {
    if x < n - 1 {
      OneChildMore(fs, fs', p, n - 1, x);
      assert IsChild(fs', p, n - 1) <==> IsChild(fs, p, n - 1);
    } else {
      SameChildren(fs, fs', p, n - 1);
    }
  }

  lemma {:induction false} NoChildren(fs: Fs, p: string, n: nat, j: nat)
    requires Shaped(fs) && j < n <= MAX_INODES
    ensures IsChild(fs, p, j) ==> Children(fs, p, n) > 0
  {
    if j < n - 1 {
      NoChildren(fs, p, n - 1, j);
    }
  }

  lemma {:induction false} CountNone(fs: Fs, p: string, n: nat)
    requires Shaped(fs) && n <= MAX_INODES
    requires forall j: nat {:trigger IsChild(fs, p, j)} :: j < n ==> !IsChild(fs, p, j)
    ensures Children(fs, p, n) == 0
  {
    if n > 0 {
      CountNone(fs, p, n - 1);
      assert !IsChild(fs, p, n - 1);
    }
  }

  lemma {:induction false} UsedCountUpdate(used: seq<bool>, i: nat, b: bool)
    requires i < |used|
    ensures UsedCount(used[i := b]) == UsedCount(used) - (if used[i] then 1 else 0) + if b then 1 else 0
    decreases |used|
  {
    var m := |used| - 1;
    if i < m {
      UsedCountUpdate(used[..m], i, b);
      assert used[i := b][..m] == used[..m][i := b];
    } else {
      assert used[i := b][..m] == used[..m];
    }
  }

  // An existing path's children have it as their parent: without an entry there
  // are none.
  lemma OrphanFree(fs: Fs, p: string)
    requires Tree(fs) && p != "" && forall i: nat {:trigger IsDirAt(fs, p, i)} :: !IsDirAt(fs, p, i)
    ensures Children(fs, p, MAX_INODES) == 0
  {
    forall j: nat | j < MAX_INODES ensures !IsChild(fs, p, j) {
      assert EntryOk(fs, j);
    }
    CountNone(fs, p, MAX_INODES);
  }

  // When an entry for a path can be made at a slot, in directory d.
  ghost predicate CanCreate(fs: Fs, slot: nat, path: string, d: nat) {
    && Tree(fs) && slot < MAX_INODES && !fs.used[slot] && fs.amount < MAX_INODES && IsPath(path)
    && (forall i: nat {:trigger Used(fs, i)} :: Used(fs, i) ==> fs.inodes[i].path != path)
    && IsDirAt(fs, PrevPath(path), d)
  }

  lemma CreatedLinks(fs: Fs, slot: nat, path: string, kind: Kind, uid: int, d: nat, i: nat)
    requires CanCreate(fs, slot, path, d)
    ensures LinksOk(Created(fs, slot, NewInode(path, kind, uid), d), i)
  {
    var fs' := Created(fs, slot, NewInode(path, kind, uid), d);
    assert LinksOk(fs, i) && Different(fs, i, d);
    SplitJoin(path);
    if Used(fs', i) && fs'.inodes[i].kind == Dir {
      var p := fs'.inodes[i].path;
      if i == slot {
        OrphanFree(fs, path);
        SameChildren(fs, fs', p, MAX_INODES);
      } else if i == d {
        OneChildMore(fs, fs', p, MAX_INODES, slot);
      } else {
        SameChildren(fs, fs', p, MAX_INODES);
      }
    }
  }

  lemma CreatedEntryOk(fs: Fs, slot: nat, path: string, kind: Kind, uid: int, d: nat, i: nat)
    requires CanCreate(fs, slot, path, d) && (kind == Dir ==> Depth(path) <= MAX_DEPTH)
    ensures EntryOk(Created(fs, slot, NewInode(path, kind, uid), d), i)
  {
    var fs' := Created(fs, slot, NewInode(path, kind, uid), d);
    assert EntryOk(fs, i);
    if Used(fs', i) && i != ROOT_INDEX {
      var j := if i == slot then d else ParentOf(fs, i);
      assert IsDirAt(fs', fs'.inodes[i].prev, j);
    }
  }

  lemma CreatedDifferent(fs: Fs, slot: nat, path: string, kind: Kind, uid: int, d: nat, i: nat, j: nat)
    requires CanCreate(fs, slot, path, d)
    ensures Different(Created(fs, slot, NewInode(path, kind, uid), d), i, j)
  {
    assert Different(fs, i, j);
    assert Used(fs, i) ==> fs.inodes[i].path != path;
    assert Used(fs, j) ==> fs.inodes[j].path != path;
  }

  /** Creating an entry keeps the tree, given a directory to put it in. */
  lemma CreatedIsTree(fs: Fs, slot: nat, path: string, kind: Kind, uid: int, d: nat)
    requires CanCreate(fs, slot, path, d) && (kind == Dir ==> Depth(path) <= MAX_DEPTH)
    ensures Tree(Created(fs, slot, NewInode(path, kind, uid), d))
  {
    var fs' := Created(fs, slot, NewInode(path, kind, uid), d);
    UsedCountUpdate(fs.used, slot, true);
    forall i: nat ensures EntryOk(fs', i) && LinksOk(fs', i) {
      CreatedEntryOk(fs, slot, path, kind, uid, d, i);
      CreatedLinks(fs, slot, path, kind, uid, d, i);
    }
    forall i: nat, j: nat ensures Different(fs', i, j) {
      CreatedDifferent(fs, slot, path, kind, uid, d, i, j);
    }
  }

  ghost function ParentOf(fs: Fs, i: nat): (d: nat)
    requires Tree(fs) && Used(fs, i) && i != ROOT_INDEX
    ensures IsDirAt(fs, fs.inodes[i].prev, d)
  {
    assert EntryOk(fs, i);
    var d: nat :| IsDirAt(fs, fs.inodes[i].prev, d);
    d
  }

  // No entry lies below i: it is a file, or a directory with no links to spare.
  predicate Childless(fs: Fs, i: nat)
    requires Shaped(fs)
  {
    Used(fs, i) && (fs.inodes[i].kind == Dir ==> fs.inodes[i].nlink <= MIN_DIR_NLINKS)
  }

  lemma FilesAreNotDirs(fs: Fs, i: nat, p: string, d: nat)
    requires Tree(fs) && Used(fs, i) && fs.inodes[i].kind == File && IsDirAt(fs, p, d)
    ensures fs.inodes[i].path != p
  {
    assert Different(fs, d, i);
  }

  lemma ChildlessHasNone(fs: Fs, i: nat, j: nat)
    requires Tree(fs) && Childless(fs, i)
    ensures !IsChild(fs, fs.inodes[i].path, j)
  {
    assert EntryOk(fs, j) && EntryOk(fs, i) && LinksOk(fs, i);
    if IsChild(fs, fs.inodes[i].path, j) {
      if fs.inodes[i].kind == Dir {
        NoChildren(fs, fs.inodes[i].path, MAX_INODES, j);
      } else if j != ROOT_INDEX {
        FilesAreNotDirs(fs, i, fs.inodes[j].prev, ParentOf(fs, j));
      }
    }
  }

  // Removing an entry without children leaves every other entry its parent.
  lemma RemovedEntriesOk(fs: Fs, fs': Fs, i: nat, k: nat)
    requires Tree(fs) && Childless(fs, i) && i != ROOT_INDEX && Shaped(fs')
    requires forall p: string, j: nat {:trigger IsDirAt(fs', p, j)} :: j != i ==> (IsDirAt(fs', p, j) <==> IsDirAt(fs, p, j))
    requires forall j: nat {:trigger Used(fs', j)} :: Used(fs', j) <==> Used(fs, j) && j != i
    requires k < MAX_INODES && k != i ==> WithLinks(fs'.inodes[k], 0) == WithLinks(fs.inodes[k], 0)
    ensures EntryOk(fs', k)
  {
    assert EntryOk(fs, k);
    if Used(fs', k) && k != ROOT_INDEX {
      ChildlessHasNone(fs, i, k);
      var d := ParentOf(fs, k);
      assert IsDirAt(fs', fs'.inodes[k].prev, d);
    }
  }

  // A removed entry is one child less for its directory and for no other.
  lemma RemovedChildren(fs: Fs, fs': Fs, i: nat, p: string)
    requires Shaped(fs) && Shaped(fs') && Used(fs, i)
    requires forall j: nat {:trigger IsChild(fs', p, j)} :: IsChild(fs', p, j) <==> IsChild(fs, p, j) && j != i
    ensures Children(fs', p, MAX_INODES) == Children(fs, p, MAX_INODES) - if fs.inodes[i].prev == p then 1 else 0
  {
    if fs.inodes[i].prev == p {
      OneChildMore(fs', fs, p, MAX_INODES, i);
    } else {
      SameChildren(fs, fs', p, MAX_INODES);
    }
  }

  predicate IsEntryIn(fs: Fs, i: nat, d: nat)
    requires Shaped(fs)
  {
    Used(fs, i) && i != ROOT_INDEX && IsDirAt(fs, fs.inodes[i].prev, d)
  }

  // rmdir: the entry goes, and with it one link of its directory.
  function RemovedDir(fs: Fs, i: nat, d: nat): Fs
    requires Shaped(fs) && i < MAX_INODES && d < MAX_INODES
  {
    Removed(Linked(fs, d, -1), i)
  }

  lemma ParentIsOther(fs: Fs, i: nat, d: nat)
    requires Tree(fs) && IsEntryIn(fs, i, d)
    ensures d != i && Different(fs, d, i)
  {
    assert EntryOk(fs, i);
    SplitJoin(fs.inodes[i].path);
  }

  lemma RemovedDirLinks(fs: Fs, i: nat, d: nat, k: nat)
    requires Tree(fs) && IsEntryIn(fs, i, d)
    ensures LinksOk(RemovedDir(fs, i, d), k)
  {
    var fs' := RemovedDir(fs, i, d);
    assert LinksOk(fs, k) && Different(fs, k, d);
    ParentIsOther(fs, i, d);
    if Used(fs', k) && fs'.inodes[k].kind == Dir {
      RemovedChildren(fs, fs', i, fs'.inodes[k].path);
    }
  }

  /** Removing a directory without entries keeps the tree. */
  lemma RemovedDirIsTree(fs: Fs, i: nat, d: nat)
    requires Tree(fs) && IsEntryIn(fs, i, d) && fs.inodes[i].kind == Dir && Childless(fs, i)
    ensures Tree(RemovedDir(fs, i, d))
  {
    var fs' := RemovedDir(fs, i, d);
    ParentIsOther(fs, i, d);
    UsedCountUpdate(fs.used, i, false);
    forall k: nat ensures EntryOk(fs', k) && LinksOk(fs', k) {
      RemovedEntriesOk(fs, fs', i, k);
      RemovedDirLinks(fs, i, d, k);
    }
    forall k: nat, j: nat ensures Different(fs', k, j) {
      assert Different(fs, k, j);
    }
  }

  // unlink: the entry goes, but its directory keeps the link.
  function RemovedFile(fs: Fs, i: nat, d: nat): Fs
    requires Shaped(fs) && i < MAX_INODES && d < MAX_INODES
  {
    Lost(Removed(fs, i), d)
  }

  lemma RemovedFileLinks(fs: Fs, i: nat, d: nat, k: nat)
    requires Tree(fs) && IsEntryIn(fs, i, d)
    ensures LinksOk(RemovedFile(fs, i, d), k)
  {
    var fs' := RemovedFile(fs, i, d);
    assert LinksOk(fs, k) && Different(fs, k, d);
    ParentIsOther(fs, i, d);
    if Used(fs', k) && fs'.inodes[k].kind == Dir {
      RemovedChildren(fs, fs', i, fs'.inodes[k].path);
    }
  }

  lemma RemovedFileIsTree(fs: Fs, i: nat, d: nat)
    requires Tree(fs) && IsEntryIn(fs, i, d) && fs.inodes[i].kind == File
    ensures Tree(RemovedFile(fs, i, d))
  {
    var fs' := RemovedFile(fs, i, d);
    ParentIsOther(fs, i, d);
    UsedCountUpdate(fs.used, i, false);
    forall k: nat ensures EntryOk(fs', k) && LinksOk(fs', k) {
      RemovedEntriesOk(fs, fs', i, k);
      RemovedFileLinks(fs, i, d, k);
    }
    forall k: nat, j: nat ensures Different(fs', k, j) {
      assert Different(fs, k, j);
    }
  }

  // ---------------------------------------------------------------------
  // The table as a set of paths with kinds

  ghost predicate HasEntry(fs: Fs, p: string, k: Kind)
    requires Shaped(fs)
  {
    exists i: nat {:trigger Used(fs, i)} :: Used(fs, i) && fs.inodes[i].path == p && fs.inodes[i].kind == k
  }

  ghost predicate Owns(fs: Fs, p: string, uid: int)
    requires Shaped(fs)
  {
    exists i: nat {:trigger Used(fs, i)} :: Used(fs, i) && fs.inodes[i].path == p && fs.inodes[i].uid == uid
  }

  ghost predicate Missing(fs: Fs, p: string)
    requires Shaped(fs)
  {
    forall i: nat {:trigger Used(fs, i)} :: Used(fs, i) ==> fs.inodes[i].path != p
  }

  /** The new entry has the path, kind and owner that were asked for, and one link for
      a file or two for a directory; its directory has one link more, and no other
      entry changes. */
  lemma CreatedInodes(fs: Fs, slot: nat, path: string, kind: Kind, uid: int, d: nat, i: nat)
    requires CanCreate(fs, slot, path, d) && i < MAX_INODES
    ensures var fs' := Created(fs, slot, NewInode(path, kind, uid), d);
            && (i == slot ==> var x := fs'.inodes[i]; x.path == path && x.kind == kind && x.uid == uid && x.nlink == if kind == Dir then 2 else 1)
            && (i == d ==> fs'.inodes[i] == WithLinks(fs.inodes[i], fs.inodes[i].nlink + 1))
            && (i != slot && i != d ==> fs'.inodes[i] == fs.inodes[i])
            && (Used(fs', i) <==> Used(fs, i) || i == slot)
  {
  }

  /** A creation adds exactly the new path. */
  lemma CreatedEntries(fs: Fs, slot: nat, path: string, kind: Kind, uid: int, d: nat, p: string, k: Kind)
    requires CanCreate(fs, slot, path, d)
    ensures HasEntry(Created(fs, slot, NewInode(path, kind, uid), d), p, k) <==> HasEntry(fs, p, k) || (p == path && k == kind)
  {
    var fs' := Created(fs, slot, NewInode(path, kind, uid), d);
    if HasEntry(fs', p, k) {
      var i: nat :| Used(fs', i) && fs'.inodes[i].path == p && fs'.inodes[i].kind == k;
      assert i != slot ==> Used(fs, i);
    }
    if HasEntry(fs, p, k) {
      var i: nat :| Used(fs, i) && fs.inodes[i].path == p && fs.inodes[i].kind == k;
      assert Used(fs', i);
    }
    assert Used(fs', slot);
  }

  /** A removal takes away exactly the removed path. */
  lemma RemovedEntries(fs: Fs, fs': Fs, i: nat, d: nat, p: string, k: Kind)
    requires Tree(fs) && IsEntryIn(fs, i, d) && (fs' == RemovedDir(fs, i, d) || fs' == RemovedFile(fs, i, d))
    ensures HasEntry(fs', p, k) <==> HasEntry(fs, p, k) && p != fs.inodes[i].path
  {
    if HasEntry(fs', p, k) {
      var j: nat :| Used(fs', j) && fs'.inodes[j].path == p && fs'.inodes[j].kind == k;
      assert Used(fs, j) && Different(fs, i, j);
    }
    if HasEntry(fs, p, k) && p != fs.inodes[i].path {
      var j: nat :| Used(fs, j) && fs.inodes[j].path == p && fs.inodes[j].kind == k;
      assert Used(fs', j);
    }
  }

  // A way up the tree from entry i, entry by entry, to the root.
  ghost predicate IsWayUp(fs: Fs, way: seq<nat>, i: nat)
    requires Shaped(fs)
  {
    && way != [] && way[0] == i && way[|way| - 1] == ROOT_INDEX
    && forall k {:trigger way[k]} :: 0 <= k < |way| - 1 ==> Used(fs, way[k]) && IsDirAt(fs, fs.inodes[way[k]].prev, way[k + 1])
  }

  /** Every entry is connected to the root, and an entry of depth n by a way of n
      steps. */
  lemma {:induction false} ConnectedToRoot(fs: Fs, i: nat) returns (way: seq<nat>)
    requires Tree(fs) && Used(fs, i)
    ensures IsWayUp(fs, way, i) && |way| == Depth(fs.inodes[i].path) + 1
    decreases |fs.inodes[i].path|
  {
    if i == ROOT_INDEX {
      way := [i];
      assert ROOT[..0] == "" && Slashes(ROOT) == 1;
    } else {
      assert EntryOk(fs, i);
      var d := ParentOf(fs, i);
      SplitJoin(fs.inodes[i].path);
      DepthOfChild(fs.inodes[i].path);
      var rest := ConnectedToRoot(fs, d);
      way := [i] + rest;
    }
  }

  // ---------------------------------------------------------------------
  // The operations

  datatype Status = Success | NoEntry | Exists | NameTooLong | NoMemory | NotDir | IsDir | NotEmpty | NotPermitted | NoAccess

  // Names agree with paths, as far as lookups need it.
  predicate NameOk(fs: Fs, i: nat)
    requires Shaped(fs)
  {
    Used(fs, i) && i != ROOT_INDEX ==>
      && IsPath(fs.inodes[i].path)
      && fs.inodes[i].name == FileName(fs.inodes[i].path) && fs.inodes[i].prev == PrevPath(fs.inodes[i].path)
  }

  ghost predicate Named(fs: Fs) { Shaped(fs) && RootOk(fs) && forall i: nat {:trigger NameOk(fs, i)} :: NameOk(fs, i) }

  lemma TreeIsNamed(fs: Fs)
    requires Tree(fs)
    ensures Named(fs)
  {
    forall i: nat ensures NameOk(fs, i) {
      assert EntryOk(fs, i);
    }
  }

  // What fs_lookup compares.
  predicate Matches(fs: Fs, path: string, i: nat)
    requires Shaped(fs)
  {
    Used(fs, i) && fs.inodes[i].name == FileName(path) && fs.inodes[i].prev == PrevPath(path)
  }

  lemma MatchIsPath(fs: Fs, path: string, i: nat)
    requires Named(fs) && IsPath(path)
    ensures Matches(fs, path, i) <==> Used(fs, i) && fs.inodes[i].path == path
  {
    assert NameOk(fs, i);
    if Used(fs, i) {
      if i != ROOT_INDEX {
        SplitInjective(fs.inodes[i].path, path);
      } else {
        SplitJoin(path);
      }
    }
  }

  // What a lookup finds.
  ghost predicate Finds(fs: Fs, path: string, index: Option<nat>)
    requires Shaped(fs)
  {
    match index
    case None => Missing(fs, path)
    case Some(i) => Used(fs, i) && fs.inodes[i].path == path
  }

  ghost predicate WasCreated(fs: Fs, fs': Fs, path: string, kind: Kind, uid: int) {
    exists slot: nat, d: nat :: CanCreate(fs, slot, path, d) && fs' == Created(fs, slot, NewInode(path, kind, uid), d)
  }

  ghost predicate WasRemoved(fs: Fs, fs': Fs, path: string, kind: Kind)
    requires Shaped(fs)
  {
    exists i: nat, d: nat :: IsEntryIn(fs, i, d) && fs.inodes[i].path == path && fs.inodes[i].kind == kind
      && fs' == if kind == Dir then RemovedDir(fs, i, d) else RemovedFile(fs, i, d)
  }

  lemma {:induction false} AllUsed(used: seq<bool>)
    requires forall i :: 0 <= i < |used| ==> used[i]
    ensures UsedCount(used) == |used|
  {
    if used != [] {
      AllUsed(used[..|used| - 1]);
    }
  }

  // The names of the entries of a directory, by slot.
  function Listing(fs: Fs, p: string, n: nat): (names: seq<string>)
    requires Shaped(fs) && n <= MAX_INODES
  {
    if n == 0 then [] else Listing(fs, p, n - 1) + if IsChild(fs, p, n - 1) then [fs.inodes[n - 1].name] else []
  }

  lemma {:induction false} ListingMembers(fs: Fs, p: string, n: nat, name: string)
    requires Tree(fs) && n <= MAX_INODES
    ensures name in Listing(fs, p, n) <==> exists i: nat {:trigger IsChild(fs, p, i)} :: i < n && IsChild(fs, p, i) && fs.inodes[i].name == name
  {
    if n > 0 {
      ListingMembers(fs, p, n - 1, name);
      if name in Listing(fs, p, n) && !(name in Listing(fs, p, n - 1)) {
        assert IsChild(fs, p, n - 1);
      }
    }
  }

  lemma SiblingsDiffer(fs: Fs, p: string, i: nat, j: nat)
    requires Tree(fs) && p != "" && IsChild(fs, p, i) && IsChild(fs, p, j) && i != j
    ensures fs.inodes[i].name != fs.inodes[j].name
  {
    assert EntryOk(fs, i) && EntryOk(fs, j) && Different(fs, i, j);
    SplitInjective(fs.inodes[i].path, fs.inodes[j].path);
  }

  /** A listing names each entry of the directory exactly once. */
  lemma {:induction false} ListingIsExact(fs: Fs, p: string, n: nat)
    requires Tree(fs) && p != "" && n <= MAX_INODES
    ensures |Listing(fs, p, n)| == Children(fs, p, n)
    ensures forall i, j :: 0 <= i < j < |Listing(fs, p, n)| ==> Listing(fs, p, n)[i] != Listing(fs, p, n)[j]
  {
    if n > 0 {
      ListingIsExact(fs, p, n - 1);
      if IsChild(fs, p, n - 1) {
        var names := Listing(fs, p, n - 1);
        forall i | 0 <= i < |names| ensures names[i] != fs.inodes[n - 1].name {
          var name := names[i];
          ListingMembers(fs, p, n - 1, name);
          var j: nat :| j < n - 1 && IsChild(fs, p, j) && fs.inodes[j].name == name;
          SiblingsDiffer(fs, p, j, n - 1);
        }
      }
    }
  }

  lemma InitialTree(fs: Fs)
    requires Shaped(fs) && RootOk(fs) && fs.amount == 1 && fs.inodes[ROOT_INDEX].nlink == MIN_DIR_NLINKS
    requires forall i: nat :: i < MAX_INODES ==> (fs.used[i] <==> i == ROOT_INDEX) && fs.gone[i] == 0
    ensures Tree(fs)
  {
    CountNone(fs, ROOT, MAX_INODES);
    OneUsed(fs.used);
  }

  lemma {:induction false} OneUsed(used: seq<bool>)
    requires forall i :: 0 <= i < |used| ==> (used[i] <==> i == 0)
    ensures UsedCount(used) <= 1 && (|used| == 0 ==> UsedCount(used) == 0)
  {
    if |used| > 1 {
      OneUsed(used[..|used| - 1]);
    }
  }

  // Between the parts of an operation, lookups still work.
  lemma AddedIsNamed(fs: Fs, slot: nat, inode: Inode)
    requires Named(fs) && slot < MAX_INODES && !fs.used[slot]
    requires IsPath(inode.path) && inode.name == FileName(inode.path) && inode.prev == PrevPath(inode.path)
    ensures Named(Added(fs, slot, inode))
  {
    forall i: nat ensures NameOk(Added(fs, slot, inode), i) {
      assert NameOk(fs, i);
    }
  }

  lemma AddedFinds(fs: Fs, slot: nat, path: string, kind: Kind, uid: int, d: nat, found: Option<nat>)
    requires CanCreate(fs, slot, path, d) && Finds(Added(fs, slot, NewInode(path, kind, uid)), PrevPath(path), found)
    ensures found == Some(d)
  {
    SplitJoin(path);
    assert Used(Added(fs, slot, NewInode(path, kind, uid)), d);
    if found.Some? && found.value != slot {
      assert Different(fs, found.value, d);
    }
  }

  function LinkedIf(fs: Fs, found: Option<nat>): Fs
    requires Shaped(fs) && (found.Some? ==> found.value < MAX_INODES)
  {
    if found.Some? then Linked(fs, found.value, 1) else fs
  }

  // An entry whose parent is no directory is an orphan.
  lemma OrphanIsNoTree(fs: Fs, slot: nat, path: string, kind: Kind, uid: int, found: Option<nat>)
    requires Tree(fs) && slot < MAX_INODES && !fs.used[slot] && IsPath(path) && !DirExists(fs, PrevPath(path))
    requires found.Some? ==> found.value < MAX_INODES
    ensures !Tree(LinkedIf(Added(fs, slot, NewInode(path, kind, uid)), found))
  {
    var fs' := LinkedIf(Added(fs, slot, NewInode(path, kind, uid)), found);
    SplitJoin(path);
    forall i: nat ensures !IsDirAt(fs', PrevPath(path), i) {
      assert !IsDirAt(fs, PrevPath(path), i);
    }
    assert !EntryOk(fs', slot);
  }

  function Dropped(fs: Fs, i: nat): Fs
    requires Shaped(fs) && i < MAX_INODES
  {
    Fs(fs.inodes, fs.used[i := false], fs.amount, fs.gone)
  }

  lemma DroppedIsNamed(fs: Fs, i: nat)
    requires Named(fs) && 0 < i < MAX_INODES
    ensures Named(Dropped(fs, i))
  {
    forall j: nat ensures NameOk(Dropped(fs, i), j) {
      assert NameOk(fs, j);
    }
  }

  lemma DroppedFinds(fs: Fs, i: nat, d: nat, found: Option<nat>)
    requires Tree(fs) && IsEntryIn(fs, i, d) && Finds(Dropped(fs, i), fs.inodes[i].prev, found)
    ensures found == Some(d) && fs.inodes[d].nlink > 0
  {
    ParentIsOther(fs, i, d);
    assert Used(Dropped(fs, i), d) && LinksOk(fs, d);
    if found.Some? {
      assert Different(fs, found.value, d);
    }
  }

  lemma EntryIsUnique(fs: Fs, path: string, i: nat)
    requires Tree(fs) && Used(fs, i) && fs.inodes[i].path == path
    ensures forall k :: HasEntry(fs, path, k) <==> k == fs.inodes[i].kind
    ensures !Missing(fs, path)
    ensures forall u :: Owns(fs, path, u) <==> u == fs.inodes[i].uid
  {
    forall u | Owns(fs, path, u) ensures u == fs.inodes[i].uid {
      var j: nat :| Used(fs, j) && fs.inodes[j].path == path && fs.inodes[j].uid == u;
      assert Different(fs, i, j);
    }
    forall k | HasEntry(fs, path, k) ensures k == fs.inodes[i].kind {
      var j: nat :| Used(fs, j) && fs.inodes[j].path == path && fs.inodes[j].kind == k;
      assert Different(fs, i, j);
    }
  }

  // What rmdir of a directory answers.
  ghost function RmdirStatus(fs: Fs, path: string): Status
    requires Tree(fs) && HasEntry(fs, path, Dir)
  {
    var i: nat :| Used(fs, i) && fs.inodes[i].path == path && fs.inodes[i].kind == Dir;
    if Children(fs, path, MAX_INODES) > 0 || fs.gone[i] > 0 then NotEmpty else if path == ROOT then NotPermitted else Success
  }

  lemma RmdirStatusAt(fs: Fs, i: nat)
    requires Tree(fs) && Used(fs, i) && fs.inodes[i].kind == Dir
    ensures HasEntry(fs, fs.inodes[i].path, Dir)
    ensures RmdirStatus(fs, fs.inodes[i].path) ==
            if fs.inodes[i].nlink > MIN_DIR_NLINKS then NotEmpty else if fs.inodes[i].path == ROOT then NotPermitted else Success
  {
    var path := fs.inodes[i].path;
    assert LinksOk(fs, i);
    forall j: nat {:trigger Used(fs, j)} | Used(fs, j) && fs.inodes[j].path == path ensures j == i {
      assert Different(fs, i, j);
    }
  }

  // A file was unlinked from the directory at path p.
  ghost predicate HasLost(fs: Fs, p: string)
    requires Shaped(fs)
  {
    exists i: nat :: IsDirAt(fs, p, i) && fs.gone[i] > 0
  }

  ghost predicate HasChild(fs: Fs, p: string)
    requires Shaped(fs)
  {
    exists j: nat :: IsChild(fs, p, j)
  }

  /** rmdir of a directory: not empty if it has an entry or has lost a file to unlink,
      even if it is the root; otherwise not permitted for the root, and done for others. */
  lemma RmdirMeans(fs: Fs, path: string)
    requires Tree(fs) && HasEntry(fs, path, Dir)
    ensures RmdirStatus(fs, path) == NotEmpty <==> HasChild(fs, path) || HasLost(fs, path)
    ensures RmdirStatus(fs, path) == NotPermitted <==> !HasChild(fs, path) && !HasLost(fs, path) && path == "/"
    ensures RmdirStatus(fs, path) == Success <==> !HasChild(fs, path) && !HasLost(fs, path) && path != "/"
  {
    var i: nat :| Used(fs, i) && fs.inodes[i].path == path && fs.inodes[i].kind == Dir;
    assert LinksOk(fs, i) && IsDirAt(fs, path, i);
    RmdirStatusAt(fs, i);
    forall k: nat | IsDirAt(fs, path, k) ensures k == i {
      assert Different(fs, i, k);
    }
    if HasChild(fs, path) {
      var j: nat :| IsChild(fs, path, j);
      NoChildren(fs, path, MAX_INODES, j);
    } else {
      CountNone(fs, path, MAX_INODES);
    }
  }

  /** Unlinking the only entry of a directory leaves it empty, and not removable. */
  lemma EmptiedStays(fs: Fs, i: nat, d: nat)
    requires Tree(fs) && IsEntryIn(fs, i, d) && fs.inodes[i].kind == File && Children(fs, fs.inodes[d].path, MAX_INODES) == 1
    ensures var fs', p := RemovedFile(fs, i, d), fs.inodes[d].path;
            && Tree(fs') && HasEntry(fs', p, Dir)
            && Children(fs', p, MAX_INODES) == 0 && Listing(fs', p, MAX_INODES) == [] && RmdirStatus(fs', p) == NotEmpty
  {
    var fs', p := RemovedFile(fs, i, d), fs.inodes[d].path;
    RemovedFileIsTree(fs, i, d);
    ParentIsOther(fs, i, d);
    RemovedChildren(fs, fs', i, p);
    assert LinksOk(fs, d) && EntryOk(fs, i);
    SplitJoin(fs.inodes[i].path);
    RmdirStatusAt(fs', d);
    ListingIsExact(fs', p, MAX_INODES);
  }

  class FileSystem {
    const inodes: array<Inode>
    const bitmap: array<bool>
    var amount: int
    ghost var gone: seq<int>

    ghost function State(): Fs
      reads this, inodes, bitmap
    {
      Fs(inodes[..], bitmap[..], amount, gone)
    }

    ghost predicate Shape()
      reads this
    {
      inodes.Length == bitmap.Length == |gone| == MAX_INODES
    }

    ghost predicate Valid()
      reads this, inodes, bitmap
    {
      Shape() && Tree(State())
    }

    /** fs_lookup. */
    method Lookup(path: string) returns (index: Option<nat>)
      requires Shape() && Named(State()) && IsDirPath(path)
      ensures Finds(State(), path, index)
    {
      if path == ROOT {
        return Some(ROOT_INDEX);
      }
      for i := 0 to MAX_INODES
        invariant forall j: nat {:trigger Used(State(), j)} :: j < i && Used(State(), j) ==> inodes[j].path != path
      {
        MatchIsPath(State(), path, i);
        if bitmap[i] && inodes[i].name == FileName(path) && inodes[i].prev == PrevPath(path) {
          return Some(i);
        }
      }
      return None;
    }

    /** fs_initialize. */
    constructor (uid: int)
      ensures Valid() && State().amount == 1 && fresh(inodes) && fresh(bitmap)
      ensures inodes[ROOT_INDEX].path == "/" && inodes[ROOT_INDEX].kind == Dir && inodes[ROOT_INDEX].uid == uid && inodes[ROOT_INDEX].nlink == 2
      ensures forall i: nat :: i < MAX_INODES ==> (Used(State(), i) <==> i == ROOT_INDEX)
    {
      inodes := new Inode[MAX_INODES](i => if i == ROOT_INDEX then Inode(ROOT, ROOT, "", Dir, MIN_DIR_NLINKS, uid) else Blank());
      bitmap := new bool[MAX_INODES](i => i == ROOT_INDEX);
      amount := 1;
      gone := seq(MAX_INODES, i => 0);
      new;
      InitialTree(State());
    }

    /** modify_nlink_path; d is the entry that it finds. */
    method ModifyNlink(path: string, add: bool) returns (ghost d: Option<nat>)
      requires Shape() && Named(State()) && IsDirPath(path)
      modifies inodes
      ensures Finds(old(State()), path, d)
      ensures d.None? ==> State() == old(State())
      ensures d.Some? && add ==> State() == Linked(old(State()), d.value, 1)
      ensures d.Some? && !add ==> State() == if old(inodes[d.value].nlink) > 0 then Linked(old(State()), d.value, -1) else old(State())
    {
      var index := Lookup(path);
      d := index;
      if index.None? {
        return;
      }
      var i := index.value;
      if add {
        inodes[i] := WithLinks(inodes[i], inodes[i].nlink + 1);
      } else if inodes[i].nlink > 0 {
        inodes[i] := WithLinks(inodes[i], inodes[i].nlink - 1);
      }
    }

    /** find_free_inode_slot. */
    method FindFreeSlot() returns (slot: Option<nat>)
      requires Shape()
      ensures slot.Some? ==> slot.value < MAX_INODES && !bitmap[slot.value]
      ensures slot.None? ==> forall i :: 0 <= i < MAX_INODES ==> bitmap[i]
    {
      for i := 0 to MAX_INODES
        invariant forall j :: 0 <= j < i ==> bitmap[j]
      {
        if !bitmap[i] {
          return Some(i);
        }
      }
      return None;
    }

    /** fs_add_inode. An entry of the same name and parent gets a link instead. */
    method AddInode(inode: Inode) returns (index: Option<nat>)
      requires Shape() && Named(State())
      requires IsPath(inode.path) && inode.name == FileName(inode.path) && inode.prev == PrevPath(inode.path)
      modifies this, inodes, bitmap
      ensures index.None? <==> forall i :: 0 <= i < MAX_INODES ==> old(bitmap[i])
      ensures index.None? ==> State() == old(State())
      ensures index.Some? && Missing(old(State()), inode.path) ==>
                index.value < MAX_INODES && !old(bitmap[index.value]) && State() == Added(old(State()), index.value, inode)
      ensures index.Some? && !Missing(old(State()), inode.path) ==>
                Finds(old(State()), inode.path, index) && State() == Linked(old(State()), index.value, 1)
    {
      var slot := FindFreeSlot();
      if slot.None? {
        return None;
      }
      for i := 0 to MAX_INODES
        invariant State() == old(State())
        invariant forall j: nat {:trigger Used(State(), j)} :: j < i && Used(State(), j) ==> inodes[j].path != inode.path
      {
        MatchIsPath(State(), inode.path, i);
        if bitmap[i] && inodes[i].name == inode.name && inodes[i].prev == inode.prev {
          assert Used(old(State()), i);
          inodes[i] := WithLinks(inodes[i], inodes[i].nlink + 1);
          return Some(i);
        }
      }
      assert Missing(old(State()), inode.path);
      inodes[slot.value] := inode;
      bitmap[slot.value] := true;
      amount := amount + 1;
      gone := gone[slot.value := 0];
      return slot;
    }

    // The two changes of fs_create_entry: the new entry, and the link of its parent.
    method AddLinked(path: string, kind: Kind, uid: int) returns (index: Option<nat>, ghost found: Option<nat>)
      requires Shape() && Named(State()) && IsPath(path) && Missing(State(), path)
      modifies this, inodes, bitmap
      ensures Shape()
      ensures index.None? <==> forall i :: 0 <= i < MAX_INODES ==> old(bitmap[i])
      ensures index.None? ==> State() == old(State())
      ensures index.Some? ==>
                && index.value < MAX_INODES && !old(bitmap[index.value])
                && Finds(Added(old(State()), index.value, NewInode(path, kind, uid)), PrevPath(path), found)
                && State() == LinkedIf(Added(old(State()), index.value, NewInode(path, kind, uid)), found)
    {
      found := None;
      SplitJoin(path);
      ghost var fs := State();
      var inode := NewInode(path, kind, uid);
      index := AddInode(inode);
      if index.Some? {
        AddedIsNamed(fs, index.value, inode);
        found := ModifyNlink(PrevPath(path), true);
      }
    }

    /** fs_create_entry, for a path that is not there: the tree is kept if and only if
        the parent is an existing directory, which the code does not check. */
    method CreateEntry(path: string, kind: Kind, uid: int) returns (r: Status)
      requires Valid() && IsPath(path) && Missing(State(), path)
      requires kind == Dir ==> Depth(path) <= MAX_DEPTH
      modifies this, inodes, bitmap
      ensures Shape() && (Valid() <==> r != Success || DirExists(old(State()), PrevPath(path)))
      ensures r == if old(amount) == MAX_INODES then NoMemory else Success
      ensures r == Success && DirExists(old(State()), PrevPath(path)) ==> WasCreated(old(State()), State(), path, kind, uid)
      ensures r != Success ==> State() == old(State())
    {
      if amount == MAX_INODES {
        return NoMemory;
      }
      ghost var fs := State();
      TreeIsNamed(fs);
      var index, found := AddLinked(path, kind, uid);
      if index.None? {
        AllUsed(fs.used);
        assert false;
      }
      if DirExists(fs, PrevPath(path)) {
        ghost var d: nat :| IsDirAt(fs, PrevPath(path), d);
        AddedFinds(fs, index.value, path, kind, uid, d, found);
        CreatedIsTree(fs, index.value, path, kind, uid, d);
      } else {
        OrphanIsNoTree(fs, index.value, path, kind, uid, found);
      }
      return Success;
    }

    method Mkdir(path: string, uid: int) returns (r: Status)
      requires Valid() && IsDirPath(path)
      modifies this, inodes, bitmap
      ensures Shape() && (Valid() <==> r != Success || DirExists(old(State()), PrevPath(path)))
      ensures r == if Depth(path) > MAX_DEPTH then NameTooLong else if !Missing(old(State()), path) then Exists
                   else if old(amount) == MAX_INODES then NoMemory else Success
      ensures r == Success && DirExists(old(State()), PrevPath(path)) ==> WasCreated(old(State()), State(), path, Dir, uid)
      ensures r != Success ==> State() == old(State())
    {
      var depth := PathDepth(path);
      if depth > MAX_DEPTH {
        return NameTooLong;
      }
      TreeIsNamed(State());
      var index := Lookup(path);
      if index.Some? {
        return Exists;
      }
      r := CreateEntry(path, Dir, uid);
    }

    method Create(path: string, uid: int) returns (r: Status)
      requires Valid() && IsDirPath(path)
      modifies this, inodes, bitmap
      ensures Shape() && (Valid() <==> r != Success || DirExists(old(State()), PrevPath(path)))
      ensures r == if !Missing(old(State()), path) then Exists else if old(amount) == MAX_INODES then NoMemory else Success
      ensures r == Success && DirExists(old(State()), PrevPath(path)) ==> WasCreated(old(State()), State(), path, File, uid)
      ensures r != Success ==> State() == old(State())
    {
      TreeIsNamed(State());
      var index := Lookup(path);
      if index.Some? {
        return Exists;
      }
      r := CreateEntry(path, File, uid);
    }

    /** fisopfs_rmdir: an empty directory goes only if no file was ever unlinked
        from it. */
    method Rmdir(path: string) returns (r: Status)
      requires Valid() && IsDirPath(path)
      modifies inodes, bitmap
      ensures Valid()
      ensures r == NoEntry <==> Missing(old(State()), path)
      ensures r == NotDir <==> HasEntry(old(State()), path, File)
      ensures HasEntry(old(State()), path, Dir) ==> r == RmdirStatus(old(State()), path)
      ensures r == NotEmpty <==> HasEntry(old(State()), path, Dir) && (HasChild(old(State()), path) || HasLost(old(State()), path))
      ensures r == Success ==> WasRemoved(old(State()), State(), path, Dir)
      ensures r != Success ==> State() == old(State())
    {
      TreeIsNamed(State());
      ghost var fs := State();
      var index := Lookup(path);
      if index.None? {
        return NoEntry;
      }
      var i := index.value;
      EntryIsUnique(fs, path, i);
      if inodes[i].kind != Dir {
        return NotDir;
      }
      RmdirStatusAt(fs, i);
      RmdirMeans(fs, path);
      if inodes[i].nlink > MIN_DIR_NLINKS {
        return NotEmpty;
      }
      if inodes[i].path == ROOT {
        return NotPermitted;
      }
      ghost var d := ParentOf(fs, i);
      var prev := inodes[i].prev;
      ParentIsOther(fs, i, d);
      assert EntryOk(fs, i);
      SplitJoin(path);
      bitmap[i] := false;
      DroppedIsNamed(fs, i);
      ghost var found := ModifyNlink(prev, false);
      DroppedFinds(fs, i, d, found);
      inodes[i] := Blank();
      RemovedDirIsTree(fs, i, d);
      return Success;
    }

    method Unlink(path: string, caller: int) returns (r: Status)
      requires Valid() && IsDirPath(path)
      modifies this`gone, inodes, bitmap
      ensures Valid()
      ensures r == NoEntry <==> Missing(old(State()), path)
      ensures r == IsDir <==> HasEntry(old(State()), path, Dir)
      ensures r == NoAccess <==> HasEntry(old(State()), path, File) && caller != 0 && !Owns(old(State()), path, caller)
      ensures r in {NoEntry, IsDir, NoAccess, Success}
      ensures r == Success ==> WasRemoved(old(State()), State(), path, File)
      ensures r != Success ==> State() == old(State())
    {
      TreeIsNamed(State());
      ghost var fs := State();
      var index := Lookup(path);
      if index.None? {
        return NoEntry;
      }
      var i := index.value;
      EntryIsUnique(fs, path, i);
      if inodes[i].kind != File {
        return IsDir;
      }
      if caller != 0 && inodes[i].uid != caller {
        return NoAccess;
      }
      ghost var d := ParentOf(fs, i);
      bitmap[i] := false;
      inodes[i] := Blank();
      gone := gone[d := gone[d] + 1];
      RemovedFileIsTree(fs, i, d);
      return Success;
    }

    /** fisopfs_readdir. */
    method ReadDir(path: string) returns (r: Status, names: seq<string>)
      requires Valid() && IsDirPath(path)
      ensures r == if Missing(State(), path) then NoEntry else if HasEntry(State(), path, Dir) then Success else NotDir
      ensures names == [".", ".."] + if r == Success then Listing(State(), path, MAX_INODES) else []
    {
      names := [".", ".."];
      TreeIsNamed(State());
      var index := Lookup(path);
      if index.None? {
        return NoEntry, names;
      }
      EntryIsUnique(State(), path, index.value);
      if inodes[index.value].kind != Dir {
        return NotDir, names;
      }
      for i := 0 to MAX_INODES
        invariant names == [".", ".."] + Listing(State(), path, i)
      {
        if bitmap[i] && inodes[i].prev == inodes[index.value].path {
          names := names + [inodes[i].name];
        }
      }
      return Success, names;
    }
  }

  // A directory p is made.
  lemma MadeEmpty(fs0: Fs, fs1: Fs, p: string, uid: int) returns (s: nat)
    requires Tree(fs1) && WasCreated(fs0, fs1, p, Dir, uid)
    ensures IsDirAt(fs1, p, s) && fs1.gone[s] == 0 && fs1.inodes[s].nlink == MIN_DIR_NLINKS
  {
    var d: nat;
    s, d :| CanCreate(fs0, s, p, d) && fs1 == Created(fs0, s, NewInode(p, Dir, uid), d);
  }

  // A file q is made in it.
  lemma FilledOnce(fs1: Fs, fs2: Fs, p: string, s: nat, q: string, uid: int)
    requires Tree(fs1) && IsDirAt(fs1, p, s) && fs1.gone[s] == 0 && fs1.inodes[s].nlink == MIN_DIR_NLINKS
    requires Tree(fs2) && WasCreated(fs1, fs2, q, File, uid) && PrevPath(q) == p
    ensures IsDirAt(fs2, p, s) && Children(fs2, p, MAX_INODES) == 1
    ensures !Missing(fs2, q) && !HasEntry(fs2, q, Dir) && Owns(fs2, q, uid)
  {
    var slot: nat, d: nat :| CanCreate(fs1, slot, q, d) && fs2 == Created(fs1, slot, NewInode(q, File, uid), d);
    assert Different(fs1, s, d) && LinksOk(fs2, s);
    EntryIsUnique(fs2, q, slot);
  }

  // The file is unlinked.
  lemma EmptiedAgain(fs2: Fs, fs3: Fs, p: string, s: nat, q: string)
    requires Tree(fs2) && IsDirAt(fs2, p, s) && Children(fs2, p, MAX_INODES) == 1
    requires WasRemoved(fs2, fs3, q, File) && IsPath(q) && PrevPath(q) == p
    ensures Tree(fs3) && HasEntry(fs3, p, Dir) && Listing(fs3, p, MAX_INODES) == [] && RmdirStatus(fs3, p) == NotEmpty
  {
    var i: nat, d: nat :| IsEntryIn(fs2, i, d) && fs2.inodes[i].path == q && fs2.inodes[i].kind == File && fs3 == RemovedFile(fs2, i, d);
    assert EntryOk(fs2, i) && Different(fs2, s, d);
    EmptiedStays(fs2, i, d);
  }

  // What a fresh file system has.
  lemma FreshHasRootAlone(fs: Fs, p: string)
    requires Tree(fs) && IsPath(p) && forall i: nat :: i < MAX_INODES ==> (Used(fs, i) <==> i == ROOT_INDEX)
    ensures Missing(fs, p) && DirExists(fs, ROOT)
  {
    assert IsDirAt(fs, ROOT, ROOT_INDEX);
  }

  lemma NewDirectoryIsThere(fs: Fs, fs': Fs, p: string, q: string, uid: int)
    requires WasCreated(fs, fs', p, Dir, uid) && Missing(fs, q) && q != p
    ensures Shaped(fs') && DirExists(fs', p) && Missing(fs', q)
  {
    var slot: nat, d: nat :| CanCreate(fs, slot, p, d) && fs' == Created(fs, slot, NewInode(p, Dir, uid), d);
    assert IsDirAt(fs', p, slot);
    forall i: nat {:trigger Used(fs', i)} | Used(fs', i) ensures fs'.inodes[i].path != q {
      assert i != slot ==> Used(fs, i);
    }
  }

  lemma SamplePaths()
    ensures IsPath("/d") && IsPath("/d/f") && PrevPath("/d") == ROOT && PrevPath("/d/f") == "/d"
    ensures Depth("/d") <= MAX_DEPTH
  {
    var p, q := "/d", "/d/f";
    assert LastSlash(p) == 0 by { assert p[..1] == "/"; }
    assert LastSlash(q) == 2 by { assert q[..3] == "/d/"; }
    assert q[..2] == "/d";
    DepthOfChild(p);
  }

  /** From a fresh file system: make a directory and a file in it, and unlink the
      file. The directory lists as empty, but rmdir refuses it. */
  method EmptyDirectoryStays(uid: int) returns (r: Status, names: seq<string>)
    ensures r == NotEmpty && names == [".", ".."]
  {
    SamplePaths();
    var fs := new FileSystem(uid);
    ghost var fs0 := fs.State();
    FreshHasRootAlone(fs0, "/d");
    FreshHasRootAlone(fs0, "/d/f");
    r := fs.Mkdir("/d", uid);
    ghost var fs1 := fs.State();
    NewDirectoryIsThere(fs0, fs1, "/d", "/d/f", uid);
    ghost var s := MadeEmpty(fs0, fs1, "/d", uid);
    r := fs.Create("/d/f", uid);
    ghost var fs2 := fs.State();
    FilledOnce(fs1, fs2, "/d", s, "/d/f", uid);
    r := fs.Unlink("/d/f", uid);
    assert r == Success;
    EmptiedAgain(fs2, fs.State(), "/d", s, "/d/f");
    r := fs.Rmdir("/d");
    var found;
    found, names := fs.ReadDir("/d");
  }
}
