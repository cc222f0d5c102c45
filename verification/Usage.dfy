/** Disk usage of a directory tree: `dir_size` of common/src/server/quota.rs and what the operations of
the file system do to it. */
module Usage {
  import opened Bytes
  import opened FileTree

  // ---- Sums over inodes ----

  /** The bytes held by a set of inodes. */
  ghost function Total(s: set<nat>, data: map<nat, seq<byte>>): nat
    requires s <= data.Keys
  {
    if s == {} then 0
    else
      var i :| i in s;
      |data[i]| + Total(s - {i}, data)
  }

  lemma {:induction false} TotalRemove(s: set<nat>, data: map<nat, seq<byte>>, i: nat)
    requires s <= data.Keys && i in s
    ensures Total(s, data) == |data[i]| + Total(s - {i}, data)
    decreases s
  {
    var j :| j in s && Total(s, data) == |data[j]| + Total(s - {j}, data);
    if i != j {
      TotalRemove(s - {j}, data, i);
      TotalRemove(s - {i}, data, j);
      assert s - {j} - {i} == s - {i} - {j};
    }
  }

  lemma {:induction false} TotalUnion(a: set<nat>, b: set<nat>, data: map<nat, seq<byte>>)
    requires a !! b && a + b <= data.Keys
    ensures Total(a + b, data) == Total(a, data) + Total(b, data)
    decreases a
  {
    if a == {} {
      assert a + b == b;
    } else {
      var i :| i in a;
      TotalRemove(a, data, i);
      TotalRemove(a + b, data, i);
      assert a + b - {i} == (a - {i}) + b;
      TotalUnion(a - {i}, b, data);
    }
  }

  lemma TotalSubset(a: set<nat>, b: set<nat>, data: map<nat, seq<byte>>)
    requires a <= b <= data.Keys
    ensures Total(a, data) <= Total(b, data)
  {
    TotalUnion(a, b - a, data);
    assert a + (b - a) == b;
  }

  lemma {:induction false} TotalSame(s: set<nat>, data: map<nat, seq<byte>>, data': map<nat, seq<byte>>)
    requires s <= data.Keys && s <= data'.Keys
    requires forall i :: i in s ==> data[i] == data'[i]
    ensures Total(s, data) == Total(s, data')
    decreases s
  {
    if s != {} {
      var i :| i in s;
      TotalRemove(s, data, i);
      TotalRemove(s, data', i);
      TotalSame(s - {i}, data, data');
    }
  }

  /** Changing one file changes the sum by what that file changes. */
  lemma TotalUpdate(s: set<nat>, data: map<nat, seq<byte>>, i: nat, content: seq<byte>)
    requires s <= data.Keys && i in data
    ensures s <= data[i := content].Keys
    ensures Total(s, data[i := content]) == Total(s, data) + if i in s then |content| - |data[i]| else 0
  {
    var data' := data[i := content];
    if i in s {
      TotalRemove(s, data, i);
      TotalRemove(s, data', i);
      TotalSame(s - {i}, data, data');
    } else {
      TotalSame(s, data, data');
    }
  }

  // ---- Usage ----

  /** The inodes of the files at some locations. */
  function Files(fs: Fs, places: set<Loc>): set<nat> {
    set l | l in places && fs.IsFile(l) :: fs.tree[l].ino
  }

  /** The inodes of the files at or below a location. */
  function Linked(fs: Fs, top: Loc): set<nat> {
    Files(fs, Subtree(fs, top))
  }

  /** The sum of all file sizes at or below a location. */
  ghost function SizeBelow(fs: Fs, top: Loc): nat
    requires fs.Valid()
  {
    Total(Linked(fs, top), fs.data)
  }

  lemma FileAt(fs: Fs, places: set<Loc>, i: nat) returns (l: Loc)
    requires i in Files(fs, places)
    ensures l in places && fs.IsFile(l) && fs.tree[l] == File(i)
  {
    l :| l in places && fs.IsFile(l) && fs.tree[l].ino == i;
  }

  lemma FilesUnion(fs: Fs, a: set<Loc>, b: set<Loc>)
    requires fs.Valid() && a !! b
    ensures Files(fs, a + b) == Files(fs, a) + Files(fs, b) && Files(fs, a) !! Files(fs, b)
    ensures Files(fs, a + b) <= fs.data.Keys
  {
    if !(Files(fs, a) !! Files(fs, b)) {
      var i :| i in Files(fs, a) && i in Files(fs, b);
      var l := FileAt(fs, a, i);
      var m := FileAt(fs, b, i);
    }
  }

  /** The locations below a directory that lie under one of the given entries. */
  ghost function Via(fs: Fs, dir: Loc, entries: set<string>): set<Loc> {
    set l | l in fs.tree && dir <= l && |dir| < |l| && l[|dir|] in entries
  }

  function Entries(fs: Fs, dir: Loc): set<string> {
    set l | l in fs.tree && |l| == |dir| + 1 && dir <= l :: l[|dir|]
  }

  lemma ViaOne(fs: Fs, dir: Loc, entries: set<string>, name: string)
    requires name !in entries
    ensures Via(fs, dir, entries + {name}) == Via(fs, dir, entries) + Subtree(fs, dir + [name])
    ensures Via(fs, dir, entries) !! Subtree(fs, dir + [name])
  {
    assert forall l: Loc :: dir + [name] <= l <==> dir <= l && |dir| < |l| && l[|dir|] == name;
  }

  lemma EntryOf(fs: Fs, dir: Loc, l: Loc)
    requires fs.Valid() && l in fs.tree && dir <= l && |dir| < |l|
    ensures l[|dir|] in Entries(fs, dir)
  {
    var child := l[..|dir| + 1];
    if |dir| + 1 < |l| {
      AncestorsAreDirs(fs, l, |dir| + 1);
    } else {
      assert child == l;
    }
    assert child in fs.tree && dir <= child && child[|dir|] == l[|dir|];
  }

  lemma ViaAll(fs: Fs, dir: Loc)
    requires fs.Valid() && fs.IsDir(dir)
    ensures Via(fs, dir, Entries(fs, dir)) + {dir} == Subtree(fs, dir)
  {
    forall l | l in Subtree(fs, dir) && l != dir
      ensures l in Via(fs, dir, Entries(fs, dir))
    {
      EntryOf(fs, dir, l);
    }
  }

  /** The bytes of the files under the entries walked so far. */
  ghost function Walked(fs: Fs, dir: Loc, entries: set<string>): nat
    requires fs.Valid()
  {
    Total(Files(fs, Via(fs, dir, entries)), fs.data)
  }

  lemma WalkedAll(fs: Fs, dir: Loc)
    requires fs.Valid() && fs.IsDir(dir)
    ensures Walked(fs, dir, {}) == 0 && Walked(fs, dir, Entries(fs, dir)) == SizeBelow(fs, dir)
  {
    var below := Via(fs, dir, Entries(fs, dir));
    ViaAll(fs, dir);
    FilesUnion(fs, below, {dir});
    assert Files(fs, {dir}) == {};
    assert Files(fs, below) == Linked(fs, dir);
    assert Via(fs, dir, {}) == {} && Files(fs, {}) == {};
  }

  /** One entry more: its files are counted now, and had not been counted before. */
  lemma WalkedEntry(fs: Fs, dir: Loc, entries: set<string>, name: string)
    requires fs.Valid() && name !in entries
    ensures Walked(fs, dir, entries + {name}) == Walked(fs, dir, entries) + SizeBelow(fs, dir + [name])
  {
    var a, b := Via(fs, dir, entries), Subtree(fs, dir + [name]);
    ViaOne(fs, dir, entries, name);
    FilesUnion(fs, a, b);
    TotalUnion(Files(fs, a), Files(fs, b), fs.data);
  }

  lemma LinkedOfFile(fs: Fs, l: Loc)
    requires fs.Valid() && fs.IsFile(l)
    ensures SizeBelow(fs, l) == |fs.data[fs.tree[l].ino]|
  {
    forall m | m in Subtree(fs, l)
      ensures m == l
    {
      if m != l {
        DescendantOfDir(fs, l, m);
      }
    }
    assert Subtree(fs, l) == {l};
    var i := fs.tree[l].ino;
    assert Linked(fs, l) == {i};
    TotalRemove({i}, fs.data, i);
  }

  lemma LinkedOfNothing(fs: Fs, l: Loc)
    requires fs.Valid() && l !in fs.tree
    ensures SizeBelow(fs, l) == 0
  {
    NothingBelowFree(fs, l);
    assert Subtree(fs, l) == {};
  }

  lemma ChildSmaller(fs: Fs, dir: Loc, name: string)
    requires dir in fs.tree
    ensures Subtree(fs, dir + [name]) < Subtree(fs, dir)
  {
    var child := dir + [name];
    forall l | l in Subtree(fs, child)
      ensures l in Subtree(fs, dir)
    {
      assert dir <= child;
    }
    assert dir in Subtree(fs, dir) && dir !in Subtree(fs, child);
  }

  class QuotaCache {
    var cache: map<string, nat>

    constructor ()
      ensures cache == map[]
    {
      cache := map[];
    }

    /** Walks the tree anew and records the result. */
    method CalculateUsage(fs: Fs, homeDir: string, home: Loc) returns (usage: nat)
      requires fs.Valid()
      modifies this
      ensures usage == SizeBelow(fs, home)
      ensures cache == old(cache)[homeDir := usage]
    {
      usage := DirSize(fs, home);
      cache := cache[homeDir := usage];
    }

    method Invalidate(homeDir: string)
      modifies this
      ensures cache == old(cache) - {homeDir}
    {
      cache := cache - {homeDir};
    }
  }

  /** The recursive walk, in whatever order the entries come, adds up every file size exactly once. */
  method DirSize(fs: Fs, path: Loc) returns (size: nat)
    requires fs.Valid()
    ensures size == SizeBelow(fs, path)
    decreases Subtree(fs, path)
  {
    size := 0;
    if fs.IsDir(path) {
      var pending := Entries(fs, path);
      ghost var done: set<string> := {};
      WalkedAll(fs, path);
      while pending != {}
        invariant done <= Entries(fs, path) && pending == Entries(fs, path) - done
        invariant size == Walked(fs, path, done)
        decreases pending
      {
        var name :| name in pending;
        var entryPath := path + [name];
        WalkedEntry(fs, path, done, name);
        if fs.IsDir(entryPath) {
          ChildSmaller(fs, path, name);
          var below := DirSize(fs, entryPath);
          size := size + below;
        } else if fs.IsFile(entryPath) {
          LinkedOfFile(fs, entryPath);
          size := size + |fs.data[fs.tree[entryPath].ino]|;
        } else {
          LinkedOfNothing(fs, entryPath);
        }
        done, pending := done + {name}, pending - {name};
      }
      assert done == Entries(fs, path);
    } else if fs.IsFile(path) {
      LinkedOfFile(fs, path);
      size := |fs.data[fs.tree[path].ino]|;
    } else {
      LinkedOfNothing(fs, path);
    }
  }

  // ---- What the operations do to usage ----

  /** The tree decides what is linked. */
  lemma SameTreeSameLinks(fs: Fs, fs': Fs, top: Loc)
    requires fs.tree == fs'.tree
    ensures Linked(fs', top) == Linked(fs, top)
  {
  }

  /** Opening never raises usage: a created file is empty, a truncated one gives its bytes back. */
  lemma OpenUsage(fs: Fs, l: Loc, o: OpenOptions, top: Loc)
    requires fs.Valid() && (l == [] || fs.IsDir(Above(l)))
    ensures var r := OsOpen(fs, l, o);
            r.Opened? ==> r.fs.Valid() && SizeBelow(r.fs, top) <= SizeBelow(fs, top)
  {
    var r := OsOpen(fs, l, o);
    if r.Opened? {
      OpenValid(fs, l, o);
      if l in fs.tree {
        SameTreeSameLinks(fs, r.fs, top);
        if fs.tree[l].File? {
          TotalUpdate(Linked(fs, top), fs.data, fs.tree[l].ino, []);
        }
      } else {
        CreateUsage(fs, l, top);
      }
    }
  }

  function Created(fs: Fs, l: Loc): Fs {
    fs.(tree := fs.tree[l := File(fs.next)], data := fs.data[fs.next := []], next := fs.next + 1)
  }

  lemma CreateUsage(fs: Fs, l: Loc, top: Loc)
    requires fs.Valid() && l !in fs.tree && l != [] && fs.IsDir(Above(l))
    ensures Created(fs, l).Valid() && SizeBelow(Created(fs, l), top) == SizeBelow(fs, top)
  {
    var fs', before := Created(fs, l), Linked(fs, top);
    CreateValid(fs, l);
    PlaceAdded(fs, fs', l, top);
    TotalSame(before, fs.data, fs'.data);
    if top <= l {
      TotalRemove(before + {fs.next}, fs'.data, fs.next);
      assert before + {fs.next} - {fs.next} == before;
    } else {
      assert Linked(fs', top) == before;
    }
  }

  lemma CreateValid(fs: Fs, l: Loc)
    requires fs.Valid() && l !in fs.tree && l != [] && fs.IsDir(Above(l))
    ensures Created(fs, l).Valid()
  {
  }

  /** What a new place adds to the links below `top`. */
  lemma PlaceAdded(fs: Fs, fs': Fs, l: Loc, top: Loc)
    requires l !in fs.tree && l in fs'.tree && fs'.tree == fs.tree[l := fs'.tree[l]]
    ensures Linked(fs', top) == Linked(fs, top) + if top <= l && fs'.IsFile(l) then {fs'.tree[l].ino} else {}
  {
    var places := Subtree(fs, top);
    assert Files(fs', places) == Files(fs, places);
    assert Subtree(fs', top) == if top <= l then places + {l} else places;
    assert Files(fs', places + {l}) == Files(fs', places) + Files(fs', {l});
    assert Files(fs', {l}) == if fs'.IsFile(l) then {fs'.tree[l].ino} else {};
  }

  /** A write raises usage by exactly what it grows its file by, if that file is linked below. */
  lemma WriteUsage(fs: Fs, d: Descriptor, offset: nat, data: seq<byte>, top: Loc)
    requires fs.Valid() && d.node.File? && d.node.ino in fs.data
    ensures OsWrite(fs, d, offset, data).Valid()
    ensures var content := fs.data[d.node.ino];
            SizeBelow(OsWrite(fs, d, offset, data), top) == SizeBelow(fs, top) +
              if d.node.ino in Linked(fs, top) then Growth(content, Position(d, content, offset), data) else 0
  {
    var content := fs.data[d.node.ino];
    SameTreeSameLinks(fs, OsWrite(fs, d, offset, data), top);
    TotalUpdate(Linked(fs, top), fs.data, d.node.ino, WriteAt(content, Position(d, content, offset), data));
  }

  /** A file is linked below exactly the locations above it. */
  lemma LinkedAbove(fs: Fs, l: Loc, top: Loc)
    requires fs.Valid() && fs.IsFile(l)
    ensures fs.tree[l].ino in Linked(fs, top) <==> top <= l
  {
    if fs.tree[l].ino in Linked(fs, top) {
      var m := FileAt(fs, Subtree(fs, top), fs.tree[l].ino);
    } else {
      assert l in fs.tree && fs.IsFile(l);
      assert l !in Subtree(fs, top);
    }
  }

  /** Resizing changes usage by exactly what it changes of its file, if that file is linked below. */
  lemma ResizeUsage(fs: Fs, ino: nat, size: nat, top: Loc)
    requires fs.Valid() && ino in fs.data
    ensures OsResize(fs, ino, size).Valid()
    ensures SizeBelow(OsResize(fs, ino, size), top)
         == SizeBelow(fs, top) + if ino in Linked(fs, top) then size - |fs.data[ino]| else 0
  {
    var content := fs.data[ino];
    SameTreeSameLinks(fs, OsResize(fs, ino, size), top);
    TotalUpdate(Linked(fs, top), fs.data, ino,
                if size <= |content| then content[..size] else content + Zeros(size - |content|));
  }

  lemma MkdirUsage(fs: Fs, l: Loc, top: Loc)
    requires fs.Valid() && l !in fs.tree && l != [] && fs.IsDir(Above(l))
    ensures OsMkdir(fs, l).Valid() && SizeBelow(OsMkdir(fs, l), top) == SizeBelow(fs, top)
  {
    PlaceAdded(fs, OsMkdir(fs, l), l, top);
    assert Linked(OsMkdir(fs, l), top) == Linked(fs, top);
    MkdirValid(fs, l);
  }

  lemma PruneUsage(fs: Fs, gone: set<Loc>, top: Loc)
    requires fs.Valid() && Prunable(fs, gone)
    ensures OsPrune(fs, gone).Valid() && SizeBelow(OsPrune(fs, gone), top) <= SizeBelow(fs, top)
  {
    PruneValid(fs, gone);
    TotalSubset(Linked(OsPrune(fs, gone), top), Linked(fs, top), fs.data);
  }

  // ---- Renaming ----

  ghost predicate Crosses(from: Loc, to: Loc, top: Loc, l: Loc, before: bool, after: bool) {
    (top <= l <==> before) && (top <= Target(from, to, l) <==> after)
  }

  /** The files that lie below `top` or not before a rename, and below it or not afterwards. */
  ghost function Moved(fs: Fs, from: Loc, to: Loc, top: Loc, before: bool, after: bool): set<nat> {
    set l | l in fs.tree && fs.IsFile(l) && Crosses(from, to, top, l, before, after) :: fs.tree[l].ino
  }

  lemma MovedFile(fs: Fs, from: Loc, to: Loc, top: Loc, before: bool, after: bool, i: nat) returns (l: Loc)
    requires i in Moved(fs, from, to, top, before, after)
    ensures fs.IsFile(l) && fs.tree[l].ino == i && (top <= l <==> before) && (top <= Target(from, to, l) <==> after)
  {
    l :| l in fs.tree && fs.IsFile(l) && fs.tree[l].ino == i && Crosses(from, to, top, l, before, after);
  }

  lemma LinkedBefore(fs: Fs, from: Loc, to: Loc, top: Loc)
    requires Renamable(fs, from, to)
    ensures Linked(fs, top) == Moved(fs, from, to, top, true, true) + Moved(fs, from, to, top, true, false)
  {
    forall i | i in Linked(fs, top)
      ensures i in Moved(fs, from, to, top, true, true) + Moved(fs, from, to, top, true, false)
    {
      var l := FileAt(fs, Subtree(fs, top), i);
    }
    forall i, after | i in Moved(fs, from, to, top, true, after)
      ensures i in Linked(fs, top)
    {
      var l := MovedFile(fs, from, to, top, true, after, i);
      LinkedAbove(fs, l, top);
    }
  }

  lemma LinkedAfterRename(fs: Fs, from: Loc, to: Loc, l: Loc, top: Loc)
    requires Renamable(fs, from, to) && fs.IsFile(l)
    ensures fs.tree[l].ino in Linked(OsRename(fs, from, to), top) <==> top <= Target(from, to, l)
  {
    RenameRelabels(fs, from, to);
    RenameValid(fs, from, to);
    LinkedAbove(OsRename(fs, from, to), Target(from, to, l), top);
  }

  lemma LinkedAfter(fs: Fs, from: Loc, to: Loc, top: Loc)
    requires Renamable(fs, from, to)
    ensures Linked(OsRename(fs, from, to), top)
         == Moved(fs, from, to, top, true, true) + Moved(fs, from, to, top, false, true)
  {
    var fs' := OsRename(fs, from, to);
    forall i | i in Linked(fs', top)
      ensures i in Moved(fs, from, to, top, true, true) + Moved(fs, from, to, top, false, true)
    {
      var k := FileAt(fs', Subtree(fs', top), i);
      var l := RenameCovers(fs, from, to, k);
    }
    forall i, before | i in Moved(fs, from, to, top, before, true)
      ensures i in Linked(fs', top)
    {
      var l := MovedFile(fs, from, to, top, before, true, i);
      LinkedAfterRename(fs, from, to, l, top);
    }
  }

  lemma MovedApart(fs: Fs, from: Loc, to: Loc, top: Loc, b0: bool, a0: bool, b1: bool, a1: bool)
    requires fs.Valid() && (b0 != b1 || a0 != a1)
    ensures Moved(fs, from, to, top, b0, a0) !! Moved(fs, from, to, top, b1, a1)
    ensures Moved(fs, from, to, top, b0, a0) + Moved(fs, from, to, top, b1, a1) <= fs.data.Keys
  {
    forall i | i in Moved(fs, from, to, top, b0, a0) && i in Moved(fs, from, to, top, b1, a1)
      ensures false
    {
      var l := MovedFile(fs, from, to, top, b0, a0, i);
      var m := MovedFile(fs, from, to, top, b1, a1, i);
    }
  }

  /** What a rename does to the usage below any location: it loses the files taken out and gains those
      brought in, and nothing else. */
  lemma RenameUsageExactly(fs: Fs, from: Loc, to: Loc, top: Loc)
    requires Renamable(fs, from, to)
    ensures OsRename(fs, from, to).Valid() && Moved(fs, from, to, top, true, false) <= fs.data.Keys
    ensures Moved(fs, from, to, top, false, true) <= fs.data.Keys
    ensures SizeBelow(OsRename(fs, from, to), top) + Total(Moved(fs, from, to, top, true, false), fs.data)
         == SizeBelow(fs, top) + Total(Moved(fs, from, to, top, false, true), fs.data)
  {
    var stays, leaves := Moved(fs, from, to, top, true, true), Moved(fs, from, to, top, true, false);
    var enters := Moved(fs, from, to, top, false, true);
    RenameValid(fs, from, to);
    MovedApart(fs, from, to, top, true, true, true, false);
    MovedApart(fs, from, to, top, true, true, false, true);
    LinkedBefore(fs, from, to, top);
    LinkedAfter(fs, from, to, top);
    TotalUnion(stays, leaves, fs.data);
    TotalUnion(stays, enters, fs.data);
  }

  /** A rename within a tree conserves its usage. */
  lemma RenameUsage(fs: Fs, from: Loc, to: Loc, top: Loc)
    requires Renamable(fs, from, to) && top <= from && top <= to
    ensures OsRename(fs, from, to).Valid() && SizeBelow(OsRename(fs, from, to), top) == SizeBelow(fs, top)
  {
    RenameUsageExactly(fs, from, to, top);
    NoneCross(fs, from, to, top, true, false);
    NoneCross(fs, from, to, top, false, true);
  }

  lemma NoneCross(fs: Fs, from: Loc, to: Loc, top: Loc, before: bool, after: bool)
    requires top <= from && top <= to && before != after
    ensures Moved(fs, from, to, top, before, after) == {}
  {
    forall l | l in fs.tree
      ensures !Crosses(from, to, top, l, before, after)
    {
      StaysInside(from, to, top, l);
    }
  }

  lemma StaysInside(from: Loc, to: Loc, top: Loc, l: Loc)
    requires top <= from && top <= to
    ensures top <= l <==> top <= Target(from, to, l)
  {
    if from <= l {
      assert to <= Target(from, to, l);
    }
  }

  /** A rename does not both bring files in and take files out. */
  lemma RenameOneWay(fs: Fs, from: Loc, to: Loc, top: Loc)
    requires Renamable(fs, from, to)
    ensures Moved(fs, from, to, top, false, true) == {} || Moved(fs, from, to, top, true, false) == {}
  {
    if i, j :| i in Moved(fs, from, to, top, false, true) && j in Moved(fs, from, to, top, true, false) {
      var l := MovedFile(fs, from, to, top, false, true, i);
      var m := MovedFile(fs, from, to, top, true, false, j);
      assert from <= l && from <= m;
      assert !(top <= from);
      assert from <= top by {
        Comparable(from, top, m);
      }
      TopExists(fs, top, m);
      Comparable(top, to, Target(from, to, l));
      NothingBelowFree(fs, to);
      assert false;
    }
  }

  lemma Comparable(a: Loc, b: Loc, l: Loc)
    requires a <= l && b <= l
    ensures a <= b || b <= a
  {
  }

  lemma TopExists(fs: Fs, top: Loc, m: Loc)
    requires fs.Valid() && m in fs.tree && top <= m
    ensures top in fs.tree
  {
    if top != m {
      DescendantOfDir(fs, top, m);
    }
  }

  /** Some file with something in it comes below `top` from elsewhere. */
  ghost predicate BringsIn(fs: Fs, from: Loc, to: Loc, top: Loc) {
    exists l :: l in fs.tree && fs.IsFile(l) && !(top <= l) && top <= Target(from, to, l)
                && fs.tree[l].ino in fs.data && fs.data[fs.tree[l].ino] != []
  }

  /** Exactly when a rename raises the usage below a location. */
  lemma RenameRaisesExactly(fs: Fs, from: Loc, to: Loc, top: Loc)
    requires Renamable(fs, from, to)
    ensures OsRename(fs, from, to).Valid()
    ensures SizeBelow(OsRename(fs, from, to), top) > SizeBelow(fs, top) <==> BringsIn(fs, from, to, top)
  {
    var enters := Moved(fs, from, to, top, false, true);
    RenameUsageExactly(fs, from, to, top);
    RenameOneWay(fs, from, to, top);
    TotalPositive(enters, fs.data);
    if BringsIn(fs, from, to, top) {
      var l :| l in fs.tree && fs.IsFile(l) && !(top <= l) && top <= Target(from, to, l)
               && fs.tree[l].ino in fs.data && fs.data[fs.tree[l].ino] != [];
      assert fs.tree[l].ino in enters;
    } else {
      forall i | i in enters
        ensures fs.data[i] == []
      {
        var l := MovedFile(fs, from, to, top, false, true, i);
      }
    }
  }

  lemma {:induction false} TotalPositive(s: set<nat>, data: map<nat, seq<byte>>)
    requires s <= data.Keys
    ensures Total(s, data) > 0 <==> exists i :: i in s && data[i] != []
    decreases s
  {
    if s != {} {
      var j :| j in s && Total(s, data) == |data[j]| + Total(s - {j}, data);
      TotalPositive(s - {j}, data);
      if i :| i in s && data[i] != [] {
        assert i == j || i in s - {j};
      }
    }
  }
}
