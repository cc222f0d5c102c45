/** The file system as the daemon sees it: a tree of locations over inodes, without links.

Opening follows the documented rules of the standard library's `OpenOptions`: append together with
truncate is refused, and writes through an appending descriptor go to the end of the file. */
module FileTree {
  import opened Bytes
  import opened Paths

  /** The names on the way down from the root. */
  type Loc = seq<string>

  datatype Node = Dir | File(ino: nat)

  datatype OsError = NotFound | AccessDenied | OtherError

  datatype Fs = Fs(tree: map<Loc, Node>, data: map<nat, seq<byte>>, next: nat) {

    /** Every location hangs off a directory, every file has its own inode, and inodes are allotted
        in order. */
    ghost predicate Valid() {
      && [] in tree && tree[[]] == Dir
      && (forall l {:trigger Above(l)} :: l in tree && l != [] ==> Above(l) in tree && tree[Above(l)] == Dir)
      && (forall l :: l in tree && tree[l].File? ==> tree[l].ino in data)
      && (forall l, m :: l in tree && m in tree && tree[l].File? && tree[l] == tree[m] ==> l == m)
      && (forall i :: i in data ==> i < next)
    }

    predicate IsDir(l: Loc) {
      l in tree && tree[l].Dir?
    }

    predicate IsFile(l: Loc) {
      l in tree && tree[l].File?
    }
  }

  function Above(l: Loc): Loc
    requires l != []
  {
    l[..|l| - 1]
  }

  // ---- Path lookup ----

  datatype Located = At(loc: Loc) | Fails(error: OsError)

  /** The walk the operating system makes: every directory on the way must exist.  The place itself
      need not. */
  function Locate(fs: Fs, p: Path): Located {
    if p == [] then Fails(NotFound)
    else if p == [RootDir] then At([])
    else
      var d := Locate(fs, p[..|p| - 1]);
      if d.Fails? then d
      else if d.loc !in fs.tree then Fails(NotFound)
      else if fs.tree[d.loc].File? then Fails(OtherError)
      else
        match p[|p| - 1]
        case Normal(name) => At(d.loc + [name])
        case ParentDir => At(if d.loc == [] then [] else Above(d.loc))
        case CurDir => d
        case RootDir => At([])
  }

  /** The location a path of plain names spells. */
  ghost function NamesOf(p: Path): Loc
    requires CanonicalHome(p)
  {
    seq(|p| - 1, i requires 0 <= i < |p| - 1 => p[i + 1].name)
  }

  lemma {:induction false} LocatePlain(fs: Fs, p: Path)
    requires CanonicalHome(p)
    ensures Locate(fs, p).At? ==> Locate(fs, p).loc == NamesOf(p)
    ensures Locate(fs, p).At? && |p| > 1 ==> fs.IsDir(Above(NamesOf(p)))
    decreases |p|
  {
    if |p| > 1 {
      var front := p[..|p| - 1];
      assert CanonicalHome(front);
      LocatePlain(fs, front);
      assert NamesOf(p) == NamesOf(front) + [p[|p| - 1].name];
      assert Above(NamesOf(p)) == NamesOf(front);
    } else {
      assert p == [RootDir];
    }
  }

  /** In a valid file system whatever is located has its directory, unless it is the root. */
  lemma {:induction false} LocatedBelowDir(fs: Fs, p: Path)
    requires fs.Valid()
    ensures var l := Locate(fs, p);
            l.At? ==> l.loc == [] || fs.IsDir(Above(l.loc))
    decreases |p|
  {
    if p != [] && p != [RootDir] {
      LocatedBelowDir(fs, p[..|p| - 1]);
    }
  }

  // ---- Opening ----

  datatype OpenOptions = OpenOptions(read: bool, write: bool, append: bool, truncate: bool, create: bool)

  datatype Descriptor = Descriptor(node: Node, readable: bool, writable: bool, append: bool)

  /** Which combinations the standard library accepts. */
  predicate Acceptable(o: OpenOptions) {
    && (o.read || o.write || o.append)
    && (if o.append then !o.truncate else o.write || !(o.truncate || o.create))
  }

  datatype Opened = Opened(fs: Fs, desc: Descriptor) | Refused(error: OsError)

  function OsOpen(fs: Fs, l: Loc, o: OpenOptions): Opened {
    if !Acceptable(o) then Refused(OtherError)
    else if l in fs.tree then
      match fs.tree[l]
      case Dir =>
        if o.write || o.append then Refused(OtherError) else Opened(fs, Descriptor(Dir, true, false, false))
      case File(ino) =>
        Opened(if o.truncate then fs.(data := fs.data[ino := []]) else fs,
               Descriptor(File(ino), o.read, o.write || o.append, o.append))
    else if o.create then
      Opened(fs.(tree := fs.tree[l := File(fs.next)], data := fs.data[fs.next := []], next := fs.next + 1),
             Descriptor(File(fs.next), o.read, o.write || o.append, o.append))
    else Refused(NotFound)
  }

  /** Opening by path: the options are checked before anything is looked up. */
  function OpenPath(fs: Fs, p: Path, o: OpenOptions): Opened {
    if !Acceptable(o) then Refused(OtherError)
    else
      var l := Locate(fs, p);
      if l.Fails? then Refused(l.error) else OsOpen(fs, l.loc, o)
  }

  // ---- Writing ----

  /** Where a write through a descriptor lands. */
  function Position(d: Descriptor, content: seq<byte>, offset: nat): nat {
    if d.append then |content| else offset
  }

  function OsWrite(fs: Fs, d: Descriptor, offset: nat, data: seq<byte>): Fs
    requires d.node.File? && d.node.ino in fs.data
  {
    var content := fs.data[d.node.ino];
    fs.(data := fs.data[d.node.ino := WriteAt(content, Position(d, content, offset), data)])
  }

  function OsResize(fs: Fs, ino: nat, size: nat): Fs
    requires ino in fs.data
  {
    var content := fs.data[ino];
    fs.(data := fs.data[ino := if size <= |content| then content[..size] else content + Zeros(size - |content|)])
  }

  // ---- The tree ----

  function OsMkdir(fs: Fs, l: Loc): Fs {
    fs.(tree := fs.tree[l := Dir])
  }

  function OsRemove(fs: Fs, l: Loc): Fs {
    fs.(tree := fs.tree - {l})
  }

  function OsPrune(fs: Fs, gone: set<Loc>): Fs {
    fs.(tree := fs.tree - gone)
  }

  function Subtree(fs: Fs, top: Loc): set<Loc> {
    set l | l in fs.tree && top <= l
  }

  /** A set of locations that can go without leaving orphans. */
  predicate Prunable(fs: Fs, gone: set<Loc>) {
    && [] !in gone
    && forall l, m :: l in gone && m in fs.tree && l <= m ==> m in gone
  }

  /** Moving `from` to `to` carries everything below it along. */
  function OsRename(fs: Fs, from: Loc, to: Loc): Fs {
    var images := set l | l in Subtree(fs, from) :: to + l[|from|..];
    fs.(tree := (fs.tree - Subtree(fs, from))
                + map k | k in images && to <= k && from + k[|to|..] in fs.tree :: fs.tree[from + k[|to|..]])
  }

  // ---- What the operations keep ----

  /** In a valid file system only directories have something below them. */
  lemma {:induction false} AncestorsAreDirs(fs: Fs, l: Loc, k: nat)
    requires fs.Valid() && l in fs.tree && k < |l|
    ensures fs.IsDir(l[..k])
    decreases |l|
  {
    if k < |l| - 1 {
      AncestorsAreDirs(fs, Above(l), k);
      assert Above(l)[..k] == l[..k];
    } else {
      assert Above(l) == l[..k];
    }
  }

  lemma DescendantOfDir(fs: Fs, l: Loc, m: Loc)
    requires fs.Valid() && m in fs.tree && l <= m && l != m
    ensures fs.IsDir(l)
  {
    AncestorsAreDirs(fs, m, |l|);
    assert m[..|l|] == l;
  }

  lemma OpenValid(fs: Fs, l: Loc, o: OpenOptions)
    requires fs.Valid() && (l == [] || fs.IsDir(Above(l)))
    ensures var r := OsOpen(fs, l, o);
            r.Opened? ==>
              && r.fs.Valid() && fs.data.Keys <= r.fs.data.Keys
              && (r.desc.node.File? ==> r.desc.node.ino in r.fs.data)
  {
  }

  lemma WriteValid(fs: Fs, d: Descriptor, offset: nat, data: seq<byte>)
    requires fs.Valid() && d.node.File? && d.node.ino in fs.data
    ensures OsWrite(fs, d, offset, data).Valid() && OsWrite(fs, d, offset, data).data.Keys == fs.data.Keys
  {
  }

  lemma ResizeValid(fs: Fs, ino: nat, size: nat)
    requires fs.Valid() && ino in fs.data
    ensures OsResize(fs, ino, size).Valid() && OsResize(fs, ino, size).data.Keys == fs.data.Keys
  {
  }

  lemma MkdirValid(fs: Fs, l: Loc)
    requires fs.Valid() && l !in fs.tree && l != [] && fs.IsDir(Above(l))
    ensures OsMkdir(fs, l).Valid()
  {
  }

  lemma PruneValid(fs: Fs, gone: set<Loc>)
    requires fs.Valid() && Prunable(fs, gone)
    ensures OsPrune(fs, gone).Valid()
  {
    var fs' := OsPrune(fs, gone);
    forall l | l in fs'.tree && l != []
      ensures Above(l) in fs'.tree && fs'.tree[Above(l)] == Dir
    {
      assert Above(l) <= l;
    }
  }

  lemma SubtreePrunable(fs: Fs, l: Loc)
    requires l != []
    ensures Prunable(fs, Subtree(fs, l))
  {
  }

  /** Removing a file is pruning its location. */
  lemma RemoveIsPrune(fs: Fs, l: Loc)
    requires fs.Valid() && fs.IsFile(l)
    ensures OsRemove(fs, l) == OsPrune(fs, {l}) && Prunable(fs, {l})
  {
    forall m | m in fs.tree && l <= m
      ensures m == l
    {
      if l != m {
        DescendantOfDir(fs, l, m);
      }
    }
  }

  /** Where a location goes in a rename. */
  ghost function Target(from: Loc, to: Loc, l: Loc): Loc {
    if from <= l then to + l[|from|..] else l
  }

  /** A free place outside the tree to be moved. */
  ghost predicate Renamable(fs: Fs, from: Loc, to: Loc) {
    && fs.Valid() && from in fs.tree && from != [] && !(from <= to)
    && to !in fs.tree && to != [] && fs.IsDir(Above(to))
  }

  lemma NothingBelowFree(fs: Fs, to: Loc)
    requires fs.Valid() && to !in fs.tree
    ensures forall l :: l in fs.tree ==> !(to <= l)
  {
    forall l | l in fs.tree
      ensures !(to <= l)
    {
      if to <= l {
        DescendantOfDir(fs, to, l);
      }
    }
  }

  /** A rename relabels locations, one to one. */
  lemma RenameRelabels(fs: Fs, from: Loc, to: Loc)
    requires Renamable(fs, from, to)
    ensures forall l :: l in fs.tree ==>
              Target(from, to, l) in OsRename(fs, from, to).tree
              && OsRename(fs, from, to).tree[Target(from, to, l)] == fs.tree[l]
  {
    var fs' := OsRename(fs, from, to);
    var images := set l | l in Subtree(fs, from) :: to + l[|from|..];
    NothingBelowFree(fs, to);
    forall l | l in fs.tree
      ensures Target(from, to, l) in fs'.tree && fs'.tree[Target(from, to, l)] == fs.tree[l]
    {
      if from <= l {
        assert l in Subtree(fs, from);
        assert to + l[|from|..] in images;
        MovedBack(from, to, l);
      } else {
        assert l !in images;
      }
    }
  }

  lemma RenameCovers(fs: Fs, from: Loc, to: Loc, k: Loc) returns (l: Loc)
    requires Renamable(fs, from, to) && k in OsRename(fs, from, to).tree
    ensures l in fs.tree && Target(from, to, l) == k && OsRename(fs, from, to).tree[k] == fs.tree[l]
  {
    var images := set l | l in Subtree(fs, from) :: to + l[|from|..];
    if k in images {
      l :| l in Subtree(fs, from) && to + l[|from|..] == k;
    } else {
      l := k;
    }
    RenameRelabels(fs, from, to);
  }

  lemma MovedBack(from: Loc, to: Loc, l: Loc)
    requires from <= l
    ensures var k := to + l[|from|..];
            to <= k && from + k[|to|..] == l
  {
    var k := to + l[|from|..];
    assert k[|to|..] == l[|from|..];
  }

  lemma RenameValid(fs: Fs, from: Loc, to: Loc)
    requires Renamable(fs, from, to)
    ensures OsRename(fs, from, to).Valid()
  {
    var fs' := OsRename(fs, from, to);
    RenameRelabels(fs, from, to);
    assert Target(from, to, []) == [];
    forall k | k in fs'.tree && k != []
      ensures Above(k) in fs'.tree && fs'.tree[Above(k)] == Dir
    {
      var l := RenameCovers(fs, from, to, k);
      var m := RenameParent(fs, from, to, l);
    }
    forall k, m | k in fs'.tree && m in fs'.tree && fs'.tree[k].File? && fs'.tree[k] == fs'.tree[m]
      ensures k == m
    {
      var l0 := RenameCovers(fs, from, to, k);
      var l1 := RenameCovers(fs, from, to, m);
    }
    forall k | k in fs'.tree && fs'.tree[k].File?
      ensures fs'.tree[k].ino in fs'.data
    {
      var l := RenameCovers(fs, from, to, k);
    }
  }

  /** The directory of a relabelled location comes from a directory. */
  lemma RenameParent(fs: Fs, from: Loc, to: Loc, l: Loc) returns (m: Loc)
    requires Renamable(fs, from, to) && l in fs.tree && Target(from, to, l) != []
    ensures fs.IsDir(m) && Target(from, to, m) == Above(Target(from, to, l))
  {
    var k := Target(from, to, l);
    if l == from {
      m := Above(to);
      assert k == to && m <= to;
    } else if from <= l {
      m := Above(l);
      assert from <= m && Above(k) == to + m[|from|..];
    } else {
      m := Above(l);
      assert m <= l;
    }
  }

  // ---- Growing only ----

  /** Nothing disappears or changes its kind, and every file keeps what it held as a prefix. */
  ghost predicate Grows(a: Fs, b: Fs) {
    && (forall l :: l in a.tree ==> l in b.tree && b.tree[l] == a.tree[l])
    && (forall l :: l in a.tree && a.tree[l].File? && a.tree[l].ino in a.data ==>
          a.tree[l].ino in b.data && a.data[a.tree[l].ino] <= b.data[a.tree[l].ino])
  }

  lemma GrowsTransitive(a: Fs, b: Fs, c: Fs)
    requires Grows(a, b) && Grows(b, c)
    ensures Grows(a, c)
  {
  }

  lemma OpenGrows(fs: Fs, l: Loc, o: OpenOptions)
    requires fs.Valid() && !o.truncate
    ensures OsOpen(fs, l, o).Opened? ==> Grows(fs, OsOpen(fs, l, o).fs)
  {
  }

  lemma AppendGrows(fs: Fs, d: Descriptor, offset: nat, data: seq<byte>)
    requires d.node.File? && d.node.ino in fs.data && d.append
    ensures Grows(fs, OsWrite(fs, d, offset, data))
  {
    WriteAtEnd(fs.data[d.node.ino], data);
  }
}
