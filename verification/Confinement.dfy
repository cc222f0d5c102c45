/** What the requests of a session leave alone: everything outside home, as long as they land inside. */
module Confinement {
  import opened Numbers
  import opened Options
  import opened Bytes
  import opened Paths
  import opened FileTree
  import opened SftpSession
  import opened SftpRuns
  import opened Landing

  // ---- What a session leaves alone ----

  /** Everything that does not lie at or below `top` is as it was. */
  ghost predicate SameOutside(a: Fs, b: Fs, top: Loc) {
    forall l :: !(top <= l) ==>
      && (l in a.tree <==> l in b.tree)
      && (l in a.tree ==>
            && b.tree[l] == a.tree[l]
            && (a.tree[l].File? && a.tree[l].ino in a.data ==>
                  a.tree[l].ino in b.data && b.data[a.tree[l].ino] == a.data[a.tree[l].ino]))
  }

  ghost predicate LinkedOutside(fs: Fs, top: Loc, ino: nat) {
    exists l :: l in fs.tree && !(top <= l) && fs.tree[l] == File(ino)
  }

  /** No file outside is open. */
  ghost predicate HandlesInside(w: World, top: Loc) {
    forall h :: h in w.session.handles && w.session.handles[h].FileEntry? && w.session.handles[h].desc.node.File? ==>
      !LinkedOutside(w.fs, top, w.session.handles[h].desc.node.ino)
  }

  lemma SameLinksOutside(a: Fs, b: Fs, top: Loc, ino: nat)
    requires SameOutside(a, b, top)
    ensures LinkedOutside(a, top, ino) <==> LinkedOutside(b, top, ino)
  {
  }

  ghost predicate ConfinedStep(w: World, w': World, top: Loc) {
    HandlesInside(w, top) ==> SameOutside(w.fs, w'.fs, top) && HandlesInside(w', top)
  }

  /** A change of the tree below `top` alone. */
  lemma TreeConfined(w: World, fs: Fs, top: Loc)
    requires SameOutside(w.fs, fs, top)
    ensures ConfinedStep(w, w.(fs := fs), top)
  {
    forall ino
      ensures LinkedOutside(w.fs, top, ino) <==> LinkedOutside(fs, top, ino)
    {
      SameLinksOutside(w.fs, fs, top, ino);
    }
  }

  lemma InsideNotOutside(fs: Fs, l: Loc, top: Loc)
    requires fs.Valid() && fs.IsFile(l) && top <= l
    ensures !LinkedOutside(fs, top, fs.tree[l].ino)
  {
  }

  lemma OpenConfined(w: World, l: Loc, o: OpenOptions, top: Loc, writable: bool)
    requires w.Valid() && top <= l && (l == [] || w.fs.IsDir(Above(l)))
    ensures var r := OsOpen(w.fs, l, o);
            r.Opened? ==> ConfinedStep(w, Issue(w, r.fs, FileEntry(r.desc, writable)).world, top)
  {
    var r := OsOpen(w.fs, l, o);
    if r.Opened? {
      OpenValid(w.fs, l, o);
      assert SameOutside(w.fs, r.fs, top);
      TreeConfined(w, r.fs, top);
      if r.desc.node.File? {
        InsideNotOutside(r.fs, l, top);
      }
    }
  }

  lemma ContentConfined(w: World, ino: nat, content: seq<byte>, top: Loc)
    requires !LinkedOutside(w.fs, top, ino)
    ensures ConfinedStep(w, w.(fs := w.fs.(data := w.fs.data[ino := content])), top)
  {
    TreeConfined(w, w.fs.(data := w.fs.data[ino := content]), top);
  }

  lemma CommitConfined(w: World, handle: string, offset: nat, data: seq<byte>, env: Env, top: Loc)
    requires w.Valid()
    ensures ConfinedStep(w, Commit(w, handle, offset, data, env).world, top)
  {
    if HandlesInside(w, top) && IsOpenFile(w.session, handle) && w.session.handles[handle].desc.node.File? {
      var d := w.session.handles[handle].desc;
      var content, part := w.fs.data[d.node.ino], data[..Min(env.partial, |data|)];
      ContentConfined(w, d.node.ino, WriteAt(content, Position(d, content, offset), data), top);
      ContentConfined(w, d.node.ino, WriteAt(content, Position(d, content, offset), part), top);
    }
  }

  lemma PruneConfined(w: World, gone: set<Loc>, top: Loc)
    requires forall l :: l in gone ==> top <= l
    ensures ConfinedStep(w, w.(fs := OsPrune(w.fs, gone)), top)
  {
    TreeConfined(w, OsPrune(w.fs, gone), top);
  }

  lemma RenameConfined(w: World, from: Loc, to: Loc, top: Loc)
    requires top <= from && top <= to
    ensures ConfinedStep(w, w.(fs := OsRename(w.fs, from, to)), top)
  {
    TreeConfined(w, OsRename(w.fs, from, to), top);
  }

  // ---- Requests ----

  /** The place a path names lies at or below home. */
  ghost predicate Lands(home: Path, path: string)
    requires CanonicalHome(home)
  {
    SftpResolve(home, path).Resolved? ==> NamesOf(home) <= RootWalk(SftpResolve(home, path).path)
  }

  /** The paths of a request that can change something land at or below home. */
  ghost predicate LandsInside(home: Path, req: Request)
    requires CanonicalHome(home)
  {
    match req
    case Open(filename, _) => Lands(home, filename)
    case Setstat(path, _, _) => Lands(home, path)
    case Remove(path) => Lands(home, path)
    case Mkdir(path) => Lands(home, path)
    case Rmdir(path) => Lands(home, path)
    case Rename(oldPath, newPath) => Lands(home, oldPath) && Lands(home, newPath)
    case _ => true
  }

  lemma PlaceInside(home: Path, fs: Fs, allowed: bool, path: string, env: Env)
    requires CanonicalHome(home) && Lands(home, path)
    ensures var l := Place(home, fs, allowed, path, env);
            l.At? ==> NamesOf(home) <= l.loc
  {
    if SftpResolve(home, path).Resolved? {
      LocateIsLexical(fs, SftpResolve(home, path).path);
    }
  }

  lemma OpenRequestConfined(home: Path, w: World, filename: string, flags: OpenFlags, env: Env)
    requires CanonicalHome(home) && w.Valid() && Lands(home, filename)
    ensures ConfinedStep(w, DoOpen(home, w, filename, flags, env).world, NamesOf(home))
  {
    var l, o := OpenForm(home, w, filename, flags, env);
    if l.At? {
      LocateIsLexical(w.fs, SftpResolve(home, filename).path);
      OpenConfined(w, l.loc, OptionsOf(flags), NamesOf(home), WantsWrite(flags));
    }
  }

  lemma SetstatConfined(home: Path, w: World, path: string, mode: bool, size: Option<nat>, env: Env)
    requires CanonicalHome(home) && w.Valid() && Lands(home, path)
    ensures ConfinedStep(w, DoSetstat(home, w, path, mode, size, env).world, NamesOf(home))
  {
    PlaceInside(home, w.fs, env.perms.canWrite, path, env);
    var l := SetstatForm(home, w, path, mode, size, env);
    if l.At? && w.fs.IsFile(l.loc) && size.Some? {
      InsideNotOutside(w.fs, l.loc, NamesOf(home));
      var content := w.fs.data[w.fs.tree[l.loc].ino];
      ContentConfined(w, w.fs.tree[l.loc].ino,
                      if size.value <= |content| then content[..size.value] else content + Zeros(size.value - |content|),
                      NamesOf(home));
    }
  }

  lemma RemoveConfined(home: Path, w: World, path: string, env: Env)
    requires CanonicalHome(home) && w.Valid() && Lands(home, path)
    ensures ConfinedStep(w, DoRemove(home, w, path, env).world, NamesOf(home))
  {
    PlaceInside(home, w.fs, env.perms.canDelete, path, env);
    var l := Place(home, w.fs, env.perms.canDelete, path, env);
    if l.At? {
      PruneConfined(w, {l.loc}, NamesOf(home));
    }
  }

  lemma MkdirConfined(home: Path, w: World, path: string, env: Env)
    requires CanonicalHome(home) && w.Valid() && Lands(home, path)
    ensures ConfinedStep(w, DoMkdir(home, w, path, env).world, NamesOf(home))
  {
    PlaceInside(home, w.fs, env.perms.canMkdir, path, env);
    var l := Place(home, w.fs, env.perms.canMkdir, path, env);
    if l.At? {
      TreeConfined(w, OsMkdir(w.fs, l.loc), NamesOf(home));
    }
  }

  lemma RmdirConfined(home: Path, w: World, path: string, env: Env)
    requires CanonicalHome(home) && w.Valid() && Lands(home, path)
    ensures ConfinedStep(w, DoRmdir(home, w, path, env).world, NamesOf(home))
  {
    PlaceInside(home, w.fs, env.perms.canRmdir, path, env.(fault := None));
    var r, gone := RmdirPrunes(home, w, path, env);
    PruneConfined(w, gone, NamesOf(home));
  }

  lemma RenameRequestConfined(home: Path, w: World, oldPath: string, newPath: string, env: Env)
    requires CanonicalHome(home) && w.Valid() && Lands(home, oldPath) && Lands(home, newPath)
    ensures ConfinedStep(w, DoRename(home, w, oldPath, newPath, env).world, NamesOf(home))
  {
    var a, b := RenameForm(home, w, oldPath, newPath, env);
    PlaceInside(home, w.fs, env.perms.canRename, oldPath, env);
    PlaceInside(home, w.fs, env.perms.canRename, newPath, env);
    RenameKeepsSession(home, w, oldPath, newPath, env);
    if a.At? && b.At? {
      RenameConfined(w, a.loc, b.loc, NamesOf(home));
    }
  }

  /** Requests on handles other than WRITE, and those that only look, change nothing outside. */
  lemma QuietConfined(home: Path, w: World, e: Event, w': World, r: Reply, top: Loc)
    requires CanonicalHome(home) && Moves(home, w, e, w', r) && (e.req.Close? || e.req.Readdir?)
    ensures ConfinedStep(w, w', top)
  {
  }

  lemma LookingConfined(home: Path, w: World, e: Event, w': World, r: Reply, top: Loc)
    requires CanonicalHome(home) && Moves(home, w, e, w', r) && (e.req.Read? || e.req.Realpath?)
    ensures ConfinedStep(w, w', top)
  {
    LookingKeepsSession(home, w, e);
    QuietSameFs(home, w, e, w', r);
  }

  lemma OpendirConfined(home: Path, w: World, e: Event, w': World, r: Reply, top: Loc)
    requires CanonicalHome(home) && Moves(home, w, e, w', r) && e.req.Opendir?
    ensures ConfinedStep(w, w', top)
  {
    assert w' == w || w' == Issue(w, w.fs, DirEntry(e.env.listing)).world;
  }

  lemma StepConfined(home: Path, w: World, e: Event, w': World, r: Reply)
    requires CanonicalHome(home) && Moves(home, w, e, w', r) && LandsInside(home, e.req)
    ensures ConfinedStep(w, w', NamesOf(home))
  {
    match e.req
    case Open(filename, flags) => OpenRequestConfined(home, w, filename, flags, e.env);
    case Write(handle, offset, data) => CommitConfined(w, handle, offset, data, e.env, NamesOf(home));
    case Setstat(path, mode, size) => SetstatConfined(home, w, path, mode, size, e.env);
    case Remove(path) => RemoveConfined(home, w, path, e.env);
    case Mkdir(path) => MkdirConfined(home, w, path, e.env);
    case Rmdir(path) => RmdirConfined(home, w, path, e.env);
    case Rename(oldPath, newPath) => RenameRequestConfined(home, w, oldPath, newPath, e.env);
    case Close(handle) => QuietConfined(home, w, e, w', r, NamesOf(home));
    case Readdir(handle) => QuietConfined(home, w, e, w', r, NamesOf(home));
    case Opendir(path) => OpendirConfined(home, w, e, w', r, NamesOf(home));
    case _ => LookingConfined(home, w, e, w', r, NamesOf(home));
  }

  // ---- Runs ----

  lemma SameOutsideTransitive(a: Fs, b: Fs, c: Fs, top: Loc)
    requires SameOutside(a, b, top) && SameOutside(b, c, top)
    ensures SameOutside(a, c, top)
  {
  }

  lemma {:induction false} ConfinedChain(ws: seq<World>, top: Loc, i: nat, j: nat)
    requires i <= j < |ws| && HandlesInside(ws[0], top)
    requires forall k :: 0 <= k < |ws| - 1 ==> ConfinedStep(ws[k], ws[k + 1], top)
    ensures HandlesInside(ws[j], top) && SameOutside(ws[i].fs, ws[j].fs, top)
    decreases j
  {
    if j > 0 {
      ConfinedChain(ws, top, if i < j then i else j - 1, j - 1);
      assert ConfinedStep(ws[j - 1], ws[j], top);
      if i < j {
        SameOutsideTransitive(ws[i].fs, ws[j - 1].fs, ws[j].fs, top);
      }
    }
  }

  /** Confinement: in a session whose paths all land at or below home, whatever it does and whatever fails,
      everything outside home is, between any two moments, as it was. */
  lemma SessionConfined(home: Path, run: Run, i: nat, j: nat)
    requires IsRun(home, run) && Started(run) && i <= j <= |run.events|
    requires forall k :: 0 <= k < |run.events| ==> LandsInside(home, run.events[k].req)
    ensures SameOutside(run.worlds[i].fs, run.worlds[j].fs, NamesOf(home))
  {
    forall k | 0 <= k < |run.worlds| - 1
      ensures ConfinedStep(run.worlds[k], run.worlds[k + 1], NamesOf(home))
    {
      StepConfined(home, run.worlds[k], run.events[k], run.worlds[k + 1], run.replies[k]);
    }
    ConfinedChain(run.worlds, NamesOf(home), i, j);
  }

  /** Exactly which texts land inside: those whose names, after climbing, return to home.  All others spell
      out the home directory and climb above it in what follows. */
  lemma LandsExactly(home: Path, path: string)
    requires CanonicalHome(home)
    ensures Lands(home, path) <==>
              (SftpResolve(home, path).Resolved? ==> Returns(NamesOf(home), CourseOf(Below(home, Paths.Read(path)))))
    ensures !Lands(home, path) ==>
              NamesHome(home, Paths.Read(path)) && !NeverAbove(Remainder(home, Paths.Read(path))) && |home| > 1
  {
    if SftpResolve(home, path).Resolved? {
      SftpLanding(home, Fs(map[], map[], 0), path);
      if |home| == 1 {
        assert NamesOf(home) == [];
      }
    }
  }

  /** Under every home but the root some accepted texts land outside; under the root none does. */
  lemma LandsAlwaysExactly(home: Path)
    requires CanonicalHome(home)
    ensures (forall path :: Lands(home, path)) <==> |home| == 1
  {
    if |home| == 1 {
      assert NamesOf(home) == [];
    } else {
      var name := if home[|home| - 1].name == "a" then "b" else "a";
      BesideHome(home, name);
      assert !Lands(home, SpelledBeside(home, name));
    }
  }

  /** What such a text does: MKDIR creates a directory beside the home directory rather than in it. */
  lemma MkdirBesideHome(home: Path, w: World, name: string, env: Env)
    requires CanonicalHome(home) && |home| > 1 && ValidName(name) && !EndsInWhitespace(name) && name != home[|home| - 1].name
    requires w.Valid() && w.fs.IsDir(NamesOf(home)) && Above(NamesOf(home)) + [name] !in w.fs.tree
    requires env.perms.canMkdir && env.fault.None?
    ensures var r := DoMkdir(home, w, SpelledBeside(home, name), env);
            r.reply == Done && r.world.fs.IsDir(Above(NamesOf(home)) + [name]) && !SameOutside(w.fs, r.world.fs, NamesOf(home))
  {
    BesideHome(home, name);
    LocateBeside(w.fs, home, name);
  }
}
