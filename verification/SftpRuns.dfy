/** Whole runs of one SFTP session: what every sequence of requests keeps. */
module SftpRuns {
  import opened Numbers
  import opened Options
  import opened Bytes
  import opened Paths
  import opened FileTree
  import opened Usage
  import opened Handles
  import opened SftpSession

  // ---- Validity ----

  lemma PlaceBelowDir(home: Path, fs: Fs, allowed: bool, path: string, env: Env)
    requires fs.Valid()
    ensures var l := Place(home, fs, allowed, path, env);
            l.At? ==> l.loc == [] || fs.IsDir(Above(l.loc))
  {
    var place := SftpResolve(home, path);
    if place.Resolved? {
      LocatedBelowDir(fs, place.path);
    }
  }

  /** The world stays valid and no inode loses its content. */
  ghost predicate ValidStep(w: World, w': World) {
    w'.Valid() && w.fs.data.Keys <= w'.fs.data.Keys
  }

  ghost predicate Moves(home: Path, w: World, e: Event, w': World, r: Reply)
    requires CanonicalHome(home)
  {
    w.Valid() && Step(home, w, e) == Result(w', r)
  }

  lemma QuietValid(home: Path, w: World, e: Event, w': World, r: Reply)
    requires CanonicalHome(home) && Moves(home, w, e, w', r)
    requires e.req.Close? || e.req.Read? || e.req.Readdir? || e.req.Realpath?
    ensures ValidStep(w, w')
  {
  }

  lemma OpeningValid(home: Path, w: World, e: Event, w': World, r: Reply)
    requires CanonicalHome(home) && Moves(home, w, e, w', r) && (e.req.Open? || e.req.Opendir?)
    ensures ValidStep(w, w')
  {
    if e.req.Open? {
      OpenKeepsValid(home, w, e.req.filename, e.req.flags, e.env);
    } else if r.Handle? {
      IssueValid(w, w.fs, DirEntry(e.env.listing));
    }
  }

  lemma ChangingValid(home: Path, w: World, e: Event, w': World, r: Reply)
    requires CanonicalHome(home) && Moves(home, w, e, w', r) && (e.req.Write? || e.req.Setstat?)
    ensures ValidStep(w, w')
  {
    if e.req.Write? {
      CommitValid(w, e.req.handle, e.req.offset, e.req.data, e.env);
    } else {
      SetstatValid(home, w, e.req.path, e.req.mode, e.req.size, e.env);
    }
  }

  lemma RemovingValid(home: Path, w: World, e: Event, w': World, r: Reply)
    requires CanonicalHome(home) && Moves(home, w, e, w', r) && e.req.Remove?
    ensures ValidStep(w, w')
  {
    RemoveValid(home, w, e.req.path, e.env);
  }

  lemma MakingValid(home: Path, w: World, e: Event, w': World, r: Reply)
    requires CanonicalHome(home) && Moves(home, w, e, w', r) && e.req.Mkdir?
    ensures ValidStep(w, w')
  {
    MkdirKeepsValid(home, w, e.req.path, e.env);
  }

  lemma PruningValid(home: Path, w: World, e: Event, w': World, r: Reply)
    requires CanonicalHome(home) && Moves(home, w, e, w', r) && e.req.Rmdir?
    ensures ValidStep(w, w')
  {
    RmdirValid(home, w, e.req.path, e.env);
  }

  lemma RenamingValid(home: Path, w: World, e: Event, w': World, r: Reply)
    requires CanonicalHome(home) && Moves(home, w, e, w', r) && e.req.Rename?
    ensures ValidStep(w, w')
  {
    var a, b := RenameOutcome(home, w, e, w', r);
    RenamedValid(w, w', a, b);
  }

  /** The world after a rename that took place or did not. */
  ghost predicate Renamed(w: World, w': World, a: Located, b: Located) {
    && w.Valid() && w'.session == w.session
    && (w'.fs == w.fs || (a.At? && b.At? && Renamable(w.fs, a.loc, b.loc) && w'.fs == OsRename(w.fs, a.loc, b.loc)))
  }

  lemma RenameOutcome(home: Path, w: World, e: Event, w': World, r: Reply) returns (a: Located, b: Located)
    requires CanonicalHome(home) && Moves(home, w, e, w', r) && e.req.Rename?
    ensures Renamed(w, w', a, b)
  {
    match e.req
    case Rename(oldPath, newPath) =>
      assert w' == DoRename(home, w, oldPath, newPath, e.env).world;
      a, b := RenamedBy(home, w, oldPath, newPath, e.env);
  }

  lemma RenamedBy(home: Path, w: World, oldPath: string, newPath: string, env: Env) returns (a: Located, b: Located)
    requires w.Valid()
    ensures Renamed(w, DoRename(home, w, oldPath, newPath, env).world, a, b)
  {
    a, b := RenameForm(home, w, oldPath, newPath, env);
    RenameKeepsSession(home, w, oldPath, newPath, env);
  }

  lemma RenamedValid(w: World, w': World, a: Located, b: Located)
    requires Renamed(w, w', a, b)
    ensures ValidStep(w, w')
  {
    if w'.fs != w.fs {
      RenameValid(w.fs, a.loc, b.loc);
    }
  }

  /** Whatever a request does, the world stays valid. */
  lemma StepValid(home: Path, w: World, e: Event, w': World, r: Reply)
    requires CanonicalHome(home) && Moves(home, w, e, w', r)
    ensures ValidStep(w, w')
  {
    if e.req.Open? || e.req.Opendir? {
      OpeningValid(home, w, e, w', r);
    } else if e.req.Write? || e.req.Setstat? {
      ChangingValid(home, w, e, w', r);
    } else if e.req.Remove? {
      RemovingValid(home, w, e, w', r);
    } else if e.req.Mkdir? {
      MakingValid(home, w, e, w', r);
    } else if e.req.Rmdir? {
      PruningValid(home, w, e, w', r);
    } else if e.req.Rename? {
      RenamingValid(home, w, e, w', r);
    } else {
      QuietValid(home, w, e, w', r);
    }
  }

  lemma IssueValid(w: World, fs: Fs, entry: Entry)
    requires w.Valid() && fs.Valid() && w.fs.data.Keys <= fs.data.Keys
    requires entry.FileEntry? && entry.desc.node.File? ==> entry.desc.node.ino in fs.data
    ensures ValidStep(w, Issue(w, fs, entry).world)
  {
  }

  /** An OPEN either does nothing or opens a place and issues a handle for it. */
  lemma OpenForm(home: Path, w: World, filename: string, flags: OpenFlags, env: Env) returns (l: Located, o: Opened)
    requires w.Valid()
    ensures l == (if SftpResolve(home, filename).Resolved? then Locate(w.fs, SftpResolve(home, filename).path) else Fails(NotFound))
    ensures l.At? ==> o == OsOpen(w.fs, l.loc, OptionsOf(flags)) && (l.loc == [] || w.fs.IsDir(Above(l.loc)))
    ensures var w' := DoOpen(home, w, filename, flags, env).world;
            w' == w || (l.At? && o.Opened? && w' == Issue(w, o.fs, FileEntry(o.desc, WantsWrite(flags))).world)
  {
    var place := SftpResolve(home, filename);
    l, o := Fails(NotFound), Refused(NotFound);
    if place.Resolved? {
      l := Locate(w.fs, place.path);
      LocatedBelowDir(w.fs, place.path);
      if l.At? {
        o := OsOpen(w.fs, l.loc, OptionsOf(flags));
      }
    }
  }

  lemma OpenKeepsValid(home: Path, w: World, filename: string, flags: OpenFlags, env: Env)
    requires w.Valid()
    ensures ValidStep(w, DoOpen(home, w, filename, flags, env).world)
  {
    var l, o := OpenForm(home, w, filename, flags, env);
    if l.At? {
      OpenValid(w.fs, l.loc, OptionsOf(flags));
      if o.Opened? {
        IssueValid(w, o.fs, FileEntry(o.desc, WantsWrite(flags)));
      }
    }
  }

  lemma CommitValid(w: World, handle: string, offset: nat, data: seq<byte>, env: Env)
    requires w.Valid()
    ensures ValidStep(w, Commit(w, handle, offset, data, env).world)
  {
    if IsOpenFile(w.session, handle) {
      var d := w.session.handles[handle].desc;
      if d.node.File? {
        WriteValid(w.fs, d, offset, data);
        WriteValid(w.fs, d, offset, data[..Min(env.partial, |data|)]);
      }
    }
  }

  /** A SETSTAT either changes no file or resizes the one at its place. */
  lemma SetstatForm(home: Path, w: World, path: string, mode: bool, size: Option<nat>, env: Env) returns (l: Located)
    requires w.Valid()
    ensures l == Place(home, w.fs, env.perms.canWrite, path, env)
    ensures DoSetstat(home, w, path, mode, size, env).world ==
              if l.At? && w.fs.IsFile(l.loc) && size.Some? && size.value < SEEK_LIMIT
              then w.(fs := OsResize(w.fs, w.fs.tree[l.loc].ino, size.value))
              else w
  {
    l := Place(home, w.fs, env.perms.canWrite, path, env);
  }

  lemma SetstatValid(home: Path, w: World, path: string, mode: bool, size: Option<nat>, env: Env)
    requires w.Valid()
    ensures ValidStep(w, DoSetstat(home, w, path, mode, size, env).world)
  {
    var l := SetstatForm(home, w, path, mode, size, env);
    if l.At? && w.fs.IsFile(l.loc) && size.Some? {
      ResizeValid(w.fs, w.fs.tree[l.loc].ino, size.value);
    }
  }

  lemma RemoveValid(home: Path, w: World, path: string, env: Env)
    requires w.Valid()
    ensures ValidStep(w, DoRemove(home, w, path, env).world)
  {
    var l := Place(home, w.fs, env.perms.canDelete, path, env);
    if l.At? && w.fs.IsFile(l.loc) {
      RemoveIsPrune(w.fs, l.loc);
      PruneValid(w.fs, {l.loc});
    }
  }

  lemma MkdirKeepsValid(home: Path, w: World, path: string, env: Env)
    requires w.Valid()
    ensures ValidStep(w, DoMkdir(home, w, path, env).world)
  {
    PlaceBelowDir(home, w.fs, env.perms.canMkdir, path, env);
    var l := Place(home, w.fs, env.perms.canMkdir, path, env);
    if l.At? && l.loc !in w.fs.tree {
      MkdirValid(w.fs, l.loc);
    }
  }

  lemma RmdirValid(home: Path, w: World, path: string, env: Env)
    requires w.Valid()
    ensures ValidStep(w, DoRmdir(home, w, path, env).world)
  {
    var r, gone := RmdirPrunes(home, w, path, env);
    PruneValid(w.fs, gone);
  }

  /** A recursive removal, complete or not, prunes. */
  lemma RmdirPrunes(home: Path, w: World, path: string, env: Env) returns (r: Result, gone: set<Loc>)
    ensures r == DoRmdir(home, w, path, env) && Prunable(w.fs, gone)
    ensures r.world == w.(fs := OsPrune(w.fs, gone))
    ensures var l := Place(home, w.fs, env.perms.canRmdir, path, env.(fault := None));
            gone <= if l.At? then Subtree(w.fs, l.loc) else {}
  {
    r := DoRmdir(home, w, path, env);
    gone := {};
    var l := Place(home, w.fs, env.perms.canRmdir, path, env.(fault := None));
    if l.At? && w.fs.IsDir(l.loc) {
      if l.loc == [] || env.fault.Some? {
        if Prunable(w.fs, env.gone) && env.gone <= Subtree(w.fs, l.loc) {
          gone := env.gone;
        }
      } else {
        SubtreePrunable(w.fs, l.loc);
        gone := Subtree(w.fs, l.loc);
      }
    }
    assert w.fs.tree - {} == w.fs.tree;
  }

  /** A rename request either does nothing or moves one place to another. */
  lemma RenameForm(home: Path, w: World, oldPath: string, newPath: string, env: Env) returns (a: Located, b: Located)
    requires w.Valid()
    ensures a == Place(home, w.fs, env.perms.canRename, oldPath, env)
    ensures b == Place(home, w.fs, env.perms.canRename, newPath, env)
    ensures var fs' := DoRename(home, w, oldPath, newPath, env).world.fs;
            if a.At? && b.At? && a.loc in w.fs.tree && b.loc !in w.fs.tree && !(a.loc <= b.loc)
            then Renamable(w.fs, a.loc, b.loc) && fs' == OsRename(w.fs, a.loc, b.loc)
            else fs' == w.fs
  {
    a, b := Place(home, w.fs, env.perms.canRename, oldPath, env), Place(home, w.fs, env.perms.canRename, newPath, env);
    PlaceBelowDir(home, w.fs, env.perms.canRename, newPath, env);
  }

  lemma QuietSameFs(home: Path, w: World, e: Event, w': World, r: Reply)
    requires CanonicalHome(home) && Moves(home, w, e, w', r)
    requires e.req.Close? || e.req.Read? || e.req.Opendir? || e.req.Readdir? || e.req.Realpath?
    ensures w'.fs == w.fs
  {
  }

  // ---- Runs ----

  /** The worlds a session goes through, the events that take it from each to the next, and the replies. */
  datatype Run = Run(worlds: seq<World>, events: seq<Event>, replies: seq<Reply>)

  ghost predicate IsRun(home: Path, run: Run) {
    && CanonicalHome(home)
    && |run.worlds| == |run.events| + 1 && |run.replies| == |run.events|
    && run.worlds[0].Valid()
    && forall k :: 0 <= k < |run.events| ==>
         Moves(home, run.worlds[k], run.events[k], run.worlds[k + 1], run.replies[k])
  }

  /** Any events can happen in any valid world. */
  lemma {:induction false} RunExists(home: Path, w: World, es: seq<Event>) returns (run: Run)
    requires CanonicalHome(home) && w.Valid()
    ensures IsRun(home, run) && run.worlds[0] == w && run.events == es
    ensures run.worlds[|es|].Valid()
    decreases |es|
  {
    if es == [] {
      run := Run([w], [], []);
    } else {
      var n := |es| - 1;
      var front := RunExists(home, w, es[..n]);
      var r := Step(home, front.worlds[n], es[n]);
      StepValid(home, front.worlds[n], es[n], r.world, r.reply);
      run := Run(front.worlds + [r.world], es, front.replies + [r.reply]);
      forall k | 0 <= k < |es|
        ensures Moves(home, run.worlds[k], es[k], run.worlds[k + 1], run.replies[k])
      {
        if k < n {
          assert Moves(home, front.worlds[k], front.events[k], front.worlds[k + 1], front.replies[k]);
        }
      }
    }
  }

  ghost predicate Started(run: Run) {
    run.worlds != [] && run.worlds[0].session == Session(map[], 1)
  }

  // ---- Append-only sessions ----

  /** Appending and creating directories are the only changes permitted. */
  predicate GrowOnly(p: Permissions) {
    !p.canWrite && !p.canDelete && !p.canRmdir && !p.canRename
  }

  predicate ReadOnly(p: Permissions) {
    GrowOnly(p) && !p.canAppend && !p.canMkdir
  }

  ghost predicate AppendingHandles(s: Session) {
    forall h :: h in s.handles && s.handles[h].FileEntry? && s.handles[h].desc.writable ==> s.handles[h].desc.append
  }

  ghost predicate ReadingHandles(s: Session) {
    forall h :: h in s.handles && s.handles[h].FileEntry? ==> !s.handles[h].desc.writable
  }

  ghost predicate GrowStep(w: World, w': World) {
    AppendingHandles(w.session) ==> AppendingHandles(w'.session) && Grows(w.fs, w'.fs)
  }

  ghost predicate ReadStep(w: World, w': World) {
    ReadingHandles(w.session) ==> ReadingHandles(w'.session) && w'.fs == w.fs
  }

  lemma OpenGrowsOnly(home: Path, w: World, filename: string, flags: OpenFlags, env: Env)
    requires w.Valid() && GrowOnly(env.perms)
    ensures GrowStep(w, DoOpen(home, w, filename, flags, env).world)
  {
    var w' := DoOpen(home, w, filename, flags, env).world;
    var l, o := OpenForm(home, w, filename, flags, env);
    OpenNeedsPermission(home, w, filename, flags, env);
    if w' != w && l.At? && !flags.truncate {
      OpenGrows(w.fs, l.loc, OptionsOf(flags));
    }
  }

  lemma OpenNeedsPermission(home: Path, w: World, filename: string, flags: OpenFlags, env: Env)
    ensures DoOpen(home, w, filename, flags, env).world != w ==> MayOpen(env.perms, flags) && Acceptable(OptionsOf(flags))
  {
  }

  lemma OpenReadsOnly(home: Path, w: World, filename: string, flags: OpenFlags, env: Env)
    requires w.Valid() && ReadOnly(env.perms)
    ensures ReadStep(w, DoOpen(home, w, filename, flags, env).world)
  {
  }

  lemma CommitGrowsOnly(w: World, handle: string, offset: nat, data: seq<byte>, env: Env)
    requires w.Valid()
    ensures GrowStep(w, Commit(w, handle, offset, data, env).world)
    ensures ReadStep(w, Commit(w, handle, offset, data, env).world)
  {
    if IsOpenFile(w.session, handle) {
      var d := w.session.handles[handle].desc;
      if d.node.File? && d.writable && d.append {
        AppendGrows(w.fs, d, offset, data);
        AppendGrows(w.fs, d, offset, data[..Min(env.partial, |data|)]);
      }
    }
  }

  lemma MkdirGrowsOnly(home: Path, w: World, path: string, env: Env)
    ensures GrowStep(w, DoMkdir(home, w, path, env).world)
    ensures !env.perms.canMkdir ==> DoMkdir(home, w, path, env).world == w
  {
  }

  /** Requests on handles other than WRITE leave the file system alone and open nothing for writing. */
  lemma QuietSteps(home: Path, w: World, e: Event, w': World, r: Reply)
    requires CanonicalHome(home) && Moves(home, w, e, w', r)
    requires e.req.Close? || e.req.Readdir?
    ensures GrowStep(w, w') && ReadStep(w, w')
  {
  }

  /** So do those that only look. */
  lemma LookingSteps(home: Path, w: World, e: Event, w': World, r: Reply)
    requires CanonicalHome(home) && Moves(home, w, e, w', r)
    requires e.req.Read? || e.req.Realpath?
    ensures GrowStep(w, w') && ReadStep(w, w')
  {
    QuietSameFs(home, w, e, w', r);
    LookingKeepsSession(home, w, e);
  }

  lemma OpendirSteps(home: Path, w: World, e: Event, w': World, r: Reply)
    requires CanonicalHome(home) && Moves(home, w, e, w', r) && e.req.Opendir?
    ensures GrowStep(w, w') && ReadStep(w, w')
  {
    assert w' == w || w' == Issue(w, w.fs, DirEntry(e.env.listing)).world;
  }

  /** Without their permission, the other requests do nothing. */
  lemma DeniedSteps(home: Path, w: World, e: Event, w': World, r: Reply)
    requires CanonicalHome(home) && Moves(home, w, e, w', r) && GrowOnly(e.env.perms)
    requires e.req.Setstat? || e.req.Remove? || e.req.Rmdir? || e.req.Rename?
    ensures w' == w
  {
  }

  lemma StepGrows(home: Path, w: World, e: Event, w': World, r: Reply)
    requires CanonicalHome(home) && Moves(home, w, e, w', r) && GrowOnly(e.env.perms)
    ensures GrowStep(w, w')
    ensures ReadOnly(e.env.perms) ==> ReadStep(w, w')
  {
    match e.req
    case Open(filename, flags) =>
      OpenGrowsOnly(home, w, filename, flags, e.env);
      if ReadOnly(e.env.perms) {
        OpenReadsOnly(home, w, filename, flags, e.env);
      }
    case Write(handle, offset, data) => CommitGrowsOnly(w, handle, offset, data, e.env);
    case Mkdir(path) => MkdirGrowsOnly(home, w, path, e.env);
    case Setstat(path, mode, size) => DeniedSteps(home, w, e, w', r);
    case Remove(path) => DeniedSteps(home, w, e, w', r);
    case Rmdir(path) => DeniedSteps(home, w, e, w', r);
    case Rename(oldPath, newPath) => DeniedSteps(home, w, e, w', r);
    case Close(handle) => QuietSteps(home, w, e, w', r);
    case Readdir(handle) => QuietSteps(home, w, e, w', r);
    case Opendir(path) => OpendirSteps(home, w, e, w', r);
    case _ => LookingSteps(home, w, e, w', r);
  }

  lemma {:induction false} GrowChain(ws: seq<World>, i: nat, j: nat)
    requires i <= j < |ws| && AppendingHandles(ws[0].session)
    requires forall k :: 0 <= k < |ws| - 1 ==> GrowStep(ws[k], ws[k + 1])
    ensures AppendingHandles(ws[j].session) && Grows(ws[i].fs, ws[j].fs)
    decreases j
  {
    if j > 0 {
      GrowChain(ws, if i < j then i else j - 1, j - 1);
      assert GrowStep(ws[j - 1], ws[j]);
      if i < j {
        GrowsTransitive(ws[i].fs, ws[j - 1].fs, ws[j].fs);
      }
    }
  }

  /** Append-only monotonicity: in a session that may append (and create directories) but do nothing
      else to files, between any two moments no location disappears or changes its kind, and every
      file's later content starts with its earlier content. */
  lemma AppendOnlyMonotone(home: Path, run: Run, i: nat, j: nat)
    requires IsRun(home, run) && Started(run) && i <= j <= |run.events|
    requires forall k :: 0 <= k < |run.events| ==> GrowOnly(run.events[k].env.perms)
    ensures var a, b := run.worlds[i].fs, run.worlds[j].fs;
            && (forall l :: l in a.tree ==> l in b.tree && b.tree[l] == a.tree[l])
            && (forall l :: a.IsFile(l) && a.tree[l].ino in a.data ==>
                  a.tree[l].ino in b.data && a.data[a.tree[l].ino] <= b.data[a.tree[l].ino])
  {
    forall k | 0 <= k < |run.worlds| - 1
      ensures GrowStep(run.worlds[k], run.worlds[k + 1])
    {
      StepGrows(home, run.worlds[k], run.events[k], run.worlds[k + 1], run.replies[k]);
    }
    GrowChain(run.worlds, i, j);
  }

  lemma {:induction false} ReadChain(ws: seq<World>, j: nat)
    requires j < |ws| && ReadingHandles(ws[0].session)
    requires forall k :: 0 <= k < |ws| - 1 ==> ReadStep(ws[k], ws[k + 1])
    ensures ReadingHandles(ws[j].session) && ws[j].fs == ws[0].fs
    decreases j
  {
    if j > 0 {
      ReadChain(ws, j - 1);
      assert ReadStep(ws[j - 1], ws[j]);
    }
  }

  /** Without any permission to change files, a session leaves the file system as it is. */
  lemma ReadOnlyUnchanged(home: Path, run: Run, j: nat)
    requires IsRun(home, run) && Started(run) && j <= |run.events|
    requires forall k :: 0 <= k < |run.events| ==> ReadOnly(run.events[k].env.perms)
    ensures run.worlds[j].fs == run.worlds[0].fs
  {
    forall k | 0 <= k < |run.worlds| - 1
      ensures ReadStep(run.worlds[k], run.worlds[k + 1])
    {
      StepGrows(home, run.worlds[k], run.events[k], run.worlds[k + 1], run.replies[k]);
    }
    ReadChain(run.worlds, j);
  }

  // ---- Handles ----

  /** Every open handle has a name that the counter has passed. */
  ghost predicate Counted(s: Session) {
    forall h :: h in s.handles ==> NamedBelow(h, s.next)
  }

  lemma NamedLater(h: string, a: nat, b: nat)
    requires NamedBelow(h, a) && a <= b
    ensures NamedBelow(h, b)
  {
  }

  lemma NextNameFree(s: Session)
    requires Counted(s)
    ensures FreeId(s.handles.Keys, s.next) == s.next && !NamedBelow(HandleName(s.next), s.next)
    ensures NamedBelow(HandleName(s.next), s.next + 1)
  {
    forall k: nat | k < s.next
      ensures HandleName(k) != HandleName(s.next)
    {
      HandleNamesDiffer(k, s.next);
    }
  }

  /** A request either issues the counter's own name or leaves the open handles alone, or closes one. */
  ghost predicate HandleStep(s: Session, s': Session, r: Reply) {
    Counted(s) ==>
      && Counted(s')
      && (if r.Handle?
          then r.handle == HandleName(s.next) && s'.next == s.next + 1 && s'.handles.Keys == s.handles.Keys + {r.handle}
          else s'.next == s.next && s'.handles.Keys <= s.handles.Keys)
  }

  /** Entries only change by READDIR and CLOSE on their own handle. */
  ghost predicate EntryStep(s: Session, s': Session, req: Request) {
    Counted(s) ==>
      forall h :: h in s.handles && req != Close(h) ==>
        && h in s'.handles
        && (req != Readdir(h) || s.handles[h].FileEntry? ==> s'.handles[h] == s.handles[h])
  }

  lemma IssueHandles(w: World, fs: Fs, entry: Entry, req: Request)
    ensures var r := Issue(w, fs, entry);
            HandleStep(w.session, r.world.session, r.reply) && EntryStep(w.session, r.world.session, req)
  {
    if Counted(w.session) {
      var s, s' := w.session, Issue(w, fs, entry).world.session;
      NextNameFree(s);
      forall h | h in s'.handles
        ensures NamedBelow(h, s'.next)
      {
        if h in s.handles {
          NamedLater(h, s.next, s'.next);
        }
      }
    }
  }

  lemma OpenHandles(home: Path, w: World, filename: string, flags: OpenFlags, env: Env)
    ensures var r := DoOpen(home, w, filename, flags, env);
            HandleStep(w.session, r.world.session, r.reply) && EntryStep(w.session, r.world.session, Open(filename, flags))
  {
    var r := DoOpen(home, w, filename, flags, env);
    if r.reply.Handle? {
      var o := OpenPath(w.fs, SftpResolve(home, filename).path, OptionsOf(flags));
      IssueHandles(w, o.fs, FileEntry(o.desc, WantsWrite(flags)), Open(filename, flags));
    }
  }

  lemma OpendirHandles(home: Path, w: World, path: string, env: Env)
    ensures var r := DoOpendir(home, w, path, env);
            HandleStep(w.session, r.world.session, r.reply) && EntryStep(w.session, r.world.session, Opendir(path))
  {
    if DoOpendir(home, w, path, env).reply.Handle? {
      IssueHandles(w, w.fs, DirEntry(env.listing), Opendir(path));
    }
  }

  lemma CloseHandles(w: World, handle: string)
    ensures var r := DoClose(w, handle);
            HandleStep(w.session, r.world.session, r.reply) && EntryStep(w.session, r.world.session, Close(handle))
    ensures handle !in DoClose(w, handle).world.session.handles
  {
  }

  lemma ReaddirHandles(w: World, handle: string, env: Env)
    ensures var r := DoReaddir(w, handle, env);
            HandleStep(w.session, r.world.session, r.reply) && EntryStep(w.session, r.world.session, Readdir(handle))
  {
    var r := DoReaddir(w, handle, env);
    assert r.world.session.handles.Keys == w.session.handles.Keys;
  }

  ghost predicate SessionKept(w: World, r: Result) {
    r.world.session == w.session && !r.reply.Handle?
  }

  lemma LookingKeepsSession(home: Path, w: World, e: Event)
    requires CanonicalHome(home) && w.Valid() && (e.req.Read? || e.req.Realpath?)
    ensures SessionKept(w, Step(home, w, e))
  {
  }

  lemma WritingKeepsSession(home: Path, w: World, e: Event)
    requires CanonicalHome(home) && w.Valid() && (e.req.Write? || e.req.Setstat?)
    ensures SessionKept(w, Step(home, w, e))
  {
  }

  lemma PlacingKeepsSession(home: Path, w: World, e: Event)
    requires CanonicalHome(home) && w.Valid() && (e.req.Mkdir? || e.req.Remove?)
    ensures SessionKept(w, Step(home, w, e))
  {
  }

  lemma RmdirKeepsSession(home: Path, w: World, path: string, env: Env)
    ensures SessionKept(w, DoRmdir(home, w, path, env))
  {
  }

  lemma RenameKeepsSession(home: Path, w: World, oldPath: string, newPath: string, env: Env)
    ensures SessionKept(w, DoRename(home, w, oldPath, newPath, env))
  {
  }

  lemma StepHandles(home: Path, w: World, e: Event, w': World, r: Reply)
    requires CanonicalHome(home) && Moves(home, w, e, w', r)
    ensures HandleStep(w.session, w'.session, r) && EntryStep(w.session, w'.session, e.req)
    ensures e.req.Close? ==> e.req.handle !in w'.session.handles
  {
    match e.req
    case Open(filename, flags) => OpenHandles(home, w, filename, flags, e.env);
    case Opendir(path) => OpendirHandles(home, w, path, e.env);
    case Close(handle) => CloseHandles(w, handle);
    case Readdir(handle) => ReaddirHandles(w, handle, e.env);
    case Read(handle, offset, len) => LookingKeepsSession(home, w, e);
    case Realpath(path) => LookingKeepsSession(home, w, e);
    case Write(handle, offset, data) => WritingKeepsSession(home, w, e);
    case Setstat(path, mode, size) => WritingKeepsSession(home, w, e);
    case Mkdir(path) => PlacingKeepsSession(home, w, e);
    case Remove(path) => PlacingKeepsSession(home, w, e);
    case Rmdir(path) => RmdirKeepsSession(home, w, path, e.env);
    case Rename(oldPath, newPath) => RenameKeepsSession(home, w, oldPath, newPath, e.env);
  }

  /** What a run does to handles, world by world. */
  ghost predicate HandleChain(run: Run) {
    && |run.worlds| == |run.events| + 1 && |run.replies| == |run.events|
    && Counted(run.worlds[0].session)
    && forall k :: 0 <= k < |run.events| ==>
         && HandleStep(run.worlds[k].session, run.worlds[k + 1].session, run.replies[k])
         && EntryStep(run.worlds[k].session, run.worlds[k + 1].session, run.events[k].req)
         && (run.events[k].req.Close? ==> run.events[k].req.handle !in run.worlds[k + 1].session.handles)
  }

  lemma RunIsHandleChain(home: Path, run: Run)
    requires IsRun(home, run) && Counted(run.worlds[0].session)
    ensures HandleChain(run)
  {
    forall k | 0 <= k < |run.events|
      ensures HandleStep(run.worlds[k].session, run.worlds[k + 1].session, run.replies[k])
      ensures EntryStep(run.worlds[k].session, run.worlds[k + 1].session, run.events[k].req)
      ensures run.events[k].req.Close? ==> run.events[k].req.handle !in run.worlds[k + 1].session.handles
    {
      StepHandles(home, run.worlds[k], run.events[k], run.worlds[k + 1], run.replies[k]);
    }
  }

  /** The counter only advances, and a name it has passed is open later only if it is open now. */
  lemma {:induction false} PassedNames(run: Run, i: nat, j: nat)
    requires HandleChain(run) && i <= j <= |run.events|
    ensures var a, b := run.worlds[i].session, run.worlds[j].session;
            && Counted(b) && a.next <= b.next
            && forall h :: h in b.handles && NamedBelow(h, a.next) ==> h in a.handles
    decreases j
  {
    if j > 0 {
      PassedNames(run, if i < j then i else j - 1, j - 1);
      var a, b, c := run.worlds[i].session, run.worlds[j - 1].session, run.worlds[j].session;
      assert HandleStep(b, c, run.replies[j - 1]);
      NextNameFree(b);
      if i < j && NamedBelow(HandleName(b.next), a.next) {
        NamedLater(HandleName(b.next), a.next, b.next);
      }
    }
  }

  /** At every moment of a session the search for a name ends at its first try. */
  lemma SearchEndsAtOnce(home: Path, run: Run, j: nat)
    requires IsRun(home, run) && Started(run) && j <= |run.events|
    ensures var s := run.worlds[j].session;
            FreeId(s.handles.Keys, s.next) == s.next
  {
    RunIsHandleChain(home, run);
    PassedNames(run, 0, j);
    NextNameFree(run.worlds[j].session);
  }

  /** Handle freshness: two handles issued in a session are different. */
  lemma HandlesFresh(home: Path, run: Run, i: nat, j: nat)
    requires IsRun(home, run) && Started(run) && i < j < |run.events|
    ensures run.replies[i].Handle? && run.replies[j].Handle? ==> run.replies[i].handle != run.replies[j].handle
  {
    RunIsHandleChain(home, run);
    PassedNames(run, 0, i);
    PassedNames(run, i + 1, j);
    NextNameFree(run.worlds[j].session);
    assert HandleStep(run.worlds[i].session, run.worlds[i + 1].session, run.replies[i]);
    assert HandleStep(run.worlds[j].session, run.worlds[j + 1].session, run.replies[j]);
    HandleNamesDiffer(run.worlds[i].session.next, run.worlds[j].session.next);
  }

  /** A name that the counter has passed and that is not open is never open again. */
  lemma GoneStaysGone(run: Run, handle: string, j: nat, k: nat)
    requires HandleChain(run) && j <= k <= |run.events|
    requires NamedBelow(handle, run.worlds[j].session.next) && handle !in run.worlds[j].session.handles
    ensures handle !in run.worlds[k].session.handles
  {
    PassedNames(run, j, k);
  }

  lemma IssuedNamed(run: Run, i: nat, j: nat)
    requires HandleChain(run) && i < j <= |run.events| && run.replies[i].Handle?
    ensures NamedBelow(run.replies[i].handle, run.worlds[j].session.next)
  {
    PassedNames(run, 0, i);
    NextNameFree(run.worlds[i].session);
    assert HandleStep(run.worlds[i].session, run.worlds[i + 1].session, run.replies[i]);
    PassedNames(run, i + 1, j);
    NamedLater(run.replies[i].handle, run.worlds[i + 1].session.next, run.worlds[j].session.next);
  }

  /** A handle once issued and closed is never valid again. */
  lemma ClosedStaysClosed(home: Path, run: Run, i: nat, j: nat, k: nat)
    requires IsRun(home, run) && Started(run) && i < j < k <= |run.events|
    requires run.replies[i].Handle? && run.events[j].req == Close(run.replies[i].handle)
    ensures run.replies[i].handle !in run.worlds[k].session.handles
  {
    RunIsHandleChain(home, run);
    IssuedNamed(run, i, j + 1);
    assert run.events[j].req.Close?;
    GoneStaysGone(run, run.replies[i].handle, j + 1, k);
  }

  // ---- Complete reads and listings ----

  lemma {:induction false} OpenFileKept(run: Run, i: nat, handle: string)
    requires HandleChain(run) && i <= |run.events| && IsOpenFile(run.worlds[0].session, handle)
    requires forall k :: 0 <= k < |run.events| ==> run.events[k].req != Close(handle)
    ensures Counted(run.worlds[i].session) && handle in run.worlds[i].session.handles
    ensures run.worlds[i].session.handles[handle] == run.worlds[0].session.handles[handle]
    decreases i
  {
    if i > 0 {
      OpenFileKept(run, i - 1, handle);
      assert HandleStep(run.worlds[i - 1].session, run.worlds[i].session, run.replies[i - 1]);
      assert EntryStep(run.worlds[i - 1].session, run.worlds[i].session, run.events[i - 1].req);
      assert run.events[i - 1].req != Close(handle);
    }
  }

  predicate IsRead(e: Event, handle: string) {
    e.req.Read? && e.req.handle == handle
  }

  /** What the replies to READ on one handle have delivered before event `i`. */
  function Gathered(run: Run, i: nat, handle: string): seq<byte>
    requires i <= |run.events| == |run.replies|
  {
    if i == 0 then []
    else
      Gathered(run, i - 1, handle)
      + if IsRead(run.events[i - 1], handle) && run.replies[i - 1].Data? then run.replies[i - 1].data else []
  }

  /** A client that downloads a file of steady content: it reads with positive lengths, each time from
      where the last reply ended, and nothing fails.  Other requests may come in between. */
  ghost predicate Downloading(run: Run, handle: string, content: seq<byte>) {
    && |run.worlds| == |run.events| + 1 && |run.replies| == |run.events|
    && Counted(run.worlds[0].session) && IsOpenFile(run.worlds[0].session, handle) && |content| < SEEK_LIMIT
    && var d := run.worlds[0].session.handles[handle].desc;
       && d.node.File? && d.readable
       && forall k :: 0 <= k < |run.events| ==>
            DownloadStep(run.worlds[k], run.events[k], d.node.ino, handle, content, |Gathered(run, k, handle)|)
  }

  /** The file is as it was, the handle stays open, and a READ goes on where the last one ended. */
  ghost predicate DownloadStep(w: World, e: Event, ino: nat, handle: string, content: seq<byte>, at: nat) {
    && e.req != Close(handle) && ino in w.fs.data && w.fs.data[ino] == content
    && (IsRead(e, handle) ==> e.env.fault.None? && e.req.len > 0 && e.req.offset == at)
  }

  /** The right answer to a READ at `at`: the next stretch of the file, or Eof at its end. */
  ghost predicate AnswersRead(content: seq<byte>, at: nat, r: Reply) {
    if |content| < at then !r.Data?
    else if |content| == at then r == Status(Eof)
    else r.Data? && 1 <= |r.data| <= MAX_READ_LEN && at + |r.data| <= |content| && r.data == content[at..at + |r.data|]
  }

  lemma ReadReply(w: World, handle: string, offset: nat, len: nat, env: Env)
    requires w.Valid() && IsOpenFile(w.session, handle) && env.fault.None? && len > 0
    requires w.session.handles[handle].desc.node.File? && w.session.handles[handle].desc.readable
    requires |w.fs.data[w.session.handles[handle].desc.node.ino]| < SEEK_LIMIT
    ensures AnswersRead(w.fs.data[w.session.handles[handle].desc.node.ino], offset, DoRead(w, handle, offset, len, env).reply)
  {
  }

  lemma MovesByRead(home: Path, w: World, e: Event, w': World, r: Reply)
    requires CanonicalHome(home) && Moves(home, w, e, w', r) && e.req.Read?
    ensures w.Valid() && DoRead(w, e.req.handle, e.req.offset, e.req.len, e.env) == Result(w', r)
  {
  }

  lemma ReplyToRead(home: Path, w: World, e: Event, w': World, r: Reply, handle: string, content: seq<byte>)
    requires CanonicalHome(home) && Moves(home, w, e, w', r)
    requires IsRead(e, handle) && e.env.fault.None? && e.req.len > 0 && IsOpenFile(w.session, handle)
    requires var d := w.session.handles[handle].desc;
             d.node.File? && d.readable && d.node.ino in w.fs.data && w.fs.data[d.node.ino] == content
    requires |content| < SEEK_LIMIT
    ensures AnswersRead(content, e.req.offset, r)
  {
    MovesByRead(home, w, e, w', r);
    ReadReply(w, handle, e.req.offset, e.req.len, e.env);
  }

  /** Event `i`, if it is a READ of the handle, is answered right. */
  ghost predicate AnsweredRight(run: Run, i: nat, handle: string, content: seq<byte>)
    requires i < |run.events| == |run.replies|
  {
    IsRead(run.events[i], handle) ==> AnswersRead(content, |Gathered(run, i, handle)|, run.replies[i])
  }

  lemma {:induction false} GatheredIsPrefix(run: Run, k: nat, handle: string, content: seq<byte>)
    requires k <= |run.events| == |run.replies|
    requires forall i :: 0 <= i < k ==> AnsweredRight(run, i, handle, content)
    ensures Gathered(run, k, handle) <= content
    decreases k
  {
    if k > 0 {
      GatheredIsPrefix(run, k - 1, handle, content);
      assert AnsweredRight(run, k - 1, handle, content);
      if IsRead(run.events[k - 1], handle) && run.replies[k - 1].Data? {
        var at, data := |Gathered(run, k - 1, handle)|, run.replies[k - 1].data;
        assert content[..at] + data == content[..at + |data|];
      }
    }
  }

  /** Downloads are complete: whatever the reads have delivered is a prefix of the file, Eof comes exactly
      when that prefix is the whole file, and any other reply brings at least one byte and at most 256 KiB. */
  lemma DownloadComplete(home: Path, run: Run, k: nat, handle: string, content: seq<byte>)
    requires IsRun(home, run) && Downloading(run, handle, content) && k < |run.events| && IsRead(run.events[k], handle)
    ensures Gathered(run, k, handle) <= content
    ensures run.replies[k] == Status(Eof) <==> Gathered(run, k, handle) == content
    ensures run.replies[k] != Status(Eof) ==> run.replies[k].Data? && 1 <= |run.replies[k].data| <= 262144
  {
    RunIsHandleChain(home, run);
    forall i | 0 <= i <= k
      ensures AnsweredRight(run, i, handle, content)
    {
      if IsRead(run.events[i], handle) {
        OpenFileKept(run, i, handle);
        ReplyToRead(home, run.worlds[i], run.events[i], run.worlds[i + 1], run.replies[i], handle, content);
      }
    }
    assert AnsweredRight(run, k, handle, content);
    GatheredIsPrefix(run, k, handle, content);
  }

  /** What event `e` adds to a listing. */
  function Batch(e: Event, r: Reply, handle: string): seq<string> {
    if e.req == Readdir(handle) && r.Names? then r.names else []
  }

  /** What the replies to READDIR on one handle have listed before event `i`. */
  function Listed(run: Run, i: nat, handle: string): seq<string>
    requires i <= |run.events| == |run.replies|
  {
    if i == 0 then []
    else
      Listed(run, i - 1, handle) + Batch(run.events[i - 1], run.replies[i - 1], handle)
  }

  ghost predicate Enumerating(run: Run, handle: string, all: seq<string>) {
    && run.worlds != [] && Counted(run.worlds[0].session)
    && handle in run.worlds[0].session.handles && run.worlds[0].session.handles[handle] == DirEntry(all)
    && forall k :: 0 <= k < |run.events| ==>
         run.events[k].req != Close(handle) && (run.events[k].req == Readdir(handle) ==> run.events[k].env.fault.None?)
  }

  /** A READDIR without a fault: the next hundred entries, or what is left of them. */
  ghost predicate ListStep(s: Session, s': Session, r: Reply, handle: string) {
    handle in s.handles && s.handles[handle].DirEntry? ==>
      var rest := s.handles[handle].remaining;
      var n := Min(BATCH, |rest|);
      && handle in s'.handles && s'.handles[handle] == DirEntry(rest[n..])
      && r == if n == 0 then Status(Eof) else Names(rest[..n])
  }

  lemma ReaddirReply(home: Path, w: World, e: Event, w': World, r: Reply, handle: string)
    requires CanonicalHome(home) && Moves(home, w, e, w', r) && e.req == Readdir(handle) && e.env.fault.None?
    ensures ListStep(w.session, w'.session, r, handle)
  {
  }

  ghost predicate ListChain(run: Run, handle: string) {
    && HandleChain(run)
    && forall k :: 0 <= k < |run.events| && run.events[k].req == Readdir(handle) ==>
         ListStep(run.worlds[k].session, run.worlds[k + 1].session, run.replies[k], handle)
  }

  lemma RunIsListChain(home: Path, run: Run, handle: string, all: seq<string>)
    requires IsRun(home, run) && Enumerating(run, handle, all)
    ensures ListChain(run, handle)
  {
    RunIsHandleChain(home, run);
    forall k | 0 <= k < |run.events| && run.events[k].req == Readdir(handle)
      ensures ListStep(run.worlds[k].session, run.worlds[k + 1].session, run.replies[k], handle)
    {
      ReaddirReply(home, run.worlds[k], run.events[k], run.worlds[k + 1], run.replies[k], handle);
    }
  }

  lemma ListingStep(s: Session, e: Event, s': Session, r: Reply, handle: string, all: seq<string>, listed: seq<string>)
    requires Counted(s) && HandleStep(s, s', r) && EntryStep(s, s', e.req) && e.req != Close(handle)
    requires e.req == Readdir(handle) ==> ListStep(s, s', r, handle)
    requires listed <= all && handle in s.handles && s.handles[handle] == DirEntry(all[|listed|..])
    ensures var next := listed + Batch(e, r, handle);
            next <= all && Counted(s') && handle in s'.handles && s'.handles[handle] == DirEntry(all[|next|..])
  {
    if e.req == Readdir(handle) {
      NextBatch(all, |listed|, Min(BATCH, |all| - |listed|));
    }
  }

  lemma {:induction false} ListedSoFar(run: Run, i: nat, handle: string, all: seq<string>)
    requires ListChain(run, handle) && Enumerating(run, handle, all) && i <= |run.events|
    ensures Listed(run, i, handle) <= all && Counted(run.worlds[i].session)
    ensures handle in run.worlds[i].session.handles
    ensures run.worlds[i].session.handles[handle] == DirEntry(all[|Listed(run, i, handle)|..])
    decreases i
  {
    if i > 0 {
      ListedSoFar(run, i - 1, handle, all);
      var s, s', e := run.worlds[i - 1].session, run.worlds[i].session, run.events[i - 1];
      assert HandleStep(s, s', run.replies[i - 1]) && EntryStep(s, s', e.req);
      ListingStep(s, e, s', run.replies[i - 1], handle, all, Listed(run, i - 1, handle));
    }
  }

  lemma NextBatch(all: seq<string>, at: nat, n: nat)
    requires at + n <= |all|
    ensures all[at..][n..] == all[at + n..] && all[..at] + all[at..][..n] == all[..at + n]
  {
  }

  /** Listings are complete: the batches list once, in order, and one to a hundred at a time, what there was
      to list; Eof comes exactly when all has been listed.  Other requests may come in between. */
  lemma ListingComplete(home: Path, run: Run, k: nat, handle: string, all: seq<string>)
    requires IsRun(home, run) && Enumerating(run, handle, all) && k < |run.events| && run.events[k].req == Readdir(handle)
    ensures Listed(run, k, handle) <= all && BatchOf(all, Listed(run, k, handle), run.replies[k])
  {
    RunIsListChain(home, run, handle, all);
    ListedSoFar(run, k, handle, all);
    BatchListed(run, k, handle, all);
  }

  lemma BatchListed(run: Run, k: nat, handle: string, all: seq<string>)
    requires ListChain(run, handle) && k < |run.events| && run.events[k].req == Readdir(handle)
    requires Listed(run, k, handle) <= all && handle in run.worlds[k].session.handles
    requires run.worlds[k].session.handles[handle] == DirEntry(all[|Listed(run, k, handle)|..])
    ensures BatchOf(all, Listed(run, k, handle), run.replies[k])
  {
    assert ListStep(run.worlds[k].session, run.worlds[k + 1].session, run.replies[k], handle);
    BatchTaken(run.worlds[k].session, run.worlds[k + 1].session, run.replies[k], handle, all, Listed(run, k, handle));
  }

  /** The right answer to a READDIR after `listed`. */
  ghost predicate BatchOf(all: seq<string>, listed: seq<string>, r: Reply) {
    && (r == Status(Eof) <==> listed == all)
    && (r != Status(Eof) ==> r.Names? && 1 <= |r.names| <= 100 && listed + r.names <= all
                             && (|r.names| < 100 ==> listed + r.names == all))
  }

  lemma BatchTaken(s: Session, s': Session, r: Reply, handle: string, all: seq<string>, listed: seq<string>)
    requires ListStep(s, s', r, handle) && listed <= all && handle in s.handles && s.handles[handle] == DirEntry(all[|listed|..])
    ensures BatchOf(all, listed, r)
  {
    NextBatch(all, |listed|, Min(BATCH, |all| - |listed|));
  }

  /** A listing names each entry of a directory once. */
  ghost predicate Lists(all: seq<string>, entries: set<string>) {
    && (forall i, j :: 0 <= i < j < |all| ==> all[i] != all[j])
    && (forall n :: n in all <==> n in entries)
  }

  /** A run without its first event. */
  function Later(run: Run): Run
    requires run.worlds != [] && run.events != [] && run.replies != []
  {
    Run(run.worlds[1..], run.events[1..], run.replies[1..])
  }

  lemma LaterIsRun(home: Path, run: Run)
    requires IsRun(home, run) && run.events != []
    ensures IsRun(home, Later(run))
  {
    forall k | 0 <= k < |run.events| - 1
      ensures Moves(home, run.worlds[1..][k], run.events[1..][k], run.worlds[1..][k + 1], run.replies[1..][k])
    {
      assert Moves(home, run.worlds[k + 1], run.events[k + 1], run.worlds[k + 2], run.replies[k + 1]);
    }
    assert Moves(home, run.worlds[0], run.events[0], run.worlds[1], run.replies[0]);
    StepValid(home, run.worlds[0], run.events[0], run.worlds[1], run.replies[0]);
  }

  lemma {:induction false} ListedLater(run: Run, k: nat, handle: string)
    requires 0 < k <= |run.events| == |run.replies| && run.worlds != [] && run.events[0].req != Readdir(handle)
    ensures Listed(run, k, handle) == Listed(Later(run), k - 1, handle)
    decreases k
  {
    if k > 1 {
      ListedLater(run, k - 1, handle);
    } else {
      assert Listed(run, 0, handle) == [];
    }
  }

  /** What an OPENDIR that issues a handle leaves behind. */
  lemma OpendirOpens(home: Path, w: World, e: Event, w': World, r: Reply)
    requires CanonicalHome(home) && Moves(home, w, e, w', r) && e.req.Opendir? && r.Handle?
    ensures r.handle in w'.session.handles && w'.session.handles[r.handle] == DirEntry(e.env.listing)
    ensures Place(home, w.fs, e.env.perms.canList, e.req.path, e.env).At?
    ensures w.fs.IsDir(Place(home, w.fs, e.env.perms.canList, e.req.path, e.env).loc)
  {
  }

  lemma PrefixLists(all: seq<string>, entries: set<string>, listed: seq<string>)
    requires Lists(all, entries) && listed <= all
    ensures listed == all <==> forall n :: n in entries ==> n in listed
  {
    if listed != all {
      var next := all[|listed|];
      assert next in all && next in entries;
      assert forall i :: 0 <= i < |listed| ==> listed[i] == all[i] != next;
    }
  }

  lemma BatchIsNew(all: seq<string>, entries: set<string>, listed: seq<string>, names: seq<string>)
    requires Lists(all, entries) && listed + names <= all
    ensures forall n :: n in names ==> n in entries && n !in listed
    ensures forall i, j :: 0 <= i < j < |names| ==> names[i] != names[j]
  {
    assert forall i :: 0 <= i < |names| ==> names[i] == (listed + names)[|listed| + i] == all[|listed| + i];
    assert forall i :: 0 <= i < |listed| ==> listed[i] == (listed + names)[i] == all[i];
  }

  ghost predicate Opens(home: Path, fs: Fs, e: Event, dir: Loc, all: seq<string>) {
    && e.req.Opendir? && e.env.listing == all
    && Place(home, fs, e.env.perms.canList, e.req.path, e.env) == At(dir)
  }

  /** A client that lists a directory: it opens it, with the entries coming in the order of `all`, and reads
      from the handle; nothing fails.  Other requests may come in between. */
  ghost predicate ListingDirectory(home: Path, run: Run, dir: Loc, handle: string, all: seq<string>) {
    && |run.worlds| == |run.events| + 1 && |run.replies| == |run.events| && run.events != []
    && Counted(run.worlds[0].session)
    && Opens(home, run.worlds[0].fs, run.events[0], dir, all) && run.replies[0] == Handle(handle)
    && forall i :: 0 < i < |run.events| ==>
         run.events[i].req != Close(handle) && (run.events[i].req == Readdir(handle) ==> run.events[i].env.fault.None?)
  }

  /** A directory is listed completely: after an OPENDIR every batch names one to a hundred of its entries,
      none of them twice and none listed before, and Eof comes exactly when every entry has been listed. */
  lemma DirectoryListed(home: Path, run: Run, dir: Loc, handle: string, all: seq<string>, k: nat)
    requires IsRun(home, run) && ListingDirectory(home, run, dir, handle, all) && 0 < k < |run.events|
    requires Lists(all, Entries(run.worlds[0].fs, dir)) && run.events[k].req == Readdir(handle)
    ensures run.worlds[0].fs.IsDir(dir)
    ensures var entries, listed, r := Entries(run.worlds[0].fs, dir), Listed(run, k, handle), run.replies[k];
            && (r == Status(Eof) <==> forall n :: n in entries ==> n in listed)
            && (r != Status(Eof) ==>
                  && r.Names? && 1 <= |r.names| <= 100
                  && (forall n :: n in r.names ==> n in entries && n !in listed)
                  && (forall i, j :: 0 <= i < j < |r.names| ==> r.names[i] != r.names[j]))
  {
    OpenedListing(home, run, dir, handle, all);
    ListingFromOpen(home, run, handle, all, k);
    BatchListsEntries(all, Entries(run.worlds[0].fs, dir), Listed(run, k, handle), run.replies[k]);
  }

  lemma ListingFromOpen(home: Path, run: Run, handle: string, all: seq<string>, k: nat)
    requires IsRun(home, run) && 0 < k < |run.events| && Enumerating(Later(run), handle, all)
    requires run.events[0].req != Readdir(handle) && run.events[k].req == Readdir(handle)
    ensures Listed(run, k, handle) <= all && BatchOf(all, Listed(run, k, handle), run.replies[k])
  {
    LaterIsRun(home, run);
    ListedLater(run, k, handle);
    ListingComplete(home, Later(run), k - 1, handle, all);
  }

  lemma OpenedListing(home: Path, run: Run, dir: Loc, handle: string, all: seq<string>)
    requires IsRun(home, run) && ListingDirectory(home, run, dir, handle, all)
    ensures Enumerating(Later(run), handle, all) && run.worlds[0].fs.IsDir(dir)
  {
    assert Moves(home, run.worlds[0], run.events[0], run.worlds[1], run.replies[0]);
    OpendirOpens(home, run.worlds[0], run.events[0], run.worlds[1], run.replies[0]);
    StepHandles(home, run.worlds[0], run.events[0], run.worlds[1], run.replies[0]);
  }

  lemma BatchListsEntries(all: seq<string>, entries: set<string>, listed: seq<string>, r: Reply)
    requires Lists(all, entries) && listed <= all && BatchOf(all, listed, r)
    ensures r == Status(Eof) <==> forall n :: n in entries ==> n in listed
    ensures r != Status(Eof) ==>
              && r.Names? && 1 <= |r.names| <= 100
              && (forall n :: n in r.names ==> n in entries && n !in listed)
              && (forall i, j :: 0 <= i < j < |r.names| ==> r.names[i] != r.names[j])
  {
    PrefixLists(all, entries, listed);
    if r != Status(Eof) {
      BatchIsNew(all, entries, listed, r.names);
    }
  }
}
