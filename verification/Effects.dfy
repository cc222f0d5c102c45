/** What each request of an SFTP session does, as a client and a directory listing see it.

The laws here speak of permissions, flags, places, locations and bytes alone: exactly when a request
succeeds, what it then leaves in the tree, in the files and in the table of handles, and what it leaves
alone.  The runs at the end put them together: an upload ends up as the bytes that were sent. */
module Effects {
  import opened Numbers
  import opened Options
  import opened Bytes
  import opened Paths
  import opened FileTree
  import opened Landing
  import opened Usage
  import opened Handles
  import opened SftpSession
  import opened SftpRuns

  // ---- Steps, by kind of request ----

  lemma StepOpens(home: Path, w: World, filename: string, flags: OpenFlags, env: Env)
    requires CanonicalHome(home) && w.Valid()
    ensures Step(home, w, Event(Open(filename, flags), env)) == DoOpen(home, w, filename, flags, env)
  {
  }

  lemma StepWrites(home: Path, w: World, handle: string, offset: nat, data: seq<byte>, env: Env)
    requires CanonicalHome(home) && w.Valid()
    ensures Step(home, w, Event(Write(handle, offset, data), env)) == DoWrite(home, w, handle, offset, data, env)
  {
  }

  lemma StepSets(home: Path, w: World, path: string, mode: bool, size: Option<nat>, env: Env)
    requires CanonicalHome(home) && w.Valid()
    ensures Step(home, w, Event(Setstat(path, mode, size), env)) == DoSetstat(home, w, path, mode, size, env)
  {
  }

  lemma StepRemoves(home: Path, w: World, path: string, env: Env)
    requires CanonicalHome(home) && w.Valid()
    ensures Step(home, w, Event(Remove(path), env)) == DoRemove(home, w, path, env)
  {
  }

  lemma StepMakes(home: Path, w: World, path: string, env: Env)
    requires CanonicalHome(home) && w.Valid()
    ensures Step(home, w, Event(Mkdir(path), env)) == DoMkdir(home, w, path, env)
  {
  }

  lemma StepPrunes(home: Path, w: World, path: string, env: Env)
    requires CanonicalHome(home) && w.Valid()
    ensures Step(home, w, Event(Rmdir(path), env)) == DoRmdir(home, w, path, env)
  {
  }

  lemma StepRenames(home: Path, w: World, oldPath: string, newPath: string, env: Env)
    requires CanonicalHome(home) && w.Valid()
    ensures Step(home, w, Event(Rename(oldPath, newPath), env)) == DoRename(home, w, oldPath, newPath, env)
  {
  }

  // ---- Places ----

  /** The place a request's text names: of an accepted text, where the operating system goes. */
  ghost function PlaceOf(home: Path, fs: Fs, text: string): Located {
    var place := SftpResolve(home, text);
    if place.Resolved? then Locate(fs, place.path) else Fails(NotFound)
  }

  /** Only the content of one inode may differ. */
  ghost predicate OnlyContent(a: Fs, b: Fs, ino: nat) {
    && b.tree == a.tree && b.next == a.next && b.data.Keys == a.data.Keys
    && forall i :: i in a.data && i != ino ==> b.data[i] == a.data[i]
  }

  /** Only the tree may differ, and in it only whether there is something at `l`. */
  ghost predicate OnlyPlace(a: Fs, b: Fs, l: Loc) {
    && b.data == a.data && b.next == a.next
    && (forall m :: m != l ==> (m in b.tree <==> m in a.tree))
    && (forall m :: m in a.tree && m != l ==> b.tree[m] == a.tree[m])
  }

  // ---- OPEN ----

  predicate Writes(f: OpenFlags) {
    f.write || f.append || f.create
  }

  /** Reading needs one permission and everything else another; appending may do with its own. */
  predicate OpenPermitted(p: Permissions, f: OpenFlags) {
    if Writes(f) || f.truncate then p.canWrite || (p.canAppend && f.append) else p.canRead
  }

  /** The operating system wants some access, and truncates only what may be written and not only appended to. */
  predicate SensibleFlags(f: OpenFlags) {
    (f.read || Writes(f)) && (f.truncate ==> !f.append && (f.write || f.create))
  }

  /** What OPEN finds must suit the flags: nothing if it may create, a file, or a directory only to read. */
  predicate SuitsFlags(fs: Fs, l: Loc, f: OpenFlags) {
    if l !in fs.tree then f.create else fs.tree[l].Dir? ==> !Writes(f)
  }

  /** Exactly when OPEN issues a handle; otherwise nothing happens. */
  lemma OpenSucceedsExactly(home: Path, w: World, e: Event, w': World, r: Reply)
    requires CanonicalHome(home) && Moves(home, w, e, w', r) && e.req.Open?
    ensures var place, f := PlaceOf(home, w.fs, e.req.filename), e.req.flags;
            r.Handle? <==>
              && OpenPermitted(e.env.perms, f) && SensibleFlags(f) && e.env.fault.None?
              && place.At? && SuitsFlags(w.fs, place.loc, f)
    ensures !r.Handle? ==> r.Status? && w' == w
  {
    StepOpens(home, w, e.req.filename, e.req.flags, e.env);
  }

  /** What OPEN leaves at its place: the file that was there or a new one, emptied if TRUNCATE is set and
      otherwise as it was.  No other file and no other location changes. */
  lemma OpenLeaves(home: Path, w: World, e: Event, w': World, r: Reply)
    requires CanonicalHome(home) && Moves(home, w, e, w', r) && e.req.Open? && r.Handle?
    ensures PlaceOf(home, w.fs, e.req.filename).At?
    ensures var l, a, b := PlaceOf(home, w.fs, e.req.filename).loc, w.fs, w'.fs;
            && l in b.tree
            && (if l in a.tree then b.tree == a.tree else b.IsFile(l) && b.tree[l].ino !in a.data && b.tree == a.tree[l := b.tree[l]])
            && (b.IsFile(l) ==>
                  && b.tree[l].ino in b.data && b.data.Keys == a.data.Keys + {b.tree[l].ino}
                  && (if l !in a.tree || e.req.flags.truncate then b.data[b.tree[l].ino] == []
                      else b.tree[l].ino in a.data && b.data[b.tree[l].ino] == a.data[b.tree[l].ino])
                  && forall i :: i in a.data && i != b.tree[l].ino ==> b.data[i] == a.data[i])
            && (b.IsDir(l) ==> b.data == a.data)
  {
    StepOpens(home, w, e.req.filename, e.req.flags, e.env);
  }

  /** The handle is new, and its entry reads, writes and appends as the flags say. */
  lemma OpenIssues(home: Path, w: World, e: Event, w': World, r: Reply)
    requires CanonicalHome(home) && Moves(home, w, e, w', r) && e.req.Open? && r.Handle?
    ensures r.handle !in w.session.handles && r.handle in w'.session.handles
    ensures w'.session.handles == w.session.handles[r.handle := w'.session.handles[r.handle]]
    ensures PlaceOf(home, w.fs, e.req.filename).At? && PlaceOf(home, w.fs, e.req.filename).loc in w'.fs.tree
    ensures var entry, f := w'.session.handles[r.handle], e.req.flags;
            var node := w'.fs.tree[PlaceOf(home, w.fs, e.req.filename).loc];
            && entry.FileEntry? && entry.desc.node == node
            && (entry.writable <==> Writes(f) || f.truncate)
            && (node.File? ==>
                  && (entry.desc.readable <==> f.read) && (entry.desc.writable <==> Writes(f))
                  && (entry.desc.append <==> f.append))
            && (node.Dir? ==> !entry.desc.writable)
  {
    StepOpens(home, w, e.req.filename, e.req.flags, e.env);
  }

  // ---- CLOSE ----

  /** CLOSE takes one handle off the table, whatever is behind it, or reports that there is none. */
  lemma CloseForgets(home: Path, w: World, e: Event, w': World, r: Reply)
    requires CanonicalHome(home) && Moves(home, w, e, w', r) && e.req.Close?
    ensures w'.fs == w.fs && w'.session.next == w.session.next
    ensures forall h :: h in w'.session.handles <==> h in w.session.handles && h != e.req.handle
    ensures forall h :: h in w'.session.handles ==> w'.session.handles[h] == w.session.handles[h]
    ensures r == if e.req.handle in w.session.handles then Done else Status(NoSuchFile)
  {
  }

  // ---- READ ----

  /** What a handle for a file is good for. */
  predicate OpenFor(s: Session, handle: string, writing: bool) {
    && IsOpenFile(s, handle) && s.handles[handle].desc.node.File?
    && if writing then s.handles[handle].desc.writable else s.handles[handle].desc.readable
  }

  /** Exactly when READ brings data, and which; and exactly when it reports the end of the file.  It changes
      nothing. */
  lemma ReadAnswers(home: Path, w: World, e: Event, w': World, r: Reply)
    requires CanonicalHome(home) && Moves(home, w, e, w', r) && e.req.Read?
    ensures w' == w && (r.Data? || r.Status?)
    ensures r.Data? || r == Status(Eof) ==>
              IsOpenFile(w.session, e.req.handle) && e.req.offset < SEEK_LIMIT && e.env.fault.None?
    ensures OpenFor(w.session, e.req.handle, false) && e.req.offset < SEEK_LIMIT && e.env.fault.None? ==>
              var content := w.fs.data[w.session.handles[e.req.handle].desc.node.ino];
              if e.req.len == 0 || |content| <= e.req.offset then r == Status(Eof)
              else r.Data? && 1 <= |r.data| <= Min(e.req.len, 262144) && r.data <= content[e.req.offset..]
    ensures !OpenFor(w.session, e.req.handle, false) ==> !r.Data? && (r == Status(Eof) ==> e.req.len == 0)
  {
  }

  // ---- WRITE ----

  /** There is room for `n` more bytes: nothing to store, no quota, one too large to be enforced, or enough. */
  predicate HasRoom(p: Permissions, usage: nat, n: nat) {
    || n == 0 || p.quotaMb.None? || p.quotaMb.value == 0
    || p.quotaMb.value * 1048576 > U64_MAX || usage + n <= p.quotaMb.value * 1048576
  }

  /** Exactly when WRITE succeeds. */
  lemma WriteSucceedsExactly(home: Path, w: World, e: Event, w': World, r: Reply)
    requires CanonicalHome(home) && Moves(home, w, e, w', r) && e.req.Write?
    ensures r == Done <==>
              && HasRoom(e.env.perms, SizeBelow(w.fs, NamesOf(home)), |e.req.data|)
              && IsOpenFile(w.session, e.req.handle) && e.req.offset < SEEK_LIMIT
              && (e.req.data == [] || (OpenFor(w.session, e.req.handle, true) && e.env.fault.None?))
    ensures r == Done || r.Status?
    ensures r != Done && w' != w ==>
              && e.env.fault.Some? && HasRoom(e.env.perms, SizeBelow(w.fs, NamesOf(home)), |e.req.data|)
              && OpenFor(w.session, e.req.handle, true) && e.req.offset < SEEK_LIMIT
  {
    StepWrites(home, w, e.req.handle, e.req.offset, e.req.data, e.env);
  }

  /** The file of one handle with `landed` written through it, and nothing else different. */
  ghost predicate Wrote(w: World, w': World, handle: string, offset: nat, landed: seq<byte>)
    requires w.Valid() && OpenFor(w.session, handle, true)
  {
    var d := w.session.handles[handle].desc;
    && OnlyContent(w.fs, w'.fs, d.node.ino) && d.node.ino in w'.fs.data
    && if d.append then w'.fs.data[d.node.ino] == w.fs.data[d.node.ino] + landed
       else Overlaid(w'.fs.data[d.node.ino], w.fs.data[d.node.ino], offset, landed)
  }

  lemma OsWriteWrites(w: World, handle: string, offset: nat, landed: seq<byte>)
    requires w.Valid() && OpenFor(w.session, handle, true)
    ensures Wrote(w, w.(fs := OsWrite(w.fs, w.session.handles[handle].desc, offset, landed)), handle, offset, landed)
  {
    var d := w.session.handles[handle].desc;
    var content := w.fs.data[d.node.ino];
    WriteAtEnd(content, landed);
    OverlaidExactly(WriteAt(content, offset, landed), content, offset, landed);
  }

  lemma CommitWrites(w: World, handle: string, offset: nat, data: seq<byte>, env: Env) returns (landed: seq<byte>)
    requires w.Valid()
    ensures var r := Commit(w, handle, offset, data, env);
            && landed <= data && (r.reply == Done ==> landed == data) && r.world.session == w.session
            && (OpenFor(w.session, handle, true) ==> Wrote(w, r.world, handle, offset, landed))
            && (!OpenFor(w.session, handle, true) ==> r.world == w && landed == [])
  {
    landed := [];
    if OpenFor(w.session, handle, true) {
      OsWriteWrites(w, handle, offset, landed);
      if offset < SEEK_LIMIT && data != [] {
        landed := if env.fault.Some? then data[..Min(env.partial, |data|)] else data;
        OsWriteWrites(w, handle, offset, landed);
      }
    }
  }

  lemma WriteForm(home: Path, w: World, e: Event, w': World, r: Reply)
    requires CanonicalHome(home) && Moves(home, w, e, w', r) && e.req.Write?
    ensures w.Valid()
    ensures (w' == w && r == Status(Failure)) || Commit(w, e.req.handle, e.req.offset, e.req.data, e.env) == Result(w', r)
  {
    StepWrites(home, w, e.req.handle, e.req.offset, e.req.data, e.env);
  }

  lemma NothingWritten(w: World, handle: string, offset: nat)
    requires w.Valid() && OpenFor(w.session, handle, true)
    ensures Wrote(w, w, handle, offset, [])
  {
  }

  /** What WRITE leaves: the data laid over the file at the offset, or behind its end if the handle appends;
      if it fails, a beginning of the data, or nothing.  No location and no other file changes. */
  lemma WriteLeaves(home: Path, w: World, e: Event, w': World, r: Reply) returns (landed: seq<byte>)
    requires CanonicalHome(home) && Moves(home, w, e, w', r) && e.req.Write?
    ensures w.Valid() && w'.session == w.session
    ensures landed <= e.req.data && (r == Done ==> landed == e.req.data)
    ensures if OpenFor(w.session, e.req.handle, true) then Wrote(w, w', e.req.handle, e.req.offset, landed)
            else w' == w && landed == []
  {
    WriteForm(home, w, e, w', r);
    landed := CommitWrites(w, e.req.handle, e.req.offset, e.req.data, e.env);
    if Commit(w, e.req.handle, e.req.offset, e.req.data, e.env) != Result(w', r) {
      landed := [];
      if OpenFor(w.session, e.req.handle, true) {
        NothingWritten(w, e.req.handle, e.req.offset);
      }
    }
  }

  // ---- SETSTAT ----

  /** Exactly when SETSTAT succeeds: with nothing to set whatever is there, otherwise if something is, and if
      a size is to be set, if it is a file and the size is in range. */
  lemma SetstatSucceedsExactly(home: Path, w: World, e: Event, w': World, r: Reply)
    requires CanonicalHome(home) && Moves(home, w, e, w', r) && e.req.Setstat?
    ensures var place, size := PlaceOf(home, w.fs, e.req.path), e.req.size;
            r == Done <==>
              && e.env.perms.canWrite && SftpResolve(home, e.req.path).Resolved?
              && (|| (!e.req.mode && size.None?)
                  || (&& e.env.fault.None? && place.At? && place.loc in w.fs.tree
                      && (size.Some? ==> w.fs.IsFile(place.loc) && size.value < SEEK_LIMIT)))
    ensures r == Done || r.Status?
    ensures w' != w ==> r == Done && e.req.size.Some?
  {
    StepSets(home, w, e.req.path, e.req.mode, e.req.size, e.env);
  }

  /** A size that is set leaves a file of that size: what it held so far, cut off or followed by zeros. */
  lemma SetstatResizes(home: Path, w: World, e: Event, w': World, r: Reply)
    requires CanonicalHome(home) && Moves(home, w, e, w', r) && e.req.Setstat? && r == Done && e.req.size.Some?
    ensures PlaceOf(home, w.fs, e.req.path).At? && w.fs.IsFile(PlaceOf(home, w.fs, e.req.path).loc)
    ensures var ino := w.fs.tree[PlaceOf(home, w.fs, e.req.path).loc].ino;
            && w'.session == w.session && ino in w.fs.data && ino in w'.fs.data && OnlyContent(w.fs, w'.fs, ino)
            && |w'.fs.data[ino]| == e.req.size.value
            && forall i :: 0 <= i < |w'.fs.data[ino]| ==>
                 w'.fs.data[ino][i] == if i < |w.fs.data[ino]| then w.fs.data[ino][i] else 0
  {
    StepSets(home, w, e.req.path, e.req.mode, e.req.size, e.env);
  }

  // ---- OPENDIR and READDIR ----

  /** Exactly when OPENDIR issues a handle, for which entry; the files stay as they are. */
  lemma OpendirIssues(home: Path, w: World, e: Event, w': World, r: Reply)
    requires CanonicalHome(home) && Moves(home, w, e, w', r) && e.req.Opendir?
    ensures var place := PlaceOf(home, w.fs, e.req.path);
            r.Handle? <==> e.env.perms.canList && e.env.fault.None? && place.At? && w.fs.IsDir(place.loc)
    ensures r.Handle? ==>
              && w'.fs == w.fs && r.handle !in w.session.handles
              && w'.session.handles == w.session.handles[r.handle := DirEntry(e.env.listing)]
    ensures !r.Handle? ==> r.Status? && w' == w
  {
  }

  predicate IsListing(s: Session, handle: string) {
    handle in s.handles && s.handles[handle].DirEntry?
  }

  /** Only the entry of one handle may differ. */
  ghost predicate OnlyEntry(w: World, w': World, handle: string) {
    && w'.fs == w.fs && w'.session.next == w.session.next && w'.session.handles.Keys == w.session.handles.Keys
    && forall h :: h in w.session.handles && h != handle ==> w'.session.handles[h] == w.session.handles[h]
  }

  /** The enumeration fails before the batch is full: after `partial` of the entries still to come. */
  predicate EnumerationFails(env: Env, rest: seq<string>) {
    env.fault.Some? && env.partial < 100 && env.partial <= |rest|
  }

  /** The first hundred of the entries to come are brought and the others stay, Eof if there are none; a
      failing enumeration loses what it had read. */
  ghost predicate Brings(rest: seq<string>, rest': seq<string>, env: Env, r: Reply) {
    if EnumerationFails(env, rest) then r.Status? && rest' == rest[env.partial..]
    else if rest == [] then r == Status(Eof) && rest' == []
    else r.Names? && |r.names| == Min(100, |rest|) && r.names + rest' == rest
  }

  /** What READDIR does to the entries still to come behind its handle, and what it brings of them. */
  lemma ReaddirBrings(home: Path, w: World, e: Event, w': World, r: Reply)
    requires CanonicalHome(home) && Moves(home, w, e, w', r) && e.req.Readdir?
    ensures OnlyEntry(w, w', e.req.handle)
    ensures if IsListing(w.session, e.req.handle) then
              && IsListing(w'.session, e.req.handle)
              && Brings(w.session.handles[e.req.handle].remaining, w'.session.handles[e.req.handle].remaining, e.env, r)
            else r == Status(NoSuchFile) && w' == w
  {
    ReaddirForm(home, w, e, w', r);
    if IsListing(w.session, e.req.handle) {
      BatchBrought(w, e.req.handle, e.env);
    }
  }

  lemma ReaddirForm(home: Path, w: World, e: Event, w': World, r: Reply)
    requires CanonicalHome(home) && Moves(home, w, e, w', r) && e.req.Readdir?
    ensures DoReaddir(w, e.req.handle, e.env) == Result(w', r)
  {
  }

  lemma BatchBrought(w: World, handle: string, env: Env)
    requires IsListing(w.session, handle)
    ensures var r := DoReaddir(w, handle, env);
            && OnlyEntry(w, r.world, handle) && IsListing(r.world.session, handle)
            && Brings(w.session.handles[handle].remaining, r.world.session.handles[handle].remaining, env, r.reply)
  {
    var rest := w.session.handles[handle].remaining;
    var n := Min(100, |rest|);
    assert rest[..n] + rest[n..] == rest;
  }

  // ---- REMOVE, MKDIR and RMDIR ----

  /** Exactly when REMOVE succeeds; then the one location is gone, and nothing else has changed. */
  lemma RemoveRemoves(home: Path, w: World, e: Event, w': World, r: Reply)
    requires CanonicalHome(home) && Moves(home, w, e, w', r) && e.req.Remove?
    ensures var place := PlaceOf(home, w.fs, e.req.path);
            && (r == Done <==> e.env.perms.canDelete && e.env.fault.None? && place.At? && w.fs.IsFile(place.loc))
            && (r == Done ==> place.loc !in w'.fs.tree && OnlyPlace(w.fs, w'.fs, place.loc) && w'.session == w.session)
    ensures r != Done ==> r.Status? && w' == w
  {
    StepRemoves(home, w, e.req.path, e.env);
  }

  /** Exactly when MKDIR succeeds; then there is one directory more, and nothing else has changed. */
  lemma MkdirMakes(home: Path, w: World, e: Event, w': World, r: Reply)
    requires CanonicalHome(home) && Moves(home, w, e, w', r) && e.req.Mkdir?
    ensures var place := PlaceOf(home, w.fs, e.req.path);
            && (r == Done <==> e.env.perms.canMkdir && e.env.fault.None? && place.At? && place.loc !in w.fs.tree)
            && (r == Done ==> w'.fs.IsDir(place.loc) && OnlyPlace(w.fs, w'.fs, place.loc) && w'.session == w.session)
    ensures r != Done ==> r.Status? && w' == w
  {
    StepMakes(home, w, e.req.path, e.env);
  }

  /** Exactly when RMDIR succeeds.  Then nothing is left at or below its place, everything else keeps its
      node, and no content changes.  If it fails, only what lies there may be gone, and only if the operating
      system failed or the place is the root. */
  lemma RmdirRemoves(home: Path, w: World, e: Event, w': World, r: Reply)
    requires CanonicalHome(home) && Moves(home, w, e, w', r) && e.req.Rmdir?
    ensures var place := PlaceOf(home, w.fs, e.req.path);
            && (r == Done <==>
                  && e.env.perms.canRmdir && e.env.fault.None?
                  && place.At? && w.fs.IsDir(place.loc) && place.loc != [])
            && (r == Done ==> forall m :: m in w'.fs.tree <==> m in w.fs.tree && !(place.loc <= m))
            && (w' != w && r != Done ==>
                  && e.env.perms.canRmdir && place.At? && w.fs.IsDir(place.loc)
                  && (e.env.fault.Some? || place.loc == [])
                  && (forall m :: m in w.fs.tree && !(place.loc <= m) ==> m in w'.fs.tree))
    ensures forall m :: m in w'.fs.tree ==> m in w.fs.tree && w'.fs.tree[m] == w.fs.tree[m]
    ensures w'.fs.data == w.fs.data && w'.fs.next == w.fs.next && w'.session == w.session
    ensures r == Done || r.Status?
  {
    StepPrunes(home, w, e.req.path, e.env);
  }

  // ---- RENAME ----

  /** Exactly when RENAME succeeds. */
  lemma RenameSucceedsExactly(home: Path, w: World, e: Event, w': World, r: Reply)
    requires CanonicalHome(home) && Moves(home, w, e, w', r) && e.req.Rename?
    ensures var a, b := PlaceOf(home, w.fs, e.req.oldPath), PlaceOf(home, w.fs, e.req.newPath);
            r == Done <==> e.env.perms.canRename && e.env.fault.None? && Movable(w.fs, a, b)
    ensures r != Done ==> r.Status? && w' == w
  {
    MovesByRename(home, w, e, w', r);
    RenameOutcomes(home, w, e.req.oldPath, e.req.newPath, e.env);
  }

  /** Something at the one place, nothing at the other, and that not below the first. */
  ghost predicate Movable(fs: Fs, a: Located, b: Located) {
    a.At? && a.loc in fs.tree && b.At? && b.loc !in fs.tree && !(a.loc <= b.loc)
  }

  lemma MovesByRename(home: Path, w: World, e: Event, w': World, r: Reply)
    requires CanonicalHome(home) && Moves(home, w, e, w', r) && e.req.Rename?
    ensures w.Valid() && DoRename(home, w, e.req.oldPath, e.req.newPath, e.env) == Result(w', r)
  {
    StepRenames(home, w, e.req.oldPath, e.req.newPath, e.env);
  }

  lemma RenameOutcomes(home: Path, w: World, oldPath: string, newPath: string, env: Env)
    requires w.Valid()
    ensures var a, b, r := PlaceOf(home, w.fs, oldPath), PlaceOf(home, w.fs, newPath), DoRename(home, w, oldPath, newPath, env);
            && (r.reply == Done <==> env.perms.canRename && env.fault.None? && Movable(w.fs, a, b))
            && (r.reply != Done ==> r.reply.Status? && r.world == w)
            && (r.reply == Done ==> r.world == w.(fs := OsRename(w.fs, a.loc, b.loc)))
  {
  }

  /** `b` is `a` with what was at or below `from` now at or below `to`, in the same order, and nothing else
      different. */
  ghost predicate MovedTree(a: Fs, b: Fs, from: Loc, to: Loc) {
    && b.data == a.data && b.next == a.next
    && (forall m :: m in a.tree && !(from <= m) ==> m in b.tree && b.tree[m] == a.tree[m])
    && (forall m :: m in a.tree && from <= m ==> to + m[|from|..] in b.tree && b.tree[to + m[|from|..]] == a.tree[m])
    && (forall k :: k in b.tree ==> (k in a.tree && !(from <= k)) || (to <= k && from + k[|to|..] in a.tree))
  }

  lemma OsRenameMoves(fs: Fs, from: Loc, to: Loc)
    requires Renamable(fs, from, to)
    ensures MovedTree(fs, OsRename(fs, from, to), from, to)
  {
    var fs' := OsRename(fs, from, to);
    RenameRelabels(fs, from, to);
    forall m | m in fs.tree
      ensures Target(from, to, m) in fs'.tree && fs'.tree[Target(from, to, m)] == fs.tree[m]
    {
    }
    forall k | k in fs'.tree
      ensures (k in fs.tree && !(from <= k)) || (to <= k && from + k[|to|..] in fs.tree)
    {
      var l := RenameCovers(fs, from, to, k);
      if from <= l {
        MovedBack(from, to, l);
      }
    }
  }

  /** What RENAME leaves: the one place and all below it moved to the other.  Nothing else moves or changes. */
  lemma RenameMoves(home: Path, w: World, e: Event, w': World, r: Reply)
    requires CanonicalHome(home) && Moves(home, w, e, w', r) && e.req.Rename? && r == Done
    ensures PlaceOf(home, w.fs, e.req.oldPath).At? && PlaceOf(home, w.fs, e.req.newPath).At?
    ensures MovedTree(w.fs, w'.fs, PlaceOf(home, w.fs, e.req.oldPath).loc, PlaceOf(home, w.fs, e.req.newPath).loc)
    ensures w'.session == w.session
  {
    MovesByRename(home, w, e, w', r);
    RenameOutcomes(home, w, e.req.oldPath, e.req.newPath, e.env);
    RenamePlaces(home, w, e.req.oldPath, e.req.newPath, e.env);
    OsRenameMoves(w.fs, PlaceOf(home, w.fs, e.req.oldPath).loc, PlaceOf(home, w.fs, e.req.newPath).loc);
  }

  lemma RenamePlaces(home: Path, w: World, oldPath: string, newPath: string, env: Env)
    requires w.Valid() && Movable(w.fs, PlaceOf(home, w.fs, oldPath), PlaceOf(home, w.fs, newPath))
    ensures Renamable(w.fs, PlaceOf(home, w.fs, oldPath).loc, PlaceOf(home, w.fs, newPath).loc)
  {
    if SftpResolve(home, newPath).Resolved? {
      LocatedBelowDir(w.fs, SftpResolve(home, newPath).path);
    }
  }

  // ---- Refusals ----

  /** The permission a request needs; requests on handles and REALPATH need none. */
  predicate Permitted(e: Event) {
    match e.req
    case Open(_, flags) => OpenPermitted(e.env.perms, flags)
    case Setstat(_, _, _) => e.env.perms.canWrite
    case Opendir(_) => e.env.perms.canList
    case Remove(_) => e.env.perms.canDelete
    case Mkdir(_) => e.env.perms.canMkdir
    case Rmdir(_) => e.env.perms.canRmdir
    case Rename(_, _) => e.env.perms.canRename
    case _ => true
  }

  /** Every text of a request is accepted. */
  predicate TextsAccepted(home: Path, req: Request) {
    match req
    case Open(text, _) => SftpResolve(home, text).Resolved?
    case Setstat(text, _, _) => SftpResolve(home, text).Resolved?
    case Opendir(text) => SftpResolve(home, text).Resolved?
    case Remove(text) => SftpResolve(home, text).Resolved?
    case Mkdir(text) => SftpResolve(home, text).Resolved?
    case Rmdir(text) => SftpResolve(home, text).Resolved?
    case Rename(a, b) => SftpResolve(home, a).Resolved? && SftpResolve(home, b).Resolved?
    case Realpath(text) => SftpResolve(home, text).Resolved?
    case _ => true
  }

  /** Permissions come first, texts second, and neither lets anything happen. */
  lemma RefusedBeforehand(home: Path, w: World, e: Event, w': World, r: Reply)
    requires CanonicalHome(home) && Moves(home, w, e, w', r)
    ensures !Permitted(e) ==> r == Status(PermissionDenied) && w' == w
    ensures Permitted(e) && !TextsAccepted(home, e.req) ==> r == Status(NoSuchFile) && w' == w
  {
  }

  lemma PlaceErrors(home: Path, fs: Fs, text: string)
    ensures PlaceOf(home, fs, text) != Fails(AccessDenied)
  {
    if SftpResolve(home, text).Resolved? {
      LocateExactly(fs, SftpResolve(home, text).path);
    }
  }

  lemma RenameDenied(home: Path, w: World, e: Event, w': World, r: Reply)
    requires CanonicalHome(home) && Moves(home, w, e, w', r) && e.req.Rename? && e.env.fault != Some(AccessDenied)
    ensures r == Status(PermissionDenied) <==> !e.env.perms.canRename
  {
    MovesByRename(home, w, e, w', r);
    RenameErrors(home, w, e.req.oldPath, e.req.newPath, e.env, w', r);
  }

  lemma RenameErrors(home: Path, w: World, oldPath: string, newPath: string, env: Env, w': World, r: Reply)
    requires w.Valid() && env.fault != Some(AccessDenied) && DoRename(home, w, oldPath, newPath, env) == Result(w', r)
    ensures r == Status(PermissionDenied) <==> !env.perms.canRename
  {
    PlaceErrors(home, w.fs, oldPath);
    PlaceErrors(home, w.fs, newPath);
  }

  lemma OpenDenied(home: Path, w: World, e: Event, w': World, r: Reply)
    requires CanonicalHome(home) && Moves(home, w, e, w', r) && e.req.Open? && e.env.fault != Some(AccessDenied)
    ensures r == Status(PermissionDenied) <==> !Permitted(e)
  {
    PlaceErrors(home, w.fs, e.req.filename);
  }

  lemma PlacingDenied(home: Path, w: World, e: Event, w': World, r: Reply)
    requires CanonicalHome(home) && Moves(home, w, e, w', r) && e.env.fault != Some(AccessDenied)
    requires e.req.Opendir? || e.req.Remove? || e.req.Mkdir? || e.req.Rmdir? || e.req.Setstat?
    ensures r == Status(PermissionDenied) <==> !Permitted(e)
  {
    PlaceErrors(home, w.fs, e.req.path);
  }

  /** Unless the operating system denies access, permission is denied exactly if it is missing. */
  lemma DeniedExactly(home: Path, w: World, e: Event, w': World, r: Reply)
    requires CanonicalHome(home) && Moves(home, w, e, w', r) && e.env.fault != Some(AccessDenied)
    ensures r == Status(PermissionDenied) <==> !Permitted(e)
  {
    if e.req.Rename? {
      RenameDenied(home, w, e, w', r);
    } else if e.req.Open? {
      OpenDenied(home, w, e, w', r);
    } else if e.req.Opendir? || e.req.Remove? || e.req.Mkdir? || e.req.Rmdir? || e.req.Setstat? {
      PlacingDenied(home, w, e, w', r);
    }
  }

  /** What the operating system reports of a failure, the client is told. */
  predicate Tells(fault: OsError, r: Reply) {
    match fault
    case NotFound => r == Status(NoSuchFile)
    case AccessDenied => r == Status(PermissionDenied)
    case OtherError => r == Status(Failure)
  }

  /** The operating system has its say on a request once it is permitted and its texts are accepted: on a READ
      or WRITE of an open file in range, on a SETSTAT that sets something, on a RMDIR of a directory, on a RENAME
      to what is not there, and on every other request for a place. */
  ghost predicate Reached(home: Path, w: World, e: Event)
    requires w.Valid() && CanonicalHome(home)
  {
    match e.req
    case Open(_, _) => true
    case Opendir(_) => true
    case Remove(_) => true
    case Mkdir(_) => true
    case Setstat(_, mode, size) => mode || size.Some?
    case Rmdir(text) => PlaceOf(home, w.fs, text).At? && w.fs.IsDir(PlaceOf(home, w.fs, text).loc)
    case Rename(_, text) => PlaceOf(home, w.fs, text).At? ==> PlaceOf(home, w.fs, text).loc !in w.fs.tree
    case Read(handle, offset, _) => IsOpenFile(w.session, handle) && offset < SEEK_LIMIT
    case Write(handle, offset, data) =>
      && OpenFor(w.session, handle, true) && offset < SEEK_LIMIT && data != []
      && HasRoom(e.env.perms, SizeBelow(w.fs, NamesOf(home)), |data|)
    case _ => false
  }

  lemma FaultTold(home: Path, w: World, e: Event, w': World, r: Reply)
    requires CanonicalHome(home) && Moves(home, w, e, w', r) && w.Valid()
    requires e.env.fault.Some? && Permitted(e) && TextsAccepted(home, e.req) && Reached(home, w, e)
    ensures Tells(e.env.fault.value, r)
  {
  }

  /** Whether there is nothing to be found: no directory on the way, or nothing in it. */
  ghost predicate NothingThere(place: Located, fs: Fs) {
    place == Fails(NotFound) || (place.At? && place.loc !in fs.tree)
  }

  /** Without a failure, what cannot be done fails with NoSuchFile exactly if there is nothing at the place, and
      with Failure otherwise. */
  lemma MissedExactly(home: Path, w: World, e: Event, w': World, r: Reply)
    requires CanonicalHome(home) && Moves(home, w, e, w', r)
    requires e.env.fault.None? && Permitted(e) && TextsAccepted(home, e.req) && r.Status?
    requires e.req.Opendir? || e.req.Remove? || e.req.Rmdir? || e.req.Setstat?
    ensures r == Status(if NothingThere(PlaceOf(home, w.fs, e.req.path), w.fs) then NoSuchFile else Failure)
  {
    PlaceErrors(home, w.fs, e.req.path);
  }

  /** So do OPEN with flags that make sense, and MKDIR if there is no way to the place. */
  lemma MakingMissedExactly(home: Path, w: World, e: Event, w': World, r: Reply)
    requires CanonicalHome(home) && Moves(home, w, e, w', r) && (e.req.Open? || e.req.Mkdir?)
    requires e.env.fault.None? && Permitted(e) && TextsAccepted(home, e.req) && r.Status?
    ensures e.req.Open? ==>
              r == Status(if SensibleFlags(e.req.flags) && NothingThere(PlaceOf(home, w.fs, e.req.filename), w.fs)
                          then NoSuchFile else Failure)
    ensures e.req.Mkdir? ==>
              r == Status(if PlaceOf(home, w.fs, e.req.path) == Fails(NotFound) then NoSuchFile else Failure)
  {
    PlaceErrors(home, w.fs, if e.req.Open? then e.req.filename else e.req.path);
  }

  // ---- Complete uploads ----

  predicate IsWrite(e: Event, handle: string) {
    e.req.Write? && e.req.handle == handle
  }

  /** What the WRITEs on one handle have carried before event `i`. */
  function Sent(run: Run, i: nat, handle: string): seq<byte>
    requires i <= |run.events|
  {
    if i == 0 then []
    else Sent(run, i - 1, handle) + if IsWrite(run.events[i - 1], handle) then run.events[i - 1].req.data else []
  }

  /** A client that uploads through one handle: it writes each time at the end of the last write, the first
      time at `start`, and every write succeeds.  Other requests may come in between, as long as they neither
      close the handle nor touch the file. */
  ghost predicate Uploading(run: Run, handle: string, start: nat) {
    && |run.worlds| == |run.events| + 1 && |run.replies| == |run.events|
    && Counted(run.worlds[0].session) && IsOpenFile(run.worlds[0].session, handle)
    && run.worlds[0].session.handles[handle].desc.node.File?
    && var ino := run.worlds[0].session.handles[handle].desc.node.ino;
       && ino in run.worlds[0].fs.data
       && forall k :: 0 <= k < |run.events| ==>
            UploadStep(run.worlds[k], run.events[k], run.worlds[k + 1], run.replies[k], ino, handle, start + |Sent(run, k, handle)|)
  }

  ghost predicate UploadStep(w: World, e: Event, w': World, r: Reply, ino: nat, handle: string, at: nat) {
    && e.req != Close(handle) && ino in w.fs.data && ino in w'.fs.data
    && if IsWrite(e, handle) then e.req.offset == at && r == Done else w'.fs.data[ino] == w.fs.data[ino]
  }

  /** A file after an upload through a handle that appends, or one that does not. */
  ghost predicate Received(after: seq<byte>, before: seq<byte>, append: bool, start: nat, sent: seq<byte>) {
    if append then after == before + sent else Overlaid(after, before, start, sent)
  }

  /** A WRITE on the handle that succeeds. */
  ghost predicate WriteStep(w: World, e: Event, w': World, r: Reply, handle: string) {
    IsWrite(e, handle) && r == Done && IsOpenFile(w.session, handle) && w.session.handles[handle].desc.node.File? ==>
      var d := w.session.handles[handle].desc;
      && d.node.ino in w.fs.data && d.node.ino in w'.fs.data
      && Received(w'.fs.data[d.node.ino], w.fs.data[d.node.ino], d.append, e.req.offset, e.req.data)
  }

  lemma WriteReceived(home: Path, w: World, e: Event, w': World, r: Reply, handle: string)
    requires CanonicalHome(home) && Moves(home, w, e, w', r)
    ensures WriteStep(w, e, w', r, handle)
  {
    if IsWrite(e, handle) {
      var landed := WriteLeaves(home, w, e, w', r);
    }
  }

  ghost predicate WriteChain(run: Run, handle: string) {
    && HandleChain(run)
    && forall k :: 0 <= k < |run.events| ==>
         WriteStep(run.worlds[k], run.events[k], run.worlds[k + 1], run.replies[k], handle)
  }

  lemma RunIsWriteChain(home: Path, run: Run, handle: string)
    requires IsRun(home, run) && Counted(run.worlds[0].session)
    ensures WriteChain(run, handle)
  {
    RunIsHandleChain(home, run);
    forall k | 0 <= k < |run.events|
      ensures WriteStep(run.worlds[k], run.events[k], run.worlds[k + 1], run.replies[k], handle)
    {
      WriteReceived(home, run.worlds[k], run.events[k], run.worlds[k + 1], run.replies[k], handle);
    }
  }

  lemma ReceivedNext(before: seq<byte>, append: bool, start: nat, a: seq<byte>, mid: seq<byte>, b: seq<byte>, after: seq<byte>)
    requires Received(mid, before, append, start, a) && Received(after, mid, append, start + |a|, b)
    ensures Received(after, before, append, start, a + b)
  {
    if append {
      assert before + a + b == before + (a + b);
    } else {
      OverlaidNext(before, start, a, mid, b, after);
    }
  }

  /** The file after one more event, which may have been a WRITE on the handle. */
  ghost predicate ReceivesStep(w: World, e: Event, w': World, d: Descriptor, handle: string, at: nat) {
    && d.node.File? && d.node.ino in w.fs.data && d.node.ino in w'.fs.data
    && var data := if IsWrite(e, handle) then e.req.data else [];
       Received(w'.fs.data[d.node.ino], w.fs.data[d.node.ino], d.append, at, data)
  }

  lemma HandleStays(run: Run, i: nat, handle: string, start: nat)
    requires HandleChain(run) && Uploading(run, handle, start) && i <= |run.events|
    ensures handle in run.worlds[i].session.handles
    ensures run.worlds[i].session.handles[handle] == run.worlds[0].session.handles[handle]
  {
    var ino := run.worlds[0].session.handles[handle].desc.node.ino;
    forall k | 0 <= k < |run.events|
      ensures run.events[k].req != Close(handle)
    {
      assert UploadStep(run.worlds[k], run.events[k], run.worlds[k + 1], run.replies[k], ino, handle, start + |Sent(run, k, handle)|);
    }
    OpenFileKept(run, i, handle);
  }

  lemma RunReceives(run: Run, i: nat, handle: string, start: nat, d: Descriptor)
    requires WriteChain(run, handle) && Uploading(run, handle, start) && i < |run.events|
    requires d == run.worlds[0].session.handles[handle].desc
    ensures ReceivesStep(run.worlds[i], run.events[i], run.worlds[i + 1], d, handle, start + |Sent(run, i, handle)|)
  {
    HandleStays(run, i, handle, start);
    assert UploadStep(run.worlds[i], run.events[i], run.worlds[i + 1], run.replies[i], d.node.ino, handle,
                      start + |Sent(run, i, handle)|);
    assert WriteStep(run.worlds[i], run.events[i], run.worlds[i + 1], run.replies[i], handle);
  }

  /** The file at one moment of a run, and what it was at first. */
  ghost predicate ReceivedBy(run: Run, k: nat, d: Descriptor, start: nat, sent: seq<byte>) {
    && d.node.File? && k < |run.worlds| && d.node.ino in run.worlds[0].fs.data && d.node.ino in run.worlds[k].fs.data
    && Received(run.worlds[k].fs.data[d.node.ino], run.worlds[0].fs.data[d.node.ino], d.append, start, sent)
  }

  lemma ReceivedMore(run: Run, k: nat, d: Descriptor, handle: string, start: nat, sent: seq<byte>)
    requires k < |run.events| < |run.worlds| && ReceivedBy(run, k, d, start, sent)
    requires ReceivesStep(run.worlds[k], run.events[k], run.worlds[k + 1], d, handle, start + |sent|)
    ensures ReceivedBy(run, k + 1, d, start, sent + if IsWrite(run.events[k], handle) then run.events[k].req.data else [])
  {
    var data := if IsWrite(run.events[k], handle) then run.events[k].req.data else [];
    ReceivedNext(run.worlds[0].fs.data[d.node.ino], d.append, start, sent,
                 run.worlds[k].fs.data[d.node.ino], data, run.worlds[k + 1].fs.data[d.node.ino]);
  }

  lemma {:induction false} UploadReceived(run: Run, k: nat, handle: string, start: nat, d: Descriptor)
    requires WriteChain(run, handle) && Uploading(run, handle, start) && k <= |run.events|
    requires d == run.worlds[0].session.handles[handle].desc
    ensures ReceivedBy(run, k, d, start, Sent(run, k, handle))
    decreases k
  {
    if k > 0 {
      UploadReceived(run, k - 1, handle, start, d);
      RunReceives(run, k - 1, handle, start, d);
      ReceivedMore(run, k - 1, d, handle, start, Sent(run, k - 1, handle));
    }
  }

  lemma ReceivedEnds(after: seq<byte>, before: seq<byte>, append: bool, start: nat, sent: seq<byte>)
    requires Received(after, before, append, start, sent)
    ensures before == [] && start == 0 ==> after == sent
    ensures start == |before| ==> after == before + sent
  {
    if !append {
      OverlaidEnds(after, before, start, sent);
    }
  }

  /** Uploads are complete: at every moment the file is what it was with all that has been sent laid over it
      from the start of the upload on, or behind its end if the handle appends.  So an upload into an empty
      file leaves exactly what was sent, and one that starts at the end of a file continues it. */
  lemma UploadComplete(home: Path, run: Run, k: nat, handle: string, start: nat)
    requires IsRun(home, run) && Uploading(run, handle, start) && k <= |run.events|
    ensures var d, sent := run.worlds[0].session.handles[handle].desc, Sent(run, k, handle);
            && d.node.ino in run.worlds[k].fs.data
            && var before, after := run.worlds[0].fs.data[d.node.ino], run.worlds[k].fs.data[d.node.ino];
               && (if d.append then after == before + sent else Overlaid(after, before, start, sent))
               && (before == [] && start == 0 ==> after == sent)
               && (start == |before| ==> after == before + sent)
  {
    var d := run.worlds[0].session.handles[handle].desc;
    RunIsWriteChain(home, run, handle);
    UploadReceived(run, k, handle, start, d);
    ReceivedEnds(run.worlds[k].fs.data[d.node.ino], run.worlds[0].fs.data[d.node.ino], d.append, start, Sent(run, k, handle));
  }

  /** A client that uploads a whole file: it opens a place, emptying what is there, and writes from 0 on. */
  ghost predicate UploadingFile(home: Path, run: Run, handle: string) {
    && |run.worlds| == |run.events| + 1 && |run.replies| == |run.events| && run.events != []
    && Counted(run.worlds[0].session)
    && run.events[0].req.Open? && run.replies[0] == Handle(handle)
    && run.events[0].req.flags.write && run.events[0].req.flags.truncate
    && Uploading(Later(run), handle, 0)
  }

  /** It leaves exactly the bytes sent, whatever the file held before, under the name it opened as long as that
      name stays with the file. */
  lemma FileUploaded(home: Path, run: Run, handle: string, k: nat)
    requires IsRun(home, run) && UploadingFile(home, run, handle) && k < |run.events|
    ensures PlaceOf(home, run.worlds[0].fs, run.events[0].req.filename).At?
    ensures var l, fs := PlaceOf(home, run.worlds[0].fs, run.events[0].req.filename).loc, run.worlds[k + 1].fs;
            && run.worlds[1].fs.IsFile(l)
            && (fs.IsFile(l) && fs.tree[l] == run.worlds[1].fs.tree[l] ==>
                  fs.tree[l].ino in fs.data && fs.data[fs.tree[l].ino] == Sent(Later(run), k, handle))
  {
    var w, e, w', r := run.worlds[0], run.events[0], run.worlds[1], run.replies[0];
    assert Moves(home, w, e, w', r);
    OpenSucceedsExactly(home, w, e, w', r);
    OpenLeaves(home, w, e, w', r);
    OpenIssues(home, w, e, w', r);
    LaterIsRun(home, run);
    UploadComplete(home, Later(run), k, handle, 0);
  }
}
