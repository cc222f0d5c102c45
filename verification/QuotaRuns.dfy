/** Quota over interleaved sessions.

Several sessions of one user share a home.  A write first checks the quota and commits later; between
the two, other sessions act.  All other requests are single steps. */
module QuotaRuns {
  import opened Numbers
  import opened Options
  import opened Bytes
  import opened Paths
  import opened FileTree
  import opened Usage
  import opened SftpSession
  import opened SftpRuns

  /** A write that has passed its check. */
  datatype Pending = Pending(handle: string, offset: nat, data: seq<byte>)

  datatype System = System(fs: Fs, sessions: seq<Session>, pending: seq<Option<Pending>>) {
    ghost predicate Valid() {
      && fs.Valid() && |pending| == |sessions|
      && forall i :: 0 <= i < |sessions| ==> World(sessions[i], fs).Valid()
    }
  }

  datatype Action =
    | Check(who: nat, write: Pending, env: Env)
    | CommitWrite(who: nat, env: Env)
    | Other(who: nat, event: Event)

  /** One step of one session. */
  ghost predicate Acts(home: Path, s: System, a: Action, s': System)
    requires CanonicalHome(home)
  {
    && s.Valid() && a.who < |s.sessions|
    && match a
       case Check(i, write, env) =>
         && s.pending[i].None?
         && s' == if QuotaOk(env.perms, SizeBelow(s.fs, NamesOf(home)), |write.data|)
                  then s.(pending := s.pending[i := Some(write)]) else s
       case CommitWrite(i, env) =>
         && s.pending[i].Some?
         && var p := s.pending[i].value;
            s' == s.(fs := Commit(World(s.sessions[i], s.fs), p.handle, p.offset, p.data, env).world.fs,
                     pending := s.pending[i := None])
       case Other(i, e) =>
         && s.pending[i].None? && !e.req.Write?
         && var w := Step(home, World(s.sessions[i], s.fs), e).world;
            s' == s.(fs := w.fs, sessions := s.sessions[i := w.session])
  }

  ghost predicate IsTrace(home: Path, states: seq<System>, actions: seq<Action>) {
    && CanonicalHome(home) && |states| == |actions| + 1
    && forall i :: 0 <= i < |actions| ==> Acts(home, states[i], actions[i], states[i + 1])
  }

  /** A check and its commit, with nothing in between, are the session's own WRITE. */
  lemma CheckThenCommit(home: Path, s: System, i: nat, write: Pending, env: Env, mid: System, s': System)
    requires CanonicalHome(home) && Acts(home, s, Check(i, write, env), mid)
    requires mid.pending[i].Some? ==> Acts(home, mid, CommitWrite(i, env), s')
    requires mid.pending[i].None? ==> s' == mid
    ensures s'.fs == DoWrite(home, World(s.sessions[i], s.fs), write.handle, write.offset, write.data, env).world.fs
    ensures s'.sessions == s.sessions && s'.pending == s.pending
  {
  }

  // ---- What a step may do to usage ----

  /** The writes of pending sessions, in bytes. */
  function Promised(pending: seq<Option<Pending>>): nat {
    if pending == [] then 0
    else Promised(pending[1..]) + if pending[0].Some? then |pending[0].value.data| else 0
  }

  lemma {:induction false} PromisedUpdate(pending: seq<Option<Pending>>, i: nat, p: Option<Pending>)
    requires i < |pending|
    ensures Promised(pending[i := p]) == Promised(pending) + (if p.Some? then |p.value.data| else 0)
                                         - if pending[i].Some? then |pending[i].value.data| else 0
  {
    if i == 0 {
      assert pending[i := p][1..] == pending[1..];
    } else {
      assert pending[i := p][1..] == pending[1..][i - 1 := p];
      PromisedUpdate(pending[1..], i - 1, p);
    }
  }

  lemma {:induction false} PromisedBound(pending: seq<Option<Pending>>, limit: nat, i: nat)
    requires forall k :: 0 <= k < |pending| && pending[k].Some? ==> |pending[k].value.data| <= limit
    requires i < |pending| && pending[i].None?
    ensures Promised(pending) <= (|pending| - 1) * limit
  {
    if i == 0 {
      PromisedEach(pending[1..], limit);
    } else {
      PromisedBound(pending[1..], limit, i - 1);
      assert (|pending| - 2) * limit + limit == (|pending| - 1) * limit;
    }
  }

  lemma {:induction false} PromisedEach(pending: seq<Option<Pending>>, limit: nat)
    requires forall k :: 0 <= k < |pending| && pending[k].Some? ==> |pending[k].value.data| <= limit
    ensures Promised(pending) <= |pending| * limit
  {
    if pending != [] {
      PromisedEach(pending[1..], limit);
      assert (|pending| - 1) * limit + limit == |pending| * limit;
    }
  }

  /** A SETSTAT that enlarges a file of the home. */
  ghost predicate Enlarges(home: Path, fs: Fs, path: string, size: Option<nat>, env: Env)
    requires CanonicalHome(home)
  {
    var t := Place(home, fs, env.perms.canWrite, path, env);
    && size.Some? && t.At? && fs.IsFile(t.loc) && NamesOf(home) <= t.loc
    && fs.tree[t.loc].ino in fs.data && |fs.data[fs.tree[t.loc].ino]| < size.value < SEEK_LIMIT
  }

  /** By how much. */
  ghost function Enlargement(home: Path, fs: Fs, path: string, size: Option<nat>, env: Env): nat
    requires CanonicalHome(home)
  {
    if Enlarges(home, fs, path, size, env)
    then size.value - |fs.data[fs.tree[Place(home, fs, env.perms.canWrite, path, env).loc].ino]|
    else 0
  }

  /** A rename that brings a file with something in it into the home from elsewhere. */
  ghost predicate Imports(home: Path, fs: Fs, oldPath: string, newPath: string, env: Env)
    requires CanonicalHome(home)
  {
    var a, b := Place(home, fs, env.perms.canRename, oldPath, env), Place(home, fs, env.perms.canRename, newPath, env);
    && a.At? && b.At? && a.loc in fs.tree && b.loc !in fs.tree && !(a.loc <= b.loc)
    && BringsIn(fs, a.loc, b.loc, NamesOf(home))
  }

  /** How much it brings. */
  ghost function Import(home: Path, fs: Fs, oldPath: string, newPath: string, env: Env): nat
    requires CanonicalHome(home) && fs.Valid()
  {
    if Imports(home, fs, oldPath, newPath, env) then
      var a, b := Place(home, fs, env.perms.canRename, oldPath, env), Place(home, fs, env.perms.canRename, newPath, env);
      Total(Moved(fs, a.loc, b.loc, NamesOf(home), false, true), fs.data)
    else 0
  }

  /** The requests other than writes that raise the usage of the home. */
  ghost predicate Raises(home: Path, fs: Fs, e: Event)
    requires CanonicalHome(home)
  {
    match e.req
    case Setstat(path, _, size) => Enlarges(home, fs, path, size, e.env)
    case Rename(oldPath, newPath) => Imports(home, fs, oldPath, newPath, e.env)
    case _ => false
  }

  /** What a request other than a write may add to the usage of the home. */
  ghost function Raise(home: Path, fs: Fs, e: Event): nat
    requires CanonicalHome(home) && fs.Valid()
  {
    match e.req
    case Setstat(path, _, size) => Enlargement(home, fs, path, size, e.env)
    case Rename(oldPath, newPath) => Import(home, fs, oldPath, newPath, e.env)
    case _ => 0
  }

  ghost predicate Shrinks(home: Path, fs: Fs, fs': Fs)
    requires CanonicalHome(home)
  {
    fs.Valid() && fs'.Valid() && SizeBelow(fs', NamesOf(home)) <= SizeBelow(fs, NamesOf(home))
  }

  lemma OpenShrinks(home: Path, w: World, filename: string, flags: OpenFlags, env: Env)
    requires CanonicalHome(home) && w.Valid()
    ensures Shrinks(home, w.fs, DoOpen(home, w, filename, flags, env).world.fs)
  {
    var l, o := OpenForm(home, w, filename, flags, env);
    if l.At? {
      OpenUsage(w.fs, l.loc, OptionsOf(flags), NamesOf(home));
    }
  }

  lemma SetstatRaises(home: Path, w: World, path: string, mode: bool, size: Option<nat>, env: Env)
    requires CanonicalHome(home) && w.Valid()
    ensures DoSetstat(home, w, path, mode, size, env).world.fs.Valid()
    ensures SizeBelow(DoSetstat(home, w, path, mode, size, env).world.fs, NamesOf(home)) > SizeBelow(w.fs, NamesOf(home))
        <==> Enlarges(home, w.fs, path, size, env)
    ensures SizeBelow(DoSetstat(home, w, path, mode, size, env).world.fs, NamesOf(home))
            <= SizeBelow(w.fs, NamesOf(home)) + Enlargement(home, w.fs, path, size, env)
  {
    var l := SetstatForm(home, w, path, mode, size, env);
    if l.At? && w.fs.IsFile(l.loc) && size.Some? {
      ResizeUsage(w.fs, w.fs.tree[l.loc].ino, size.value, NamesOf(home));
      LinkedAbove(w.fs, l.loc, NamesOf(home));
    }
  }

  lemma RemoveShrinks(home: Path, w: World, path: string, env: Env)
    requires CanonicalHome(home) && w.Valid()
    ensures Shrinks(home, w.fs, DoRemove(home, w, path, env).world.fs)
  {
    var l := Place(home, w.fs, env.perms.canDelete, path, env);
    if l.At? && w.fs.IsFile(l.loc) {
      RemoveIsPrune(w.fs, l.loc);
      PruneUsage(w.fs, {l.loc}, NamesOf(home));
    }
  }

  lemma MkdirShrinks(home: Path, w: World, path: string, env: Env)
    requires CanonicalHome(home) && w.Valid()
    ensures Shrinks(home, w.fs, DoMkdir(home, w, path, env).world.fs)
  {
    PlaceBelowDir(home, w.fs, env.perms.canMkdir, path, env);
    var l := Place(home, w.fs, env.perms.canMkdir, path, env);
    if l.At? && l.loc !in w.fs.tree {
      MkdirUsage(w.fs, l.loc, NamesOf(home));
    }
  }

  lemma RmdirShrinks(home: Path, w: World, path: string, env: Env)
    requires CanonicalHome(home) && w.Valid()
    ensures Shrinks(home, w.fs, DoRmdir(home, w, path, env).world.fs)
  {
    var r, gone := RmdirPrunes(home, w, path, env);
    PruneUsage(w.fs, gone, NamesOf(home));
  }

  lemma RenameRaises(home: Path, w: World, oldPath: string, newPath: string, env: Env)
    requires CanonicalHome(home) && w.Valid()
    ensures DoRename(home, w, oldPath, newPath, env).world.fs.Valid()
    ensures SizeBelow(DoRename(home, w, oldPath, newPath, env).world.fs, NamesOf(home)) > SizeBelow(w.fs, NamesOf(home))
        <==> Imports(home, w.fs, oldPath, newPath, env)
    ensures SizeBelow(DoRename(home, w, oldPath, newPath, env).world.fs, NamesOf(home))
            <= SizeBelow(w.fs, NamesOf(home)) + Import(home, w.fs, oldPath, newPath, env)
  {
    var a, b := RenameForm(home, w, oldPath, newPath, env);
    if a.At? && b.At? && a.loc in w.fs.tree && b.loc !in w.fs.tree && !(a.loc <= b.loc) {
      RenameRaisesExactly(w.fs, a.loc, b.loc, NamesOf(home));
      RenameUsageExactly(w.fs, a.loc, b.loc, NamesOf(home));
    }
  }

  lemma OpeningShrinks(home: Path, w: World, e: Event, w': World, r: Reply)
    requires CanonicalHome(home) && Moves(home, w, e, w', r) && e.req.Open?
    ensures Shrinks(home, w.fs, w'.fs)
  {
    assert w'.fs == DoOpen(home, w, e.req.filename, e.req.flags, e.env).world.fs;
    OpenShrinks(home, w, e.req.filename, e.req.flags, e.env);
  }

  lemma MakingShrinks(home: Path, w: World, e: Event, w': World, r: Reply)
    requires CanonicalHome(home) && Moves(home, w, e, w', r) && e.req.Mkdir?
    ensures Shrinks(home, w.fs, w'.fs)
  {
    assert w'.fs == DoMkdir(home, w, e.req.path, e.env).world.fs;
    MkdirShrinks(home, w, e.req.path, e.env);
  }

  lemma RemovingShrinks(home: Path, w: World, e: Event, w': World, r: Reply)
    requires CanonicalHome(home) && Moves(home, w, e, w', r) && e.req.Remove?
    ensures Shrinks(home, w.fs, w'.fs)
  {
    assert w'.fs == DoRemove(home, w, e.req.path, e.env).world.fs;
    RemoveShrinks(home, w, e.req.path, e.env);
  }

  lemma PruningShrinks(home: Path, w: World, e: Event, w': World, r: Reply)
    requires CanonicalHome(home) && Moves(home, w, e, w', r) && e.req.Rmdir?
    ensures Shrinks(home, w.fs, w'.fs)
  {
    assert w'.fs == DoRmdir(home, w, e.req.path, e.env).world.fs;
    RmdirShrinks(home, w, e.req.path, e.env);
  }

  /** Exactly which requests other than writes raise the usage of the home: a SETSTAT that enlarges a file
      of the home, and a rename that brings a file with something in it into the home from elsewhere; and
      neither raises it by more than it enlarges or brings in. */
  lemma StepRaisesExactly(home: Path, w: World, e: Event, w': World, r: Reply)
    requires CanonicalHome(home) && Moves(home, w, e, w', r) && !e.req.Write?
    ensures w'.fs.Valid()
    ensures SizeBelow(w'.fs, NamesOf(home)) > SizeBelow(w.fs, NamesOf(home)) <==> Raises(home, w.fs, e)
    ensures SizeBelow(w'.fs, NamesOf(home)) <= SizeBelow(w.fs, NamesOf(home)) + Raise(home, w.fs, e)
  {
    if e.req.Setstat? {
      SetstatRaises(home, w, e.req.path, e.req.mode, e.req.size, e.env);
    } else if e.req.Rename? {
      RenameRaises(home, w, e.req.oldPath, e.req.newPath, e.env);
    } else if e.req.Open? {
      OpeningShrinks(home, w, e, w', r);
    } else if e.req.Mkdir? {
      MakingShrinks(home, w, e, w', r);
    } else if e.req.Remove? {
      RemovingShrinks(home, w, e, w', r);
    } else if e.req.Rmdir? {
      PruningShrinks(home, w, e, w', r);
    } else {
      QuietSameFs(home, w, e, w', r);
    }
  }

  // ---- Writes ----

  /** The write leaves no gap: it appends, carries nothing, or starts within the file as it is. */
  ghost predicate Gapless(w: World, p: Pending)
    requires w.Valid()
  {
    IsOpenFile(w.session, p.handle) && w.session.handles[p.handle].desc.node.File? ==>
      var d := w.session.handles[p.handle].desc;
      d.append || p.data == [] || p.offset <= |w.fs.data[d.node.ino]|
  }

  /** How much of a gap it leaves otherwise. */
  ghost function Gap(w: World, p: Pending): nat
    requires w.Valid()
  {
    if Gapless(w, p) then 0
    else p.offset - |w.fs.data[w.session.handles[p.handle].desc.node.ino]|
  }

  /** A write, complete or cut short, raises usage by at most what it carries and the gap it leaves. */
  lemma CommitRaises(home: Path, w: World, p: Pending, env: Env)
    requires CanonicalHome(home) && w.Valid()
    ensures var fs' := Commit(w, p.handle, p.offset, p.data, env).world.fs;
            fs'.Valid() && SizeBelow(fs', NamesOf(home)) <= SizeBelow(w.fs, NamesOf(home)) + |p.data| + Gap(w, p)
  {
    if IsOpenFile(w.session, p.handle) && w.session.handles[p.handle].desc.node.File? && p.data != [] {
      var d := w.session.handles[p.handle].desc;
      var content, part := w.fs.data[d.node.ino], p.data[..Min(env.partial, |p.data|)];
      WriteUsage(w.fs, d, p.offset, p.data, NamesOf(home));
      WriteUsage(w.fs, d, p.offset, part, NamesOf(home));
    }
  }

  /** For a complete write to a file of the home, gapless is exactly what is needed. */
  lemma CommitWithinCheckExactly(home: Path, w: World, p: Pending, env: Env)
    requires CanonicalHome(home) && w.Valid() && IsOpenFile(w.session, p.handle) && env.fault.None? && p.offset < SEEK_LIMIT
    requires w.session.handles[p.handle].desc.node.File? && w.session.handles[p.handle].desc.writable
    requires w.session.handles[p.handle].desc.node.ino in Linked(w.fs, NamesOf(home))
    ensures var fs' := Commit(w, p.handle, p.offset, p.data, env).world.fs;
            fs'.Valid()
            && (SizeBelow(fs', NamesOf(home)) <= SizeBelow(w.fs, NamesOf(home)) + |p.data| <==> Gapless(w, p))
  {
    var d := w.session.handles[p.handle].desc;
    var content := w.fs.data[d.node.ino];
    WriteUsage(w.fs, d, p.offset, p.data, NamesOf(home));
    GrowthWithinData(content, Position(d, content, p.offset), p.data);
  }

  /** Passing the check leaves room for the write, unless there is no quota or one that does not fit 64 bits,
      which is none in effect. */
  lemma CheckLeavesRoom(p: Permissions, usage: nat, additional: nat)
    ensures p.quotaMb.None? || p.quotaMb.value == 0 || p.quotaMb.value * MEGABYTE > U64_MAX ==> QuotaOk(p, usage, additional)
    ensures p.quotaMb.Some? && 0 < p.quotaMb.value * MEGABYTE <= U64_MAX ==>
              (QuotaOk(p, usage, additional) <==> additional == 0 || usage + additional <= p.quotaMb.value * MEGABYTE)
  {
    if p.quotaMb.Some? && p.quotaMb.value * MEGABYTE <= U64_MAX {
      NotAllOnes(p.quotaMb.value);
    }
  }

  lemma NotAllOnes(mb: nat)
    ensures mb * MEGABYTE != U64_MAX
  {
  }

  // ---- The bound ----

  lemma SystemValid(home: Path, s: System, a: Action, s': System)
    requires CanonicalHome(home) && Acts(home, s, a, s')
    ensures s'.Valid() && |s'.sessions| == |s.sessions|
  {
    match a
    case Check(i, write, env) =>
    case CommitWrite(i, env) =>
      var p := s.pending[i].value;
      CommitValid(World(s.sessions[i], s.fs), p.handle, p.offset, p.data, env);
      OthersValid(s, s'.fs, i, s.sessions[i]);
    case Other(i, e) =>
      var w := World(s.sessions[i], s.fs);
      var r := Step(home, w, e);
      StepValid(home, w, e, r.world, r.reply);
      OthersValid(s, s'.fs, i, r.world.session);
  }

  /** A change of the file system by one session leaves the worlds of the others valid. */
  lemma OthersValid(s: System, fs: Fs, i: nat, session: Session)
    requires s.Valid() && i < |s.sessions| && fs.Valid() && s.fs.data.Keys <= fs.data.Keys
    requires World(session, fs).Valid()
    ensures s.(fs := fs, sessions := s.sessions[i := session]).Valid()
  {
    var sessions := s.sessions[i := session];
    forall k | 0 <= k < |sessions|
      ensures World(sessions[k], fs).Valid()
    {
      assert World(s.sessions[k], s.fs).Valid();
    }
  }

  /** The runs the bound is about: a fixed quota, and writes of at most `limit` bytes. */
  predicate Metered(a: Action, quotaMb: nat, limit: nat) {
    a.Check? ==> a.env.perms.quotaMb == Some(quotaMb) && |a.write.data| <= limit
  }

  /** What a step may add beyond what was checked: the gap of a write, an enlargement, an import. */
  ghost function Added(home: Path, s: System, a: Action): nat
    requires CanonicalHome(home)
  {
    if !s.Valid() || a.who >= |s.sessions| then 0
    else
      match a
      case Check(_, _, _) => 0
      case CommitWrite(i, _) => if s.pending[i].Some? then Gap(World(s.sessions[i], s.fs), s.pending[i].value) else 0
      case Other(_, e) => Raise(home, s.fs, e)
  }

  ghost function TotalAdded(home: Path, states: seq<System>, actions: seq<Action>, k: nat): nat
    requires CanonicalHome(home) && k <= |actions| && |states| == |actions| + 1
  {
    if k == 0 then 0 else TotalAdded(home, states, actions, k - 1) + Added(home, states[k - 1], actions[k - 1])
  }

  /** Usage and everything promised. */
  ghost function Load(home: Path, s: System): nat
    requires CanonicalHome(home) && s.Valid()
  {
    SizeBelow(s.fs, NamesOf(home)) + Promised(s.pending)
  }

  /** What every step keeps. */
  ghost predicate Sound(s: System, n: nat, limit: nat) {
    && s.Valid() && |s.sessions| == n > 0
    && forall k :: 0 <= k < |s.pending| && s.pending[k].Some? ==> |s.pending[k].value.data| <= limit
  }

  function Ceiling(quotaMb: nat, n: nat, limit: nat): nat
    requires n > 0
  {
    quotaMb * MEGABYTE + (n - 1) * limit
  }

  lemma CheckLoad(home: Path, s: System, i: nat, write: Pending, env: Env, s': System, n: nat, quotaMb: nat, limit: nat)
    requires CanonicalHome(home) && Sound(s, n, limit) && 0 < quotaMb && quotaMb * MEGABYTE <= U64_MAX
    requires Acts(home, s, Check(i, write, env), s') && Metered(Check(i, write, env), quotaMb, limit)
    ensures Sound(s', n, limit) && Load(home, s') <= Max(Load(home, s), Ceiling(quotaMb, n, limit))
  {
    PromisedUpdate(s.pending, i, Some(write));
    CheckLeavesRoom(env.perms, SizeBelow(s.fs, NamesOf(home)), |write.data|);
    PromisedBound(s.pending, limit, i);
  }

  lemma CommitUsage(home: Path, s: System, i: nat, env: Env, s': System)
    requires CanonicalHome(home) && Acts(home, s, CommitWrite(i, env), s')
    ensures s'.fs.Valid() && s'.pending == s.pending[i := None]
    ensures SizeBelow(s'.fs, NamesOf(home))
            <= SizeBelow(s.fs, NamesOf(home)) + |s.pending[i].value.data| + Added(home, s, CommitWrite(i, env))
  {
    CommitRaises(home, World(s.sessions[i], s.fs), s.pending[i].value, env);
  }

  lemma CommitLoad(home: Path, s: System, i: nat, env: Env, s': System, n: nat, limit: nat)
    requires CanonicalHome(home) && Sound(s, n, limit) && Acts(home, s, CommitWrite(i, env), s')
    ensures Sound(s', n, limit) && Load(home, s') <= Load(home, s) + Added(home, s, CommitWrite(i, env))
  {
    SystemValid(home, s, CommitWrite(i, env), s');
    PromisedUpdate(s.pending, i, None);
    CommitUsage(home, s, i, env, s');
  }

  lemma OtherUsage(home: Path, s: System, i: nat, e: Event, s': System)
    requires CanonicalHome(home) && Acts(home, s, Other(i, e), s')
    ensures s'.fs.Valid() && s'.pending == s.pending
    ensures SizeBelow(s'.fs, NamesOf(home)) <= SizeBelow(s.fs, NamesOf(home)) + Raise(home, s.fs, e)
  {
    var w := World(s.sessions[i], s.fs);
    var r := Step(home, w, e);
    StepRaisesExactly(home, w, e, r.world, r.reply);
  }

  lemma OtherLoad(home: Path, s: System, i: nat, e: Event, s': System, n: nat, limit: nat)
    requires CanonicalHome(home) && Sound(s, n, limit) && Acts(home, s, Other(i, e), s')
    ensures Sound(s', n, limit) && Load(home, s') <= Load(home, s) + Added(home, s, Other(i, e))
  {
    SystemValid(home, s, Other(i, e), s');
    OtherUsage(home, s, i, e, s');
  }

  /** What one step does to the load. */
  ghost predicate LoadStep(home: Path, s: System, a: Action, s': System, n: nat, quotaMb: nat, limit: nat)
    requires CanonicalHome(home)
  {
    Sound(s, n, limit) ==>
      && Sound(s', n, limit)
      && Load(home, s') <= Max(Load(home, s), Ceiling(quotaMb, n, limit)) + Added(home, s, a)
  }

  lemma StepLoad(home: Path, s: System, a: Action, s': System, n: nat, quotaMb: nat, limit: nat)
    requires CanonicalHome(home) && 0 < quotaMb && quotaMb * MEGABYTE <= U64_MAX
    requires Acts(home, s, a, s') && Metered(a, quotaMb, limit)
    ensures LoadStep(home, s, a, s', n, quotaMb, limit)
  {
    if Sound(s, n, limit) {
      match a
      case Check(i, write, env) => CheckLoad(home, s, i, write, env, s', n, quotaMb, limit);
      case CommitWrite(i, env) => CommitLoad(home, s, i, env, s', n, limit);
      case Other(i, e) => OtherLoad(home, s, i, e, s', n, limit);
    }
  }

  lemma {:induction false} NothingPromised(pending: seq<Option<Pending>>)
    requires forall k :: 0 <= k < |pending| ==> pending[k].None?
    ensures Promised(pending) == 0
  {
    if pending != [] {
      NothingPromised(pending[1..]);
    }
  }

  ghost predicate LoadSteps(home: Path, states: seq<System>, actions: seq<Action>, n: nat, quotaMb: nat, limit: nat)
    requires CanonicalHome(home) && |states| == |actions| + 1
  {
    forall i :: 0 <= i < |actions| ==> LoadStep(home, states[i], actions[i], states[i + 1], n, quotaMb, limit)
  }

  lemma {:induction false} LoadChain(home: Path, states: seq<System>, actions: seq<Action>, n: nat, quotaMb: nat, limit: nat, k: nat)
    requires CanonicalHome(home) && k <= |actions| && |states| == |actions| + 1 && Sound(states[0], n, limit)
    requires LoadSteps(home, states, actions, n, quotaMb, limit)
    ensures Sound(states[k], n, limit)
    ensures Load(home, states[k])
            <= Max(Load(home, states[0]), Ceiling(quotaMb, n, limit)) + TotalAdded(home, states, actions, k)
    decreases k
  {
    if k > 0 {
      LoadChain(home, states, actions, n, quotaMb, limit, k - 1);
      assert LoadStep(home, states[k - 1], actions[k - 1], states[k], n, quotaMb, limit);
    }
  }

  /** Quota over interleaved sessions, whatever they do: with n sessions of one user, a fixed quota of Q bytes
      and writes of at most L bytes, the usage of the home never exceeds max(initial usage, Q + (n - 1) * L) and
      what was added beyond the check: the gaps of writes, enlargements by SETSTAT, and imports by rename. */
  lemma QuotaBoundAlways(home: Path, states: seq<System>, actions: seq<Action>, quotaMb: nat, limit: nat, k: nat)
    requires IsTrace(home, states, actions) && k <= |actions|
    requires states[0].Valid() && |states[0].sessions| > 0
    requires forall i :: 0 <= i < |states[0].pending| ==> states[0].pending[i].None?
    requires 0 < quotaMb && quotaMb * MEGABYTE <= U64_MAX
    requires forall i :: 0 <= i < |actions| ==> Metered(actions[i], quotaMb, limit)
    ensures states[k].Valid()
    ensures SizeBelow(states[k].fs, NamesOf(home))
            <= Max(SizeBelow(states[0].fs, NamesOf(home)), quotaMb * MEGABYTE + (|states[0].sessions| - 1) * limit)
               + TotalAdded(home, states, actions, k)
  {
    TraceLoad(home, states, actions, |states[0].sessions|, quotaMb, limit);
    BoundFromLoads(home, states, actions, quotaMb, limit, k);
  }

  lemma BoundFromLoads(home: Path, states: seq<System>, actions: seq<Action>, quotaMb: nat, limit: nat, k: nat)
    requires CanonicalHome(home) && k <= |actions| && |states| == |actions| + 1
    requires states[0].Valid() && |states[0].sessions| > 0
    requires forall i :: 0 <= i < |states[0].pending| ==> states[0].pending[i].None?
    requires LoadSteps(home, states, actions, |states[0].sessions|, quotaMb, limit)
    ensures states[k].Valid()
    ensures SizeBelow(states[k].fs, NamesOf(home))
            <= Max(SizeBelow(states[0].fs, NamesOf(home)), quotaMb * MEGABYTE + (|states[0].sessions| - 1) * limit)
               + TotalAdded(home, states, actions, k)
  {
    NothingPromised(states[0].pending);
    LoadChain(home, states, actions, |states[0].sessions|, quotaMb, limit, k);
  }

  lemma TraceLoad(home: Path, states: seq<System>, actions: seq<Action>, n: nat, quotaMb: nat, limit: nat)
    requires IsTrace(home, states, actions) && 0 < quotaMb && quotaMb * MEGABYTE <= U64_MAX
    requires forall i :: 0 <= i < |actions| ==> Metered(actions[i], quotaMb, limit)
    ensures LoadSteps(home, states, actions, n, quotaMb, limit)
  {
    forall i | 0 <= i < |actions|
      ensures LoadStep(home, states[i], actions[i], states[i + 1], n, quotaMb, limit)
    {
      StepLoad(home, states[i], actions[i], states[i + 1], n, quotaMb, limit);
    }
  }

  /** A fixed quota, writes of at most `limit` bytes without gaps, and no other request that raises the usage
      of the home. */
  ghost predicate Disciplined(home: Path, s: System, a: Action, quotaMb: nat, limit: nat) {
    && CanonicalHome(home) && s.Valid() && a.who < |s.sessions| && Metered(a, quotaMb, limit)
    && (a.CommitWrite? && s.pending[a.who].Some? ==> Gapless(World(s.sessions[a.who], s.fs), s.pending[a.who].value))
    && (a.Other? ==> !Raises(home, s.fs, a.event))
  }

  lemma DisciplinedAddsNothing(home: Path, s: System, a: Action, quotaMb: nat, limit: nat)
    requires Disciplined(home, s, a, quotaMb, limit)
    ensures Added(home, s, a) == 0
  {
  }

  lemma {:induction false} NothingAdded(home: Path, states: seq<System>, actions: seq<Action>, quotaMb: nat, limit: nat, k: nat)
    requires CanonicalHome(home) && k <= |actions| && |states| == |actions| + 1
    requires forall i :: 0 <= i < |actions| ==> Disciplined(home, states[i], actions[i], quotaMb, limit)
    ensures TotalAdded(home, states, actions, k) == 0
    decreases k
  {
    if k > 0 {
      NothingAdded(home, states, actions, quotaMb, limit, k - 1);
      DisciplinedAddsNothing(home, states[k - 1], actions[k - 1], quotaMb, limit);
    }
  }

  /** So with gapless writes and no other request that raises usage, the usage of the home never exceeds
      max(initial usage, Q + (n - 1) * L). */
  lemma QuotaBound(home: Path, states: seq<System>, actions: seq<Action>, quotaMb: nat, limit: nat, k: nat)
    requires IsTrace(home, states, actions) && k <= |actions|
    requires states[0].Valid() && |states[0].sessions| > 0
    requires forall i :: 0 <= i < |states[0].pending| ==> states[0].pending[i].None?
    requires 0 < quotaMb && quotaMb * MEGABYTE <= U64_MAX
    requires forall i :: 0 <= i < |actions| ==> Disciplined(home, states[i], actions[i], quotaMb, limit)
    ensures states[k].Valid()
    ensures SizeBelow(states[k].fs, NamesOf(home))
            <= Max(SizeBelow(states[0].fs, NamesOf(home)), quotaMb * MEGABYTE + (|states[0].sessions| - 1) * limit)
  {
    QuotaBoundAlways(home, states, actions, quotaMb, limit, k);
    NothingAdded(home, states, actions, quotaMb, limit, k);
  }

  // ---- The bound is attained ----

  /** One state leads to another by a run the bound is about. */
  ghost predicate Reaches(home: Path, s: System, t: System, quotaMb: nat, limit: nat) {
    exists states, actions ::
      && IsTrace(home, states, actions) && states[0] == s && states[|actions|] == t
      && AllDisciplined(home, states, actions, quotaMb, limit)
  }

  lemma ReachesItself(home: Path, s: System, quotaMb: nat, limit: nat)
    requires CanonicalHome(home)
    ensures Reaches(home, s, s, quotaMb, limit)
  {
    assert IsTrace(home, [s], []);
  }

  lemma TraceOn(home: Path, states: seq<System>, actions: seq<Action>, a: Action, t: System)
    requires IsTrace(home, states, actions) && Acts(home, states[|actions|], a, t)
    ensures IsTrace(home, states + [t], actions + [a])
  {
    var states', actions' := states + [t], actions + [a];
    forall i | 0 <= i < |actions'|
      ensures Acts(home, states'[i], actions'[i], states'[i + 1])
    {
      if i < |actions| {
        assert states'[i] == states[i] && actions'[i] == actions[i] && states'[i + 1] == states[i + 1];
        assert Acts(home, states[i], actions[i], states[i + 1]);
      }
    }
  }

  ghost predicate AllDisciplined(home: Path, states: seq<System>, actions: seq<Action>, quotaMb: nat, limit: nat)
    requires CanonicalHome(home) && |states| == |actions| + 1
  {
    forall i :: 0 <= i < |actions| ==> Disciplined(home, states[i], actions[i], quotaMb, limit)
  }

  lemma DisciplinedOn(home: Path, states: seq<System>, actions: seq<Action>, a: Action, t: System, quotaMb: nat, limit: nat)
    requires CanonicalHome(home) && |states| == |actions| + 1
    requires AllDisciplined(home, states, actions, quotaMb, limit) && Disciplined(home, states[|actions|], a, quotaMb, limit)
    ensures AllDisciplined(home, states + [t], actions + [a], quotaMb, limit)
  {
    var states', actions' := states + [t], actions + [a];
    forall i | 0 <= i < |actions'|
      ensures Disciplined(home, states'[i], actions'[i], quotaMb, limit)
    {
      if i < |actions| {
        assert states'[i] == states[i] && actions'[i] == actions[i];
        assert Disciplined(home, states[i], actions[i], quotaMb, limit);
      }
    }
  }

  lemma ReachesOn(home: Path, s: System, mid: System, a: Action, t: System, quotaMb: nat, limit: nat)
    requires CanonicalHome(home) && Reaches(home, s, mid, quotaMb, limit)
    requires Acts(home, mid, a, t) && Disciplined(home, mid, a, quotaMb, limit)
    ensures Reaches(home, s, t, quotaMb, limit)
  {
    var states, actions :|
      && IsTrace(home, states, actions) && states[0] == s && states[|actions|] == mid
      && AllDisciplined(home, states, actions, quotaMb, limit);
    TraceOn(home, states, actions, a, t);
    DisciplinedOn(home, states, actions, a, t, quotaMb, limit);
    assert (states + [t])[0] == s && (states + [t])[|actions + [a]|] == t;
  }

  /** A root home with one file of the given content, and a session appending to it. */
  function OneFile(content: seq<byte>): Fs {
    Fs(map[[] := Dir, ["f"] := File(0)], map[0 := content], 1)
  }

  function Appender(): Session {
    Session(map["h1" := FileEntry(Descriptor(File(0), false, true, true), true)], 2)
  }

  lemma OneFileUsage(content: seq<byte>)
    ensures OneFile(content).Valid() && World(Appender(), OneFile(content)).Valid()
    ensures NamesOf([RootDir]) == [] && SizeBelow(OneFile(content), []) == |content|
  {
    var fs := OneFile(content);
    assert Above(["f"]) == [];
    assert Subtree(fs, []) == {[], ["f"]};
    assert fs.IsFile(["f"]) && !fs.IsFile([]);
    assert Linked(fs, []) == {0};
    TotalRemove({0}, fs.data, 0);
  }

  lemma Appends(content: seq<byte>, data: seq<byte>, env: Env)
    requires env.fault.None?
    ensures World(Appender(), OneFile(content)).Valid()
    ensures Commit(World(Appender(), OneFile(content)), "h1", 0, data, env).world.fs == OneFile(content + data)
  {
    OneFileUsage(content);
    WriteAtEnd(content, data);
  }

  /** As many appenders as there are places in `pending`. */
  function Appenders(content: seq<byte>, pending: seq<Option<Pending>>): System {
    System(OneFile(content), seq(|pending|, _ => Appender()), pending)
  }

  lemma AppendersValid(content: seq<byte>, pending: seq<Option<Pending>>)
    ensures Appenders(content, pending).Valid()
  {
    OneFileUsage(content);
  }

  lemma OneChecks(s: System, content: seq<byte>, pending: seq<Option<Pending>>, i: nat, write: Pending, env: Env, quotaMb: nat, limit: nat)
    requires Reaches([RootDir], s, Appenders(content, pending), quotaMb, limit)
    requires i < |pending| && pending[i].None? && |write.data| <= limit && env.perms.quotaMb == Some(quotaMb)
    requires QuotaOk(env.perms, |content|, |write.data|)
    ensures Reaches([RootDir], s, Appenders(content, pending[i := Some(write)]), quotaMb, limit)
  {
    OneFileUsage(content);
    AppendersValid(content, pending);
    var t, t' := Appenders(content, pending), Appenders(content, pending[i := Some(write)]);
    assert t'.sessions == t.sessions;
    assert Acts([RootDir], t, Check(i, write, env), t');
    ReachesOn([RootDir], s, t, Check(i, write, env), t', quotaMb, limit);
  }

  lemma OneCommits(s: System, content: seq<byte>, pending: seq<Option<Pending>>, i: nat, data: seq<byte>, env: Env, t': System,
                   quotaMb: nat, limit: nat)
    requires Reaches([RootDir], s, Appenders(content, pending), quotaMb, limit)
    requires i < |pending| && pending[i] == Some(Pending("h1", 0, data)) && env.fault.None?
    requires t' == Appenders(content + data, pending[i := None])
    ensures Reaches([RootDir], s, t', quotaMb, limit)
  {
    OneFileUsage(content);
    AppendersValid(content, pending);
    Appends(content, data, env);
    var t := Appenders(content, pending);
    assert t.sessions[i] == Appender() && t'.sessions == t.sessions;
    assert Acts([RootDir], t, CommitWrite(i, env), t');
    ReachesOn([RootDir], s, t, CommitWrite(i, env), t', quotaMb, limit);
  }

  /** The first `checked` of n sessions have passed the check, the first `committed` of them have written. */
  function Progress(n: nat, write: Pending, committed: nat, checked: nat): seq<Option<Pending>> {
    seq(n, k => if committed <= k < checked then Some(write) else None)
  }

  lemma {:induction false} AllCheck(s: System, content: seq<byte>, n: nat, write: Pending, env: Env, checked: nat, quotaMb: nat, limit: nat)
    requires s == Appenders(content, Progress(n, write, 0, 0)) && checked <= n
    requires QuotaOk(env.perms, |content|, |write.data|) && |write.data| <= limit && env.perms.quotaMb == Some(quotaMb)
    ensures Reaches([RootDir], s, Appenders(content, Progress(n, write, 0, checked)), quotaMb, limit)
    decreases checked
  {
    if checked == 0 {
      ReachesItself([RootDir], s, quotaMb, limit);
    } else {
      var before := Progress(n, write, 0, checked - 1);
      AllCheck(s, content, n, write, env, checked - 1, quotaMb, limit);
      OneChecks(s, content, before, checked - 1, write, env, quotaMb, limit);
      assert before[checked - 1 := Some(write)] == Progress(n, write, 0, checked);
    }
  }

  /** The content after some of the writes. */
  function Grown(content: seq<byte>, data: seq<byte>, times: nat): seq<byte> {
    if times == 0 then content else Grown(content, data, times - 1) + data
  }

  lemma {:induction false} GrownLength(content: seq<byte>, data: seq<byte>, times: nat)
    ensures |Grown(content, data, times)| == |content| + times * |data|
  {
    if times > 0 {
      GrownLength(content, data, times - 1);
      assert times * |data| == (times - 1) * |data| + |data|;
    }
  }

  /** The sessions after the first `committed` of `n` writes, all of which have passed their checks. */
  function AfterCommits(content: seq<byte>, n: nat, data: seq<byte>, committed: nat): System {
    Appenders(Grown(content, data, committed), Progress(n, Pending("h1", 0, data), committed, n))
  }

  lemma {:induction false} AllCommit(s: System, content: seq<byte>, n: nat, data: seq<byte>, env: Env, committed: nat, quotaMb: nat, limit: nat)
    requires committed <= n && env.fault.None?
    requires Reaches([RootDir], s, AfterCommits(content, n, data, 0), quotaMb, limit)
    ensures Reaches([RootDir], s, AfterCommits(content, n, data, committed), quotaMb, limit)
    decreases committed
  {
    if committed > 0 {
      AllCommit(s, content, n, data, env, committed - 1, quotaMb, limit);
      NextCommits(s, content, n, data, env, committed, quotaMb, limit);
    }
  }

  lemma NextCommits(s: System, content: seq<byte>, n: nat, data: seq<byte>, env: Env, committed: nat, quotaMb: nat, limit: nat)
    requires 0 < committed <= n && env.fault.None?
    requires Reaches([RootDir], s, AfterCommits(content, n, data, committed - 1), quotaMb, limit)
    ensures Reaches([RootDir], s, AfterCommits(content, n, data, committed), quotaMb, limit)
  {
    var before := Progress(n, Pending("h1", 0, data), committed - 1, n);
    NextCommitted(content, data, n, committed);
    OneCommits(s, Grown(content, data, committed - 1), before, committed - 1, data, env,
               AfterCommits(content, n, data, committed), quotaMb, limit);
  }

  lemma NextCommitted(content: seq<byte>, data: seq<byte>, n: nat, committed: nat)
    requires 0 < committed <= n
    ensures Appenders(Grown(content, data, committed - 1) + data,
                      Progress(n, Pending("h1", 0, data), committed - 1, n)[committed - 1 := None])
         == AfterCommits(content, n, data, committed)
  {
    var write := Pending("h1", 0, data);
    assert Progress(n, write, committed - 1, n)[committed - 1 := None] == Progress(n, write, committed, n);
  }

  /** The bound is attained for every number of sessions and every length of write: all may pass the check
      before any commits. */
  lemma QuotaBoundAttained(quotaMb: nat, env: Env, n: nat, limit: nat, content: seq<byte>)
    requires 0 < quotaMb && quotaMb * MEGABYTE <= U64_MAX && n > 0
    requires limit <= quotaMb * MEGABYTE && |content| == quotaMb * MEGABYTE - limit
    requires env.perms.quotaMb == Some(quotaMb) && env.fault.None?
    ensures var s := Appenders(content, seq(n, _ => None));
            s.Valid() && |s.sessions| == n
            && exists last: System :: last.fs.Valid() && Reaches([RootDir], s, last, quotaMb, limit)
                 && SizeBelow(last.fs, NamesOf([RootDir])) == quotaMb * MEGABYTE + (n - 1) * limit
  {
    var write := Pending("h1", 0, Zeros(limit));
    var s := Appenders(content, Progress(n, write, 0, 0));
    var last := Appenders(Grown(content, write.data, n), Progress(n, write, n, n));
    assert Progress(n, write, 0, 0) == seq(n, _ => None);
    AppendersValid(content, Progress(n, write, 0, 0));
    CheckLeavesRoom(env.perms, |content|, limit);
    AllCheck(s, content, n, write, env, n, quotaMb, limit);
    AllCommit(s, content, n, write.data, env, n, quotaMb, limit);
    GrownLength(content, write.data, n);
    OneFileUsage(last.fs.data[0]);
    assert n * limit == (n - 1) * limit + limit;
    assert last.fs.Valid() && Reaches([RootDir], s, last, quotaMb, limit);
  }
}
