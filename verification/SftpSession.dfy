/** One SFTP session: the requests of sftp/src/ops/protocol.rs that open, transfer, list and change files.

The functions named after requests say what each does to the session and the file system; the class
carries the source's methods and is proved against them. */
module SftpSession {
  import opened Numbers
  import opened Options
  import opened Bytes
  import opened Paths
  import opened FileTree
  import opened Usage
  import opened Handles

  const MEGABYTE: nat := 1024 * 1024
  const MAX_READ_LEN: nat := 256 * 1024
  const BATCH: nat := 100

  datatype Permissions = Permissions(
    canRead: bool, canWrite: bool, canDelete: bool, canList: bool,
    canMkdir: bool, canRmdir: bool, canRename: bool, canAppend: bool,
    quotaMb: Option<nat>)

  datatype OpenFlags = OpenFlags(read: bool, write: bool, append: bool, create: bool, truncate: bool)

  datatype StatusCode = Eof | NoSuchFile | PermissionDenied | Failure

  datatype Entry =
    | FileEntry(desc: Descriptor, writable: bool)
    | DirEntry(remaining: seq<string>)

  datatype Session = Session(handles: map<string, Entry>, next: nat)

  datatype World = World(session: Session, fs: Fs) {
    /** Open files keep their inodes. */
    ghost predicate Valid() {
      && fs.Valid()
      && forall h :: h in session.handles && session.handles[h].FileEntry? && session.handles[h].desc.node.File? ==>
           session.handles[h].desc.node.ino in fs.data
    }
  }

  datatype Request =
    | Open(filename: string, flags: OpenFlags)
    | Close(handle: string)
    | Read(handle: string, offset: nat, len: nat)
    | Write(handle: string, offset: nat, data: seq<byte>)
    | Setstat(path: string, mode: bool, size: Option<nat>)
    | Opendir(path: string)
    | Readdir(handle: string)
    | Remove(path: string)
    | Mkdir(path: string)
    | Rmdir(path: string)
    | Rename(oldPath: string, newPath: string)
    | Realpath(path: string)

  datatype Reply = Handle(handle: string) | Data(data: seq<byte>) | Names(names: seq<string>) | Done | Status(code: StatusCode)

  /** What surrounds a request: the permissions of the moment, and what the operating system decides.
      A failing call gets as far as `partial` bytes or entries, or removes the locations `gone`; a read
      hands over `chosen` bytes; a directory is listed as `listing`. */
  datatype Env = Env(
    perms: Permissions, fault: Option<OsError>, partial: nat, chosen: nat,
    listing: seq<string>, gone: set<Loc>)

  datatype Event = Event(req: Request, env: Env)

  datatype Result = Result(world: World, reply: Reply)

  function IoStatus(e: OsError): StatusCode {
    match e
    case NotFound => NoSuchFile
    case AccessDenied => PermissionDenied
    case OtherError => Failure
  }

  function Refuse(w: World, code: StatusCode): Result {
    Result(w, Status(code))
  }

  // ---- Quota ----

  /** The quota in bytes, if there is one. */
  function QuotaBytes(p: Permissions): Option<nat> {
    if p.quotaMb.None? || p.quotaMb.value == 0 then None else Some(Min(p.quotaMb.value * MEGABYTE, U64_MAX))
  }

  predicate QuotaOk(p: Permissions, usage: nat, additional: nat) {
    || additional == 0
    || QuotaBytes(p).None?
    || Min(usage + additional, U64_MAX) <= QuotaBytes(p).value
  }

  // ---- Requests ----

  predicate WantsWrite(f: OpenFlags) {
    f.write || f.append || f.truncate || f.create
  }

  predicate MayOpen(p: Permissions, f: OpenFlags) {
    if WantsWrite(f) then p.canWrite || (f.append && p.canAppend) else p.canRead
  }

  function OptionsOf(f: OpenFlags): OpenOptions {
    OpenOptions(f.read, f.write || f.append || f.create, f.append, f.truncate, f.create)
  }

  /** A new entry goes in under the first free name. */
  function Issue(w: World, fs: Fs, e: Entry): Result {
    var id := FreeId(w.session.handles.Keys, w.session.next);
    Result(World(Session(w.session.handles[HandleName(id) := e], id + 1), fs), Handle(HandleName(id)))
  }

  function DoOpen(home: Path, w: World, filename: string, flags: OpenFlags, env: Env): Result {
    var place := SftpResolve(home, filename);
    if !MayOpen(env.perms, flags) then Refuse(w, PermissionDenied)
    else if !place.Resolved? then Refuse(w, NoSuchFile)
    else if env.fault.Some? then Refuse(w, IoStatus(env.fault.value))
    else
      var o := OpenPath(w.fs, place.path, OptionsOf(flags));
      if o.Refused? then Refuse(w, IoStatus(o.error)) else Issue(w, o.fs, FileEntry(o.desc, WantsWrite(flags)))
  }

  function DoClose(w: World, handle: string): Result {
    if handle in w.session.handles
    then Result(w.(session := w.session.(handles := w.session.handles - {handle})), Done)
    else Refuse(w, NoSuchFile)
  }

  predicate IsOpenFile(s: Session, handle: string) {
    handle in s.handles && s.handles[handle].FileEntry?
  }

  ghost function DoRead(w: World, handle: string, offset: nat, len: nat, env: Env): Result
    requires w.Valid()
  {
    if !IsOpenFile(w.session, handle) then Refuse(w, NoSuchFile)
    else if offset >= SEEK_LIMIT then Refuse(w, Failure)
    else if env.fault.Some? then Refuse(w, IoStatus(env.fault.value))
    else if len == 0 then Refuse(w, Eof)
    else
      var d := w.session.handles[handle].desc;
      if d.node.Dir? || !d.readable then Refuse(w, Failure)
      else
        var bytes := ShortRead(w.fs.data[d.node.ino], offset, Min(len, MAX_READ_LEN), env.chosen);
        if bytes == [] then Refuse(w, Eof) else Result(w, Data(bytes))
  }

  /** The second half of a write, after the quota check. */
  ghost function Commit(w: World, handle: string, offset: nat, data: seq<byte>, env: Env): Result
    requires w.Valid()
  {
    if !IsOpenFile(w.session, handle) then Refuse(w, NoSuchFile)
    else if offset >= SEEK_LIMIT then Refuse(w, Failure)
    else if data == [] then Result(w, Done)
    else
      var d := w.session.handles[handle].desc;
      if d.node.Dir? || !d.writable then Refuse(w, Failure)
      else if env.fault.Some? then
        Result(w.(fs := OsWrite(w.fs, d, offset, data[..Min(env.partial, |data|)])), Status(IoStatus(env.fault.value)))
      else Result(w.(fs := OsWrite(w.fs, d, offset, data)), Done)
  }

  ghost function DoWrite(home: Path, w: World, handle: string, offset: nat, data: seq<byte>, env: Env): Result
    requires CanonicalHome(home) && w.Valid()
  {
    if QuotaOk(env.perms, SizeBelow(w.fs, NamesOf(home)), |data|)
    then Commit(w, handle, offset, data, env)
    else Refuse(w, Failure)
  }

  /** What the path operations have in common: a permission, a place, the operating system's mood. */
  function Place(home: Path, fs: Fs, allowed: bool, path: string, env: Env): Located {
    var place := SftpResolve(home, path);
    if !allowed then Fails(AccessDenied)
    else if !place.Resolved? then Fails(NotFound)
    else if env.fault.Some? then Fails(env.fault.value)
    else Locate(fs, place.path)
  }

  ghost function DoSetstat(home: Path, w: World, path: string, mode: bool, size: Option<nat>, env: Env): Result
    requires w.Valid()
  {
    var place := SftpResolve(home, path);
    if !env.perms.canWrite then Refuse(w, PermissionDenied)
    else if !place.Resolved? then Refuse(w, NoSuchFile)
    else if !mode && size.None? then Result(w, Done)
    else
      var t := Place(home, w.fs, true, path, env);
      if t.Fails? then Refuse(w, IoStatus(t.error))
      else if t.loc !in w.fs.tree then Refuse(w, NoSuchFile)
      else if size.None? then Result(w, Done)
      else if w.fs.tree[t.loc].Dir? || size.value >= SEEK_LIMIT then Refuse(w, Failure)
      else Result(w.(fs := OsResize(w.fs, w.fs.tree[t.loc].ino, size.value)), Done)
  }

  function DoOpendir(home: Path, w: World, path: string, env: Env): Result {
    var t := Place(home, w.fs, env.perms.canList, path, env);
    if t.Fails? then Refuse(w, IoStatus(t.error))
    else if t.loc !in w.fs.tree then Refuse(w, NoSuchFile)
    else if w.fs.tree[t.loc].File? then Refuse(w, Failure)
    else Issue(w, w.fs, DirEntry(env.listing))
  }

  /** One batch; a failing enumeration loses the entries it had read. */
  function DoReaddir(w: World, handle: string, env: Env): Result {
    if handle !in w.session.handles || w.session.handles[handle].FileEntry? then Refuse(w, NoSuchFile)
    else
      var rest := w.session.handles[handle].remaining;
      var failing := env.fault.Some? && env.partial < BATCH && env.partial <= |rest|;
      var n := if failing then env.partial else Min(BATCH, |rest|);
      var w' := w.(session := w.session.(handles := w.session.handles[handle := DirEntry(rest[n..])]));
      if failing then Result(w', Status(IoStatus(env.fault.value)))
      else if n == 0 then Result(w', Status(Eof))
      else Result(w', Names(rest[..n]))
  }

  function DoRemove(home: Path, w: World, path: string, env: Env): Result {
    var t := Place(home, w.fs, env.perms.canDelete, path, env);
    if t.Fails? then Refuse(w, IoStatus(t.error))
    else if t.loc !in w.fs.tree then Refuse(w, NoSuchFile)
    else if w.fs.tree[t.loc].Dir? then Refuse(w, Failure)
    else Result(w.(fs := OsRemove(w.fs, t.loc)), Done)
  }

  function DoMkdir(home: Path, w: World, path: string, env: Env): Result {
    var t := Place(home, w.fs, env.perms.canMkdir, path, env);
    if t.Fails? then Refuse(w, IoStatus(t.error))
    else if t.loc in w.fs.tree then Refuse(w, Failure)
    else Result(w.(fs := OsMkdir(w.fs, t.loc)), Done)
  }

  /** Recursive removal; when it fails half-way, some of what lies below is gone. */
  function DoRmdir(home: Path, w: World, path: string, env: Env): Result {
    var t := Place(home, w.fs, env.perms.canRmdir, path, env.(fault := None));
    if t.Fails? then Refuse(w, IoStatus(t.error))
    else if t.loc !in w.fs.tree then Refuse(w, NoSuchFile)
    else if w.fs.tree[t.loc].File? then Refuse(w, Failure)
    else if t.loc == [] || env.fault.Some? then
      var gone := if Prunable(w.fs, env.gone) && env.gone <= Subtree(w.fs, t.loc) then env.gone else {};
      Result(w.(fs := OsPrune(w.fs, gone)), Status(if env.fault.Some? then IoStatus(env.fault.value) else Failure))
    else Result(w.(fs := OsPrune(w.fs, Subtree(w.fs, t.loc))), Done)
  }

  /** `to.exists()`. */
  predicate Exists(fs: Fs, p: Path) {
    Locate(fs, p).At? && Locate(fs, p).loc in fs.tree
  }

  function DoRename(home: Path, w: World, oldPath: string, newPath: string, env: Env): Result {
    var from, to := SftpResolve(home, oldPath), SftpResolve(home, newPath);
    if !env.perms.canRename then Refuse(w, PermissionDenied)
    else if !from.Resolved? || !to.Resolved? then Refuse(w, NoSuchFile)
    else if Exists(w.fs, to.path) then Refuse(w, Failure)
    else if env.fault.Some? then Refuse(w, IoStatus(env.fault.value))
    else
      var a, b := Locate(w.fs, from.path), Locate(w.fs, to.path);
      if a.Fails? then Refuse(w, IoStatus(a.error))
      else if b.Fails? then Refuse(w, IoStatus(b.error))
      else if a.loc !in w.fs.tree then Refuse(w, NoSuchFile)
      else if a.loc <= b.loc then Refuse(w, Failure)
      else Result(w.(fs := OsRename(w.fs, a.loc, b.loc)), Done)
  }

  function DoRealpath(home: Path, w: World, path: string): Result
    requires home != []
  {
    var shown := Paths.Realpath(home, path);
    if shown.Some? then Result(w, Names([shown.value])) else Refuse(w, NoSuchFile)
  }

  ghost function Step(home: Path, w: World, e: Event): Result
    requires CanonicalHome(home) && w.Valid()
  {
    match e.req
    case Open(filename, flags) => DoOpen(home, w, filename, flags, e.env)
    case Close(handle) => DoClose(w, handle)
    case Read(handle, offset, len) => DoRead(w, handle, offset, len, e.env)
    case Write(handle, offset, data) => DoWrite(home, w, handle, offset, data, e.env)
    case Setstat(path, mode, size) => DoSetstat(home, w, path, mode, size, e.env)
    case Opendir(path) => DoOpendir(home, w, path, e.env)
    case Readdir(handle) => DoReaddir(w, handle, e.env)
    case Remove(path) => DoRemove(home, w, path, e.env)
    case Mkdir(path) => DoMkdir(home, w, path, e.env)
    case Rmdir(path) => DoRmdir(home, w, path, e.env)
    case Rename(oldPath, newPath) => DoRename(home, w, oldPath, newPath, e.env)
    case Realpath(path) => DoRealpath(home, w, path)
  }

  // ---- The handler ----

  class Disk {
    var fs: Fs

    constructor (fs: Fs)
      ensures this.fs == fs
    {
      this.fs := fs;
    }
  }

  class SftpFileHandler {
    const homeDir: string
    const home: Path
    const disk: Disk
    const quotaCache: QuotaCache
    var handles: map<string, Entry>
    var nextHandle: nat

    ghost function State(): World
      reads this, disk
    {
      World(Session(handles, nextHandle), disk.fs)
    }

    ghost predicate Valid()
      reads this, disk
    {
      CanonicalHome(home) && State().Valid()
    }

    constructor (homeDir: string, disk: Disk, quotaCache: QuotaCache)
      requires CanonicalHome(Components(homeDir)) && disk.fs.Valid()
      ensures Valid() && home == Components(homeDir) && this.disk == disk
      ensures State() == World(Session(map[], 1), disk.fs)
    {
      this.homeDir, home := homeDir, Components(homeDir);
      this.disk, this.quotaCache := disk, quotaCache;
      handles, nextHandle := map[], 1;
    }

    /** Searches for a free name, first come first served. */
    method NextHandleId() returns (handle: string)
      modifies this`nextHandle
      ensures var id := FreeId(handles.Keys, old(nextHandle));
              handle == HandleName(id) && nextHandle == id + 1
    {
      while true
        invariant FreeId(handles.Keys, nextHandle) == FreeId(handles.Keys, old(nextHandle))
        decreases Ahead(handles.Keys, nextHandle)
      {
        var id := nextHandle;
        nextHandle := nextHandle + 1;
        handle := HandleName(id);
        if handle !in handles {
          return;
        }
        AheadShrinks(handles.Keys, id);
      }
    }

    method Register(entry: Entry) returns (handle: string)
      modifies this
      ensures Result(State(), Handle(handle)) == Issue(old(State()), disk.fs, entry)
    {
      handle := NextHandleId();
      handles := handles[handle := entry];
    }

    static method BuildOptions(flags: OpenFlags) returns (opts: OpenOptions)
      ensures opts == OptionsOf(flags)
    {
      opts := OpenOptions(false, false, false, false, false);
      if flags.read {
        opts := opts.(read := true);
      }
      if flags.write || flags.append || flags.create {
        opts := opts.(write := true);
      }
      if flags.append {
        opts := opts.(append := true);
      }
      if flags.create {
        opts := opts.(create := true);
      }
      if flags.truncate {
        opts := opts.(truncate := true);
      }
    }

    method CheckQuota(perms: Permissions, additional: nat) returns (ok: bool)
      requires Valid()
      modifies quotaCache
      ensures ok == QuotaOk(perms, SizeBelow(disk.fs, NamesOf(home)), additional)
    {
      if additional == 0 {
        return true;
      }
      if perms.quotaMb.None? || perms.quotaMb.value == 0 {
        return true;
      }
      var names := seq(|home| - 1, i requires 0 <= i < |home| - 1 => home[i + 1].name);
      assert names == NamesOf(home);
      var usage := quotaCache.CalculateUsage(disk.fs, homeDir, names);
      var quotaBytes := Min(perms.quotaMb.value * MEGABYTE, U64_MAX);
      ok := Min(usage + additional, U64_MAX) <= quotaBytes;
    }

    method Open(filename: string, flags: OpenFlags, env: Env) returns (reply: Reply)
      requires Valid()
      modifies this, disk, quotaCache
      ensures Result(State(), reply) == DoOpen(home, old(State()), filename, flags, env)
    {
      var wantsWrite := flags.write || flags.append || flags.truncate || flags.create;
      if wantsWrite {
        var allowed := if flags.append then env.perms.canAppend || env.perms.canWrite else env.perms.canWrite;
        if !allowed {
          return Status(PermissionDenied);
        }
        var ok := CheckQuota(env.perms, 0);
        if !ok {
          return Status(Failure);
        }
      } else if !env.perms.canRead {
        return Status(PermissionDenied);
      }
      var place := ResolveSftp(home, filename);
      if !place.Resolved? {
        return Status(NoSuchFile);
      }
      if env.fault.Some? {
        return Status(IoStatus(env.fault.value));
      }
      var opts := BuildOptions(flags);
      var file := OpenPath(disk.fs, place.path, opts);
      if file.Refused? {
        return Status(IoStatus(file.error));
      }
      disk.fs := file.fs;
      var handle := Register(FileEntry(file.desc, wantsWrite));
      reply := Handle(handle);
    }

    method Close(handle: string) returns (reply: Reply)
      requires Valid()
      modifies this`handles, quotaCache
      ensures Result(State(), reply) == DoClose(old(State()), handle)
    {
      if handle !in handles {
        return Status(NoSuchFile);
      }
      var entry := handles[handle];
      handles := handles - {handle};
      if entry.FileEntry? && entry.writable {
        quotaCache.Invalidate(homeDir);
      }
      reply := Done;
    }

    method Read(handle: string, offset: nat, len: nat, env: Env) returns (reply: Reply)
      requires Valid()
      ensures Result(State(), reply) == DoRead(State(), handle, offset, len, env)
    {
      if handle !in handles || !handles[handle].FileEntry? {
        return Status(NoSuchFile);
      }
      var file := handles[handle].desc;
      if offset >= SEEK_LIMIT {
        return Status(Failure);
      }
      if env.fault.Some? {
        return Status(IoStatus(env.fault.value));
      }
      var capped := Min(len, MAX_READ_LEN);
      var buf: seq<byte> := [];
      if capped > 0 {
        if file.node.Dir? || !file.readable {
          return Status(Failure);
        }
        buf := ShortRead(disk.fs.data[file.node.ino], offset, capped, env.chosen);
      }
      if |buf| == 0 {
        return Status(Eof);
      }
      reply := Data(buf);
    }

    method Write(handle: string, offset: nat, data: seq<byte>, env: Env) returns (reply: Reply)
      requires Valid()
      modifies disk, quotaCache
      ensures Result(State(), reply) == DoWrite(home, old(State()), handle, offset, data, env)
    {
      var ok := CheckQuota(env.perms, |data|);
      if !ok {
        return Status(Failure);
      }
      if handle !in handles || !handles[handle].FileEntry? {
        return Status(NoSuchFile);
      }
      var file := handles[handle].desc;
      if offset >= SEEK_LIMIT {
        return Status(Failure);
      }
      if |data| > 0 {
        if file.node.Dir? || !file.writable {
          return Status(Failure);
        }
        if env.fault.Some? {
          disk.fs := OsWrite(disk.fs, file, offset, data[..Min(env.partial, |data|)]);
          return Status(IoStatus(env.fault.value));
        }
        disk.fs := OsWrite(disk.fs, file, offset, data);
      }
      reply := Done;
    }

    method Setstat(path: string, mode: bool, size: Option<nat>, env: Env) returns (reply: Reply)
      requires Valid()
      modifies disk
      ensures Result(State(), reply) == DoSetstat(home, old(State()), path, mode, size, env)
    {
      if !env.perms.canWrite {
        return Status(PermissionDenied);
      }
      var resolved := ResolveSftp(home, path);
      if !resolved.Resolved? {
        return Status(NoSuchFile);
      }
      if !mode && size.None? {
        return Done;
      }
      if env.fault.Some? {
        return Status(IoStatus(env.fault.value));
      }
      var l := Locate(disk.fs, resolved.path);
      if l.Fails? {
        return Status(IoStatus(l.error));
      }
      if l.loc !in disk.fs.tree {
        return Status(NoSuchFile);
      }
      if size.Some? {
        if disk.fs.tree[l.loc].Dir? || size.value >= SEEK_LIMIT {
          return Status(Failure);
        }
        disk.fs := OsResize(disk.fs, disk.fs.tree[l.loc].ino, size.value);
      }
      reply := Done;
    }

    method Opendir(path: string, env: Env) returns (reply: Reply)
      requires Valid()
      modifies this
      ensures Result(State(), reply) == DoOpendir(home, old(State()), path, env)
    {
      if !env.perms.canList {
        return Status(PermissionDenied);
      }
      var resolved := ResolveSftp(home, path);
      if !resolved.Resolved? {
        return Status(NoSuchFile);
      }
      if env.fault.Some? {
        return Status(IoStatus(env.fault.value));
      }
      var l := Locate(disk.fs, resolved.path);
      if l.Fails? {
        return Status(IoStatus(l.error));
      }
      if l.loc !in disk.fs.tree {
        return Status(NoSuchFile);
      }
      if disk.fs.tree[l.loc].File? {
        return Status(Failure);
      }
      var handle := Register(DirEntry(env.listing));
      reply := Handle(handle);
    }

    /** Collects entries one at a time until the batch is full or the listing ends. */
    method Readdir(handle: string, env: Env) returns (reply: Reply)
      requires Valid()
      modifies this`handles
      ensures Result(State(), reply) == DoReaddir(old(State()), handle, env)
    {
      if handle !in handles || !handles[handle].DirEntry? {
        return Status(NoSuchFile);
      }
      ghost var all := handles[handle].remaining;
      var rest := handles[handle].remaining;
      var files: seq<string> := [];
      while |files| < BATCH
        invariant |files| <= BATCH && |files| <= |all| && files == all[..|files|] && rest == all[|files|..]
        invariant env.fault.Some? ==> |files| <= env.partial
        decreases |rest|
      {
        if env.fault.Some? && |files| == env.partial {
          handles := handles[handle := DirEntry(rest)];
          return Status(IoStatus(env.fault.value));
        }
        if rest == [] {
          break;
        }
        files, rest := files + [rest[0]], rest[1..];
      }
      handles := handles[handle := DirEntry(rest)];
      if files == [] {
        return Status(Eof);
      }
      reply := Names(files);
    }

    method Remove(filename: string, env: Env) returns (reply: Reply)
      requires Valid()
      modifies disk, quotaCache
      ensures Result(State(), reply) == DoRemove(home, old(State()), filename, env)
    {
      if !env.perms.canDelete {
        return Status(PermissionDenied);
      }
      var resolved := ResolveSftp(home, filename);
      if !resolved.Resolved? {
        return Status(NoSuchFile);
      }
      if env.fault.Some? {
        return Status(IoStatus(env.fault.value));
      }
      var l := Locate(disk.fs, resolved.path);
      if l.Fails? {
        return Status(IoStatus(l.error));
      }
      if l.loc !in disk.fs.tree {
        return Status(NoSuchFile);
      }
      if disk.fs.tree[l.loc].Dir? {
        return Status(Failure);
      }
      disk.fs := OsRemove(disk.fs, l.loc);
      quotaCache.Invalidate(homeDir);
      reply := Done;
    }

    method Mkdir(path: string, env: Env) returns (reply: Reply)
      requires Valid()
      modifies disk
      ensures Result(State(), reply) == DoMkdir(home, old(State()), path, env)
    {
      if !env.perms.canMkdir {
        return Status(PermissionDenied);
      }
      var resolved := ResolveSftp(home, path);
      if !resolved.Resolved? {
        return Status(NoSuchFile);
      }
      if env.fault.Some? {
        return Status(IoStatus(env.fault.value));
      }
      var l := Locate(disk.fs, resolved.path);
      if l.Fails? {
        return Status(IoStatus(l.error));
      }
      if l.loc in disk.fs.tree {
        return Status(Failure);
      }
      disk.fs := OsMkdir(disk.fs, l.loc);
      reply := Done;
    }

    method Rmdir(path: string, env: Env) returns (reply: Reply)
      requires Valid()
      modifies disk
      ensures Result(State(), reply) == DoRmdir(home, old(State()), path, env)
    {
      if !env.perms.canRmdir {
        return Status(PermissionDenied);
      }
      var resolved := ResolveSftp(home, path);
      if !resolved.Resolved? {
        return Status(NoSuchFile);
      }
      var l := Locate(disk.fs, resolved.path);
      if l.Fails? {
        return Status(IoStatus(l.error));
      }
      if l.loc !in disk.fs.tree {
        return Status(NoSuchFile);
      }
      if disk.fs.tree[l.loc].File? {
        return Status(Failure);
      }
      if l.loc == [] || env.fault.Some? {
        if Prunable(disk.fs, env.gone) && env.gone <= Subtree(disk.fs, l.loc) {
          disk.fs := OsPrune(disk.fs, env.gone);
        } else {
          disk.fs := OsPrune(disk.fs, {});
        }
        return Status(if env.fault.Some? then IoStatus(env.fault.value) else Failure);
      }
      disk.fs := OsPrune(disk.fs, Subtree(disk.fs, l.loc));
      reply := Done;
    }

    method Rename(oldPath: string, newPath: string, env: Env) returns (reply: Reply)
      requires Valid()
      modifies disk
      ensures Result(State(), reply) == DoRename(home, old(State()), oldPath, newPath, env)
    {
      if !env.perms.canRename {
        return Status(PermissionDenied);
      }
      var from := ResolveSftp(home, oldPath);
      if !from.Resolved? {
        return Status(NoSuchFile);
      }
      var to := ResolveSftp(home, newPath);
      if !to.Resolved? {
        return Status(NoSuchFile);
      }
      var b := Locate(disk.fs, to.path);
      if b.At? && b.loc in disk.fs.tree {
        return Status(Failure);
      }
      if env.fault.Some? {
        return Status(IoStatus(env.fault.value));
      }
      var a := Locate(disk.fs, from.path);
      if a.Fails? {
        return Status(IoStatus(a.error));
      }
      if b.Fails? {
        return Status(IoStatus(b.error));
      }
      if a.loc !in disk.fs.tree {
        return Status(NoSuchFile);
      }
      if a.loc <= b.loc {
        return Status(Failure);
      }
      disk.fs := OsRename(disk.fs, a.loc, b.loc);
      reply := Done;
    }

    method Realpath(path: string) returns (reply: Reply)
      requires Valid()
      ensures Result(State(), reply) == DoRealpath(home, State(), path)
    {
      var resolved := ResolveSftp(home, path);
      if !resolved.Resolved? {
        return Status(NoSuchFile);
      }
      var stripped := Trim(path);
      if IsAbsolute(stripped) && StripPrefix(Components(stripped), home).Some? {
        // The resolver has joined the text's own remainder.
        return Names(["/" + Spelled(stripped, |home| - 1)]);
      }
      var rel := StripPrefix(resolved.path, home);
      reply := Names([if rel.None? then "/" else Virtual(rel.value)]);
    }
  }
}
