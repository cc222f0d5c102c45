/** The control service of wftpd/src/control.rs over the daemon state of wftpd/src/state.rs, one RPC at a
time.  The configuration lives in memory and on disk; saving and loading it is an exact round trip. */
module ControlPlane {

  datatype Logging = Logging(dir: string, level: string, maxSize: nat, maxFiles: nat, gui: bool, json: bool)

  /** `other` stands for every setting that these RPCs pass through unread. */
  datatype Config = Config(ftpEnabled: bool, sftpEnabled: bool, logging: Logging, other: string)

  /** A service slot between RPCs: empty, or holding a server whose listener lives or has left. */
  datatype Service = Empty | Filled(alive: bool)

  datatype Daemon = Daemon(memory: Config, disk: Config, ftp: Service, sftp: Service)

  datatype Which = OnlyFtp | OnlySftp | All

  datatype Rpc =
    | Start(which: Which)
    | Stop(which: Which)
    | Restart(which: Which)
    | SaveConfig(config: Config, valid: bool)
    | SaveLogConfig(logging: Logging)

  /** What an RPC meets: whether its writes of the configuration succeed, in order, whether the file can
      be read back, whether the servers can be built, and whether a new log level takes effect. */
  datatype Luck = Luck(write: bool, write2: bool, readBack: bool, ftpBuilds: bool, sftpBuilds: bool, reloads: bool)

  /** Besides RPCs, listeners leave on their own and the daemon may be restarted. */
  datatype Event = Call(rpc: Rpc, luck: Luck) | FtpExits | SftpExits | Reboot(luck: Luck)

  predicate IsRunning(s: Service) {
    s == Filled(true)
  }

  // ---- Services ----

  /** `start_*`: a filled slot is left alone, whatever is in it. */
  function Started(s: Service, builds: bool): Service {
    if s.Filled? then s else if builds then Filled(true) else Empty
  }

  predicate StartOk(s: Service, builds: bool) {
    s.Filled? || builds
  }

  /** `apply_enabled_flags` for one protocol. */
  function Applied(s: Service, enabled: bool, builds: bool): Service {
    if enabled && !IsRunning(s) then Started(s, builds)
    else if !enabled && IsRunning(s) then Empty
    else s
  }

  function ApplyFlags(d: Daemon, luck: Luck): Daemon {
    d.(ftp := Applied(d.ftp, d.memory.ftpEnabled, luck.ftpBuilds),
       sftp := Applied(d.sftp, d.memory.sftpEnabled, luck.sftpBuilds))
  }

  // ---- Flags ----

  /** Writing the configuration in memory to disk. */
  function Persist(d: Daemon, write: bool): Daemon {
    if write then d.(disk := d.memory) else d
  }

  /** An equal flag returns early, without writing. */
  function SetFtpEnabled(d: Daemon, enabled: bool, write: bool): Daemon {
    if d.memory.ftpEnabled == enabled then d
    else Persist(d.(memory := d.memory.(ftpEnabled := enabled)), write)
  }

  function SetSftpEnabled(d: Daemon, enabled: bool, write: bool): Daemon {
    if d.memory.sftpEnabled == enabled then d
    else Persist(d.(memory := d.memory.(sftpEnabled := enabled)), write)
  }

  function SetEnabled(d: Daemon, which: Which, enabled: bool, luck: Luck): Daemon {
    match which
    case OnlyFtp => SetFtpEnabled(d, enabled, luck.write)
    case OnlySftp => SetSftpEnabled(d, enabled, luck.write)
    case All => SetSftpEnabled(SetFtpEnabled(d, enabled, luck.write), enabled, luck.write2)
  }

  // ---- RPCs ----

  function StartSlots(d: Daemon, which: Which, luck: Luck): Daemon {
    d.(ftp := if which.OnlySftp? then d.ftp else Started(d.ftp, luck.ftpBuilds),
       sftp := if which.OnlyFtp? then d.sftp else Started(d.sftp, luck.sftpBuilds))
  }

  function StopSlots(d: Daemon, which: Which): Daemon {
    d.(ftp := if which.OnlySftp? then d.ftp else Empty,
       sftp := if which.OnlyFtp? then d.sftp else Empty)
  }

  predicate StartsOk(d: Daemon, which: Which, luck: Luck) {
    && (which.OnlySftp? || StartOk(d.ftp, luck.ftpBuilds))
    && (which.OnlyFtp? || StartOk(d.sftp, luck.sftpBuilds))
  }

  function Handle(d: Daemon, rpc: Rpc, luck: Luck): (Daemon, bool) {
    match rpc
    case Start(which) =>
      var d1 := SetEnabled(d, which, true, luck);
      (StartSlots(d1, which, luck), StartsOk(d1, which, luck))
    case Stop(which) =>
      (StopSlots(SetEnabled(d, which, false, luck), which), true)
    case Restart(which) =>
      var d1 := StopSlots(d, which);
      (StartSlots(d1, which, luck), StartsOk(d1, which, luck))
    case SaveConfig(config, valid) =>
      if !valid || !luck.write then (d, false)
      else if !luck.readBack then (d.(disk := config), false)
      else (ApplyFlags(d.(disk := config, memory := config), luck), true)
    case SaveLogConfig(logging) =>
      // The request carries no choice of format.
      (Persist(d.(memory := d.memory.(logging := logging.(json := d.memory.logging.json))), luck.write),
       luck.write && (logging.level == d.memory.logging.level || luck.reloads))
  }

  /** A fresh daemon over what is on disk. */
  function Boot(disk: Config, luck: Luck): Daemon {
    ApplyFlags(Daemon(disk, disk, Empty, Empty), luck)
  }

  function Step(d: Daemon, e: Event): Daemon {
    match e
    case Call(rpc, luck) => Handle(d, rpc, luck).0
    case FtpExits => if d.ftp.Filled? then d.(ftp := Filled(false)) else d
    case SftpExits => if d.sftp.Filled? then d.(sftp := Filled(false)) else d
    case Reboot(luck) => Boot(d.disk, luck)
  }

  function Run(d: Daemon, es: seq<Event>): Daemon {
    if es == [] then d else Step(Run(d, es[..|es| - 1]), es[|es| - 1])
  }

  class ControlService {
    var memory: Config
    var disk: Config
    var ftp: Service
    var sftp: Service

    ghost function State(): Daemon
      reads this
    {
      Daemon(memory, disk, ftp, sftp)
    }

    constructor (disk: Config, luck: Luck)
      ensures State() == Boot(disk, luck)
    {
      memory, this.disk, ftp, sftp := disk, disk, Empty, Empty;
      new;
      ApplyEnabledFlags(luck);
    }

    method StartFtp(builds: bool) returns (ok: bool)
      modifies this`ftp
      ensures ftp == Started(old(ftp), builds) && ok == StartOk(old(ftp), builds)
    {
      if ftp.Filled? {
        return true;
      }
      if !builds {
        return false;
      }
      ftp := Filled(true);
      return true;
    }

    method StartSftp(builds: bool) returns (ok: bool)
      modifies this`sftp
      ensures sftp == Started(old(sftp), builds) && ok == StartOk(old(sftp), builds)
    {
      if sftp.Filled? {
        return true;
      }
      if !builds {
        return false;
      }
      sftp := Filled(true);
      return true;
    }

    method StopFtp()
      modifies this`ftp
      ensures ftp == Empty
    {
      ftp := Empty;
    }

    method StopSftp()
      modifies this`sftp
      ensures sftp == Empty
    {
      sftp := Empty;
    }

    method ApplyEnabledFlags(luck: Luck)
      modifies this`ftp, this`sftp
      ensures State() == ApplyFlags(old(State()), luck)
    {
      var ftpEnabled, sftpEnabled := memory.ftpEnabled, memory.sftpEnabled;
      if ftpEnabled && !IsRunning(ftp) {
        var _ := StartFtp(luck.ftpBuilds);
      } else if !ftpEnabled && IsRunning(ftp) {
        StopFtp();
      }
      if sftpEnabled && !IsRunning(sftp) {
        var _ := StartSftp(luck.sftpBuilds);
      } else if !sftpEnabled && IsRunning(sftp) {
        StopSftp();
      }
    }

    method PersistConfig(write: bool)
      modifies this`disk
      ensures State() == Persist(old(State()), write)
    {
      if write {
        disk := memory;
      }
    }

    method WriteFtpEnabled(enabled: bool, write: bool)
      modifies this`memory, this`disk
      ensures State() == SetFtpEnabled(old(State()), enabled, write)
    {
      if memory.ftpEnabled == enabled {
        return;
      }
      memory := memory.(ftpEnabled := enabled);
      PersistConfig(write);
    }

    method WriteSftpEnabled(enabled: bool, write: bool)
      modifies this`memory, this`disk
      ensures State() == SetSftpEnabled(old(State()), enabled, write)
    {
      if memory.sftpEnabled == enabled {
        return;
      }
      memory := memory.(sftpEnabled := enabled);
      PersistConfig(write);
    }

    method StartService(which: Which, luck: Luck) returns (ok: bool)
      modifies this
      ensures (State(), ok) == Handle(old(State()), Start(which), luck)
    {
      match which {
        case OnlyFtp =>
          WriteFtpEnabled(true, luck.write);
          ok := StartFtp(luck.ftpBuilds);
        case OnlySftp =>
          WriteSftpEnabled(true, luck.write);
          ok := StartSftp(luck.sftpBuilds);
        case All =>
          WriteFtpEnabled(true, luck.write);
          WriteSftpEnabled(true, luck.write2);
          var ftpOk := StartFtp(luck.ftpBuilds);
          var sftpOk := StartSftp(luck.sftpBuilds);
          ok := ftpOk && sftpOk;
      }
    }

    method StopService(which: Which, luck: Luck) returns (ok: bool)
      modifies this
      ensures (State(), ok) == Handle(old(State()), Stop(which), luck)
    {
      match which {
        case OnlyFtp =>
          WriteFtpEnabled(false, luck.write);
          StopFtp();
        case OnlySftp =>
          WriteSftpEnabled(false, luck.write);
          StopSftp();
        case All =>
          WriteFtpEnabled(false, luck.write);
          WriteSftpEnabled(false, luck.write2);
          StopFtp();
          StopSftp();
      }
      ok := true;
    }

    method RestartService(which: Which, luck: Luck) returns (ok: bool)
      modifies this
      ensures (State(), ok) == Handle(old(State()), Restart(which), luck)
    {
      var ftpOk, sftpOk := true, true;
      if !which.OnlySftp? {
        StopFtp();
        ftpOk := StartFtp(luck.ftpBuilds);
      }
      if !which.OnlyFtp? {
        StopSftp();
        sftpOk := StartSftp(luck.sftpBuilds);
      }
      ok := ftpOk && sftpOk;
    }

    method SaveConfig(config: Config, valid: bool, luck: Luck) returns (ok: bool)
      modifies this
      ensures (State(), ok) == Handle(old(State()), Rpc.SaveConfig(config, valid), luck)
    {
      if !valid || !luck.write {
        return false;
      }
      disk := config;
      if !luck.readBack {
        return false;
      }
      memory := config;
      ApplyEnabledFlags(luck);
      ok := true;
    }

    method SaveLogConfig(logging: Logging, luck: Luck) returns (ok: bool)
      modifies this
      ensures (State(), ok) == Handle(old(State()), Rpc.SaveLogConfig(logging), luck)
    {
      var log := memory.logging;
      var levelChanged := log.level != logging.level;
      log := log.(dir := logging.dir);
      log := log.(level := logging.level);
      log := log.(maxSize := logging.maxSize);
      log := log.(maxFiles := logging.maxFiles);
      log := log.(gui := logging.gui);
      memory := memory.(logging := log);
      PersistConfig(luck.write);
      if !luck.write {
        return false;
      }
      ok := !levelChanged || luck.reloads;
    }
  }

  // ---- What each request does ----

  datatype Side = FtpSide | SftpSide

  function Flag(side: Side, c: Config): bool {
    if side.FtpSide? then c.ftpEnabled else c.sftpEnabled
  }

  function Only(side: Side): Which {
    if side.FtpSide? then OnlyFtp else OnlySftp
  }

  function Other(side: Side): Side {
    if side.FtpSide? then SftpSide else FtpSide
  }

  function Slot(side: Side, d: Daemon): Service {
    if side.FtpSide? then d.ftp else d.sftp
  }

  function Builds(side: Side, luck: Luck): bool {
    if side.FtpSide? then luck.ftpBuilds else luck.sftpBuilds
  }

  predicate Asked(which: Which, side: Side) {
    which.All? || which == Only(side)
  }

  /** Start fills each slot it is asked for, unless its server cannot be built; a filled slot it leaves alone, as
      it does the other service.  It succeeds exactly if all slots it is asked for end up filled, and sets their
      flags in any case. */
  lemma StartFills(d: Daemon, which: Which, luck: Luck, side: Side)
    ensures var (d', ok) := Handle(d, Start(which), luck);
            && (Slot(side, d').Filled? <==> Slot(side, d).Filled? || (Asked(which, side) && Builds(side, luck)))
            && (Slot(side, d') != Slot(side, d) ==> Slot(side, d).Empty? && IsRunning(Slot(side, d')))
            && (ok <==> forall s :: Asked(which, s) ==> Slot(s, d').Filled?)
            && (Flag(side, d'.memory) <==> Flag(side, d.memory) || Asked(which, side))
  {
    assert Asked(which, FtpSide) <==> !which.OnlySftp?;
    assert Asked(which, SftpSide) <==> !which.OnlyFtp?;
  }

  /** Restart runs each service it is asked for, or empties its slot if the server cannot be built; it leaves the
      other service and the flags alone.  It succeeds exactly if all it is asked for run. */
  lemma RestartRuns(d: Daemon, which: Which, luck: Luck, side: Side)
    ensures var (d', ok) := Handle(d, Restart(which), luck);
            && (if !Asked(which, side) then Slot(side, d') == Slot(side, d)
                else if Builds(side, luck) then IsRunning(Slot(side, d'))
                else Slot(side, d').Empty?)
            && (ok <==> forall s :: Asked(which, s) ==> Builds(s, luck))
            && d'.memory == d.memory && d'.disk == d.disk
  {
    assert Asked(which, FtpSide) <==> !which.OnlySftp?;
    assert Asked(which, SftpSide) <==> !which.OnlyFtp?;
  }

  /** Stop empties each slot it is asked for and clears its flag, leaves the other service alone, and succeeds. */
  lemma StopEmpties(d: Daemon, which: Which, luck: Luck, side: Side)
    ensures var (d', ok) := Handle(d, Stop(which), luck);
            && ok && (if Asked(which, side) then Slot(side, d').Empty? else Slot(side, d') == Slot(side, d))
            && (Flag(side, d'.memory) <==> Flag(side, d.memory) && !Asked(which, side))
  {
  }

  /** One request to both services, one after the other; the second meets the second write. */
  function Both(d: Daemon, ftp: Rpc, sftp: Rpc, luck: Luck): (Daemon, bool) {
    var (d1, ok1) := Handle(d, ftp, luck);
    var (d2, ok2) := Handle(d1, sftp, luck.(write := luck.write2));
    (d2, ok1 && ok2)
  }

  /** A request to all services is the two single ones, in memory, on disk, in the slots and in its answer. */
  lemma AllIsBoth(d: Daemon, luck: Luck)
    ensures Handle(d, Start(All), luck) == Both(d, Start(OnlyFtp), Start(OnlySftp), luck)
    ensures Handle(d, Stop(All), luck) == Both(d, Stop(OnlyFtp), Stop(OnlySftp), luck)
    ensures Handle(d, Restart(All), luck) == Both(d, Restart(OnlyFtp), Restart(OnlySftp), luck)
  {
  }

  /** A request about one service writes the whole configuration in memory exactly if it changes the flag and the
      write succeeds, and changes nothing else of it. */
  lemma FlagWritten(d: Daemon, side: Side, enabled: bool, luck: Luck)
    ensures var d' := Handle(d, if enabled then Start(Only(side)) else Stop(Only(side)), luck).0;
            && Flag(side, d'.memory) == enabled && Flag(Other(side), d'.memory) == Flag(Other(side), d.memory)
            && d'.memory.logging == d.memory.logging && d'.memory.other == d.memory.other
            && d'.disk == if Flag(side, d.memory) != enabled && luck.write then d'.memory else d.disk
  {
  }

  /** Exactly when saving a configuration succeeds.  Then it is in memory and on disk, and the services follow
      its flags: an enabled one is started unless its slot is filled, a running one that is not enabled is
      stopped, and nothing else happens to a slot.  If the file cannot be read back, only the disk changes;
      otherwise nothing does. */
  lemma SaveConfigApplies(d: Daemon, config: Config, valid: bool, luck: Luck, side: Side)
    ensures var (d', ok) := Handle(d, SaveConfig(config, valid), luck);
            && (ok <==> valid && luck.write && luck.readBack)
            && d'.disk == (if valid && luck.write then config else d.disk)
            && d'.memory == (if ok then config else d.memory)
            && (if ok && Flag(side, config) then
                  && (Slot(side, d').Filled? <==> Slot(side, d).Filled? || Builds(side, luck))
                  && (Slot(side, d') != Slot(side, d) ==> Slot(side, d).Empty? && IsRunning(Slot(side, d')))
                else if ok && IsRunning(Slot(side, d)) then Slot(side, d').Empty?
                else Slot(side, d') == Slot(side, d))
  {
  }

  /** Saving the logging section replaces it in memory, save for the choice of format, whether or not the
      write succeeds; it succeeds exactly if the write does and a new level takes effect.  The flags, the other
      settings and the services stay. */
  lemma SaveLogConfigReplaces(d: Daemon, logging: Logging, luck: Luck)
    ensures var (d', ok) := Handle(d, SaveLogConfig(logging), luck);
            var l := d'.memory.logging;
            && l.dir == logging.dir && l.level == logging.level && l.maxSize == logging.maxSize
            && l.maxFiles == logging.maxFiles && l.gui == logging.gui && l.json == d.memory.logging.json
            && d'.memory.(logging := d.memory.logging) == d.memory
            && d'.disk == (if luck.write then d'.memory else d.disk)
            && d'.ftp == d.ftp && d'.sftp == d.sftp
            && (ok <==> luck.write && (luck.reloads || logging.level == d.memory.logging.level))
  {
  }

  // ---- Intent ----

  /** Whether the services were last set enabled: by Start and Stop, by saving a valid configuration. */
  datatype Intent = Intent(ftp: bool, sftp: bool)

  function IntentAfter(i: Intent, e: Event): Intent {
    if !e.Call? then i
    else
      match e.rpc
      case Start(which) => Intent(!which.OnlySftp? || i.ftp, !which.OnlyFtp? || i.sftp)
      case Stop(which) => Intent(which.OnlySftp? && i.ftp, which.OnlyFtp? && i.sftp)
      case SaveConfig(config, valid) => if valid then Intent(config.ftpEnabled, config.sftpEnabled) else i
      case _ => i
  }

  function LastIntent(i: Intent, es: seq<Event>): Intent {
    if es == [] then i else IntentAfter(LastIntent(i, es[..|es| - 1]), es[|es| - 1])
  }

  /** All writes succeed, and a file just written can be read back. */
  ghost predicate Lucky(es: seq<Event>) {
    forall e :: e in es && e.Call? ==> e.luck.write && e.luck.write2 && e.luck.readBack
  }

  ghost predicate Agrees(d: Daemon, i: Intent) {
    d.memory == d.disk && d.memory.ftpEnabled == i.ftp && d.memory.sftpEnabled == i.sftp
  }

  lemma StepAgrees(d: Daemon, i: Intent, e: Event)
    requires Agrees(d, i) && Lucky([e])
    ensures Agrees(Step(d, e), IntentAfter(i, e))
  {
    assert e in [e];
  }

  lemma {:induction false} RunAgrees(disk: Config, luck: Luck, es: seq<Event>)
    requires Lucky(es)
    ensures Agrees(Run(Boot(disk, luck), es), LastIntent(Intent(disk.ftpEnabled, disk.sftpEnabled), es))
    decreases |es|
  {
    if es != [] {
      var n := |es| - 1;
      assert forall e :: e in es[..n] ==> e in es;
      RunAgrees(disk, luck, es[..n]);
      StepAgrees(Run(Boot(disk, luck), es[..n]), LastIntent(Intent(disk.ftpEnabled, disk.sftpEnabled), es[..n]), es[n]);
    }
  }

  /** Intent survives restarts: for every run of RPCs, listener exits and reboots with successful writes,
      memory and disk agree at every boundary despite the early return on an equal flag, and a further
      boot starts exactly the services last set enabled, as far as they can be built. */
  lemma IntentSurvivesRestart(disk: Config, luck: Luck, es: seq<Event>, again: Luck)
    requires Lucky(es)
    ensures var d, i := Run(Boot(disk, luck), es), LastIntent(Intent(disk.ftpEnabled, disk.sftpEnabled), es);
            && d.memory == d.disk
            && Boot(d.disk, again).ftp == (if i.ftp && again.ftpBuilds then Filled(true) else Empty)
            && Boot(d.disk, again).sftp == (if i.sftp && again.sftpBuilds then Filled(true) else Empty)
  {
    RunAgrees(disk, luck, es);
  }

  /** When a flag is set, memory and disk end up in agreement exactly if they agreed and the flag already
      had its value, or the write succeeded, or disk happened to hold the result. */
  lemma FlagAgreement(d: Daemon, enabled: bool, write: bool)
    ensures var d' := SetFtpEnabled(d, enabled, write);
            d'.memory == d'.disk <==>
              if d.memory.ftpEnabled == enabled then d.memory == d.disk
              else write || d.disk == d.memory.(ftpEnabled := enabled)
    ensures var d' := SetSftpEnabled(d, enabled, write);
            d'.memory == d'.disk <==>
              if d.memory.sftpEnabled == enabled then d.memory == d.disk
              else write || d.disk == d.memory.(sftpEnabled := enabled)
  {
  }

  /** A Start reports success exactly if each of its slots was filled or could be; it then leaves a service
      running exactly if the slot did not hold a server whose listener had left.  A Restart that reports
      success leaves its services running.  Neither touches the other service. */
  lemma StartRunsExactly(d: Daemon, which: Which, luck: Luck)
    ensures var (d', ok) := Handle(d, Start(which), luck);
            && (ok <==> (which.OnlySftp? || d'.ftp.Filled?) && (which.OnlyFtp? || d'.sftp.Filled?))
            && (if which.OnlySftp? then d'.ftp == d.ftp else d'.ftp.Filled? ==> (IsRunning(d'.ftp) <==> d.ftp != Filled(false)))
            && (if which.OnlyFtp? then d'.sftp == d.sftp else d'.sftp.Filled? ==> (IsRunning(d'.sftp) <==> d.sftp != Filled(false)))
    ensures var (d', ok) := Handle(d, Restart(which), luck);
            && (ok <==> (which.OnlySftp? || IsRunning(d'.ftp)) && (which.OnlyFtp? || IsRunning(d'.sftp)))
            && (which.OnlySftp? ==> d'.ftp == d.ftp) && (which.OnlyFtp? ==> d'.sftp == d.sftp)
            && d'.memory == d.memory && d'.disk == d.disk
  {
  }

  /** Nothing runs against the intent. */
  ghost predicate AsIntended(d: Daemon, i: Intent) {
    Agrees(d, i) && (IsRunning(d.ftp) ==> i.ftp) && (IsRunning(d.sftp) ==> i.sftp)
  }

  lemma StepAsIntended(d: Daemon, i: Intent, e: Event)
    requires AsIntended(d, i) && Lucky([e]) && (e.Call? ==> !e.rpc.Restart?)
    ensures AsIntended(Step(d, e), IntentAfter(i, e))
  {
    StepAgrees(d, i, e);
  }

  /** After a run without Restart requests and with successful writes, no service runs against the
      intent, whatever left or failed to start on the way. */
  lemma {:induction false} RunsOnlyIfIntended(disk: Config, luck: Luck, es: seq<Event>)
    requires Lucky(es)
    requires forall e :: e in es && e.Call? ==> !e.rpc.Restart?
    ensures AsIntended(Run(Boot(disk, luck), es), LastIntent(Intent(disk.ftpEnabled, disk.sftpEnabled), es))
    decreases |es|
  {
    if es != [] {
      var n := |es| - 1;
      assert forall e :: e in es[..n] ==> e in es;
      RunsOnlyIfIntended(disk, luck, es[..n]);
      assert es[n] in es;
      StepAsIntended(Run(Boot(disk, luck), es[..n]), LastIntent(Intent(disk.ftpEnabled, disk.sftpEnabled), es[..n]), es[n]);
    }
  }

  // ---- Writes that fail ----

  /** What an event does to the configuration, one write at a time. */
  datatype Change =
    | FlipFtp(enabled: bool, ok: bool)
    | FlipSftp(enabled: bool, ok: bool)
    | Replace(config: Config, ok: bool, read: bool)
    | Relog(logging: Logging, ok: bool)
    | Reload

  datatype Copies = Copies(memory: Config, disk: Config)

  function CopiesOf(d: Daemon): Copies {
    Copies(d.memory, d.disk)
  }

  function Changes(e: Event): seq<Change> {
    match e
    case Call(Start(which), luck) => Flips(which, true, luck)
    case Call(Stop(which), luck) => Flips(which, false, luck)
    case Call(Restart(_), _) => []
    case Call(SaveConfig(config, valid), luck) => if valid then [Replace(config, luck.write, luck.readBack)] else []
    case Call(SaveLogConfig(logging), luck) => [Relog(logging, luck.write)]
    case FtpExits => []
    case SftpExits => []
    case Reboot(_) => [Reload]
  }

  function Flips(which: Which, enabled: bool, luck: Luck): seq<Change> {
    match which
    case OnlyFtp => [FlipFtp(enabled, luck.write)]
    case OnlySftp => [FlipSftp(enabled, luck.write)]
    case All => [FlipFtp(enabled, luck.write), FlipSftp(enabled, luck.write2)]
  }

  /** The configuration a change is after. */
  function Wanted(memory: Config, c: Change): Config {
    match c
    case FlipFtp(enabled, _) => memory.(ftpEnabled := enabled)
    case FlipSftp(enabled, _) => memory.(sftpEnabled := enabled)
    case Replace(config, _, _) => config
    case Relog(logging, _) => memory.(logging := logging.(json := memory.logging.json))
    case Reload => memory
  }

  /** How a change turns out.  Nothing happens to a flag that has its value already, nor to a configuration
      whose file cannot be written; a lost write leaves memory changed and disk not; an unread one leaves
      disk changed and memory not. */
  datatype Outcome = Nothing | Settled | Lost | Unread

  function OutcomeOf(memory: Config, c: Change): Outcome {
    match c
    case FlipFtp(enabled, ok) => if memory.ftpEnabled == enabled then Nothing else if ok then Settled else Lost
    case FlipSftp(enabled, ok) => if memory.sftpEnabled == enabled then Nothing else if ok then Settled else Lost
    case Replace(_, ok, read) => if !ok then Nothing else if read then Settled else Unread
    case Relog(_, ok) => if ok then Settled else Lost
    case Reload => Settled
  }

  function Changed(s: Copies, c: Change): Copies {
    if c.Reload? then Copies(s.disk, s.disk)
    else
      match OutcomeOf(s.memory, c)
      case Nothing => s
      case Settled => Copies(Wanted(s.memory, c), Wanted(s.memory, c))
      case Lost => s.(memory := Wanted(s.memory, c))
      case Unread => s.(disk := Wanted(s.memory, c))
  }

  function ChangedBy(s: Copies, cs: seq<Change>): Copies {
    if cs == [] then s else Changed(ChangedBy(s, cs[..|cs| - 1]), cs[|cs| - 1])
  }

  function AllChanges(es: seq<Event>): seq<Change> {
    if es == [] then [] else AllChanges(es[..|es| - 1]) + Changes(es[|es| - 1])
  }

  lemma {:induction false} ChangedByAppend(s: Copies, a: seq<Change>, b: seq<Change>)
    ensures ChangedBy(s, a + b) == ChangedBy(ChangedBy(s, a), b)
    decreases |b|
  {
    if b == [] {
      assert a + b == a;
    } else {
      assert (a + b)[..|a + b| - 1] == a + b[..|b| - 1];
      ChangedByAppend(s, a, b[..|b| - 1]);
    }
  }

  lemma StepChanges(d: Daemon, e: Event)
    ensures CopiesOf(Step(d, e)) == ChangedBy(CopiesOf(d), Changes(e))
  {
    var s, cs := CopiesOf(d), Changes(e);
    if |cs| > 0 {
      assert [cs[0]][..0] == [];
      assert ChangedBy(s, [cs[0]]) == Changed(s, cs[0]);
      assert cs == if |cs| == 1 then [cs[0]] else [cs[0]] + [cs[1]];
      assert |cs| == 2 ==> cs[..1] == [cs[0]];
    }
  }

  /** The handlers touch the configuration as their changes say. */
  lemma {:induction false} RunChanges(d: Daemon, es: seq<Event>)
    ensures CopiesOf(Run(d, es)) == ChangedBy(CopiesOf(d), AllChanges(es))
    decreases |es|
  {
    if es != [] {
      var front, e := es[..|es| - 1], es[|es| - 1];
      RunChanges(d, front);
      StepChanges(Run(d, front), e);
      ChangedByAppend(CopiesOf(d), AllChanges(front), Changes(e));
    }
  }

  /** The last change that is not nothing comes right before this position; 0 if there is none. */
  function LastChange(s: Copies, cs: seq<Change>): (k: nat)
    ensures k <= |cs|
  {
    if cs == [] then 0
    else if OutcomeOf(ChangedBy(s, cs[..|cs| - 1]).memory, cs[|cs| - 1]) != Nothing then |cs|
    else LastChange(s, cs[..|cs| - 1])
  }

  lemma {:induction false} SinceLastChange(s: Copies, cs: seq<Change>)
    ensures ChangedBy(s, cs) == ChangedBy(s, cs[..LastChange(s, cs)])
    ensures var k := LastChange(s, cs); k > 0 ==> OutcomeOf(ChangedBy(s, cs[..k - 1]).memory, cs[k - 1]) != Nothing
    decreases |cs|
  {
    if LastChange(s, cs) == |cs| {
      assert cs[..|cs|] == cs;
    } else {
      var front, k := cs[..|cs| - 1], LastChange(s, cs);
      SinceLastChange(s, front);
      assert front[..k] == cs[..k];
      assert k > 0 ==> front[..k - 1] == cs[..k - 1];
    }
  }

  /** Whether memory and disk agree right after a change that did something. */
  predicate AgreesAfter(before: Copies, c: Change) {
    match OutcomeOf(before.memory, c)
    case Nothing => before.memory == before.disk
    case Settled => true
    case Lost => before.disk == Wanted(before.memory, c)
    case Unread => before.memory == Wanted(before.memory, c)
  }

  /** Exactly when memory and disk agree, whatever writes have failed: if nothing has happened to either
      since a boot, or the last change that was not nothing settled; failing that, only if what that change
      was after happens to be on disk (after a lost write) or in memory (after a failed read-back). */
  lemma AgreementExactly(boot: Config, luck: Luck, es: seq<Event>)
    ensures var d, cs, s := Run(Boot(boot, luck), es), AllChanges(es), Copies(boot, boot);
            var k := LastChange(s, cs);
            d.memory == d.disk <==> k == 0 || AgreesAfter(ChangedBy(s, cs[..k - 1]), cs[k - 1])
  {
    var cs, s := AllChanges(es), Copies(boot, boot);
    var k := LastChange(s, cs);
    RunChanges(Boot(boot, luck), es);
    SinceLastChange(s, cs);
    if k > 0 {
      assert cs[..k][..k - 1] == cs[..k - 1];
    }
  }

  /** A change puts something on disk. */
  predicate Writes(memory: Config, c: Change) {
    !c.Reload? && (OutcomeOf(memory, c) == Settled || OutcomeOf(memory, c) == Unread)
  }

  /** What was last put on disk. */
  function LastWritten(s: Copies, cs: seq<Change>): Config {
    if cs == [] then s.disk
    else
      var before, c := ChangedBy(s, cs[..|cs| - 1]), cs[|cs| - 1];
      if Writes(before.memory, c) then Wanted(before.memory, c) else LastWritten(s, cs[..|cs| - 1])
  }

  lemma {:induction false} DiskIsLastWritten(s: Copies, cs: seq<Change>)
    ensures ChangedBy(s, cs).disk == LastWritten(s, cs)
    decreases |cs|
  {
    if cs != [] {
      DiskIsLastWritten(s, cs[..|cs| - 1]);
    }
  }

  /** Whatever writes have failed, a boot starts exactly the services that the last configuration written
      enables, as far as they can be built. */
  lemma BootFollowsLastWrite(boot: Config, luck: Luck, es: seq<Event>, again: Luck)
    ensures var d := Step(Run(Boot(boot, luck), es), Reboot(again));
            var c := LastWritten(Copies(boot, boot), AllChanges(es));
            && d.memory == d.disk == c
            && d.ftp == (if c.ftpEnabled && again.ftpBuilds then Filled(true) else Empty)
            && d.sftp == (if c.sftpEnabled && again.sftpBuilds then Filled(true) else Empty)
  {
    RunChanges(Boot(boot, luck), es);
    DiskIsLastWritten(Copies(boot, boot), AllChanges(es));
  }

  // ---- Until the next write ----

  predicate FlipsOnDisk(memory: Config, which: Which, enabled: bool, luck: Luck) {
    match which
    case OnlyFtp => memory.ftpEnabled != enabled && luck.write
    case OnlySftp => memory.sftpEnabled != enabled && luck.write
    case All => (memory.ftpEnabled != enabled && luck.write) || (memory.sftpEnabled != enabled && luck.write2)
  }

  /** The events that put something on disk: a Start or Stop that changes a flag in memory, and a valid
      configuration or logging section to be saved, if the write succeeds. */
  predicate PutsOnDisk(d: Daemon, e: Event) {
    e.Call? &&
      match e.rpc
      case Start(which) => FlipsOnDisk(d.memory, which, true, e.luck)
      case Stop(which) => FlipsOnDisk(d.memory, which, false, e.luck)
      case Restart(_) => false
      case SaveConfig(_, valid) => valid && e.luck.write
      case SaveLogConfig(_) => e.luck.write
  }

  lemma DiskStep(d: Daemon, e: Event)
    requires !PutsOnDisk(d, e)
    ensures Step(d, e).disk == d.disk
  {
  }

  /** What is on disk stays there over every run in which no event puts something on disk, whatever else
      is asked, fails or leaves, and however often the daemon is restarted. */
  lemma {:induction false} DiskWaits(d: Daemon, es: seq<Event>)
    requires forall i :: 0 <= i < |es| ==> !PutsOnDisk(Run(d, es[..i]), es[i])
    ensures Run(d, es).disk == d.disk
    decreases |es|
  {
    if es != [] {
      var n := |es| - 1;
      forall i | 0 <= i < n
        ensures !PutsOnDisk(Run(d, es[..n][..i]), es[..n][i])
      {
        assert es[..n][..i] == es[..i];
      }
      DiskWaits(d, es[..n]);
      DiskStep(Run(d, es[..n]), es[n]);
    }
  }

  /** Asking for the service again, restarting services, and listeners that leave. */
  predicate AsksAgain(side: Side, e: Event) {
    e.FtpExits? || e.SftpExits? || (e.Call? && (e.rpc == Start(Only(side)) || e.rpc.Restart?))
  }

  /** A Start whose write is lost is not made good by asking again, however often and with whatever luck:
      the flag stays set in memory and the disk stays as it was. */
  lemma {:induction false} LostStartStays(d: Daemon, side: Side, luck: Luck, es: seq<Event>)
    requires !Flag(side, d.memory) && !luck.write
    requires forall e :: e in es ==> AsksAgain(side, e)
    ensures var d' := Run(Handle(d, Start(Only(side)), luck).0, es);
            Flag(side, d'.memory) && d'.disk == d.disk
    decreases |es|
  {
    if es != [] {
      var n := |es| - 1;
      assert forall e :: e in es[..n] ==> e in es;
      LostStartStays(d, side, luck, es[..n]);
      assert es[n] in es;
      DiskStep(Run(Handle(d, Start(Only(side)), luck).0, es[..n]), es[n]);
    }
  }

  /** The events that bring memory and disk together about a flag that is set in memory alone. */
  predicate Mends(d: Daemon, side: Side, e: Event) {
    match e
    case FtpExits => false
    case SftpExits => false
    case Reboot(_) => true
    case Call(Start(which), luck) =>
      && which != Only(side) && !Flag(Other(side), d.memory)
      && (if which.All? && side.FtpSide? then luck.write2 else luck.write)
    case Call(Stop(which), luck) =>
      if which == Only(Other(side)) then Flag(Other(side), d.memory) && luck.write
      else which.All? && side.SftpSide? && d.memory.ftpEnabled && luck.write ==> luck.write2
    case Call(Restart(_), _) => false
    case Call(SaveConfig(config, valid), luck) => valid && luck.write && (luck.readBack || Flag(side, config))
    case Call(SaveLogConfig(_), luck) => luck.write
  }

  /** Exactly which event ends it: a boot, which takes the old flag back; the service's own Stop, unless it is
      a Stop of all whose first write puts the flag on disk and whose second is lost; and every successful
      write about anything else, save that of a configuration with the flag off that cannot be read back. */
  lemma MendsExactly(d: Daemon, side: Side, e: Event)
    requires Flag(side, d.memory) && !Flag(side, d.disk)
    ensures Flag(side, Step(d, e).memory) == Flag(side, Step(d, e).disk) <==> Mends(d, side, e)
  {
  }
}
