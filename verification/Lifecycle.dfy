/** The service slots of the control plane are what serialised operations on listeners make of them.

ControlPlane takes each start, stop and restart as one step on a slot that is empty or holds a server,
alive or not.  Here every run of the small steps of Listeners is shown to come out as those steps say. */
module Lifecycle {
  import opened Options
  import opened Listeners
  import C = ControlPlane

  /** A slot as the control plane sees it. */
  function ServiceOf(st: State): C.Service {
    if st.slot.None? then C.Empty else C.Filled(Live(st, st.slot.value))
  }

  /** The same service, unless its listener has left in the meantime. */
  predicate SameOrLeft(now: C.Service, before: C.Service) {
    now == before || (before == C.Filled(true) && now == C.Filled(false))
  }

  datatype Operation = Starting | Stopping | Restarting

  function BeginOf(o: Operation, op: nat): Action {
    match o
    case Starting => BeginStart(op)
    case Stopping => BeginStop(op)
    case Restarting => BeginRestart(op)
  }

  /** What the control plane says of an operation. */
  function ResultOf(o: Operation, s: C.Service, builds: bool): C.Service {
    match o
    case Starting => C.Started(s, builds)
    case Stopping => C.Empty
    case Restarting => C.Started(C.Empty, builds)
  }

  predicate Built(actions: seq<Action>) {
    forall a :: a in actions ==> !a.FailStart?
  }

  /** A serialised run from a truthful state. */
  ghost predicate Serial(p: Protocol, states: seq<State>, actions: seq<Action>) {
    && |states| == |actions| + 1 && Truthful(states[0])
    && forall i :: 0 <= i < |actions| ==>
         Enabled(p, states[i], actions[i]) && Serialised(states[i], actions[i]) && states[i + 1] == Apply(p, states[i], actions[i])
  }

  /** One operation from its beginning to its end, with whatever happens in between. */
  ghost predicate Episode(p: Protocol, o: Operation, states: seq<State>, actions: seq<Action>) {
    && Serial(p, states, actions) && actions != []
    && states[0].ops == map[] && states[|actions|].ops == map[]
    && (exists op :: actions[0] == BeginOf(o, op))
    && forall i :: 0 < i < |actions| ==> states[i].ops != map[]
  }

  lemma {:induction false} SerialTruthful(p: Protocol, states: seq<State>, actions: seq<Action>, k: nat)
    requires Serial(p, states, actions) && k <= |actions|
    ensures Truthful(states[k])
    decreases k
  {
    if k > 0 {
      SerialTruthful(p, states, actions, k - 1);
      StepTruthful(p, states[k - 1], actions[k - 1]);
    }
  }

  // ---- Where an operation stands ----

  /** The slot as the operation found it, or emptied by it. */
  ghost predicate Midway(o: Operation, s: C.Service, next: nat, st: State, pc: Pc) {
    match pc
    case CheckSlot =>
      && !o.Stopping? && st.next == next
      && if o.Starting? then SameOrLeft(ServiceOf(st), s) else st.slot.None?
    case Take(again) => again == o.Restarting? && !o.Starting? && st.next == next && SameOrLeft(ServiceOf(st), s)
    case Arm(n) => Filling(o, s, next, st, n)
    case Spawn(n) => Filling(o, s, next, st, n)
    case Store(n) => Filling(o, s, next, st, n)
    case Signal(_, again) => Emptied(o, next, st, again)
    case Await(_, again) => Emptied(o, next, st, again)
    case Finish(_, again) => Emptied(o, next, st, again)
  }

  ghost predicate Filling(o: Operation, s: C.Service, next: nat, st: State, n: nat) {
    !o.Stopping? && (o.Starting? ==> s.Empty?) && st.slot.None? && n == next
  }

  ghost predicate Emptied(o: Operation, next: nat, st: State, again: bool) {
    !o.Starting? && again == o.Restarting? && st.slot.None? && st.next == next
  }

  /** The slot as the operation leaves it. */
  ghost predicate Done(o: Operation, s: C.Service, next: nat, st: State, builds: bool) {
    && SameOrLeft(ServiceOf(st), ResultOf(o, s, builds))
    && (builds && (o.Restarting? || (o.Starting? && s.Empty?)) ==> st.slot == Some(next))
  }

  ghost predicate Stage(o: Operation, s: C.Service, next: nat, st: State, op: nat, builds: bool) {
    if st.ops == map[] then Done(o, s, next, st, builds)
    else op in st.ops && st.ops == map[op := st.ops[op]] && builds && Midway(o, s, next, st, st.ops[op])
  }

  lemma BeginStage(p: Protocol, o: Operation, st: State, op: nat)
    requires st.ops == map[]
    ensures Stage(o, ServiceOf(st), st.next, Apply(p, st, BeginOf(o, op)), op, true)
  {
    assert op in Apply(p, st, BeginOf(o, op)).ops;
  }

  lemma ExitStage(p: Protocol, o: Operation, s: C.Service, next: nat, st: State, op: nat, x: nat)
    requires Stage(o, s, next, st, op, true) && st.ops != map[] && Enabled(p, st, Exit(x))
    ensures Stage(o, s, next, Apply(p, st, Exit(x)), op, true)
  {
  }

  lemma FailStage(p: Protocol, o: Operation, s: C.Service, next: nat, st: State, op: nat, who: nat)
    requires Stage(o, s, next, st, op, true) && st.ops != map[] && Enabled(p, st, FailStart(who))
    ensures Stage(o, s, next, Apply(p, st, FailStart(who)), op, false)
  {
    assert who == op;
    assert Apply(p, st, FailStart(who)).ops == map[];
  }

  lemma AdvanceStage(p: Protocol, o: Operation, s: C.Service, next: nat, st: State, op: nat)
    requires Stage(o, s, next, st, op, true) && st.ops != map[] && Enabled(p, st, Advance(op))
    ensures Stage(o, s, next, Advanced(p, st, op), op, true)
  {
    var st' := Advanced(p, st, op);
    assert st'.ops == (if op in st'.ops then map[op := st'.ops[op]] else map[]);
  }

  lemma {:induction false} EpisodeStages(p: Protocol, o: Operation, states: seq<State>, actions: seq<Action>, op: nat, k: nat)
    requires Episode(p, o, states, actions) && actions[0] == BeginOf(o, op) && 0 < k <= |actions|
    ensures Stage(o, ServiceOf(states[0]), states[0].next, states[k], op, Built(actions[..k]))
    decreases k
  {
    var s, next := ServiceOf(states[0]), states[0].next;
    if k == 1 {
      BeginStage(p, o, states[0], op);
      assert Built(actions[..1]);
    } else {
      EpisodeStages(p, o, states, actions, op, k - 1);
      var a := actions[k - 1];
      assert actions[..k] == actions[..k - 1] + [a];
      assert a in actions[..k];
      match a
      case Exit(x) => ExitStage(p, o, s, next, states[k - 1], op, x);
      case FailStart(who) => FailStage(p, o, s, next, states[k - 1], op, who);
      case Advance(who) =>
        assert who == op;
        AdvanceStage(p, o, s, next, states[k - 1], op);
      case _ =>
    }
  }

  // ---- Operations ----

  /** Every serialised operation of either protocol comes out as the control plane says, whatever leaves in
      between: the slot afterwards is the one its big step gives, except that the listener in it may have
      left since; and the status reported is whether that listener lives. */
  lemma OperationRefines(p: Protocol, o: Operation, states: seq<State>, actions: seq<Action>)
    requires Episode(p, o, states, actions)
    ensures var before, after := states[0], states[|actions|];
            && SameOrLeft(ServiceOf(after), ResultOf(o, ServiceOf(before), Built(actions)))
            && (C.IsRunning(ServiceOf(after)) <==> IsRunning(after))
            && Truthful(after)
  {
    var op :| actions[0] == BeginOf(o, op);
    assert actions[..|actions|] == actions;
    EpisodeStages(p, o, states, actions, op, |actions|);
    SerialTruthful(p, states, actions, |actions|);
  }

  /** Every stop, once over, leaves an empty slot and no live listener. */
  lemma StopEmptiesSlot(p: Protocol, states: seq<State>, actions: seq<Action>)
    requires Episode(p, Stopping, states, actions)
    ensures states[|actions|].slot.None? && forall s: nat :: !Live(states[|actions|], s)
  {
    OperationRefines(p, Stopping, states, actions);
    forall s: nat
      ensures !Live(states[|actions|], s)
    {
      assert s in states[|actions|].servers ==> ServerTruthful(states[|actions|], s);
    }
  }

  /** Every start on an empty slot, and every restart, fills it with the new server unless it fails. */
  lemma StartFillsSlot(p: Protocol, o: Operation, states: seq<State>, actions: seq<Action>)
    requires Episode(p, o, states, actions) && (o.Restarting? || (o.Starting? && states[0].slot.None?))
    ensures states[|actions|].slot == if Built(actions) then Some(states[0].next) else None
  {
    var op :| actions[0] == BeginOf(o, op);
    assert actions[..|actions|] == actions;
    EpisodeStages(p, o, states, actions, op, |actions|);
  }

  /** The server in the slot, and the one a start is about to store, has its sender; so has the one a stop
      is about to tell. */
  ghost predicate Armed(st: State) {
    && (st.slot.Some? ==> st.slot.value in st.servers && st.servers[st.slot.value].sender)
    && forall op :: op in st.ops && (st.ops[op].Spawn? || st.ops[op].Store? || st.ops[op].Signal?) ==>
         st.ops[op].server in st.servers && st.servers[st.ops[op].server].sender
  }

  lemma AdvanceArmed(p: Protocol, st: State, op: nat)
    requires Truthful(st) && Armed(st) && Enabled(p, st, Advance(op))
    ensures Armed(Advanced(p, st, op))
  {
    assert OpTruthful(st, op);
    var st' := Advanced(p, st, op);
    assert st'.ops == (if op in st'.ops then map[op := st'.ops[op]] else map[]);
  }

  lemma StepArmed(p: Protocol, st: State, a: Action)
    requires Truthful(st) && Armed(st) && Enabled(p, st, a) && Serialised(st, a)
    ensures Armed(Apply(p, st, a))
  {
    match a
    case Advance(op) => AdvanceArmed(p, st, op);
    case FailStart(op) => assert OpTruthful(st, op);
    case _ =>
  }

  /** In every serialised run the slot's server has its sender, so it can be told. */
  lemma {:induction false} SerialArmed(p: Protocol, states: seq<State>, actions: seq<Action>, k: nat)
    requires Serial(p, states, actions) && Armed(states[0]) && k <= |actions|
    ensures Armed(states[k])
    decreases k
  {
    if k > 0 {
      SerialArmed(p, states, actions, k - 1);
      SerialTruthful(p, states, actions, k - 1);
      StepArmed(p, states[k - 1], actions[k - 1]);
    }
  }

  /** Where a stop, or the first half of a restart, stands with the server it found in the slot: before the
      signal the server has its sender, from the signal on it has been told and its sender is gone. */
  ghost predicate Telling(st: State, op: nat, s: nat) {
    && s in st.servers
    && if op in st.ops && st.ops[op].Take? then st.slot == Some(s) && st.servers[s].sender
       else if op in st.ops && st.ops[op].Signal? then st.ops[op].server == s && st.servers[s].sender
       else
         && st.servers[s].told && !st.servers[s].sender
         && (op in st.ops && (st.ops[op].Arm? || st.ops[op].Spawn? || st.ops[op].Store?) ==> st.ops[op].server != s)
  }

  lemma AdvanceTelling(p: Protocol, st: State, op: nat, s: nat)
    requires Truthful(st) && Telling(st, op, s) && op in st.ops && Enabled(p, st, Advance(op))
    ensures Telling(Advanced(p, st, op), op, s)
  {
    assert ServerTruthful(st, s) && OpTruthful(st, op);
  }

  lemma StepTelling(p: Protocol, st: State, a: Action, op: nat, s: nat)
    requires Truthful(st) && Telling(st, op, s) && op in st.ops && st.ops == map[op := st.ops[op]]
    requires Enabled(p, st, a) && Serialised(st, a)
    ensures Telling(Apply(p, st, a), op, s)
  {
    match a
    case Advance(who) =>
      assert who == op;
      AdvanceTelling(p, st, op, s);
    case FailStart(who) => assert who == op;
    case _ =>
  }

  lemma {:induction false} EpisodeTelling(p: Protocol, o: Operation, states: seq<State>, actions: seq<Action>, op: nat, s: nat, k: nat)
    requires Episode(p, o, states, actions) && actions[0] == BeginOf(o, op) && !o.Starting? && 0 < k <= |actions|
    requires states[0].slot == Some(s) && Armed(states[0])
    ensures Telling(states[k], op, s)
    decreases k
  {
    if k > 1 {
      EpisodeTelling(p, o, states, actions, op, s, k - 1);
      EpisodeStages(p, o, states, actions, op, k - 1);
      SerialTruthful(p, states, actions, k - 1);
      StepTelling(p, states[k - 1], actions[k - 1], op, s);
    }
  }

  /** Every stop, and every restart, of either protocol tells the server it found in the slot to shut down, and
      takes its sender away. */
  lemma StopTells(p: Protocol, o: Operation, states: seq<State>, actions: seq<Action>, s: nat)
    requires Episode(p, o, states, actions) && !o.Starting?
    requires states[0].slot == Some(s) && Armed(states[0])
    ensures s in states[|actions|].servers && states[|actions|].servers[s].told && !states[|actions|].servers[s].sender
  {
    var op :| actions[0] == BeginOf(o, op);
    EpisodeTelling(p, o, states, actions, op, s, |actions|);
  }

  /** At rest a listener that leaves changes nothing but its own life. */
  lemma ExitSameOrLeft(p: Protocol, st: State, s: nat)
    requires Enabled(p, st, Exit(s))
    ensures SameOrLeft(ServiceOf(Apply(p, st, Exit(s))), ServiceOf(st))
  {
  }

  /** Applying the enabled flags: the status is read, and later, when the listener may have left, the
      operation it calls for is run.  The outcome is what the control plane says of the slot as it was read. */
  lemma AppliedRefines(p: Protocol, read: State, enabled: bool, states: seq<State>, actions: seq<Action>)
    requires Truthful(read) && read.ops == map[]
    requires states != [] && Truthful(states[0]) && SameOrLeft(ServiceOf(states[0]), ServiceOf(read))
    requires if enabled && !IsRunning(read) then Episode(p, Starting, states, actions)
             else if !enabled && IsRunning(read) then Episode(p, Stopping, states, actions)
             else actions == [] && |states| == 1
    ensures SameOrLeft(ServiceOf(states[|actions|]), C.Applied(ServiceOf(read), enabled, Built(actions)))
  {
    if enabled && !IsRunning(read) {
      OperationRefines(p, Starting, states, actions);
    } else if !enabled && IsRunning(read) {
      OperationRefines(p, Stopping, states, actions);
    }
  }

  // ---- Whole runs ----

  /** What happens to one service: an operation comes out, or its listener leaves. */
  datatype Happening = Comes(o: Operation, builds: bool) | Leaves

  function Becomes(s: C.Service, h: Happening): C.Service {
    match h
    case Comes(o, builds) => ResultOf(o, s, builds)
    case Leaves => if s.Filled? then C.Filled(false) else s
  }

  function BecomesBy(s: C.Service, hs: seq<Happening>): C.Service {
    if hs == [] then s else Becomes(BecomesBy(s, hs[..|hs| - 1]), hs[|hs| - 1])
  }

  /** The operations among what happens, in order. */
  function Outcomes(hs: seq<Happening>): seq<Happening> {
    if hs == [] then []
    else Outcomes(hs[..|hs| - 1]) + if hs[|hs| - 1].Comes? then [hs[|hs| - 1]] else []
  }

  lemma HappensLast(s: C.Service, hs: seq<Happening>, h: Happening)
    ensures BecomesBy(s, hs + [h]) == Becomes(BecomesBy(s, hs), h)
    ensures Outcomes(hs + [h]) == Outcomes(hs) + if h.Comes? then [h] else []
  {
    assert (hs + [h])[..|hs|] == hs;
  }

  /** The operations begun, each with whether it has not failed. */
  function Begins(begun: seq<Happening>, a: Action): seq<Happening> {
    match a
    case BeginStart(_) => begun + [Comes(Starting, true)]
    case BeginStop(_) => begun + [Comes(Stopping, true)]
    case BeginRestart(_) => begun + [Comes(Restarting, true)]
    case FailStart(_) =>
      if begun != [] && begun[|begun| - 1].Comes? then begun[..|begun| - 1] + [begun[|begun| - 1].(builds := false)] else begun
    case _ => begun
  }

  function Begun(actions: seq<Action>): seq<Happening> {
    if actions == [] then [] else Begins(Begun(actions[..|actions| - 1]), actions[|actions| - 1])
  }

  /** The operation that is under way. */
  datatype Underway = Underway(o: Operation, op: nat, next: nat)

  /** At rest, the slot is what has become of the first one, and what came out is what was begun; in between,
      one more operation has begun and stands where it should. */
  ghost predicate Tracks(s: C.Service, st: State, begun: seq<Happening>, hs: seq<Happening>, u: Underway) {
    if st.ops == map[] then ServiceOf(st) == BecomesBy(s, hs) && Outcomes(hs) == begun
    else begun == Outcomes(hs) + [Comes(u.o, true)] && Stage(u.o, BecomesBy(s, hs), u.next, st, u.op, true)
  }

  /** What has come out so far, and that the listener may have left since. */
  lemma ComesOut(s: C.Service, hs: seq<Happening>, h: Happening, now: C.Service) returns (hs': seq<Happening>)
    requires SameOrLeft(now, Becomes(BecomesBy(s, hs), h))
    ensures hs <= hs' && BecomesBy(s, hs') == now && Outcomes(hs') == Outcomes(hs) + if h.Comes? then [h] else []
  {
    hs' := hs + [h];
    HappensLast(s, hs, h);
    if now != BecomesBy(s, hs') {
      HappensLast(s, hs', Leaves);
      hs' := hs' + [Leaves];
    }
  }

  lemma RestTracks(p: Protocol, s: C.Service, st: State, a: Action, begun: seq<Happening>, hs: seq<Happening>, u: Underway)
    returns (hs': seq<Happening>, u': Underway)
    requires Tracks(s, st, begun, hs, u) && st.ops == map[] && Enabled(p, st, a) && Serialised(st, a)
    ensures hs <= hs' && Tracks(s, Apply(p, st, a), Begins(begun, a), hs', u')
  {
    hs', u' := hs, u;
    match a
    case BeginStart(op) =>
      u' := Underway(Starting, op, st.next);
      BeginStage(p, Starting, st, op);
    case BeginStop(op) =>
      u' := Underway(Stopping, op, st.next);
      BeginStage(p, Stopping, st, op);
    case BeginRestart(op) =>
      u' := Underway(Restarting, op, st.next);
      BeginStage(p, Restarting, st, op);
    case Exit(x) =>
      ExitSameOrLeft(p, st, x);
      if ServiceOf(Apply(p, st, a)) != ServiceOf(st) {
        HappensLast(s, hs, Leaves);
        hs' := hs + [Leaves];
      }
  }

  lemma UnderwayTracks(p: Protocol, s: C.Service, st: State, a: Action, begun: seq<Happening>, hs: seq<Happening>, u: Underway)
    returns (hs': seq<Happening>)
    requires Tracks(s, st, begun, hs, u) && st.ops != map[] && Enabled(p, st, a) && Serialised(st, a)
    ensures hs <= hs' && Tracks(s, Apply(p, st, a), Begins(begun, a), hs', u)
  {
    var now := BecomesBy(s, hs);
    hs' := hs;
    match a
    case Exit(x) => ExitStage(p, u.o, now, u.next, st, u.op, x);
    case FailStart(who) =>
      FailStage(p, u.o, now, u.next, st, u.op, who);
      FailRests(p, st, u.op, who);
      hs' := ComesOut(s, hs, Comes(u.o, false), ServiceOf(Apply(p, st, a)));
    case Advance(who) =>
      assert who == u.op;
      AdvanceStage(p, u.o, now, u.next, st, u.op);
      if Apply(p, st, a).ops == map[] {
        hs' := ComesOut(s, hs, Comes(u.o, true), ServiceOf(Apply(p, st, a)));
      }
    case _ =>
  }

  lemma FailRests(p: Protocol, st: State, op: nat, who: nat)
    requires op in st.ops && st.ops == map[op := st.ops[op]] && Enabled(p, st, FailStart(who))
    ensures Apply(p, st, FailStart(who)).ops == map[]
  {
  }

  /** Where the happenings up to each state end; they only grow. */
  ghost predicate Chronicle(s: C.Service, states: seq<State>, actions: seq<Action>, hs: seq<Happening>, at: seq<nat>, k: nat) {
    && |at| == k + 1 <= |states| == |actions| + 1 && at[k] == |hs|
    && (forall i, j :: 0 <= i <= j <= k ==> at[i] <= at[j])
    && (forall i :: 0 <= i <= k && states[i].ops == map[] ==>
          at[i] <= |hs| && BecomesBy(s, hs[..at[i]]) == ServiceOf(states[i]) && Outcomes(hs[..at[i]]) == Begun(actions[..i]))
  }

  lemma ChronicleGrows(s: C.Service, states: seq<State>, actions: seq<Action>, hs: seq<Happening>, at: seq<nat>, k: nat, hs': seq<Happening>)
    requires Chronicle(s, states, actions, hs, at, k) && k < |actions| && hs <= hs'
    requires states[k + 1].ops == map[] ==>
               BecomesBy(s, hs') == ServiceOf(states[k + 1]) && Outcomes(hs') == Begun(actions[..k + 1])
    ensures Chronicle(s, states, actions, hs', at + [|hs'|], k + 1)
  {
    var at' := at + [|hs'|];
    forall i | 0 <= i <= k + 1 && states[i].ops == map[]
      ensures at'[i] <= |hs'| && BecomesBy(s, hs'[..at'[i]]) == ServiceOf(states[i])
      ensures Outcomes(hs'[..at'[i]]) == Begun(actions[..i])
    {
      if i <= k {
        assert at'[i] == at[i] <= |hs| && hs'[..at[i]] == hs[..at[i]];
      } else {
        assert hs'[..|hs'|] == hs';
      }
    }
  }

  lemma {:induction false} RunTracks(p: Protocol, states: seq<State>, actions: seq<Action>, k: nat)
    returns (hs: seq<Happening>, at: seq<nat>, u: Underway)
    requires Serial(p, states, actions) && states[0].ops == map[] && k <= |actions|
    ensures Chronicle(ServiceOf(states[0]), states, actions, hs, at, k)
    ensures Tracks(ServiceOf(states[0]), states[k], Begun(actions[..k]), hs, u)
    decreases k
  {
    var s := ServiceOf(states[0]);
    if k == 0 {
      hs, at, u := [], [0], Underway(Starting, 0, 0);
      assert actions[..0] == [] && hs[..0] == [];
    } else {
      hs, at, u := RunTracks(p, states, actions, k - 1);
      var before := hs;
      if states[k - 1].ops == map[] {
        hs, u := RestTracks(p, s, states[k - 1], actions[k - 1], Begun(actions[..k - 1]), hs, u);
      } else {
        hs := UnderwayTracks(p, s, states[k - 1], actions[k - 1], Begun(actions[..k - 1]), hs, u);
      }
      assert actions[..k][..k - 1] == actions[..k - 1];
      ChronicleGrows(s, states, actions, before, at, k - 1, hs);
      at := at + [|hs|];
    }
  }

  // ---- In the control plane's own events ----

  function SlotOf(p: Protocol, d: C.Daemon): C.Service {
    if p.Ftp? then d.ftp else d.sftp
  }

  function WhichOf(p: Protocol): C.Which {
    if p.Ftp? then C.OnlyFtp else C.OnlySftp
  }

  /** The event that stands for what happens. */
  function EventOf(p: Protocol, h: Happening, luck: C.Luck): C.Event {
    match h
    case Leaves => if p.Ftp? then C.FtpExits else C.SftpExits
    case Comes(o, builds) =>
      var l := luck.(ftpBuilds := builds, sftpBuilds := builds);
      match o
      case Starting => C.Call(C.Start(WhichOf(p)), l)
      case Stopping => C.Call(C.Stop(WhichOf(p)), l)
      case Restarting => C.Call(C.Restart(WhichOf(p)), l)
  }

  function EventsOf(p: Protocol, hs: seq<Happening>, luck: C.Luck): seq<C.Event> {
    if hs == [] then [] else EventsOf(p, hs[..|hs| - 1], luck) + [EventOf(p, hs[|hs| - 1], luck)]
  }

  lemma EventDoesTheSame(p: Protocol, d: C.Daemon, h: Happening, luck: C.Luck)
    ensures SlotOf(p, C.Step(d, EventOf(p, h, luck))) == Becomes(SlotOf(p, d), h)
  {
    if h.Comes? {
      match h.o
      case Starting =>
      case Stopping =>
      case Restarting =>
    }
  }

  lemma {:induction false} EventsDoTheSame(p: Protocol, d: C.Daemon, hs: seq<Happening>, luck: C.Luck)
    ensures SlotOf(p, C.Run(d, EventsOf(p, hs, luck))) == BecomesBy(SlotOf(p, d), hs)
    decreases |hs|
  {
    if hs != [] {
      var front, e := EventsOf(p, hs[..|hs| - 1], luck), EventOf(p, hs[|hs| - 1], luck);
      EventsDoTheSame(p, d, hs[..|hs| - 1], luck);
      EventDoesTheSame(p, C.Run(d, front), hs[|hs| - 1], luck);
      assert (front + [e])[..|front|] == front;
    }
  }

  /** Every serialised run of either protocol refines the control plane: there is a sequence of its requests,
      which are the operations begun and fail as they do, and of listeners leaving, such that at every rest
      point the slot is what the control plane has after a longer and longer part of that sequence. */
  lemma RunRefines(p: Protocol, states: seq<State>, actions: seq<Action>, d: C.Daemon, luck: C.Luck)
    returns (hs: seq<Happening>, at: seq<nat>)
    requires Serial(p, states, actions) && states[0].ops == map[] && SlotOf(p, d) == ServiceOf(states[0])
    ensures |at| == |states| && forall i, j :: 0 <= i <= j < |at| ==> at[i] <= at[j] <= |hs|
    ensures forall i :: 0 <= i <= |actions| && states[i].ops == map[] ==>
              && Outcomes(hs[..at[i]]) == Begun(actions[..i])
              && SlotOf(p, C.Run(d, EventsOf(p, hs[..at[i]], luck))) == ServiceOf(states[i])
  {
    var u;
    hs, at, u := RunTracks(p, states, actions, |actions|);
    forall i | 0 <= i <= |actions| && states[i].ops == map[]
      ensures Outcomes(hs[..at[i]]) == Begun(actions[..i])
      ensures SlotOf(p, C.Run(d, EventsOf(p, hs[..at[i]], luck))) == ServiceOf(states[i])
    {
      EventsDoTheSame(p, d, hs[..at[i]], luck);
    }
  }
}
