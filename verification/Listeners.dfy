/** The life of the listeners behind a service slot: wftpd/src/state.rs over ftp/src/server.rs and
sftp/src/server.rs.

A server object spawns at most one listener, so both share a number.  A listener is told to shut down
when its sender fires or is dropped.  Dropping an FTP server object drops its sender; an SFTP listener
holds a clone of its server object, so dropping the object there changes nothing.  Operations run
concurrently and yield at every lock and every await. */
module Listeners {
  import opened Options

  datatype Protocol = Ftp | Sftp

  datatype Server = Server(
    sender: bool,   // the shutdown sender is in its place
    closed: bool,   // the receiver of the closed signal is in its place
    running: bool,  // the flag that status queries read
    spawned: bool,  // the listener exists
    told: bool,     // it has been told to shut down
    exited: bool)   // it has left

  /** Where an operation in flight stands.  `again` marks the stop of a restart. */
  datatype Pc =
    | CheckSlot
    | Arm(server: nat)
    | Spawn(server: nat)
    | Store(server: nat)
    | Take(again: bool)
    | Signal(server: nat, again: bool)
    | Await(server: nat, again: bool)
    | Finish(server: nat, again: bool)

  datatype State = State(slot: Option<nat>, servers: map<nat, Server>, ops: map<nat, Pc>, next: nat)

  const Initial: State := State(None, map[], map[], 0)

  /** What can happen next: an operation begins, advances, fails to start or is abandoned by its caller,
      or a listener leaves, told or not. */
  datatype Action =
    | BeginStart(op: nat)
    | BeginStop(op: nat)
    | BeginRestart(op: nat)
    | Advance(op: nat)
    | FailStart(op: nat)
    | Abandon(op: nat)
    | Exit(server: nat)

  predicate Holds(pc: Pc, s: nat) {
    !pc.CheckSlot? && !pc.Take? && pc.server == s
  }

  predicate Live(st: State, s: nat) {
    s in st.servers && st.servers[s].spawned && !st.servers[s].exited
  }

  /** A listener nobody has told to shut down. */
  predicate Untold(st: State, s: nat) {
    s in st.servers && st.servers[s].spawned && !st.servers[s].told
  }

  predicate Enabled(p: Protocol, st: State, a: Action) {
    match a
    case BeginStart(op) => op !in st.ops
    case BeginStop(op) => op !in st.ops
    case BeginRestart(op) => op !in st.ops
    case Advance(op) => op in st.ops && (!st.ops[op].CheckSlot? && !st.ops[op].Take? ==> st.ops[op].server in st.servers)
    case FailStart(op) =>
      // FTP fails when the server is built, SFTP before the channels are set up.
      op in st.ops && (if p.Ftp? then st.ops[op].Spawn? else st.ops[op].Arm?)
    case Abandon(op) => op in st.ops
    case Exit(s) => Live(st, s)
  }

  /** Letting go of a server object. */
  function Drop(p: Protocol, servers: map<nat, Server>, s: nat): map<nat, Server> {
    if p.Ftp? && s in servers && servers[s].sender
    then servers[s := servers[s].(sender := false, told := true)]
    else servers
  }

  function DropHeld(p: Protocol, servers: map<nat, Server>, pc: Pc): map<nat, Server> {
    if pc.CheckSlot? || pc.Take? then servers else Drop(p, servers, pc.server)
  }

  /** A finished stop is either over or goes on to start again. */
  function AfterStop(st: State, op: nat, again: bool): State {
    st.(ops := if again then st.ops[op := CheckSlot] else st.ops - {op})
  }

  function Advanced(p: Protocol, st: State, op: nat): State
    requires Enabled(p, st, Advance(op))
  {
    match st.ops[op]
    case CheckSlot =>
      if st.slot.Some? then st.(ops := st.ops - {op})
      else st.(servers := st.servers[st.next := Server(false, false, false, false, false, false)],
               ops := st.ops[op := Arm(st.next)], next := st.next + 1)
    case Arm(s) =>
      st.(servers := st.servers[s := st.servers[s].(sender := true, closed := true,
                                                    running := p.Sftp? || st.servers[s].running)],
          ops := st.ops[op := Spawn(s)])
    case Spawn(s) =>
      st.(servers := st.servers[s := st.servers[s].(running := true, spawned := true)],
          ops := st.ops[op := Store(s)])
    case Store(s) =>
      st.(servers := if st.slot.Some? then Drop(p, st.servers, st.slot.value) else st.servers,
          slot := Some(s), ops := st.ops - {op})
    case Take(again) =>
      if st.slot.None? then AfterStop(st, op, again)
      else st.(slot := None, ops := st.ops[op := Signal(st.slot.value, again)])
    case Signal(s, again) =>
      var v := st.servers[s];
      st.(servers := st.servers[s := v.(sender := false, told := v.told || v.sender, running := p.Ftp? && v.running)],
          ops := st.ops[op := Await(s, again)])
    case Await(s, again) =>
      st.(servers := st.servers[s := st.servers[s].(closed := false)], ops := st.ops[op := Finish(s, again)])
    case Finish(s, again) =>
      var servers := if p.Ftp? then st.servers[s := st.servers[s].(running := false)] else st.servers;
      AfterStop(st.(servers := Drop(p, servers, s)), op, again)
  }

  function Apply(p: Protocol, st: State, a: Action): State
    requires Enabled(p, st, a)
  {
    match a
    case BeginStart(op) => st.(ops := st.ops[op := CheckSlot])
    case BeginStop(op) => st.(ops := st.ops[op := Take(false)])
    case BeginRestart(op) => st.(ops := st.ops[op := Take(true)])
    case Advance(op) => Advanced(p, st, op)
    case FailStart(op) => st.(servers := DropHeld(p, st.servers, st.ops[op]), ops := st.ops - {op})
    case Abandon(op) => st.(servers := DropHeld(p, st.servers, st.ops[op]), ops := st.ops - {op})
    case Exit(s) => st.(servers := st.servers[s := st.servers[s].(exited := true, running := false)])
  }

  ghost predicate IsRun(p: Protocol, states: seq<State>, actions: seq<Action>) {
    && |states| == |actions| + 1 && states[0] == Initial
    && forall i :: 0 <= i < |actions| ==>
         Enabled(p, states[i], actions[i]) && states[i + 1] == Apply(p, states[i], actions[i])
  }

  // ---- Ownership ----

  /** The number of an operation that has the listener in hand before storing or signalling it. */
  ghost predicate InHand(st: State, s: nat, op: nat) {
    op in st.ops && (st.ops[op] == Store(s) || (st.ops[op].Signal? && st.ops[op].server == s))
  }

  predicate HasServer(pc: Pc) {
    !pc.CheckSlot? && !pc.Take?
  }

  /** A listener that has not been told still has its sender, in the slot or in the hand of an operation.
      `hand` says which operation holds which server object. */
  ghost predicate ServerOwned(st: State, hand: map<nat, nat>, s: nat)
    requires s in st.servers
  {
    && s < st.next
    && (st.servers[s].spawned && !st.servers[s].told ==>
          && st.servers[s].sender
          && (st.slot == Some(s) || (s in hand && InHand(st, s, hand[s]))))
  }

  /** An operation holds its server object alone. */
  ghost predicate OpOwns(st: State, hand: map<nat, nat>, op: nat)
    requires op in st.ops
  {
    HasServer(st.ops[op]) ==>
      var s := st.ops[op].server;
      && s in st.servers && st.slot != Some(s) && s in hand && hand[s] == op
      && (st.ops[op].Arm? || st.ops[op].Spawn? ==> !st.servers[s].spawned)
      && (st.ops[op].Spawn? ==> st.servers[s].sender)
      && (st.ops[op].Await? || st.ops[op].Finish? ==> !st.servers[s].sender)
  }

  /** What interleaving keeps. */
  ghost predicate Ownership(st: State, hand: map<nat, nat>) {
    && (st.slot.Some? ==> st.slot.value in st.servers)
    && (forall s :: s in st.servers ==> ServerOwned(st, hand, s))
    && (forall op :: op in st.ops ==> OpOwns(st, hand, op))
  }

  /** Who holds what after a step. */
  ghost function HandAfter(st: State, hand: map<nat, nat>, a: Action): map<nat, nat> {
    if a.Advance? && a.op in st.ops && st.ops[a.op].CheckSlot? && st.slot.None? then hand[st.next := a.op]
    else if a.Advance? && a.op in st.ops && st.ops[a.op].Take? && st.slot.Some? then hand[st.slot.value := a.op]
    else hand
  }

  lemma BeginOwnership(st: State, hand: map<nat, nat>, a: Action)
    requires Ownership(st, hand) && Enabled(Ftp, st, a) && (a.BeginStart? || a.BeginStop? || a.BeginRestart?)
    ensures Ownership(Apply(Ftp, st, a), hand)
  {
    var st' := Apply(Ftp, st, a);
    assert forall op :: op in st.ops ==> OpOwns(st', hand, op) by {
      assert forall op :: op in st.ops ==> OpOwns(st, hand, op);
    }
    assert forall s :: s in st'.servers ==> ServerOwned(st', hand, s) by {
      assert forall s :: s in st.servers ==> ServerOwned(st, hand, s);
    }
  }

  lemma ExitOwnership(st: State, hand: map<nat, nat>, x: nat)
    requires Ownership(st, hand) && Enabled(Ftp, st, Exit(x))
    ensures Ownership(Apply(Ftp, st, Exit(x)), hand)
  {
    var st' := Apply(Ftp, st, Exit(x));
    forall s | s in st'.servers ensures ServerOwned(st', hand, s) {
      assert ServerOwned(st, hand, s);
    }
    forall op | op in st'.ops ensures OpOwns(st', hand, op) {
      assert OpOwns(st, hand, op);
    }
  }

  /** An operation that ends without storing lets go of its server object. */
  lemma LetGoOwnership(st: State, hand: map<nat, nat>, op: nat)
    requires Ownership(st, hand) && op in st.ops
    ensures Ownership(st.(servers := DropHeld(Ftp, st.servers, st.ops[op]), ops := st.ops - {op}), hand)
  {
    var st' := st.(servers := DropHeld(Ftp, st.servers, st.ops[op]), ops := st.ops - {op});
    assert OpOwns(st, hand, op);
    forall s | s in st'.servers ensures ServerOwned(st', hand, s) {
      assert ServerOwned(st, hand, s);
    }
    forall o | o in st'.ops ensures OpOwns(st', hand, o) {
      assert OpOwns(st, hand, o);
    }
  }

  lemma AdvanceServers(st: State, hand: map<nat, nat>, op: nat)
    requires Ownership(st, hand) && Enabled(Ftp, st, Advance(op))
    ensures var st', hand' := Advanced(Ftp, st, op), HandAfter(st, hand, Advance(op));
            forall s :: s in st'.servers ==> ServerOwned(st', hand', s)
  {
    var st', hand' := Advanced(Ftp, st, op), HandAfter(st, hand, Advance(op));
    assert OpOwns(st, hand, op);
    forall s | s in st'.servers ensures ServerOwned(st', hand', s) {
      assert s in st.servers ==> ServerOwned(st, hand, s);
    }
  }

  lemma AdvanceOps(st: State, hand: map<nat, nat>, op: nat)
    requires Ownership(st, hand) && Enabled(Ftp, st, Advance(op))
    ensures var st', hand' := Advanced(Ftp, st, op), HandAfter(st, hand, Advance(op));
            forall o :: o in st'.ops ==> OpOwns(st', hand', o)
  {
    var st', hand' := Advanced(Ftp, st, op), HandAfter(st, hand, Advance(op));
    assert OpOwns(st, hand, op);
    forall o | o in st'.ops ensures OpOwns(st', hand', o) {
      assert o in st.ops ==> OpOwns(st, hand, o);
      assert o in st.ops && HasServer(st.ops[o]) ==> ServerOwned(st, hand, st.ops[o].server);
    }
  }

  lemma StepOwnership(st: State, hand: map<nat, nat>, a: Action)
    requires Ownership(st, hand) && Enabled(Ftp, st, a)
    ensures Ownership(Apply(Ftp, st, a), HandAfter(st, hand, a))
  {
    match a
    case Advance(op) =>
      assert OpOwns(st, hand, op);
      AdvanceServers(st, hand, op);
      AdvanceOps(st, hand, op);
    case FailStart(op) => LetGoOwnership(st, hand, op);
    case Abandon(op) => LetGoOwnership(st, hand, op);
    case Exit(s) => ExitOwnership(st, hand, s);
    case _ => BeginOwnership(st, hand, a);
  }

  lemma {:induction false} RunOwnership(states: seq<State>, actions: seq<Action>, k: nat) returns (hand: map<nat, nat>)
    requires IsRun(Ftp, states, actions) && k <= |actions|
    ensures Ownership(states[k], hand)
  {
    if k == 0 {
      hand := map[];
    } else {
      hand := RunOwnership(states, actions, k - 1);
      StepOwnership(states[k - 1], hand, actions[k - 1]);
      hand := HandAfter(states[k - 1], hand, actions[k - 1]);
    }
  }

  /** Listener ownership: however starts, stops and restarts of FTP interleave, fail or are abandoned,
      each listener not yet told to shut down is the slot's or exactly one operation's, never both; and
      when nothing is in flight it is the slot's, so there is at most one. */
  lemma ListenerOwnership(states: seq<State>, actions: seq<Action>, k: nat, s: nat)
    requires IsRun(Ftp, states, actions) && k <= |actions| && Untold(states[k], s)
    ensures var st := states[k];
            if st.slot == Some(s) then forall op: nat :: !InHand(st, s, op)
            else exists op: nat :: InHand(st, s, op) && forall op': nat :: InHand(st, s, op') ==> op' == op
    ensures states[k].ops == map[] ==> states[k].slot == Some(s)
  {
    var hand := RunOwnership(states, actions, k);
    var st := states[k];
    assert ServerOwned(st, hand, s);
    forall op: nat | InHand(st, s, op)
      ensures st.slot != Some(s) && hand[s] == op
    {
      assert OpOwns(st, hand, op);
    }
    if st.slot != Some(s) {
      assert InHand(st, s, hand[s]);
    }
  }

  // ---- Truthful status ----

  /** One operation at a time, each run to its end, and every stop sees its listener leave in time. */
  predicate Serialised(st: State, a: Action) {
    match a
    case BeginStart(op) => st.ops == map[]
    case BeginStop(op) => st.ops == map[]
    case BeginRestart(op) => st.ops == map[]
    case Advance(op) => op in st.ops && (st.ops[op].Await? ==> !Live(st, st.ops[op].server))
    case FailStart(op) => true
    case Abandon(op) => false
    case Exit(s) => true
  }

  /** `is_running` of the protocol: the slot is filled and its flag is set. */
  predicate IsRunning(st: State) {
    st.slot.Some? && st.slot.value in st.servers && st.servers[st.slot.value].running
  }

  /** What serialised operations keep: one operation at most; the slot is filled only when no operation
      has a server object in hand; a live listener belongs to whoever has its server object. */
  ghost predicate OpTruthful(st: State, op: nat)
    requires op in st.ops
  {
    && (forall o :: o in st.ops ==> o == op)
    && (HasServer(st.ops[op]) ==>
          var s := st.ops[op].server;
          && st.slot.None? && s in st.servers
          && (st.ops[op].Arm? || st.ops[op].Spawn? ==> !st.servers[s].spawned && !st.servers[s].exited)
          && (st.ops[op].Store? ==> st.servers[s].running == Live(st, s)))
  }

  ghost predicate ServerTruthful(st: State, s: nat)
    requires s in st.servers
  {
    && s < st.next
    && (Live(st, s) && st.slot != Some(s) ==>
          st.ops != map[] && forall op :: op in st.ops ==> Holds(st.ops[op], s) && !st.ops[op].Finish?)
  }

  ghost predicate Truthful(st: State) {
    && (st.slot.Some? ==> st.slot.value in st.servers && st.servers[st.slot.value].running == Live(st, st.slot.value))
    && (forall op :: op in st.ops ==> OpTruthful(st, op))
    && (forall s :: s in st.servers ==> ServerTruthful(st, s))
  }

  lemma AdvanceTruthful(p: Protocol, st: State, op: nat)
    requires Truthful(st) && Enabled(p, st, Advance(op)) && Serialised(st, Advance(op))
    ensures Truthful(Advanced(p, st, op))
  {
    var st' := Advanced(p, st, op);
    assert OpTruthful(st, op);
    assert st'.ops == (if op in st'.ops then map[op := st'.ops[op]] else map[]);
    forall s | s in st'.servers ensures ServerTruthful(st', s) {
      assert s in st.servers ==> ServerTruthful(st, s);
      assert op in st.ops;
    }
  }

  lemma ExitTruthful(p: Protocol, st: State, x: nat)
    requires Truthful(st) && Enabled(p, st, Exit(x))
    ensures Truthful(Apply(p, st, Exit(x)))
  {
    var st' := Apply(p, st, Exit(x));
    forall s | s in st'.servers ensures ServerTruthful(st', s) {
      assert ServerTruthful(st, s);
    }
    forall op | op in st'.ops ensures OpTruthful(st', op) {
      assert OpTruthful(st, op);
    }
  }

  lemma BeginTruthful(p: Protocol, st: State, a: Action)
    requires Truthful(st) && Enabled(p, st, a) && Serialised(st, a) && (a.BeginStart? || a.BeginStop? || a.BeginRestart?)
    ensures Truthful(Apply(p, st, a))
  {
    var st' := Apply(p, st, a);
    forall s | s in st'.servers ensures ServerTruthful(st', s) {
      assert ServerTruthful(st, s);
    }
  }

  lemma FailTruthful(p: Protocol, st: State, op: nat)
    requires Truthful(st) && Enabled(p, st, FailStart(op))
    ensures Truthful(Apply(p, st, FailStart(op)))
  {
    var st' := Apply(p, st, FailStart(op));
    assert OpTruthful(st, op);
    assert st'.ops == map[];
    forall s | s in st'.servers ensures ServerTruthful(st', s) {
      assert ServerTruthful(st, s);
      assert op in st.ops;
    }
  }

  lemma StepTruthful(p: Protocol, st: State, a: Action)
    requires Truthful(st) && Enabled(p, st, a) && Serialised(st, a)
    ensures Truthful(Apply(p, st, a))
  {
    match a
    case Advance(op) => AdvanceTruthful(p, st, op);
    case FailStart(op) => FailTruthful(p, st, op);
    case Exit(s) => ExitTruthful(p, st, s);
    case _ => BeginTruthful(p, st, a);
  }

  lemma {:induction false} RunTruthful(p: Protocol, states: seq<State>, actions: seq<Action>, k: nat)
    requires IsRun(p, states, actions) && k <= |actions|
    requires forall i :: 0 <= i < |actions| ==> Serialised(states[i], actions[i])
    ensures Truthful(states[k])
  {
    if k > 0 {
      RunTruthful(p, states, actions, k - 1);
      StepTruthful(p, states[k - 1], actions[k - 1]);
    }
  }

  /** Status is truthful: for either protocol, in a serialised run in which listeners may leave on their
      own at any time, whenever no operation is in flight the protocol reports running exactly when it
      has a live listener, it has at most one, and an empty slot means it has none. */
  lemma StatusTruthful(p: Protocol, states: seq<State>, actions: seq<Action>, k: nat)
    requires IsRun(p, states, actions) && k <= |actions| && states[k].ops == map[]
    requires forall i :: 0 <= i < |actions| ==> Serialised(states[i], actions[i])
    ensures IsRunning(states[k]) <==> exists s: nat :: Live(states[k], s)
    ensures forall s: nat, t: nat :: Live(states[k], s) && Live(states[k], t) ==> s == t
    ensures states[k].slot.None? ==> forall s: nat :: !Live(states[k], s)
  {
    RunTruthful(p, states, actions, k);
    forall s: nat | Live(states[k], s)
      ensures states[k].slot == Some(s)
    {
      assert ServerTruthful(states[k], s);
    }
  }

  // ---- Whole operations ----

  /** Several actions in a row, if each is possible. */
  function Perform(p: Protocol, st: State, actions: seq<Action>): Option<State> {
    if actions == [] then Some(st)
    else
      var mid := Perform(p, st, actions[..|actions| - 1]);
      var a := actions[|actions| - 1];
      if mid.Some? && Enabled(p, mid.value, a) && Serialised(mid.value, a) then Some(Apply(p, mid.value, a)) else None
  }

  ghost predicate Leads(p: Protocol, st: State, st': State) {
    exists actions :: Perform(p, st, actions) == Some(st')
  }

  lemma LeadsToItself(p: Protocol, st: State)
    ensures Leads(p, st, st)
  {
    assert Perform(p, st, []) == Some(st);
  }

  lemma LeadsOn(p: Protocol, st: State, mid: State, a: Action)
    requires Leads(p, st, mid) && Enabled(p, mid, a) && Serialised(mid, a)
    ensures Leads(p, st, Apply(p, mid, a))
  {
    var actions :| Perform(p, st, actions) == Some(mid);
    assert (actions + [a])[..|actions|] == actions;
    assert Perform(p, st, actions + [a]) == Some(Apply(p, mid, a));
  }

  lemma LeadsAdvance(p: Protocol, st: State, mid: State, op: nat)
    requires Leads(p, st, mid) && op in mid.ops && (HasServer(mid.ops[op]) ==> mid.ops[op].server in mid.servers)
    requires mid.ops[op].Await? ==> !Live(mid, mid.ops[op].server)
    ensures Leads(p, st, Advanced(p, mid, op))
  {
    LeadsOn(p, st, mid, Advance(op));
    assert Apply(p, mid, Advance(op)) == Advanced(p, mid, op);
  }

  /** A start that finds the slot filled, with a live listener or not, changes nothing. */
  lemma StartOnFilledSlot(p: Protocol, st: State, op: nat)
    requires st.ops == map[] && st.slot.Some?
    ensures Enabled(p, st, BeginStart(op)) && Enabled(p, Apply(p, st, BeginStart(op)), Advance(op))
    ensures Apply(p, Apply(p, st, BeginStart(op)), Advance(op)) == st
  {
    assert st.ops[op := CheckSlot] - {op} == st.ops;
  }

  lemma ArmedStartFills(p: Protocol, st: State, mid: State, op: nat, s: nat) returns (st': State)
    requires Leads(p, st, mid) && mid.ops == map[op := Arm(s)] && mid.slot.None?
    requires s in mid.servers && !mid.servers[s].exited
    ensures Leads(p, st, st') && st'.ops == map[]
    ensures st'.slot == Some(s) && Live(st', s) && IsRunning(st')
  {
    LeadsAdvance(p, st, mid, op);
    var armed := Advanced(p, mid, op);
    assert armed.ops == map[op := Spawn(s)] && armed.slot.None? && !armed.servers[s].exited;
    LeadsAdvance(p, st, armed, op);
    var spawned := Advanced(p, armed, op);
    assert spawned.ops == map[op := Store(s)] && spawned.slot.None? && Live(spawned, s) && spawned.servers[s].running;
    LeadsAdvance(p, st, spawned, op);
    st' := Advanced(p, spawned, op);
  }

  /** A start that finds the slot empty can fill it with a live listener. */
  lemma StartCanComplete(p: Protocol, st: State, op: nat) returns (st': State)
    requires st.ops == map[] && st.slot.None?
    ensures Leads(p, st, st') && st'.ops == map[]
    ensures st'.slot == Some(st.next) && Live(st', st.next) && IsRunning(st')
  {
    LeadsToItself(p, st);
    LeadsOn(p, st, st, BeginStart(op));
    var begun := Apply(p, st, BeginStart(op));
    LeadsAdvance(p, st, begun, op);
    var created := Advanced(p, begun, op);
    assert created.ops == map[op := Arm(st.next)];
    st' := ArmedStartFills(p, st, created, op, st.next);
  }

  lemma WaitedStopEmpties(p: Protocol, st: State, mid: State, op: nat, s: nat) returns (st': State)
    requires Leads(p, st, mid) && mid.ops == map[op := Await(s, false)] && mid.slot.None?
    requires s in mid.servers && !Live(mid, s)
    ensures Leads(p, st, st') && st'.ops == map[] && st'.slot.None?
  {
    LeadsAdvance(p, st, mid, op);
    var waited := Advanced(p, mid, op);
    assert waited.ops == map[op := Finish(s, false)] && waited.slot.None? && s in waited.servers;
    LeadsAdvance(p, st, waited, op);
    st' := Advanced(p, waited, op);
  }

  lemma SignalledStopEmpties(p: Protocol, st: State, mid: State, op: nat, s: nat) returns (st': State)
    requires Leads(p, st, mid) && mid.ops == map[op := Signal(s, false)] && mid.slot.None? && s in mid.servers
    ensures Leads(p, st, st') && st'.ops == map[] && st'.slot.None?
  {
    LeadsAdvance(p, st, mid, op);
    var told := Advanced(p, mid, op);
    assert told.ops == map[op := Await(s, false)] && told.slot.None? && s in told.servers;
    if Live(told, s) {
      LeadsOn(p, st, told, Exit(s));
      told := Apply(p, told, Exit(s));
    }
    st' := WaitedStopEmpties(p, st, told, op, s);
  }

  /** A stop whose listener leaves in time empties the slot; a truthful state then has no live listener. */
  lemma StopCanComplete(p: Protocol, st: State, op: nat) returns (st': State)
    requires Truthful(st) && st.ops == map[]
    ensures Leads(p, st, st') && st'.ops == map[] && st'.slot.None? && forall s: nat :: !Live(st', s)
  {
    LeadsToItself(p, st);
    LeadsOn(p, st, st, BeginStop(op));
    var begun := Apply(p, st, BeginStop(op));
    LeadsAdvance(p, st, begun, op);
    st' := Advanced(p, begun, op);
    if st.slot.Some? {
      assert st'.ops == map[op := Signal(st.slot.value, false)];
      st' := SignalledStopEmpties(p, st, st', op, st.slot.value);
    }
    LeadsTruthful(p, st, st');
    forall s: nat
      ensures !Live(st', s)
    {
      assert s in st'.servers ==> ServerTruthful(st', s);
    }
  }

  lemma LeadsTruthful(p: Protocol, st: State, st': State)
    requires Truthful(st) && Leads(p, st, st')
    ensures Truthful(st')
  {
    var actions :| Perform(p, st, actions) == Some(st');
    PerformedTruthful(p, st, actions);
  }

  lemma {:induction false} PerformedTruthful(p: Protocol, st: State, actions: seq<Action>)
    requires Truthful(st) && Perform(p, st, actions).Some?
    ensures Truthful(Perform(p, st, actions).value)
    decreases |actions|
  {
    if actions != [] {
      var n := |actions| - 1;
      PerformedTruthful(p, st, actions[..n]);
      StepTruthful(p, Perform(p, st, actions[..n]).value, actions[n]);
    }
  }
}
