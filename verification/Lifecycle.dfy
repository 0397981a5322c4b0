/** What a node makes of the masters it observes: its role, its readiness, its errors
    (`clustering/lifecycle.go`, `clustering/state.go`). */
module Lifecycle {
  import opened Common
  import opened Clustering

  datatype Role = Initial | Slave | Master | Phantom

  /** An entry of the fatal error stack. The first two kinds are init errors; other parts of
      the program append errors of the last kind. */
  datatype FatalError = InitMasterError | InitCallbacksError | OtherError(message: string)

  predicate IsInitError(e: FatalError) {
    !e.OtherError?
  }

  predicate HasInitError(errors: seq<FatalError>) {
    exists i :: 0 <= i < |errors| && IsInitError(errors[i])
  }

  predicate HasInitMasterError(errors: seq<FatalError>) {
    exists i :: 0 <= i < |errors| && errors[i] == InitMasterError
  }

  /** The entries that are not init errors, in their order. */
  function ExceptInitErrors(errors: seq<FatalError>): seq<FatalError> {
    if errors == [] then []
    else ExceptInitErrors(errors[..|errors| - 1])
         + if IsInitError(errors[|errors| - 1]) then [] else [errors[|errors| - 1]]
  }

  lemma {:induction false} ExceptInitErrorsAre(errors: seq<FatalError>)
    ensures forall e :: e in ExceptInitErrors(errors) <==> e in errors && !IsInitError(e)
    ensures |ExceptInitErrors(errors)| <= |errors|
    ensures HasInitError(errors) <==> |ExceptInitErrors(errors)| < |errors|
  {
    if errors != [] {
      var n := |errors| - 1;
      ExceptInitErrorsAre(errors[..n]);
      assert errors == errors[..n] + [errors[n]];
      HasInitErrorSnoc(errors[..n], errors[n]);
    }
  }

  lemma HasInitErrorSnoc(errors: seq<FatalError>, e: FatalError)
    ensures HasInitError(errors + [e]) <==> HasInitError(errors) || IsInitError(e)
  {
    assert (errors + [e])[|errors|] == e;
    if i :| 0 <= i < |errors| && IsInitError(errors[i]) {
      assert (errors + [e])[i] == errors[i];
    }
  }

  predicate AtMostOneInitMasterError(errors: seq<FatalError>) {
    forall i, j :: 0 <= i < j < |errors| ==> !(errors[i] == errors[j] == InitMasterError)
  }

  /** A call the manager makes to the outside. */
  datatype Call = InitMaster | Callback(index: nat, info: NodeInfo, role: Role)

  /** How the outside answers during one role change: whether the master's initialisation
      fails, and the first callback that does (None, or none so far: all succeed). */
  datatype Outcome = Outcome(initFails: bool, failing: Option<nat>)

  /** A record by value. */
  datatype Rec = Rec(id: int, owner: Identity)

  const ZERO_REC := Rec(0, NO_IDENTITY)

  /** What never changes: this node, and how many callbacks are registered. */
  datatype Config = Config(thisNode: Identity, callbacks: nat)

  /** The manager by value. `own` says that the current master is the elector's own record,
      the very object; `calls` and `failed` record what happened outside: every call made,
      and whether the latest role change was broken off. */
  datatype Life = Life(
    current: Option<Rec>, own: bool, role: Role, masterInfo: NodeInfo, ready: bool, loaded: bool,
    errors: seq<FatalError>, calls: seq<Call>, failed: bool)

  const START := Life(Some(ZERO_REC), false, Initial, ZERO_NODE_INFO, false, false, [], [], false)

  // ---------------------------------------------------------------- one role change

  function Appended(errors: seq<FatalError>, e: FatalError): seq<FatalError> {
    if e == InitMasterError && HasInitMasterError(errors) then errors else errors + [e]
  }

  function Callbacks(info: NodeInfo, role: Role, n: nat): seq<Call> {
    seq(n, i requires 0 <= i < n => Callback(i, info, role))
  }

  function InitCalls(role: Role): seq<Call> {
    if role == Master then [InitMaster] else []
  }

  /** Everything a role change asks of the outside when nothing fails. */
  function AllCalls(info: NodeInfo, role: Role, cfg: Config): seq<Call> {
    InitCalls(role) + Callbacks(info, role, cfg.callbacks)
  }

  /** The error that breaks a role change off, if any. */
  function Failure(role: Role, cfg: Config, out: Outcome): Option<FatalError> {
    if role == Master && out.initFails then Some(InitMasterError)
    else if out.failing.Some? && out.failing.value < cfg.callbacks then Some(InitCallbacksError)
    else None
  }

  /** The calls a role change makes before it ends. */
  function CallsMade(info: NodeInfo, role: Role, cfg: Config, out: Outcome): seq<Call> {
    var failure := Failure(role, cfg, out);
    if failure == None then AllCalls(info, role, cfg)
    else if failure == Some(InitMasterError) then [InitMaster]
    else InitCalls(role) + Callbacks(info, role, out.failing.value + 1)
  }

  function InfoOf(record: Option<Rec>): NodeInfo {
    if record == None then ZERO_NODE_INFO else record.value.owner.nodeInfo
  }

  function Handled(l: Life, record: Option<Rec>, role: Role, cfg: Config, out: Outcome): Life {
    var failure := Failure(role, cfg, out);
    var done := failure == None && role == Master;
    l.(role := role, masterInfo := InfoOf(record), ready := done, loaded := l.loaded || done,
       errors := if failure == None then [] else Appended(l.errors, failure.value),
       calls := l.calls + CallsMade(InfoOf(record), role, cfg, out), failed := failure != None)
  }

  /** `defineNodeRole` on values; `own` says that the record is the elector's own. */
  function Defined(l: Life, newMaster: Option<Rec>, own: bool, cfg: Config, out: Outcome): Life {
    if newMaster == None then
      if l.role == Phantom then l
      else Handled(l, None, Phantom, cfg, out).(current := None, own := false)
    else
      var role := if newMaster.value.owner == cfg.thisNode then Master else Slave;
      var handled :=
        if l.current != newMaster then Handled(l, newMaster, role, cfg, out)
        else if HasInitError(l.errors) then Handled(l, newMaster, l.role, cfg, out)
        else l;
      handled.(current := newMaster, own := own)
  }

  // ---------------------------------------------------------------- the objects

  class NodeState {
    var role: Role
    var masterInfo: NodeInfo
    var masterReady: bool
    var masterHasLoadedData: bool

    constructor ()
      ensures role == Initial && masterInfo == ZERO_NODE_INFO && !masterReady && !masterHasLoadedData
    {
      role, masterInfo, masterReady, masterHasLoadedData := Initial, ZERO_NODE_INFO, false, false;
    }

    method ChangeNodeState(record: NodeInfo, state: Role)
      modifies this
      ensures role == state && masterInfo == record && !masterReady
      ensures masterHasLoadedData == old(masterHasLoadedData)
    {
      role, masterInfo, masterReady := state, record, false;
    }

    method SetMasterReady()
      modifies this
      ensures masterReady && masterHasLoadedData && role == old(role) && masterInfo == old(masterInfo)
    {
      masterReady, masterHasLoadedData := true, true;
    }
  }

  class FatalErrorStack {
    var fatalErrors: seq<FatalError>

    constructor ()
      ensures fatalErrors == []
    {
      fatalErrors := [];
    }

    method AppendFatal(err: FatalError)
      modifies this
      ensures fatalErrors == Appended(old(fatalErrors), err)
    {
      var present := HasInitMasterErrorInNode();
      if err == InitMasterError && present {
        return;
      }
      fatalErrors := fatalErrors + [err];
    }

    method CleanFatalErrors()
      modifies this
      ensures fatalErrors == []
    {
      fatalErrors := [];
    }

    method HasInitMasterErrorInNode() returns (found: bool)
      ensures found <==> HasInitMasterError(fatalErrors)
    {
      for i := 0 to |fatalErrors|
        invariant !HasInitMasterError(fatalErrors[..i])
      {
        if fatalErrors[i] == InitMasterError {
          return true;
        }
      }
      assert fatalErrors[..|fatalErrors|] == fatalErrors;
      found := false;
    }

    method HasInitErrorInNode() returns (found: bool)
      ensures found <==> HasInitError(fatalErrors)
    {
      for i := 0 to |fatalErrors|
        invariant !HasInitError(fatalErrors[..i])
      {
        if IsInitError(fatalErrors[i]) {
          return true;
        }
      }
      assert fatalErrors[..|fatalErrors|] == fatalErrors;
      found := false;
    }

    method GetFatalErrorsExceptInitErrors() returns (result: seq<FatalError>)
      ensures result == ExceptInitErrors(fatalErrors)
      ensures forall e :: e in result <==> e in fatalErrors && !IsInitError(e)
      ensures HasInitError(fatalErrors) <==> |result| < |fatalErrors|
    {
      result := [];
      for i := 0 to |fatalErrors|
        invariant result == ExceptInitErrors(fatalErrors[..i])
      {
        assert fatalErrors[..i + 1][..i] == fatalErrors[..i];
        if !IsInitError(fatalErrors[i]) {
          result := result + [fatalErrors[i]];
        }
      }
      assert fatalErrors[..|fatalErrors|] == fatalErrors;
      ExceptInitErrorsAre(fatalErrors);
    }
  }

  class LifeCycleManager {
    var currentMaster: MasterMetadata?
    const thisNode: Identity
    var callbacks: nat
    const state: NodeState
    const fatal: FatalErrorStack
    /** The calls made to the outside, and whether the latest role change was broken off. */
    var calls: seq<Call>
    var failed: bool

    constructor (thisNode: Identity, state: NodeState, fatal: FatalErrorStack)
      ensures this.thisNode == thisNode && this.state == state && this.fatal == fatal
      ensures callbacks == 0 && calls == [] && !failed
      ensures fresh(currentMaster) && currentMaster.id == 0 && currentMaster.owner == NO_IDENTITY
    {
      this.thisNode, this.state, this.fatal := thisNode, state, fatal;
      this.callbacks, this.calls, this.failed := 0, [], false;
      this.currentMaster := new MasterMetadata(0, NO_IDENTITY, "");
    }

    function Cfg(): Config
      reads this
    {
      Config(thisNode, callbacks)
    }

    /** The manager by value, as seen beside the elector's own record. */
    function View(record: MasterMetadata): Life
      reads this, state, fatal, currentMaster
    {
      Life(if currentMaster == null then None else Some(Rec(currentMaster.id, currentMaster.owner)),
           currentMaster == record, state.role, state.masterInfo, state.masterReady, state.masterHasLoadedData,
           fatal.fatalErrors, calls, failed)
    }

    method AddOnRoleChanged()
      modifies this`callbacks
      ensures callbacks == old(callbacks) + 1
    {
      callbacks := callbacks + 1;
    }

    /** The registered callbacks in order, up to the first that fails. */
    method RunCallbacks(nodeInfo: NodeInfo, role: Role, failing: Option<nat>) returns (ok: bool)
      modifies this`calls
      ensures ok <==> !(failing.Some? && failing.value < callbacks)
      ensures calls == old(calls) + Callbacks(nodeInfo, role, if ok then callbacks else failing.value + 1)
    {
      for i := 0 to callbacks
        invariant calls == old(calls) + Callbacks(nodeInfo, role, i)
        invariant failing.Some? ==> i <= failing.value
      {
        assert Callbacks(nodeInfo, role, i + 1) == Callbacks(nodeInfo, role, i) + [Callback(i, nodeInfo, role)];
        calls := calls + [Callback(i, nodeInfo, role)];
        if failing == Some(i) {
          return false;
        }
      }
      ok := true;
    }

    /** The master's initialisation, then the callbacks; the first error ends it. */
    method InitAndNotify(nodeInfo: NodeInfo, role: Role, out: Outcome) returns (err: Option<FatalError>)
      modifies this`calls
      ensures err == Failure(role, Cfg(), out)
      ensures calls == old(calls) + CallsMade(nodeInfo, role, Cfg(), out)
    {
      if role == Master {
        calls := calls + [InitMaster];
        if out.initFails {
          return Some(InitMasterError);
        }
      }
      var ok := RunCallbacks(nodeInfo, role, out.failing);
      assert calls == old(calls) + (InitCalls(role)
                                    + Callbacks(nodeInfo, role, if ok then callbacks else out.failing.value + 1));
      err := if ok then None else Some(InitCallbacksError);
    }

    method HandleNodeRoleChange(record: MasterMetadata?, role: Role, out: Outcome, ghost own: MasterMetadata)
      modifies this`calls, this`failed, state, fatal
      ensures View(own) == Handled(old(View(own)), if record == null then None else Some(Rec(record.id, record.owner)),
                                   role, Cfg(), out)
    {
      var nodeInfo := ZERO_NODE_INFO;
      if record != null {
        nodeInfo := record.owner.nodeInfo;
      }
      state.ChangeNodeState(nodeInfo, role);
      var err := InitAndNotify(nodeInfo, role, out);
      failed := err != None;
      if failed {
        fatal.AppendFatal(err.value);
        return;
      }
      fatal.CleanFatalErrors();
      if role == Master {
        state.SetMasterReady();
      }
    }

    method DefineNodeRole(newMaster: MasterMetadata?, out: Outcome, ghost own: MasterMetadata)
      requires currentMaster == null <==> state.role == Phantom
      modifies this`currentMaster, this`calls, this`failed, state, fatal
      ensures View(own) == Defined(old(View(own)),
                                   if newMaster == null then None else Some(Rec(newMaster.id, newMaster.owner)),
                                   newMaster == own, Cfg(), out)
      ensures currentMaster == newMaster
    {
      if newMaster == null {
        if state.role == Phantom {
          return;
        }
        HandleNodeRoleChange(newMaster, Phantom, out, own);
      } else if !Equals(currentMaster, newMaster) {
        var role := if newMaster.owner == thisNode then Master else Slave;
        HandleNodeRoleChange(newMaster, role, out, own);
      } else {
        var broken := fatal.HasInitErrorInNode();
        if broken {
          HandleNodeRoleChange(newMaster, state.role, out, own);
        }
      }
      currentMaster := newMaster;
    }
  }

  // ---------------------------------------------------------------- runs

  /** What happens to a manager: the elector wins and reports its own record, in whose id it
      has just written the number of the row; it reads some master, or none; another part of
      the program appends an error. */
  datatype Event =
    | Win(id: int, out: Outcome)
    | Read(master: Option<Rec>, out: Outcome)
    | Append(message: string)

  /** The id is overwritten in the elector's record before the record is reported, so the
      current master changes with it when it is that record. */
  function After(l: Life, e: Event, cfg: Config): Life {
    match e
    case Win(id, out) =>
      var record := Rec(id, cfg.thisNode);
      Defined(if l.own then l.(current := Some(record)) else l, Some(record), true, cfg, out)
    case Read(master, out) => Defined(l, master, false, cfg, out)
    case Append(message) => l.(errors := Appended(l.errors, OtherError(message)))
  }

  function At(events: seq<Event>, k: nat, cfg: Config): Life
    requires k <= |events|
  {
    if k == 0 then START else After(At(events, k - 1, cfg), events[k - 1], cfg)
  }

  /** The role that fits an observed master. */
  function Fitting(master: Option<Rec>, cfg: Config): Role {
    if master == None then Phantom else if master.value.owner == cfg.thisNode then Master else Slave
  }

  /** The role fits the current master, except that a node which has seen nothing but the
      zero record is still in its initial role. */
  predicate RoleFits(l: Life, cfg: Config) {
    || l.role == Fitting(l.current, cfg)
    || (l.role == Initial && l.current == Some(ZERO_REC))
  }

  predicate Sound(l: Life, cfg: Config) {
    && RoleFits(l, cfg)
    && (l.own ==> l.current.Some? && l.current.value.owner == cfg.thisNode && l.role == Master)
    && (l.ready <==> l.role == Master && !HasInitError(l.errors))
    && (l.failed <==> HasInitError(l.errors))
    && AtMostOneInitMasterError(l.errors)
  }

  /** A second init-master error is never stacked on a first. */
  lemma AppendedStaysUnique(errors: seq<FatalError>, e: FatalError)
    requires AtMostOneInitMasterError(errors)
    ensures AtMostOneInitMasterError(Appended(errors, e))
    ensures HasInitError(Appended(errors, e)) <==> HasInitError(errors) || IsInitError(e)
  {
    if Appended(errors, e) != errors {
      assert Appended(errors, e)[|errors|] == e;
      assert forall i :: 0 <= i < |errors| ==> Appended(errors, e)[i] == errors[i];
    }
  }

  lemma HandledIsSound(l: Life, record: Option<Rec>, role: Role, cfg: Config, out: Outcome)
    requires AtMostOneInitMasterError(l.errors)
    ensures var h := Handled(l, record, role, cfg, out);
            && h.role == role && h.current == l.current && h.own == l.own
            && (h.ready <==> role == Master && !HasInitError(h.errors))
            && (h.failed <==> HasInitError(h.errors))
            && AtMostOneInitMasterError(h.errors)
  {
    AppendedStaysUnique(l.errors, InitMasterError);
    AppendedStaysUnique(l.errors, InitCallbacksError);
  }

  lemma WinIsSound(l: Life, id: int, out: Outcome, cfg: Config)
    requires Sound(l, cfg) && cfg.thisNode != NO_IDENTITY
    ensures Sound(After(l, Win(id, out), cfg), cfg)
  {
    var record := Some(Rec(id, cfg.thisNode));
    var seen := if l.own then l.(current := record) else l;
    HandledIsSound(seen, record, Master, cfg, out);
    HandledIsSound(seen, record, seen.role, cfg, out);
  }

  lemma ReadIsSound(l: Life, master: Option<Rec>, out: Outcome, cfg: Config)
    requires Sound(l, cfg) && cfg.thisNode != NO_IDENTITY
    ensures Sound(After(l, Read(master, out), cfg), cfg)
  {
    HandledIsSound(l, master, Fitting(master, cfg), cfg, out);
    HandledIsSound(l, master, l.role, cfg, out);
  }

  lemma StepIsSound(l: Life, e: Event, cfg: Config)
    requires Sound(l, cfg) && cfg.thisNode != NO_IDENTITY
    ensures Sound(After(l, e, cfg), cfg)
  {
    match e
    case Append(message) => AppendedStaysUnique(l.errors, OtherError(message));
    case Win(id, out) => WinIsSound(l, id, out, cfg);
    case Read(master, out) => ReadIsSound(l, master, out, cfg);
  }

  /** Over every run: the role fits the current master, whatever has been written into the
      aliased record; the node is ready exactly when it is a master without init errors, so
      a master has exactly one of the two; an init error is on the stack exactly when the
      latest role change was broken off; and two init-master errors never are. */
  lemma {:induction false} RunIsSound(events: seq<Event>, k: nat, cfg: Config)
    requires k <= |events| && cfg.thisNode != NO_IDENTITY
    ensures Sound(At(events, k, cfg), cfg)
  {
    if k > 0 {
      RunIsSound(events, k - 1, cfg);
      StepIsSound(At(events, k - 1, cfg), events[k - 1], cfg);
    }
  }

  function Observed(e: Event, cfg: Config): Option<Rec>
    requires !e.Append?
  {
    if e.Win? then Some(Rec(e.id, cfg.thisNode)) else e.master
  }

  /** After every observation the current master is what was observed and the role fits it,
      unless and only unless a node still in its initial role observes the zero record. */
  lemma RoleFollowsObservation(events: seq<Event>, k: nat, cfg: Config)
    requires k < |events| && cfg.thisNode != NO_IDENTITY && !events[k].Append?
    ensures At(events, k + 1, cfg).current == Observed(events[k], cfg)
    ensures At(events, k + 1, cfg).role == Fitting(Observed(events[k], cfg), cfg) <==>
            !(At(events, k, cfg).role == Initial && Observed(events[k], cfg) == Some(ZERO_REC))
  {
    RunIsSound(events, k, cfg);
    RunIsSound(events, k + 1, cfg);
  }

  /** The record reported is equal to the current master when the two are compared. A won
      record is compared with itself when it is the current master already, whatever id has
      just been written into it. */
  predicate SeesEqual(l: Life, e: Event, cfg: Config)
    requires !e.Append?
  {
    if e.Win? then l.own || l.current == Observed(e, cfg) else e.master.Some? && l.current == e.master
  }

  /** An observation is silent when nothing comes of it outside. */
  predicate Silent(l: Life, e: Event, cfg: Config)
    requires !e.Append?
  {
    if Observed(e, cfg) == None then l.role == Phantom else SeesEqual(l, e, cfg) && !l.failed
  }

  /** What every observation makes the manager call, wins included: nothing if it is silent,
      and otherwise one whole role change, into the role at hand when the record is equal. */
  lemma ObservationCalls(events: seq<Event>, k: nat, cfg: Config)
    requires k < |events| && cfg.thisNode != NO_IDENTITY && !events[k].Append?
    ensures var before, e := At(events, k, cfg), events[k];
            var role := if SeesEqual(before, e, cfg) then before.role else Fitting(Observed(e, cfg), cfg);
            At(events, k + 1, cfg).calls ==
            before.calls + if Silent(before, e, cfg) then [] else CallsMade(InfoOf(Observed(e, cfg)), role, cfg, e.out)
  {
    RunIsSound(events, k, cfg);
  }

  /** Which calls these are: the master's initialisation first, then the callbacks in order,
      each with the new master's address and the role, up to the first that fails. */
  lemma CallsAre(info: NodeInfo, role: Role, cfg: Config, out: Outcome)
    ensures var calls := CallsMade(info, role, cfg, out);
            var first := if role == Master then 1 else 0;
            var made := if out.failing.Some? && out.failing.value < cfg.callbacks then out.failing.value + 1
                        else cfg.callbacks;
            && |calls| == first + (if role == Master && out.initFails then 0 else made)
            && (role == Master ==> calls[0] == InitMaster)
            && forall i :: first <= i < |calls| ==> calls[i] == Callback(i - first, info, role)
  {
  }

  /** Nothing but the record may have changed. */
  predicate Unmoved(before: Life, after: Life) {
    && after.role == before.role && after.masterInfo == before.masterInfo && after.errors == before.errors
    && after.ready == before.ready && after.loaded == before.loaded && after.failed == before.failed
  }

  /** A role change has ended as its outcome asks for: role, readiness and errors. */
  predicate Changed(before: Life, after: Life, out: Outcome, callbacks: nat) {
    var init := after.role == Master && out.initFails;
    var callback := !init && out.failing.Some? && out.failing.value < callbacks;
    && (after.failed <==> init || callback)
    && (after.ready <==> after.role == Master && !init && !callback)
    && (after.loaded <==> before.loaded || after.ready)
    && (!init && !callback ==> after.errors == [])
    && (callback ==> after.errors == before.errors + [InitCallbacksError])
    && (init ==> InitMasterError in after.errors && (after.errors == before.errors
                                                     || after.errors == before.errors + [InitMasterError]))
  }

  lemma HandledChanged(l: Life, record: Option<Rec>, role: Role, cfg: Config, out: Outcome)
    ensures Changed(l, Handled(l, record, role, cfg, out), out, cfg.callbacks)
    ensures Handled(l, record, role, cfg, out).role == role
  {
  }

  lemma ChangedIgnoresRecord(before: Life, after: Life, out: Outcome, callbacks: nat, current: Option<Rec>, own: bool)
    requires Changed(before, after, out, callbacks)
    ensures Changed(before, after.(current := current, own := own), out, callbacks)
  {
  }

  lemma StepOutcome(l: Life, e: Event, cfg: Config)
    requires Sound(l, cfg) && !e.Append?
    ensures if Silent(l, e, cfg) then Unmoved(l, After(l, e, cfg))
            else Changed(l, After(l, e, cfg), e.out, cfg.callbacks)
  {
    var seen := if e.Win? && l.own then l.(current := Observed(e, cfg)) else l;
    var master, own := Observed(e, cfg), e.Win? && Observed(e, cfg).Some?;
    var role := if master == None || SeesEqual(l, e, cfg) then (if master == None then Phantom else l.role)
                else Fitting(master, cfg);
    var handled := Handled(seen, master, role, cfg, e.out);
    HandledChanged(seen, master, role, cfg, e.out);
    ChangedIgnoresRecord(seen, handled, e.out, cfg.callbacks, master, own);
    if !Silent(l, e, cfg) {
      assert After(l, e, cfg) == handled.(current := master, own := own);
    }
  }

  /** What every observation leaves behind: a silent one the record alone, any other the role,
      the readiness and the errors that its outcome asks for. */
  lemma ObservationOutcome(events: seq<Event>, k: nat, cfg: Config)
    requires k < |events| && cfg.thisNode != NO_IDENTITY && !events[k].Append?
    ensures var before, after, e := At(events, k, cfg), At(events, k + 1, cfg), events[k];
            if Silent(before, e, cfg) then Unmoved(before, after) else Changed(before, after, e.out, cfg.callbacks)
  {
    RunIsSound(events, k, cfg);
    StepOutcome(At(events, k, cfg), events[k], cfg);
  }

  /** Errors of other parts of the program go on top and change nothing else. */
  lemma AppendOutcome(events: seq<Event>, k: nat, cfg: Config)
    requires k < |events| && events[k].Append?
    ensures At(events, k + 1, cfg) ==
            At(events, k, cfg).(errors := At(events, k, cfg).errors + [OtherError(events[k].message)])
  {
  }

  /** The node state names the address of the current master. */
  predicate InfoFits(l: Life) {
    l.masterInfo == match l.current
                    case None => NodeInfo("", 0, 0, 0)
                    case Some(record) => record.owner.nodeInfo
  }

  lemma StepKeepsInfo(l: Life, e: Event, cfg: Config)
    requires Sound(l, cfg) && InfoFits(l)
    ensures InfoFits(After(l, e, cfg))
  {
  }

  /** Over every run the node state names the address of the current master. */
  lemma {:induction false} InfoFollowsMaster(events: seq<Event>, k: nat, cfg: Config)
    requires k <= |events| && cfg.thisNode != NO_IDENTITY
    ensures InfoFits(At(events, k, cfg))
  {
    if k > 0 {
      InfoFollowsMaster(events, k - 1, cfg);
      RunIsSound(events, k - 1, cfg);
      StepKeepsInfo(At(events, k - 1, cfg), events[k - 1], cfg);
    }
  }

  /** A role change makes no call only when the role is not master and nobody listens. */
  lemma ChangeIsHeardIff(info: NodeInfo, role: Role, cfg: Config, out: Outcome)
    ensures CallsMade(info, role, cfg, out) == [] <==> role != Master && cfg.callbacks == 0
  {
    assert |Callbacks(info, role, cfg.callbacks)| == cfg.callbacks;
  }

  /** An observation equal to the current master, by a win or by a read, repeats the role
      change if and only if the latest one was broken off; otherwise nothing but the record
      changes. */
  lemma EqualRecordRetriesIff(events: seq<Event>, k: nat, cfg: Config)
    requires k < |events| && cfg.thisNode != NO_IDENTITY && !events[k].Append?
    requires SeesEqual(At(events, k, cfg), events[k], cfg)
    ensures var before, after, e := At(events, k, cfg), At(events, k + 1, cfg), events[k];
            && (before.failed ==>
                  after.calls == before.calls + CallsMade(InfoOf(Observed(e, cfg)), before.role, cfg, e.out))
            && (!before.failed ==> after == before.(current := Observed(e, cfg), own := e.Win?))
            && (after.calls == before.calls <==> !before.failed || (before.role != Master && cfg.callbacks == 0))
  {
    RunIsSound(events, k, cfg);
    ObservationCalls(events, k, cfg);
    ChangeIsHeardIff(InfoOf(Observed(events[k], cfg)), At(events, k, cfg).role, cfg, events[k].out);
  }

  /** The outcome breaks a change to master off. */
  predicate BreaksOff(out: Outcome, callbacks: nat) {
    out.initFails || (out.failing.Some? && out.failing.value < callbacks)
  }

  /** A win with this id calls nothing: the latest change went through and the current master
      is the very record that wins, or equal to it. */
  predicate IsSilent(l: Life, id: int, owner: Identity) {
    !l.failed && (l.own || l.current == Some(Rec(id, owner)))
  }

  /** A win leaves the node with an init error if and only if it calls something and that
      fails. */
  lemma WinBreaksOffIff(l: Life, id: int, out: Outcome, cfg: Config)
    requires Sound(l, cfg) && cfg.thisNode != NO_IDENTITY
    ensures HasInitError(After(l, Win(id, out), cfg).errors) <==>
            BreaksOff(out, cfg.callbacks) && !IsSilent(l, id, cfg.thisNode)
  {
    WinIsSound(l, id, out, cfg);
  }

  /** A win initialises the master and runs the callbacks, except exactly when the latest
      role change went through and its record is equal to the current master: because that
      is the very same record, or a copy of the node's own row that was read before. */
  lemma WinIsSilentIff(events: seq<Event>, k: nat, cfg: Config)
    requires k < |events| && cfg.thisNode != NO_IDENTITY && events[k].Win?
    ensures var before, after, e := At(events, k, cfg), At(events, k + 1, cfg), events[k];
            var silent := !before.failed && (before.own || before.current == Some(Rec(e.id, cfg.thisNode)));
            && (after.calls == before.calls <==> silent)
            && (!silent ==> after.calls == before.calls + CallsMade(cfg.thisNode.nodeInfo, Master, cfg, e.out))
            && (silent ==> after == before.(current := Some(Rec(e.id, cfg.thisNode)), own := true))
  {
    RunIsSound(events, k, cfg);
    ObservationCalls(events, k, cfg);
    ChangeIsHeardIff(cfg.thisNode.nodeInfo, Master, cfg, events[k].out);
  }
}
