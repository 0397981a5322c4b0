/** Election transactions of all pods interleaved with the steps of their flushes, loads and
    writes into stored rows (`dao/impl.go`, `constancy/flusher.go`, `constancy/pod_state_manager.go`
    and `ram/loader.go` over `clustering/service.go`). The master check reads through a connection
    of its own, so check and commit are two steps; the database commits before memory does; a load
    reads each table in a transaction of its own. */
module Fence {
  import opened Common
  import opened Clustering
  import Election
  import Elector
  import opened Domain
  import opened FlushPlan
  import opened Flusher
  import opened Repository

  /** Where a pod's write transaction stands: there is none, it has read these tables into an
      empty view, it has sent so many statements of its plan, it is past the master check, or
      the database has committed and memory has not yet. */
  datatype Phase =
    | Idle
    | Loading(view: Store, read: set<Table>)
    | Writing(target: Store, changes: seq<Change>, sent: nat)
    | Checked(target: Store, changes: seq<Change>)
    | Committed(target: Store, changes: seq<Change>)

  /** A pod: its memory, its transaction, and a history variable, the rows that have been
      written in place and not been saved since, with the values they had before. */
  datatype Node = Node(ram: Store, phase: Phase, drift: Store)

  /** The election table, the persisted tables, the pods, and two history variables: the pods
      that have been named ever since their current load began, and those that have been named
      ever since a load began that has ended. */
  datatype World = World(
    election: seq<Election.Row>, db: Store, nodes: map<Pod, Node>, loading: set<Pod>, loaded: set<Pod>)

  function NodeOf(w: World, p: Pod): Node {
    if p in w.nodes then w.nodes[p] else Node(map[], Idle, map[])
  }

  function Ram(w: World, p: Pod): Store {
    NodeOf(w, p).ram
  }

  function PhaseOf(w: World, p: Pod): Phase {
    NodeOf(w, p).phase
  }

  datatype Event =
    | Elect(step: Election.Step)
    | LoadStart(pod: Pod)
    | LoadTable(pod: Pod, table: Table)
    | LoadEnd(pod: Pod)
    | Write(pod: Pod, slot: Slot, row: Entity)
    | Begin(pod: Pod, target: Store, changes: seq<Change>)
    | Send(pod: Pod)
    | Check(pod: Pod, succeeds: bool)
    | Commit(pod: Pod, ok: bool)
    | Publish(pod: Pod)
    | Fail(pod: Pod)

  /** No write falls between the first statement of a flush and its end. */
  predicate MayWrite(phase: Phase) {
    phase.Idle? || phase.Loading?
  }

  ghost predicate Allows(n: Node, e: Event) {
    match e
    case Elect(_) => true
    case LoadStart(_) => n.phase.Idle?
    case LoadTable(_, t) => n.phase.Loading? && t !in n.phase.read
    case LoadEnd(_) => n.phase.Loading? && forall t: Table :: t in n.phase.read
    case Write(_, s, row) => MayWrite(n.phase) && s in n.ram && row.key == s.key
    case Begin(_, target, changes) => n.phase.Idle? && Keyed(target) && NetChanges(n.ram, target, changes)
    case Send(_) => n.phase.Writing? && n.phase.sent < |Plan(n.phase.changes)|
    case Check(_, _) => n.phase.Writing? && n.phase.sent == |Plan(n.phase.changes)|
    case Commit(_, _) => n.phase.Checked?
    case Publish(_) => n.phase.Committed?
    case Fail(_) => !n.phase.Idle? && !n.phase.Committed?
  }

  ghost predicate Enabled(w: World, e: Event) {
    e.Elect? || Allows(NodeOf(w, e.pod), e)
  }

  /** The rows of these tables. */
  function TablesOf(db: Store, tables: set<Table>): Store {
    Kept(db, SlotsOf(db, tables))
  }

  /** The first write that is not saved notes the row's value. */
  function Noted(drift: Store, ram: Store, s: Slot): Store
    requires s in ram
  {
    if s in drift then drift else drift[s := ram[s]]
  }

  /** The new rows published; what they have saved is no longer adrift. */
  function Published(n: Node, target: Store, changes: seq<Change>): Node {
    Node(target, Idle, n.drift - SlotsIn(changes))
  }

  /** What a step of its own makes of a pod, with this database and named or not. */
  function Moved(n: Node, e: Event, db: Store, named: bool): Node {
    match e
    case Elect(_) => n
    case LoadStart(_) => n.(phase := Loading(map[], {}))
    case LoadTable(_, t) =>
      if n.phase.Loading? then n.(phase := Loading(n.phase.view + TablesOf(db, {t}), n.phase.read + {t})) else n
    case LoadEnd(_) => if n.phase.Loading? then Node(n.phase.view, Idle, map[]) else n
    case Write(_, s, row) =>
      if s in n.ram then n.(ram := n.ram[s := row], drift := Noted(n.drift, n.ram, s)) else n
    case Begin(_, target, changes) => n.(phase := Writing(target, changes, 0))
    case Send(_) =>
      if n.phase.Writing? then n.(phase := Writing(n.phase.target, n.phase.changes, n.phase.sent + 1)) else n
    case Check(_, succeeds) =>
      if n.phase.Writing? && succeeds && named then n.(phase := Checked(n.phase.target, n.phase.changes))
      else n.(phase := Idle)
    case Commit(_, ok) =>
      if n.phase.Checked? && ok then n.(phase := Committed(n.phase.target, n.phase.changes)) else n.(phase := Idle)
    case Publish(_) => if n.phase.Committed? then Published(n, n.phase.target, n.phase.changes) else n
    case Fail(_) => n.(phase := Idle)
  }

  /** The database changes with a commit and with nothing else. */
  function DatabaseAfter(w: World, e: Event): Store {
    if e.Commit? && e.ok && PhaseOf(w, e.pod).Checked? then ExecAll(w.db, Plan(PhaseOf(w, e.pod).changes)) else w.db
  }

  function NamedOf(election: seq<Election.Row>, pods: set<Pod>): set<Pod> {
    set p | p in pods && Names(election, p)
  }

  function With(pods: set<Pod>, p: Pod, member: bool): set<Pod> {
    if member then pods + {p} else pods - {p}
  }

  function LoadingAfter(w: World, e: Event): set<Pod> {
    match e
    case Elect(step) => NamedOf(Election.After(w.election, step), w.loading)
    case LoadStart(p) => With(w.loading, p, Names(w.election, p))
    case LoadEnd(p) => w.loading - {p}
    case Fail(p) => w.loading - {p}
    case _ => w.loading
  }

  function LoadedAfter(w: World, e: Event): set<Pod> {
    match e
    case Elect(step) => NamedOf(Election.After(w.election, step), w.loaded)
    case LoadEnd(p) => With(w.loaded, p, p in w.loading)
    case _ => w.loaded
  }

  function NodesAfter(w: World, e: Event): map<Pod, Node> {
    if e.Elect? then w.nodes else w.nodes[e.pod := Moved(NodeOf(w, e.pod), e, w.db, Names(w.election, e.pod))]
  }

  function Apply(w: World, e: Event): World {
    World(if e.Elect? then Election.After(w.election, e.step) else w.election,
          DatabaseAfter(w, e), NodesAfter(w, e), LoadingAfter(w, e), LoadedAfter(w, e))
  }

  function At(w: World, events: seq<Event>, k: nat): World
    requires k <= |events|
  {
    if k == 0 then w else Apply(At(w, events, k - 1), events[k - 1])
  }

  ghost predicate EnabledAt(w: World, events: seq<Event>, k: nat)
    requires k < |events|
  {
    Enabled(At(w, events, k), events[k])
  }

  ghost predicate Possible(w: World, events: seq<Event>) {
    forall k :: 0 <= k < |events| ==> EnabledAt(w, events, k)
  }

  // ---------------------------------------------------------------- every commit was checked

  /** The event is a step of this pod. */
  predicate Concerns(e: Event, p: Pod) {
    !e.Elect? && e.pod == p
  }

  function Sends(events: seq<Event>, p: Pod, from: nat, to: nat): nat
    requires from <= to <= |events|
  {
    if from == to then 0 else Sends(events, p, from, to - 1) + if events[to - 1] == Send(p) then 1 else 0
  }

  /** Between its Begin at b and step k the pod has done nothing but send statements. */
  ghost predicate OnlySends(events: seq<Event>, p: Pod, b: nat, k: nat)
    requires b < k <= |events|
  {
    forall j :: b < j < k && Concerns(events[j], p) ==> events[j] == Send(p)
  }

  ghost predicate Silent(events: seq<Event>, p: Pod, from: nat, to: nat)
    requires to <= |events|
  {
    forall j :: from <= j < to ==> !Concerns(events[j], p)
  }

  /** Step b began this flush and it has only sent statements since. */
  ghost predicate WritingSince(events: seq<Event>, p: Pod, changes: seq<Change>, sent: nat, b: nat, k: nat)
    requires k <= |events|
  {
    && b < k
    && events[b].Begin? && events[b].pod == p && events[b].changes == changes
    && OnlySends(events, p, b, k) && Sends(events, p, b + 1, k) == sent
  }

  /** Step b began this flush and sent so many statements, step c after them was a passing
      check, and the pod has done nothing since. */
  ghost predicate CheckedSince(w: World, events: seq<Event>, p: Pod, changes: seq<Change>, sent: nat,
                               b: nat, c: nat, k: nat)
    requires k <= |events|
  {
    && c < k
    && WritingSince(events, p, changes, sent, b, c)
    && events[c] == Check(p, true) && Names(At(w, events, c).election, p)
    && Silent(events, p, c + 1, k)
  }

  ghost predicate History(w: World, events: seq<Event>, p: Pod, phase: Phase, b: nat, c: nat, k: nat)
    requires k <= |events|
  {
    match phase
    case Idle => true
    case Loading(_, _) => true
    case Writing(_, changes, sent) => WritingSince(events, p, changes, sent, b, k)
    case Checked(_, changes) => CheckedSince(w, events, p, changes, |Plan(changes)|, b, c, k)
    case Committed(_, _) => true
  }

  lemma WritingExtends(events: seq<Event>, p: Pod, changes: seq<Change>, sent: nat, b: nat, k: nat)
    requires k < |events| && WritingSince(events, p, changes, sent, b, k)
    requires Concerns(events[k], p) ==> events[k] == Send(p)
    ensures WritingSince(events, p, changes, sent + if events[k] == Send(p) then 1 else 0, b, k + 1)
  {
  }

  lemma CheckedExtends(w: World, events: seq<Event>, p: Pod, changes: seq<Change>, sent: nat, b: nat, c: nat, k: nat)
    requires k < |events| && CheckedSince(w, events, p, changes, sent, b, c, k) && !Concerns(events[k], p)
    ensures CheckedSince(w, events, p, changes, sent, b, c, k + 1)
  {
  }

  lemma OthersStay(w: World, e: Event, p: Pod)
    requires !Concerns(e, p)
    ensures NodeOf(Apply(w, e), p) == NodeOf(w, p)
  {
  }

  lemma OwnMoves(w: World, e: Event)
    requires !e.Elect?
    ensures NodeOf(Apply(w, e), e.pod) == Moved(NodeOf(w, e.pod), e, w.db, Names(w.election, e.pod))
  {
  }

  lemma OtherHistory(w: World, events: seq<Event>, p: Pod, phase: Phase, b: nat, c: nat, k: nat)
    requires k < |events| && !Concerns(events[k], p) && History(w, events, p, phase, b, c, k)
    ensures History(w, events, p, phase, b, c, k + 1)
  {
    if phase.Writing? {
      WritingExtends(events, p, phase.changes, phase.sent, b, k);
    } else if phase.Checked? {
      CheckedExtends(w, events, p, phase.changes, |Plan(phase.changes)|, b, c, k);
    }
  }

  lemma SendHistory(w: World, events: seq<Event>, p: Pod, n: Node, db: Store, named: bool, b: nat, c: nat, k: nat)
    requires k < |events| && events[k] == Send(p) && n.phase.Writing?
    requires History(w, events, p, n.phase, b, c, k)
    ensures History(w, events, p, Moved(n, events[k], db, named).phase, b, c, k + 1)
  {
    WritingExtends(events, p, n.phase.changes, n.phase.sent, b, k);
  }

  lemma CheckHistory(w: World, events: seq<Event>, p: Pod, n: Node, db: Store, named: bool, b: nat, c: nat, k: nat)
    requires k < |events| && events[k].Check? && events[k].pod == p && Allows(n, events[k])
    requires named == Names(At(w, events, k).election, p)
    requires History(w, events, p, n.phase, b, c, k)
    ensures History(w, events, p, Moved(n, events[k], db, named).phase, b, k, k + 1)
  {
    CheckStarts(w, events, p, n.phase.changes, n.phase.sent, b, k);
  }

  lemma OtherwiseNoHistory(w: World, events: seq<Event>, p: Pod, n: Node, db: Store, named: bool, c: nat, k: nat)
    requires k < |events| && Concerns(events[k], p) && Allows(n, events[k])
    requires !events[k].Send? && !events[k].Check? && !events[k].Write?
    ensures History(w, events, p, Moved(n, events[k], db, named).phase, k, c, k + 1)
  {
  }

  lemma OwnHistory(w: World, events: seq<Event>, p: Pod, n: Node, db: Store, named: bool, b0: nat, c0: nat, k: nat)
    returns (b: nat, c: nat)
    requires k < |events| && Concerns(events[k], p) && Allows(n, events[k])
    requires named == Names(At(w, events, k).election, p)
    requires History(w, events, p, n.phase, b0, c0, k)
    ensures History(w, events, p, Moved(n, events[k], db, named).phase, b, c, k + 1)
  {
    b, c := b0, c0;
    if events[k].Send? {
      SendHistory(w, events, p, n, db, named, b, c, k);
    } else if events[k].Check? {
      c := k;
      CheckHistory(w, events, p, n, db, named, b, c0, k);
    } else if !events[k].Write? {
      b := k;
      OtherwiseNoHistory(w, events, p, n, db, named, c, k);
    }
  }

  lemma CheckStarts(w: World, events: seq<Event>, p: Pod, changes: seq<Change>, sent: nat, b: nat, k: nat)
    requires k < |events| && WritingSince(events, p, changes, sent, b, k)
    ensures events[k] == Check(p, true) && Names(At(w, events, k).election, p) ==>
              CheckedSince(w, events, p, changes, sent, b, k, k + 1)
  {
  }

  lemma HistoryStep(w: World, events: seq<Event>, p: Pod, now: World, b0: nat, c0: nat, k: nat) returns (b: nat, c: nat)
    requires k < |events| && now == At(w, events, k) && Enabled(now, events[k])
    requires History(w, events, p, PhaseOf(now, p), b0, c0, k)
    ensures History(w, events, p, PhaseOf(Apply(now, events[k]), p), b, c, k + 1)
  {
    if Concerns(events[k], p) {
      OwnMoves(now, events[k]);
      b, c := OwnHistory(w, events, p, NodeOf(now, p), now.db, Names(now.election, p), b0, c0, k);
    } else {
      OthersStay(now, events[k], p);
      OtherHistory(w, events, p, PhaseOf(now, p), b0, c0, k);
      b, c := b0, c0;
    }
  }

  lemma {:induction false} PhaseHasHistory(w: World, events: seq<Event>, p: Pod, k: nat) returns (b: nat, c: nat)
    requires Possible(w, events) && k <= |events| && PhaseOf(w, p).Idle?
    ensures History(w, events, p, PhaseOf(At(w, events, k), p), b, c, k)
  {
    b, c := 0, 0;
    if k > 0 {
      b, c := PhaseHasHistory(w, events, p, k - 1);
      assert EnabledAt(w, events, k - 1);
      b, c := HistoryStep(w, events, p, At(w, events, k - 1), b, c, k - 1);
    }
  }

  /** Every flush that commits has had, after its last statement and before any other step
      of its pod, a check at which the election table was one row naming that pod. */
  lemma FencedCommit(w: World, events: seq<Event>, p: Pod, k: nat)
    requires Possible(w, events) && PhaseOf(w, p).Idle?
    requires k < |events| && events[k] == Commit(p, true)
    ensures PhaseOf(At(w, events, k), p).Checked?
    ensures var changes := PhaseOf(At(w, events, k), p).changes;
            exists b, c :: CheckedSince(w, events, p, changes, |Plan(changes)|, b, c, k)
  {
    var _, _ := PhaseHasHistory(w, events, p, k);
    assert EnabledAt(w, events, k);
  }

  // ---------------------------------------------------------------- a takeover stops the flush

  const INTERNAL_POD := Pod("internal", "0.0.0.0")

  predicate SamePod(owner: Identity, p: Pod) {
    owner.name == p.name && owner.nodeInfo.ip == p.ip
  }

  /** No row of the table is the pod's. */
  predicate Absent(election: seq<Election.Row>, p: Pod) {
    forall r :: r in election ==> !SamePod(r.owner, p)
  }

  predicate WrittenBy(e: Event, p: Pod) {
    e.Elect? && e.step.fault == Election.NoFault && e.step.txn.TryWrite? && SamePod(e.step.txn.c.owner, p)
  }

  /** Nothing but a win changes the owner of a row. */
  lemma OwnersLast(election: seq<Election.Row>, step: Election.Step, i: nat)
    requires step.fault == Election.NoFault && (step.txn.Shift? || step.txn.Reset?) && i < |election|
    ensures |Election.After(election, step)| == |election|
    ensures Election.After(election, step)[i].owner == election[i].owner
  {
  }

  lemma AbsentAfterWrite(election: seq<Election.Row>, step: Election.Step, p: Pod)
    requires step.fault == Election.NoFault && step.txn.TryWrite?
    requires Absent(election, p) && !SamePod(step.txn.c.owner, p)
    ensures Absent(Election.After(election, step), p)
  {
    Election.WinnerOwnsTable(election, step);
  }

  lemma AbsenceLasts(election: seq<Election.Row>, step: Election.Step, p: Pod)
    requires Absent(election, p) && !WrittenBy(Elect(step), p) && p != INTERNAL_POD
    ensures Absent(Election.After(election, step), p)
  {
    if step.fault == Election.NoFault {
      match step.txn
      case AddInternal =>
      case DropNotInternal => Election.OnlyInternalIsFilter(election);
      case TryWrite(_) => AbsentAfterWrite(election, step, p);
      case _ =>
        forall r | r in Election.After(election, step)
          ensures !SamePod(r.owner, p)
        {
          var i :| 0 <= i < |Election.After(election, step)| && Election.After(election, step)[i] == r;
          OwnersLast(election, step, i);
        }
    }
  }

  /** Once another pod's win has committed before the check, no flush of the pod commits
      until the pod itself wins again; its check fails whenever it comes. */
  lemma {:induction false} TakeoverStopsCommits(w: World, events: seq<Event>, p: Pod, win: nat, k: nat)
    requires Possible(w, events) && win < k <= |events| && p != INTERNAL_POD
    requires events[win].Elect? && events[win].step.fault == Election.NoFault && events[win].step.txn.TryWrite?
    requires Election.Wins(At(w, events, win).election, events[win].step.txn.c, events[win].step.time)
    requires !SamePod(events[win].step.txn.c.owner, p) && !PhaseOf(At(w, events, win), p).Checked?
    requires forall j :: win < j < k ==> !WrittenBy(events[j], p)
    ensures Absent(At(w, events, k).election, p) && !PhaseOf(At(w, events, k), p).Checked?
    ensures forall j :: win <= j < k ==> Stopped(w, events, p, j)
  {
    if k == win + 1 {
      WinMakesAbsent(At(w, events, win), events[win], p);
    } else {
      TakeoverStopsCommits(w, events, p, win, k - 1);
      TakeoverGoesOn(w, events, p, k - 1);
    }
  }

  lemma TakeoverGoesOn(w: World, events: seq<Event>, p: Pod, m: nat)
    requires Possible(w, events) && m < |events| && p != INTERNAL_POD && !WrittenBy(events[m], p)
    requires Absent(At(w, events, m).election, p) && !PhaseOf(At(w, events, m), p).Checked?
    ensures Absent(At(w, events, m + 1).election, p) && !PhaseOf(At(w, events, m + 1), p).Checked?
    ensures Stopped(w, events, p, m)
  {
    assert EnabledAt(w, events, m);
    AbsentPodStaysOut(At(w, events, m), events[m], p);
  }

  /** Step j is no commit of the pod, and if it is its check then the check fails. */
  ghost predicate Stopped(w: World, events: seq<Event>, p: Pod, j: nat)
    requires j < |events|
  {
    && !(events[j].Commit? && events[j].pod == p)
    && (events[j].Check? && events[j].pod == p ==> PhaseOf(At(w, events, j + 1), p).Idle?)
  }

  lemma WinMakesAbsent(w: World, e: Event, p: Pod)
    requires e.Elect? && e.step.fault == Election.NoFault && e.step.txn.TryWrite?
    requires Election.Wins(w.election, e.step.txn.c, e.step.time) && !SamePod(e.step.txn.c.owner, p)
    ensures Absent(Apply(w, e).election, p) && PhaseOf(Apply(w, e), p) == PhaseOf(w, p)
  {
    Election.WinnerOwnsTable(w.election, e.step);
  }

  lemma AbsentPodStaysOut(w: World, e: Event, p: Pod)
    requires Enabled(w, e) && p != INTERNAL_POD
    requires Absent(w.election, p) && !PhaseOf(w, p).Checked? && !WrittenBy(e, p)
    ensures Absent(Apply(w, e).election, p) && !PhaseOf(Apply(w, e), p).Checked?
    ensures !(e.Commit? && e.pod == p)
    ensures e.Check? && e.pod == p ==> PhaseOf(Apply(w, e), p).Idle?
  {
    if e.Elect? {
      AbsenceLasts(w.election, e.step, p);
    } else if !Concerns(e, p) {
      OthersStay(w, e, p);
    }
  }

  // ---------------------------------------------------------------- memory of the master

  /** No election transaction takes the table away from a pod between its check and its commit. */
  ghost predicate Gapless(w: World, e: Event) {
    e.Elect? ==> forall p: Pod :: PhaseOf(w, p).Checked? ==> Names(Election.After(w.election, e.step), p)
  }

  /** What the database holds while the pod is true to it: the pod's memory with every write
      undone that has not been saved. Between the two commits of a flush that is the memory to
      be published. */
  function Owed(n: Node): Store {
    if n.phase.Committed? then n.phase.target + (n.drift - SlotsIn(n.phase.changes)) else n.ram + n.drift
  }

  /** A loaded pod's memory is the database but for what is adrift, and a loading pod's view is
      the database as far as it has read. */
  ghost predicate PodCoherent(w: World, p: Pod) {
    && (p in w.loaded ==> w.db == Owed(NodeOf(w, p)))
    && (p in w.loading ==>
          PhaseOf(w, p).Loading? && PhaseOf(w, p).view == TablesOf(w.db, PhaseOf(w, p).read))
  }

  ghost predicate Coherent(w: World) {
    forall p: Pod :: PodCoherent(w, p)
  }

  /** A pod's flush was computed from the memory it still has. */
  ghost predicate FlushFits(ram: Store, phase: Phase) {
    match phase
    case Idle => true
    case Loading(view, _) => Keyed(view)
    case _ => Keyed(phase.target) && NetChanges(ram, phase.target, phase.changes)
  }

  ghost predicate NodeFits(n: Node) {
    Keyed(n.ram) && Keyed(n.drift) && n.drift.Keys <= n.ram.Keys && FlushFits(n.ram, n.phase)
  }

  ghost predicate PodWellFormed(w: World, p: Pod) {
    && NodeFits(NodeOf(w, p))
    && (p in w.loaded ==> Names(w.election, p))
    && (p in w.loading ==> Names(w.election, p) && PhaseOf(w, p).Loading?)
  }

  /** What the steps keep without any assumption on the schedule. */
  ghost predicate WellFormed(w: World) {
    && Keyed(w.db)
    && (forall p: Pod :: PodWellFormed(w, p))
  }

  ghost predicate CheckedAreNamed(w: World) {
    forall p: Pod :: PhaseOf(w, p).Checked? ==> Names(w.election, p)
  }

  lemma {:induction false} ExecKeepsKeyed(s: Store, stmts: seq<Statement>)
    requires Keyed(s)
    ensures Keyed(ExecAll(s, stmts))
    decreases |stmts|
  {
    if stmts != [] {
      ExecKeepsKeyed(Exec(s, stmts[0]), stmts[1..]);
    }
  }

  /** Where nothing has changed the rows are those of before. */
  lemma UnchangedStay(ram: Store, target: Store, changes: seq<Change>, p: Slot)
    requires NetChanges(ram, target, changes) && p !in SlotsIn(changes)
    ensures Get(ram, p) == Get(target, p)
  {
    assert forall i :: 0 <= i < |changes| ==> changes[i] in changes;
  }

  lemma DriftStaysWithin(n: Node, target: Store, changes: seq<Change>)
    requires n.drift.Keys <= n.ram.Keys && NetChanges(n.ram, target, changes)
    ensures (n.drift - SlotsIn(changes)).Keys <= target.Keys
  {
    forall p | p in n.drift - SlotsIn(changes)
      ensures p in target
    {
      UnchangedStay(n.ram, target, changes, p);
    }
  }

  lemma MovedFits(n: Node, e: Event, db: Store, named: bool)
    requires NodeFits(n) && Allows(n, e) && Keyed(db)
    ensures NodeFits(Moved(n, e, db, named))
  {
    if e.Publish? {
      DriftStaysWithin(n, n.phase.target, n.phase.changes);
    }
  }

  lemma StepKeepsPod(w: World, e: Event, p: Pod)
    requires Keyed(w.db) && PodWellFormed(w, p) && Enabled(w, e)
    ensures PodWellFormed(Apply(w, e), p)
  {
    if Concerns(e, p) {
      OwnMoves(w, e);
      MovedFits(NodeOf(w, p), e, w.db, Names(w.election, p));
    } else {
      OthersStay(w, e, p);
    }
  }

  lemma StepKeepsWellFormed(w: World, e: Event)
    requires WellFormed(w) && Enabled(w, e)
    ensures WellFormed(Apply(w, e))
  {
    if e.Commit? && e.ok {
      ExecKeepsKeyed(w.db, Plan(PhaseOf(w, e.pod).changes));
    }
    forall p: Pod
      ensures PodWellFormed(Apply(w, e), p)
    {
      assert PodWellFormed(w, p);
      StepKeepsPod(w, e, p);
    }
  }

  /** Of the pods the election table can name there is only one. */
  lemma NamesOne(election: seq<Election.Row>, p: Pod, q: Pod)
    requires Names(election, p) && Names(election, q)
    ensures p == q
  {
  }

  lemma StepKeepsNamed(w: World, e: Event)
    requires Gapless(w, e) && CheckedAreNamed(w)
    ensures CheckedAreNamed(Apply(w, e))
  {
    forall p: Pod | PhaseOf(Apply(w, e), p).Checked?
      ensures Names(Apply(w, e).election, p)
    {
      if !Concerns(e, p) {
        OthersStay(w, e, p);
      } else {
        OwnMoves(w, e);
      }
    }
  }

  // ---------------------------------------------------------------- reading table by table

  lemma ReadNothing(db: Store)
    ensures TablesOf(db, {}) == map[]
  {
  }

  lemma ReadEverything(db: Store, read: set<Table>)
    requires forall t: Table :: t in read
    ensures TablesOf(db, read) == db
  {
  }

  /** The two stores agree on these tables. */
  ghost predicate SameIn(a: Store, b: Store, tables: set<Table>) {
    forall s: Slot :: s.table in tables ==> Get(a, s) == Get(b, s)
  }

  lemma SameTablesIff(a: Store, b: Store, tables: set<Table>)
    ensures TablesOf(a, tables) == TablesOf(b, tables) <==> SameIn(a, b, tables)
  {
    forall s: Slot
      ensures Get(TablesOf(a, tables), s) == if s.table in tables then Get(a, s) else None
      ensures Get(TablesOf(b, tables), s) == if s.table in tables then Get(b, s) else None
    {
    }
    if SameIn(a, b, tables) {
      SameSlots(TablesOf(a, tables), TablesOf(b, tables));
    }
  }

  // ---------------------------------------------------------------- memory and database

  lemma DriftUndone(ram: Store, drift: Store, target: Store, changes: seq<Change>)
    requires drift.Keys <= ram.Keys && NetChanges(ram, target, changes)
    ensures Taken(ram + drift, target, SlotsIn(changes)) == target + (drift - SlotsIn(changes))
  {
    var slots := SlotsIn(changes);
    forall p: Slot
      ensures Get(Taken(ram + drift, target, slots), p) == Get(target + (drift - slots), p)
    {
      TakenAt(ram + drift, target, slots, p);
      if p !in slots {
        UnchangedStay(ram, target, changes, p);
      }
    }
    SameSlots(Taken(ram + drift, target, slots), target + (drift - slots));
  }

  /** A plan computed from memory makes of the database what is owed once it has been run. */
  lemma PlanGivesOwed(n: Node)
    requires NodeFits(n) && n.phase.Checked?
    ensures ExecAll(Owed(n), Plan(n.phase.changes)) == Owed(n.(phase := Committed(n.phase.target, n.phase.changes)))
  {
    var db := n.ram + n.drift;
    assert db.Keys == n.ram.Keys;
    PlanTakes(db, n.ram, n.phase.target, n.phase.changes);
    DriftUndone(n.ram, n.drift, n.phase.target, n.phase.changes);
  }

  lemma WriteOwesTheSame(n: Node, s: Slot, row: Entity)
    requires s in n.ram
    ensures n.ram[s := row] + Noted(n.drift, n.ram, s) == n.ram + n.drift
  {
  }

  /** No step of a pod changes what is owed to it, but for a commit and the end of a load. */
  lemma MovedOwes(n: Node, e: Event, db: Store, named: bool)
    requires NodeFits(n) && Allows(n, e) && !(e.Commit? && e.ok)
    ensures Owed(Moved(n, e, db, named)) == if e.LoadEnd? then n.phase.view else Owed(n)
  {
    if e.Write? {
      WriteOwesTheSame(n, e.slot, e.row);
    } else if e.LoadEnd? {
      assert n.phase.view + map[] == n.phase.view;
    } else {
      OtherwiseOwed(n, e, db, named);
    }
  }

  lemma OtherwiseOwed(n: Node, e: Event, db: Store, named: bool)
    requires Allows(n, e) && !(e.Commit? && e.ok) && !e.Write? && !e.LoadEnd?
    ensures Owed(Moved(n, e, db, named)) == Owed(n)
  {
  }

  /** Every row written in place has its old value again. */
  ghost predicate Settled(n: Node) {
    forall s :: s in n.drift && s in n.ram ==> n.drift[s] == n.ram[s]
  }

  /** A loaded pod that is not between its two commits holds the database if and only if every
      row written in place has been saved since or has its old value again. */
  lemma HoldsDatabaseIff(w: World, p: Pod)
    requires PodWellFormed(w, p) && PodCoherent(w, p) && p in w.loaded && !PhaseOf(w, p).Committed?
    ensures Ram(w, p) == w.db <==> Settled(NodeOf(w, p))
    ensures Ram(w, p).Keys == w.db.Keys
  {
    var n := NodeOf(w, p);
    forall s: Slot
      ensures Get(n.ram + n.drift, s) == if s in n.drift then Some(n.drift[s]) else Get(n.ram, s)
    {
    }
    if Settled(n) {
      SameSlots(n.ram + n.drift, n.ram);
    }
  }

  // ---------------------------------------------------------------- commits

  /** With this database instead, a loaded pod would still hold it, and a loading pod would
      have read it. */
  ghost predicate Seen(w: World, db: Store, q: Pod) {
    && (q in w.loaded ==> db == w.db)
    && (q in w.loading ==> PhaseOf(w, q).Loading? && SameIn(w.db, db, PhaseOf(w, q).read))
  }

  /** A pod like another sees of this database what that one does. */
  lemma DatabaseSeen(w: World, v: World, q: Pod)
    requires PodCoherent(w, q) && NodeOf(v, q) == NodeOf(w, q) && v.loading == w.loading && v.loaded == w.loaded
    ensures PodCoherent(v, q) <==> Seen(w, v.db, q)
  {
    if q in w.loading {
      SameTablesIff(w.db, v.db, PhaseOf(w, q).read);
    }
  }

  /** What a commit makes of the database. */
  function CommittedBy(w: World, p: Pod): Store
    requires PhaseOf(w, p).Checked?
  {
    ExecAll(w.db, Plan(PhaseOf(w, p).changes))
  }

  lemma CommitSeen(w: World, p: Pod, q: Pod)
    requires PodWellFormed(w, p) && PhaseOf(w, p).Checked? && PodCoherent(w, p) && PodCoherent(w, q)
    ensures q != p ==> (PodCoherent(Apply(w, Commit(p, true)), q) <==> Seen(w, CommittedBy(w, p), q))
    ensures PodCoherent(Apply(w, Commit(p, true)), p)
  {
    CommitOwes(w, p);
    if q != p {
      CommitSeenByOther(w, p, q);
    }
  }

  lemma CommitSeenByOther(w: World, p: Pod, q: Pod)
    requires PhaseOf(w, p).Checked? && PodCoherent(w, q) && q != p
    ensures PodCoherent(Apply(w, Commit(p, true)), q) <==> Seen(w, CommittedBy(w, p), q)
  {
    var after := Apply(w, Commit(p, true));
    OthersStay(w, Commit(p, true), q);
    CommitMoves(w, p);
    DatabaseSeen(w, after, q);
  }

  lemma CommitMoves(w: World, p: Pod)
    requires PhaseOf(w, p).Checked?
    ensures var n, after := NodeOf(w, p), Apply(w, Commit(p, true));
            && NodeOf(after, p) == n.(phase := Committed(n.phase.target, n.phase.changes))
            && after.db == CommittedBy(w, p) && after.loaded == w.loaded && after.loading == w.loading
  {
    OwnMoves(w, Commit(p, true));
  }

  lemma CommitOwes(w: World, p: Pod)
    requires PodWellFormed(w, p) && PhaseOf(w, p).Checked? && PodCoherent(w, p)
    ensures PodCoherent(Apply(w, Commit(p, true)), p)
  {
    var n, db, after := NodeOf(w, p), w.db, Apply(w, Commit(p, true));
    CommitMoves(w, p);
    if p in w.loaded {
      PlanGivesOwed(n);
      assert after.db == Owed(NodeOf(after, p));
    }
  }

  /** Nobody who has loaded, or is loading, has read anything that this database changes. */
  ghost predicate Unread(w: World, db: Store) {
    forall q: Pod :: Seen(w, db, q)
  }

  lemma UnnamedSeesAny(w: World, db: Store, p: Pod)
    requires PodWellFormed(w, p) && !Names(w.election, p)
    ensures Seen(w, db, p)
  {
  }

  lemma OthersUnnamedSeeAny(w: World, db: Store, p: Pod, q: Pod)
    requires PodWellFormed(w, q) && Names(w.election, p) && q != p
    ensures Seen(w, db, q)
  {
    if Names(w.election, q) {
      NamesOne(w.election, p, q);
    }
  }

  /** A commit keeps the loaded memories and the loading views true exactly when the table
      still names the committing pod, or it changes nothing that they have read. */
  lemma CommitKeepsCoherentIff(w: World, p: Pod)
    requires WellFormed(w) && Coherent(w) && PhaseOf(w, p).Checked?
    ensures Coherent(Apply(w, Commit(p, true))) <==> Names(w.election, p) || Unread(w, CommittedBy(w, p))
  {
    var after, db := Apply(w, Commit(p, true)), CommittedBy(w, p);
    forall q: Pod
      ensures q != p ==> (PodCoherent(after, q) <==> Seen(w, db, q))
      ensures PodCoherent(after, p)
      ensures !Names(w.election, p) ==> Seen(w, db, p)
      ensures Names(w.election, p) && q != p ==> Seen(w, db, q)
    {
      assert PodWellFormed(w, p) && PodCoherent(w, p) && PodWellFormed(w, q) && PodCoherent(w, q);
      CommitSeen(w, p, q);
      if !Names(w.election, p) {
        UnnamedSeesAny(w, db, p);
      } else if q != p {
        OthersUnnamedSeeAny(w, db, p, q);
      }
    }
  }

  lemma OwnStepKeepsCoherent(w: World, e: Event, p: Pod)
    requires PodWellFormed(w, p) && PodCoherent(w, p) && Enabled(w, e) && Concerns(e, p)
    requires !(e.Commit? && e.ok)
    ensures PodCoherent(Apply(w, e), p)
  {
    OwnMoves(w, e);
    MovedOwes(NodeOf(w, p), e, w.db, Names(w.election, p));
    match e
    case LoadStart(_) => ReadNothing(w.db);
    case LoadTable(_, t) => Repository.LoadTable(w.db, PhaseOf(w, p).read, t);
    case LoadEnd(_) => ReadEverything(w.db, PhaseOf(w, p).read);
    case _ =>
  }

  lemma StepKeepsPodCoherent(w: World, e: Event, p: Pod)
    requires PodWellFormed(w, p) && PodCoherent(w, p) && Enabled(w, e)
    requires !(e.Commit? && e.ok)
    ensures PodCoherent(Apply(w, e), p)
  {
    if Concerns(e, p) {
      OwnStepKeepsCoherent(w, e, p);
    } else {
      OthersStay(w, e, p);
    }
  }

  lemma StepKeepsCoherent(w: World, e: Event)
    requires WellFormed(w) && Enabled(w, e) && CheckedAreNamed(w) && Coherent(w)
    ensures Coherent(Apply(w, e))
  {
    if e.Commit? && e.ok {
      CommitKeepsCoherentIff(w, e.pod);
    } else {
      forall p: Pod
        ensures PodCoherent(Apply(w, e), p)
      {
        assert PodWellFormed(w, p) && PodCoherent(w, p);
        StepKeepsPodCoherent(w, e, p);
      }
    }
  }

  /** Every pod is well formed, checked pods are named, and what is loaded is coherent. */
  ghost predicate InOrder(w: World) {
    WellFormed(w) && CheckedAreNamed(w) && Coherent(w)
  }

  lemma StepKeepsOrder(w: World, e: Event)
    requires InOrder(w) && Enabled(w, e) && Gapless(w, e)
    ensures InOrder(Apply(w, e))
  {
    StepKeepsWellFormed(w, e);
    StepKeepsNamed(w, e);
    StepKeepsCoherent(w, e);
  }

  ghost predicate GaplessAt(w: World, events: seq<Event>, k: nat)
    requires k < |events|
  {
    Gapless(At(w, events, k), events[k])
  }

  /** In every interleaving in which no takeover falls between a check and its commit, a
      master that has loaded the database, table by table, since it was elected holds the
      database in memory but for the rows that have been written in place and not been saved
      since, whatever fails; between the two commits of its flush it is about to. */
  lemma {:induction false} MasterMemoryIsDatabase(w: World, events: seq<Event>, k: nat)
    requires InOrder(w) && Possible(w, events) && k <= |events|
    requires forall j :: 0 <= j < k ==> GaplessAt(w, events, j)
    ensures InOrder(At(w, events, k))
  {
    if k > 0 {
      var m := k - 1;
      MasterMemoryIsDatabase(w, events, m);
      assert EnabledAt(w, events, m) && GaplessAt(w, events, m);
      StepKeepsOrder(At(w, events, m), events[m]);
    }
  }

  /** So it holds exactly the database at every moment at which all of these rows have been
      saved or have their old values again, and at no other outside the two commits. */
  lemma MasterHoldsDatabaseIff(w: World, events: seq<Event>, k: nat, p: Pod)
    requires InOrder(w) && Possible(w, events) && k <= |events|
    requires forall j :: 0 <= j < k ==> GaplessAt(w, events, j)
    requires p in At(w, events, k).loaded && !PhaseOf(At(w, events, k), p).Committed?
    ensures Ram(At(w, events, k), p) == At(w, events, k).db <==> Settled(NodeOf(At(w, events, k), p))
  {
    MasterMemoryIsDatabase(w, events, k);
    var v := At(w, events, k);
    assert PodWellFormed(v, p) && PodCoherent(v, p);
    HoldsDatabaseIff(v, p);
  }

  // ---------------------------------------------------------------- what is adrift

  /** The step writes into the pod's row in this slot. */
  predicate Writes(e: Event, p: Pod, s: Slot) {
    e.Write? && e.pod == p && e.slot == s
  }

  /** The step saves the pod's row in this slot, or replaces all its rows. */
  predicate Saves(w: World, e: Event, p: Pod, s: Slot) {
    || (e.LoadEnd? && e.pod == p)
    || (e.Publish? && e.pod == p && PhaseOf(w, p).Committed? && s in SlotsIn(PhaseOf(w, p).changes))
  }

  /** Step j wrote into the row, and no step since has saved it. */
  ghost predicate UnsavedSince(w: World, events: seq<Event>, p: Pod, s: Slot, j: nat, k: nat)
    requires k <= |events|
  {
    j < k && Writes(events[j], p, s) && forall i :: j < i < k ==> !Saves(At(w, events, i), events[i], p, s)
  }

  ghost predicate Unsaved(w: World, events: seq<Event>, p: Pod, s: Slot, k: nat)
    requires k <= |events|
  {
    exists j :: UnsavedSince(w, events, p, s, j, k)
  }

  lemma UnsavedOneMore(w: World, events: seq<Event>, p: Pod, s: Slot, k: nat)
    requires 0 < k <= |events|
    ensures Unsaved(w, events, p, s, k) <==>
            Writes(events[k - 1], p, s) ||
            (Unsaved(w, events, p, s, k - 1) && !Saves(At(w, events, k - 1), events[k - 1], p, s))
  {
    var m := k - 1;
    if Writes(events[m], p, s) {
      assert UnsavedSince(w, events, p, s, m, k);
    } else {
      if j :| UnsavedSince(w, events, p, s, j, k) {
        assert UnsavedSince(w, events, p, s, j, m) && !Saves(At(w, events, m), events[m], p, s);
      }
      if !Saves(At(w, events, m), events[m], p, s) {
        if j :| UnsavedSince(w, events, p, s, j, m) {
          assert UnsavedSince(w, events, p, s, j, k);
        }
      }
    }
  }

  lemma DriftOneMore(w: World, e: Event, p: Pod, s: Slot)
    requires Enabled(w, e)
    ensures s in NodeOf(Apply(w, e), p).drift <==>
            Writes(e, p, s) || (s in NodeOf(w, p).drift && !Saves(w, e, p, s))
  {
    if Concerns(e, p) {
      OwnMoves(w, e);
    } else {
      OthersStay(w, e, p);
    }
  }

  /** What is adrift are exactly the rows that some step has written and none since has saved. */
  lemma {:induction false} DriftIsUnsaved(w: World, events: seq<Event>, p: Pod, s: Slot, k: nat)
    requires Possible(w, events) && k <= |events| && s !in NodeOf(w, p).drift
    ensures s in NodeOf(At(w, events, k), p).drift <==> Unsaved(w, events, p, s, k)
  {
    if k > 0 {
      DriftIsUnsaved(w, events, p, s, k - 1);
      assert EnabledAt(w, events, k - 1);
      DriftOneMore(At(w, events, k - 1), events[k - 1], p, s);
      UnsavedOneMore(w, events, p, s, k);
    }
  }

  // ---------------------------------------------------------------- the lease makes it so

  /** The election transactions among the first k events. */
  function ElectsOf(events: seq<Event>, k: nat): seq<Election.Step>
    requires k <= |events|
  {
    if k == 0 then [] else ElectsOf(events, k - 1) + if events[k - 1].Elect? then [events[k - 1].step] else []
  }

  lemma {:induction false} ElectionOf(w: World, events: seq<Event>, k: nat)
    requires k <= |events|
    ensures At(w, events, k).election == Election.At(w.election, ElectsOf(events, k), |ElectsOf(events, k)|)
  {
    if k > 0 {
      ElectionOf(w, events, k - 1);
      var before, e := ElectsOf(events, k - 1), events[k - 1];
      if e.Elect? {
        Election.AtSum(w.election, before, [e.step]);
        Election.AtOne(At(w, events, k - 1).election, e.step);
      } else {
        assert before + [] == before;
      }
    }
  }

  lemma {:induction false} ElectsGrow(events: seq<Event>, k: nat, n: nat)
    requires k <= n <= |events|
    ensures ElectsOf(events, k) <= ElectsOf(events, n)
  {
    if k < n {
      ElectsGrow(events, k, n - 1);
    }
  }

  /** The pod's row as its win left it, and transactions that keep its lease. */
  predicate Leased(election: seq<Election.Row>, p: Pod, holder: Election.Row, win: int, steps: seq<Election.Step>) {
    && election == [holder] && SamePod(holder.owner, p) && holder.syncClock == win + Election.WIN_LEASE
    && Election.Ordered(win, steps)
    && (forall j :: 0 <= j < |steps| ==> Election.Covered(win, steps, j) && Election.Quiet(steps[j], holder))
    && (forall j :: 0 <= j < |steps| && steps[j].fault == Election.NoFault && steps[j].txn.Shift? ==>
          Election.Prolongs(steps[j]))
  }

  lemma LeasedIsNamed(w: World, events: seq<Event>, p: Pod, holder: Election.Row, win: int, k: nat)
    requires k <= |events| && Leased(w.election, p, holder, win, ElectsOf(events, |events|))
    ensures Names(At(w, events, k).election, p)
  {
    var steps, upTo := ElectsOf(events, |events|), ElectsOf(events, k);
    ElectsGrow(events, k, |events|);
    ElectionOf(w, events, k);
    Election.AtStretch(w.election, steps, 0, upTo, |upTo|);
    Election.LeaseRetention(holder, win, steps, |upTo|);
  }

  /** While the lease is kept no takeover falls between any check and its commit. */
  lemma {:induction false} LeasedIsGapless(w: World, events: seq<Event>, p: Pod, holder: Election.Row, win: int, k: nat)
    requires k <= |events| && Leased(w.election, p, holder, win, ElectsOf(events, |events|))
    requires CheckedAreNamed(w)
    ensures CheckedAreNamed(At(w, events, k))
    ensures forall j :: 0 <= j < k ==> GaplessAt(w, events, j)
  {
    if k > 0 {
      var m := k - 1;
      LeasedIsGapless(w, events, p, holder, win, m);
      LeasedIsNamed(w, events, p, holder, win, m);
      LeasedIsNamed(w, events, p, holder, win, k);
      NamedStepIsGapless(At(w, events, m), events[m], p);
      assert GaplessAt(w, events, m);
      StepKeepsNamed(At(w, events, m), events[m]);
    }
  }

  lemma NamedStepIsGapless(w: World, e: Event, p: Pod)
    requires CheckedAreNamed(w) && Names(w.election, p) && Names(Apply(w, e).election, p)
    ensures Gapless(w, e)
  {
    forall q: Pod | PhaseOf(w, q).Checked?
      ensures q == p
    {
      NamesOne(w.election, p, q);
    }
  }

  /** So under a lease that is kept the master's memory is the database, with no assumption
      about checks and commits, as long as no row written in place is left unsaved. */
  lemma LeasedMasterHoldsDatabaseIff(w: World, events: seq<Event>, p: Pod, holder: Election.Row, win: int, k: nat)
    requires InOrder(w) && Possible(w, events) && k <= |events|
    requires Leased(w.election, p, holder, win, ElectsOf(events, |events|))
    ensures InOrder(At(w, events, k)) && Names(At(w, events, k).election, p)
    ensures p in At(w, events, k).loaded && !PhaseOf(At(w, events, k), p).Committed? ==>
              (Ram(At(w, events, k), p) == At(w, events, k).db <==> Settled(NodeOf(At(w, events, k), p)))
  {
    LeasedIsGapless(w, events, p, holder, win, k);
    LeasedIsNamed(w, events, p, holder, win, k);
    MasterMemoryIsDatabase(w, events, k);
    if p in At(w, events, k).loaded && !PhaseOf(At(w, events, k), p).Committed? {
      MasterHoldsDatabaseIff(w, events, k, p);
    }
  }

  /** The prolongation loop keeps such a lease, with rounds in time and other nodes harmless. */
  lemma RoundsAreLeased(election: seq<Election.Row>, p: Pod, holder: Election.Row, win: int,
                        rounds: seq<Elector.Round>, shift: int)
    requires election == [holder] && SamePod(holder.owner, p) && holder.syncClock == win + Election.WIN_LEASE
    requires Elector.Regular(win, rounds, shift, holder)
    ensures Leased(election, p, holder, win, Elector.Schedule(rounds, shift, |rounds|))
  {
    var steps := Elector.Schedule(rounds, shift, |rounds|);
    forall j | 0 <= j < |steps|
      ensures Election.Covered(win, steps, j) && Elector.Harmless(steps[j], holder)
    {
      Elector.RegularIsCovered(win, rounds, shift, holder, j);
    }
  }

  // ---------------------------------------------------------------- runs of one pod

  /** From w the events can happen, and they lead to v. */
  ghost predicate Leads(w: World, events: seq<Event>, v: World) {
    Possible(w, events) && At(w, events, |events|) == v
  }

  lemma {:induction false} AtPrefix(w: World, a: seq<Event>, b: seq<Event>, k: nat)
    requires k <= |a|
    ensures At(w, a + b, k) == At(w, a, k)
  {
    if k > 0 {
      AtPrefix(w, a, b, k - 1);
    }
  }

  lemma AtNext(w: World, events: seq<Event>, k: nat)
    requires k < |events|
    ensures At(w, events, k + 1) == Apply(At(w, events, k), events[k])
  {
  }

  lemma {:induction false} AtStretch(w: World, events: seq<Event>, i: nat, v: World, part: seq<Event>, k: nat)
    requires k <= |part| && i + |part| <= |events| && At(w, events, i) == v
    requires forall j :: 0 <= j < |part| ==> events[i + j] == part[j]
    ensures At(w, events, i + k) == At(v, part, k)
  {
    if k > 0 {
      var m := k - 1;
      AtStretch(w, events, i, v, part, m);
      AtNext(w, events, i + m);
      AtNext(v, part, m);
    }
  }

  lemma AtConcat(w: World, a: seq<Event>, b: seq<Event>, k: nat)
    requires k <= |b|
    ensures At(w, a + b, |a| + k) == At(At(w, a, |a|), b, k)
  {
    AtPrefix(w, a, b, |a|);
    AtStretch(w, a + b, |a|, At(w, a, |a|), b, k);
  }

  lemma EnabledInSum(w: World, a: seq<Event>, b: seq<Event>, k: nat)
    requires k < |a + b| && Possible(w, a) && Possible(At(w, a, |a|), b)
    ensures EnabledAt(w, a + b, k)
  {
    if k < |a| {
      AtPrefix(w, a, b, k);
      assert EnabledAt(w, a, k) && (a + b)[k] == a[k];
    } else {
      var m := k - |a|;
      AtConcat(w, a, b, m);
      assert EnabledAt(At(w, a, |a|), b, m) && (a + b)[k] == b[m];
    }
  }

  lemma LeadsOn(w: World, a: seq<Event>, v: World, b: seq<Event>, u: World)
    requires Leads(w, a, v) && Leads(v, b, u)
    ensures Leads(w, a + b, u)
  {
    AtConcat(w, a, b, |b|);
    forall k | 0 <= k < |a + b|
      ensures EnabledAt(w, a + b, k)
    {
      EnabledInSum(w, a, b, k);
    }
  }

  lemma LeadsNowhere(w: World)
    ensures Leads(w, [], w)
  {
  }

  lemma LeadsOne(w: World, e: Event)
    requires Enabled(w, e)
    ensures Leads(w, [e], Apply(w, e))
  {
    assert At(w, [e], 0) == w && At(w, [e], 1) == Apply(w, [e][0]);
    assert forall k :: 0 <= k < 1 ==> At(w, [e], k) == w && [e][k] == e;
  }

  lemma LeadsOneMore(w: World, a: seq<Event>, v: World, e: Event)
    requires Leads(w, a, v) && Enabled(v, e)
    ensures Leads(w, a + [e], Apply(v, e))
  {
    LeadsOne(v, e);
    LeadsOn(w, a, v, [e], Apply(v, e));
  }

  /** The world with another pod in this place. */
  function Put(w: World, p: Pod, n: Node): World {
    w.(nodes := w.nodes[p := n])
  }

  lemma PutTwo(w: World, p: Pod, a: Node, b: Node)
    ensures Put(Put(w, p, a), p, b) == Put(w, p, b) && NodeOf(Put(w, p, a), p) == a
  {
    assert w.nodes[p := a][p := b] == w.nodes[p := b];
  }

  /** A step of the pod that changes nothing but the pod. */
  lemma LeadsPut(w: World, a: seq<Event>, p: Pod, n: Node, e: Event)
    requires Leads(w, a, Put(w, p, n)) && Allows(n, e) && !e.Elect? && e.pod == p
    requires e.LoadTable? || e.Write? || e.Begin? || e.Send? || e.Check?
    ensures Leads(w, a + [e], Put(w, p, Moved(n, e, w.db, Names(w.election, p))))
  {
    var v := Put(w, p, n);
    PutTwo(w, p, n, Moved(n, e, w.db, Names(w.election, p)));
    LeadsOneMore(w, a, v, e);
  }

  lemma LeadsToItself(w: World, p: Pod)
    requires p in w.nodes
    ensures Leads(w, [], Put(w, p, NodeOf(w, p)))
  {
    LeadsNowhere(w);
    assert w.nodes[p := w.nodes[p]] == w.nodes;
  }

  // ---------------------------------------------------------------- a load by itself

  function LoadsOf(p: Pod, order: seq<Table>): seq<Event> {
    seq(|order|, i requires 0 <= i < |order| => LoadTable(p, order[i]))
  }

  /** A pod's load without any other step in between. */
  function LoadRun(p: Pod, order: seq<Table>): seq<Event> {
    [LoadStart(p)] + LoadsOf(p, order) + [LoadEnd(p)]
  }

  /** Having read these tables and nothing since. */
  function ReadPhase(db: Store, read: set<Table>): Phase {
    Loading(TablesOf(db, read), read)
  }

  /** Reading one table more. */
  lemma LoadOneMore(w: World, p: Pod, n: Node, read: set<Table>, t: Table)
    requires n.phase == ReadPhase(w.db, read) && t !in read
    ensures Allows(n, LoadTable(p, t))
    ensures Moved(n, LoadTable(p, t), w.db, Names(w.election, p)) == n.(phase := ReadPhase(w.db, read + {t}))
  {
    Repository.LoadTable(w.db, read, t);
  }

  lemma {:induction false} LoadsLead(w: World, p: Pod, n: Node, order: seq<Table>, k: nat)
    requires p in w.nodes && NodeOf(w, p) == n && n.phase == Loading(map[], {}) && Distinct(order) && k <= |order|
    ensures Leads(w, LoadsOf(p, order)[..k], Put(w, p, n.(phase := ReadPhase(w.db, Elements(order[..k])))))
  {
    if k == 0 {
      ReadNothing(w.db);
      assert Elements(order[..0]) == {};
      assert LoadsOf(p, order)[..0] == [];
      LeadsToItself(w, p);
    } else {
      var read, t := Elements(order[..k - 1]), order[k - 1];
      LoadsLead(w, p, n, order, k - 1);
      PrefixSnoc(order, k - 1);
      ElementsSnoc(order[..k - 1], t);
      PrefixSnoc(LoadsOf(p, order), k - 1);
      LoadOneMore(w, p, n.(phase := ReadPhase(w.db, read)), read, t);
      LeadsPut(w, LoadsOf(p, order)[..k - 1], p, n.(phase := ReadPhase(w.db, read)), LoadTable(p, t));
    }
  }

  /** The pod with the database in memory, counted as loaded if and only if it is named. */
  function Reloaded(w: World, p: Pod): World {
    Put(w, p, Node(w.db, Idle, map[])).(loading := w.loading - {p}, loaded := With(w.loaded, p, Names(w.election, p)))
  }

  lemma LoadEndStep(w: World, p: Pod, n: Node, read: set<Table>)
    requires n.phase == ReadPhase(w.db, read) && forall t: Table :: t in read
    ensures var loads := Put(Apply(w, LoadStart(p)), p, n);
            Enabled(loads, LoadEnd(p)) && Apply(loads, LoadEnd(p)) == Reloaded(w, p)
  {
    var started := Apply(w, LoadStart(p));
    ReadEverything(w.db, read);
    PutTwo(started, p, n, Node(w.db, Idle, map[]));
    PutTwo(w, p, NodeOf(started, p), Node(w.db, Idle, map[]));
    assert started.loading - {p} == w.loading - {p};
  }

  /** A load without any other step in between leaves the pod with the database, and with
      nothing adrift, counted as loaded if and only if it is named. */
  lemma LoadRunLoads(w: World, p: Pod, order: seq<Table>)
    requires PhaseOf(w, p).Idle? && Distinct(order) && forall t: Table :: t in order
    ensures Leads(w, LoadRun(p, order), Reloaded(w, p))
  {
    var started := Apply(w, LoadStart(p));
    var n := NodeOf(started, p);
    var read := n.(phase := ReadPhase(w.db, Elements(order)));
    LeadsOne(w, LoadStart(p));
    LoadsLead(started, p, n, order, |order|);
    assert order[..|order|] == order && LoadsOf(p, order)[..|order|] == LoadsOf(p, order);
    LeadsOn(w, [LoadStart(p)], started, LoadsOf(p, order), Put(started, p, read));
    LoadEndStep(w, p, read, Elements(order));
    LeadsOneMore(w, [LoadStart(p)] + LoadsOf(p, order), Put(started, p, read), LoadEnd(p));
  }

  /** The gap is real: whenever a checked plan that changes something is still to commit and
      another pod can win, that pod may win, load and then miss the commit. */
  lemma GapBreaksCoherence(w: World, a: Pod, b: Pod, step: Election.Step, order: seq<Table>)
    requires PhaseOf(w, a).Checked? && PhaseOf(w, b).Idle? && a != b
    requires CommittedBy(w, a) != w.db
    requires step.fault == Election.NoFault && step.txn.TryWrite? && SamePod(step.txn.c.owner, b)
    requires Election.Wins(w.election, step.txn.c, step.time)
    requires Distinct(order) && forall t: Table :: t in order
    ensures exists v :: Leads(w, [Elect(step)] + LoadRun(b, order) + [Commit(a, true)], v)
                        && b in v.loaded && Names(v.election, b) && Settled(NodeOf(v, b)) && Ram(v, b) != v.db
  {
    Election.WinnerOwnsTable(w.election, step);
    var won := Apply(w, Elect(step));
    LeadsOne(w, Elect(step));
    LoadRunLoads(won, b, order);
    var loaded := Reloaded(won, b);
    LeadsOn(w, [Elect(step)], won, LoadRun(b, order), loaded);
    assert NodeOf(loaded, a) == NodeOf(w, a) && NodeOf(loaded, b) == Node(w.db, Idle, map[]);
    OthersStay(loaded, Commit(a, true), b);
    CommitMoves(loaded, a);
    LeadsOneMore(w, [Elect(step)] + LoadRun(b, order), loaded, Commit(a, true));
  }

  // ---------------------------------------------------------------- a flush by itself

  function SendsOf(p: Pod, n: nat): seq<Event> {
    seq(n, i requires 0 <= i < n => Send(p))
  }

  lemma {:induction false} SendsReach(w: World, p: Pod, n: Node, target: Store, changes: seq<Change>, all: nat, k: nat)
    requires p in w.nodes && NodeOf(w, p) == n && n.phase == Writing(target, changes, 0) && k <= all
    ensures At(w, SendsOf(p, all), k) == Put(w, p, n.(phase := Writing(target, changes, k)))
  {
    if k == 0 {
      assert w.nodes[p := w.nodes[p]] == w.nodes;
    } else {
      SendsReach(w, p, n, target, changes, all, k - 1);
      PutTwo(w, p, n.(phase := Writing(target, changes, k - 1)), n.(phase := Writing(target, changes, k)));
      SendApplies(Put(w, p, n.(phase := Writing(target, changes, k - 1))), p, target, changes, k - 1);
    }
  }

  lemma SendApplies(w: World, p: Pod, target: Store, changes: seq<Change>, k: nat)
    requires PhaseOf(w, p) == Writing(target, changes, k)
    ensures Apply(w, Send(p)) == Put(w, p, NodeOf(w, p).(phase := Writing(target, changes, k + 1)))
  {
  }

  lemma SendsLead(w: World, p: Pod, n: Node, target: Store, changes: seq<Change>, all: nat)
    requires p in w.nodes && NodeOf(w, p) == n && n.phase == Writing(target, changes, 0) && all <= |Plan(changes)|
    ensures Leads(w, SendsOf(p, all), Put(w, p, n.(phase := Writing(target, changes, all))))
  {
    SendsReach(w, p, n, target, changes, all, all);
    forall k | 0 <= k < all
      ensures EnabledAt(w, SendsOf(p, all), k)
    {
      SendsReach(w, p, n, target, changes, all, k);
      MaySend(At(w, SendsOf(p, all), k), p, target, changes, k);
    }
  }

  lemma MaySend(w: World, p: Pod, target: Store, changes: seq<Change>, k: nat)
    requires PhaseOf(w, p) == Writing(target, changes, k) && k < |Plan(changes)|
    ensures Enabled(w, Send(p))
  {
  }

  /** How many statements of the plan come through. */
  function SentIn(env: Environment, changes: seq<Change>): nat {
    if !env.begins then 0 else if Endures(env, changes) then |Plan(changes)| else env.statements.value
  }

  /** What follows them. */
  function EndOf(p: Pod, env: Environment, changes: seq<Change>): seq<Event> {
    if !env.begins || !Endures(env, changes) then [Fail(p)]
    else if env.election.None? then [Check(p, false)]
    else if !Names(env.election.value, p) then [Check(p, true)]
    else if !env.commits then [Check(p, true), Commit(p, false)]
    else [Check(p, true), Commit(p, true), Publish(p)]
  }

  /** A pod's flush in such an environment without any other step in between. */
  function FlushRun(p: Pod, target: Store, changes: seq<Change>, env: Environment): seq<Event> {
    [Begin(p, target, changes)] + SendsOf(p, SentIn(env, changes)) + EndOf(p, env, changes)
  }

  /** A flush closed: both stores changed, or neither. */
  function Closed(w: World, p: Pod, n: Node, ok: bool, target: Store, changes: seq<Change>): World {
    if ok then Put(w.(db := ExecAll(w.db, Plan(changes))), p, Published(n, target, changes))
    else Put(w, p, n.(phase := Idle))
  }

  lemma FailLeads(w: World, p: Pod, n: Node, target: Store, changes: seq<Change>)
    requires NodeOf(w, p) == n && (n.phase.Writing? || n.phase.Checked?) && p !in w.loading
    ensures Leads(w, [Fail(p)], Closed(w, p, n, false, target, changes))
  {
    LeadsOne(w, Fail(p));
    assert w.loading - {p} == w.loading;
  }

  lemma CheckApplies(w: World, p: Pod, n: Node, target: Store, changes: seq<Change>, sent: nat, succeeds: bool)
    requires NodeOf(w, p) == n && n.phase == Writing(target, changes, sent)
    ensures Apply(w, Check(p, succeeds)) ==
            Put(w, p, n.(phase := if succeeds && Names(w.election, p) then Checked(target, changes) else Idle))
  {
  }

  lemma CheckLeads(w: World, p: Pod, n: Node, target: Store, changes: seq<Change>, succeeds: bool)
    requires NodeOf(w, p) == n && n.phase == Writing(target, changes, |Plan(changes)|)
    ensures Leads(w, [Check(p, succeeds)],
                  Put(w, p, n.(phase := if succeeds && Names(w.election, p) then Checked(target, changes) else Idle)))
  {
    CheckApplies(w, p, n, target, changes, |Plan(changes)|, succeeds);
    LeadsOne(w, Check(p, succeeds));
  }

  lemma PublishApplies(w: World, p: Pod, n: Node, target: Store, changes: seq<Change>)
    requires n.phase == Committed(target, changes)
    ensures Enabled(Put(w, p, n), Publish(p))
    ensures Apply(Put(w, p, n), Publish(p)) == Put(w, p, Published(n, target, changes))
  {
    PutTwo(w, p, n, Published(n, target, changes));
  }

  lemma CommitApplies(w: World, p: Pod, n: Node, target: Store, changes: seq<Change>)
    requires NodeOf(w, p) == n && n.phase == Checked(target, changes)
    ensures Apply(w, Commit(p, true)) == Put(w.(db := CommittedBy(w, p)), p, n.(phase := Committed(target, changes)))
  {
  }

  lemma CommitsLead(w: World, p: Pod, n: Node, target: Store, changes: seq<Change>)
    requires NodeOf(w, p) == n && n.phase == Checked(target, changes)
    ensures Leads(w, [Commit(p, true)] + [Publish(p)], Closed(w, p, n, true, target, changes))
  {
    var v, committed := w.(db := CommittedBy(w, p)), n.(phase := Committed(target, changes));
    LeadsOne(w, Commit(p, true));
    CommitApplies(w, p, n, target, changes);
    PublishApplies(v, p, committed, target, changes);
    LeadsOneMore(w, [Commit(p, true)], Put(v, p, committed), Publish(p));
  }

  lemma CommitFails(w: World, p: Pod, n: Node, target: Store, changes: seq<Change>)
    requires NodeOf(w, p) == n && n.phase == Checked(target, changes)
    ensures Leads(w, [Commit(p, false)], Closed(w, p, n, false, target, changes))
  {
    LeadsOne(w, Commit(p, false));
  }

  lemma EndLeads(w: World, p: Pod, n: Node, target: Store, changes: seq<Change>, env: Environment)
    requires NodeOf(w, p) == n && n.phase == Writing(target, changes, SentIn(env, changes)) && p !in w.loading
    requires env.election.Some? ==> env.election.value == w.election
    ensures Leads(w, EndOf(p, env, changes), Closed(w, p, n, Flushes(p, env, changes), target, changes))
  {
    if !env.begins || !Endures(env, changes) {
      FailLeads(w, p, n, target, changes);
    } else if env.election.None? || !Names(env.election.value, p) {
      CheckLeads(w, p, n, target, changes, env.election.Some?);
    } else {
      CheckedEndLeads(w, p, n, target, changes, env.commits);
    }
  }

  lemma CheckedEndLeads(w: World, p: Pod, n: Node, target: Store, changes: seq<Change>, commits: bool)
    requires NodeOf(w, p) == n && n.phase == Writing(target, changes, |Plan(changes)|) && Names(w.election, p)
    ensures Leads(w, if commits then [Check(p, true), Commit(p, true), Publish(p)]
                     else [Check(p, true), Commit(p, false)],
                  Closed(w, p, n, commits, target, changes))
  {
    var checked := n.(phase := Checked(target, changes));
    CheckLeads(w, p, n, target, changes, true);
    PutTwo(w, p, checked, checked);
    if commits {
      CommitsLead(Put(w, p, checked), p, checked, target, changes);
      LeadsOn(w, [Check(p, true)], Put(w, p, checked), [Commit(p, true)] + [Publish(p)],
              Closed(Put(w, p, checked), p, checked, true, target, changes));
      PutTwo(w.(db := ExecAll(w.db, Plan(changes))), p, checked, Published(n, target, changes));
      assert [Check(p, true)] + ([Commit(p, true)] + [Publish(p)]) == [Check(p, true), Commit(p, true), Publish(p)];
    } else {
      CommitFails(Put(w, p, checked), p, checked, target, changes);
      LeadsOn(w, [Check(p, true)], Put(w, p, checked), [Commit(p, false)],
              Closed(Put(w, p, checked), p, checked, false, target, changes));
      PutTwo(w, p, checked, n.(phase := Idle));
      assert [Check(p, true)] + [Commit(p, false)] == [Check(p, true), Commit(p, false)];
    }
  }

  /** A flush without any other step in between changes both stores, by its whole plan and to
      its target, if and only if its environment lets it; otherwise it changes neither. What
      it saves is no longer adrift. */
  lemma FlushRunFlushes(w: World, p: Pod, n: Node, target: Store, changes: seq<Change>, env: Environment)
    requires NodeOf(w, p) == n && n.phase.Idle? && p !in w.loading
    requires Keyed(target) && NetChanges(n.ram, target, changes)
    requires env.election.Some? ==> env.election.value == w.election
    ensures Leads(w, FlushRun(p, target, changes, env), Closed(w, p, n, Flushes(p, env, changes), target, changes))
  {
    var all := SentIn(env, changes);
    var begun, sent := n.(phase := Writing(target, changes, 0)), n.(phase := Writing(target, changes, all));
    LeadsOne(w, Begin(p, target, changes));
    SendsLead(Put(w, p, begun), p, begun, target, changes, all);
    PutTwo(w, p, begun, sent);
    LeadsOn(w, [Begin(p, target, changes)], Put(w, p, begun), SendsOf(p, all), Put(w, p, sent));
    EndLeads(Put(w, p, sent), p, sent, target, changes, env);
    var ok := Flushes(p, env, changes);
    ClosedPut(w, p, n, sent, ok, target, changes);
    LeadsOn(w, [Begin(p, target, changes)] + SendsOf(p, all), Put(w, p, sent), EndOf(p, env, changes),
            Closed(w, p, n, ok, target, changes));
  }

  lemma ClosedPut(w: World, p: Pod, n: Node, sent: Node, ok: bool, target: Store, changes: seq<Change>)
    requires n.phase.Idle? && sent.(phase := Idle) == n
    ensures Closed(Put(w, p, sent), p, sent, ok, target, changes) == Closed(w, p, n, ok, target, changes)
  {
    PutTwo(w, p, sent, n);
    PutTwo(w.(db := ExecAll(w.db, Plan(changes))), p, sent, Published(n, target, changes));
  }

  // ---------------------------------------------------------------- writes that stay

  lemma WriteLeads(w: World, p: Pod, s: Slot, row: Entity)
    requires MayWrite(PhaseOf(w, p)) && s in Ram(w, p) && row.key == s.key
    ensures var n := NodeOf(w, p);
            Leads(w, [Write(p, s, row)], Put(w, p, n.(ram := n.ram[s := row], drift := Noted(n.drift, n.ram, s))))
  {
    LeadsOne(w, Write(p, s, row));
  }

  /** A loaded pod finds a row, writes another value into it, saves it, and the flush fails:
      memory keeps the new value and the database the old one. Every failing environment and
      every row will do. */
  lemma FailedFlushLeavesWrite(w: World, p: Pod, s: Slot, row: Entity, env: Environment)
    requires PodWellFormed(w, p) && PodCoherent(w, p) && p in w.loaded && PhaseOf(w, p).Idle?
    requires NodeOf(w, p).drift == map[] && s in Ram(w, p) && row.key == s.key && row != Ram(w, p)[s]
    requires env.election.Some? ==> env.election.value == w.election
    requires !Flushes(p, env, [Change(s, Some(row), Some(row))])
    ensures exists v ::
              && Leads(w, [Write(p, s, row)]
                          + FlushRun(p, Ram(w, p)[s := row], [Change(s, Some(row), Some(row))], env), v)
              && p in v.loaded && Ram(v, p) == Ram(w, p)[s := row] && v.db == w.db && s in v.db && v.db[s] != row
  {
    var n, changes := NodeOf(w, p), [Change(s, Some(row), Some(row))];
    var written := n.(ram := n.ram[s := row], drift := Noted(n.drift, n.ram, s));
    assert n.ram + map[] == n.ram;
    WriteLeads(w, p, s, row);
    FlushRunFlushes(Put(w, p, written), p, written, written.ram, changes, env);
    var v := Closed(Put(w, p, written), p, written, false, written.ram, changes);
    LeadsOn(w, [Write(p, s, row)], Put(w, p, written), FlushRun(p, written.ram, changes, env), v);
    assert NodeOf(v, p) == written.(phase := Idle);
  }

  /** The writes of a payload's first n steps that reach published rows. */
  function WritesOf(p: Pod, s: Index, acts: seq<Act>, n: nat): seq<Event>
    requires n <= |acts|
  {
    if n == 0 then []
    else WritesOf(p, s, acts, n - 1) + WriteOf(p, s, acts[n - 1])
  }

  function WriteOf(p: Pod, s: Index, a: Act): seq<Event> {
    if a.Assign? && Lookup(s, a.row.slot) == Some(a.row) then [Write(p, a.row.slot, a.row.With(a.fields))] else []
  }

  /** The pod's rows hold what the payload's first n steps have written last. */
  ghost predicate HoldsLast(n: Node, s: Index, was: Store, acts: seq<Act>, k: nat)
    requires k <= |acts|
  {
    n.ram.Keys == s.Keys == was.Keys && forall q :: q in s ==> n.ram[q] == LastValue(acts, k, s[q], was[q])
  }

  lemma HoldsLastNext(n: Node, m: Node, p: Pod, s: Index, was: Store, acts: seq<Act>, k: nat)
    requires k < |acts| && Filed(s) && HoldsLast(n, s, was, acts, k)
    requires m.ram == if WriteOf(p, s, acts[k]) == [] then n.ram
                      else n.ram[acts[k].row.slot := acts[k].row.With(acts[k].fields)]
    ensures HoldsLast(m, s, was, acts, k + 1)
  {
    forall q | q in s
      ensures q in m.ram && m.ram[q] == LastValue(acts, k + 1, s[q], was[q])
    {
      if acts[k].Assign? && acts[k].row == s[q] {
        assert acts[k].row.slot == q;
      }
    }
  }

  /** The world but for one pod. */
  predicate SameAround(v: World, w: World) {
    v.db == w.db && v.election == w.election && v.loading == w.loading
  }

  lemma WriteMoves(w: World, p: Pod, s: Slot, row: Entity)
    requires PhaseOf(w, p).Idle? && s in Ram(w, p) && row.key == s.key
    ensures var after := Apply(w, Write(p, s, row));
            && Enabled(w, Write(p, s, row)) && SameAround(after, w)
            && PhaseOf(after, p).Idle? && Ram(after, p) == Ram(w, p)[s := row]
  {
    OwnMoves(w, Write(p, s, row));
  }

  /** The world after the payload's first k steps, as far as they have written. */
  ghost predicate WritesReach(w: World, p: Pod, s: Index, acts: seq<Act>, k: nat, v: World)
    requires k <= |acts|
  {
    && Leads(w, WritesOf(p, s, acts, k), v) && SameAround(v, w)
    && PhaseOf(v, p).Idle? && HoldsLast(NodeOf(v, p), s, Ram(w, p), acts, k)
  }

  lemma WritesNext(w: World, p: Pod, s: Index, acts: seq<Act>, k: nat, u: World) returns (v: World)
    requires Filed(s) && k < |acts| && WritesReach(w, p, s, acts, k, u)
    ensures WritesReach(w, p, s, acts, k + 1, v)
  {
    var a := acts[k];
    if WriteOf(p, s, a) == [] {
      v := u;
      assert WritesOf(p, s, acts, k) + [] == WritesOf(p, s, acts, k);
    } else {
      var e := Write(p, a.row.slot, a.row.With(a.fields));
      v := Apply(u, e);
      WriteMoves(u, p, a.row.slot, a.row.With(a.fields));
      LeadsOneMore(w, WritesOf(p, s, acts, k), u, e);
    }
    HoldsLastNext(NodeOf(u, p), NodeOf(v, p), p, s, Ram(w, p), acts, k);
  }

  lemma {:induction false} WritesLead(w: World, p: Pod, s: Index, acts: seq<Act>, k: nat) returns (v: World)
    requires PhaseOf(w, p).Idle? && Filed(s) && k <= |acts| && Ram(w, p).Keys == s.Keys
    ensures WritesReach(w, p, s, acts, k, v)
  {
    if k == 0 {
      v := w;
      LeadsNowhere(w);
    } else {
      var u := WritesLead(w, p, s, acts, k - 1);
      v := WritesNext(w, p, s, acts, k - 1, u);
    }
  }

  // ---------------------------------------------------------------- the repository's own steps

  /** What a write transaction of the repository does of its pod's steps: its writes into
      published rows, and its flush unless the payload fails. */
  function TransactionRun(p: Pod, s: Index, payload: Payload, target: Store, net: seq<Change>, env: Environment)
    : seq<Event>
  {
    WritesOf(p, s, payload.acts, |payload.acts|) + if payload.fails then [] else FlushRun(p, target, net, env)
  }

  lemma TransactionLeads(w: World, p: Pod, s: Index, after: Index, payload: Payload, left: Store, target: Store,
                         net: seq<Change>, env: Environment) returns (v: World)
    requires PhaseOf(w, p).Idle? && p !in w.loading && Filed(s)
    requires Collected(s, after, Ram(w, p), left, target, payload.acts, net)
    requires env.election.Some? ==> env.election.value == w.election
    ensures Leads(w, TransactionRun(p, s, payload, target, net, env), v)
    ensures var ok := !payload.fails && Flushes(p, env, net);
            && Ram(v, p) == (if ok then target else left) && PhaseOf(v, p).Idle?
            && v.db == if ok then ExecAll(w.db, Plan(net)) else w.db
  {
    var acts := payload.acts;
    var u := WritesLead(w, p, s, acts, |acts|);
    var n := NodeOf(u, p);
    LastIsLeft(n, s, after, Ram(w, p), left, target, acts, net);
    if payload.fails {
      v := u;
      assert WritesOf(p, s, acts, |acts|) + [] == WritesOf(p, s, acts, |acts|);
    } else {
      FlushRunFlushes(u, p, n, target, net, env);
      v := Closed(u, p, n, Flushes(p, env, net), target, net);
      LeadsOn(w, WritesOf(p, s, acts, |acts|), u, FlushRun(p, target, net, env), v);
    }
  }

  lemma {:induction false} WritesConcern(p: Pod, s: Index, acts: seq<Act>, k: nat)
    requires k <= |acts|
    ensures AllConcern(WritesOf(p, s, acts, k), p)
  {
    if k > 0 {
      WritesConcern(p, s, acts, k - 1);
      ConcernSum(WritesOf(p, s, acts, k - 1), WriteOf(p, s, acts[k - 1]), p);
    }
  }

  /** All are steps of this pod. */
  ghost predicate AllConcern(run: seq<Event>, p: Pod) {
    forall e :: e in run ==> Concerns(e, p)
  }

  lemma ConcernSum(a: seq<Event>, b: seq<Event>, p: Pod)
    requires AllConcern(a, p) && AllConcern(b, p)
    ensures AllConcern(a + b, p)
    ensures EndsInCommits(b, p) ==> EndsInCommits(a + b, p)
  {
    assert forall e :: e in a + b ==> e in a || e in b;
  }

  lemma EndConcerns(p: Pod, env: Environment, changes: seq<Change>)
    ensures AllConcern(EndOf(p, env, changes), p)
    ensures Flushes(p, env, changes) ==> EndsInCommits(EndOf(p, env, changes), p)
  {
  }

  lemma FlushConcerns(p: Pod, target: Store, changes: seq<Change>, env: Environment)
    ensures AllConcern(FlushRun(p, target, changes, env), p)
    ensures Flushes(p, env, changes) ==> EndsInCommits(FlushRun(p, target, changes, env), p)
  {
    var begin, sends := [Begin(p, target, changes)], SendsOf(p, SentIn(env, changes));
    ConcernSum(begin, sends, p);
    EndConcerns(p, env, changes);
    ConcernSum(begin + sends, EndOf(p, env, changes), p);
  }

  /** The run consists of steps of its pod, the two commits the last of them if it succeeds. */
  lemma TransactionConcerns(p: Pod, s: Index, payload: Payload, target: Store, net: seq<Change>, env: Environment)
    ensures AllConcern(TransactionRun(p, s, payload, target, net, env), p)
    ensures !payload.fails && Flushes(p, env, net) ==>
              EndsInCommits(TransactionRun(p, s, payload, target, net, env), p)
  {
    var writes := WritesOf(p, s, payload.acts, |payload.acts|);
    WritesConcern(p, s, payload.acts, |payload.acts|);
    if payload.fails {
      assert writes + [] == writes;
    } else {
      FlushConcerns(p, target, net, env);
      ConcernSum(writes, FlushRun(p, target, net, env), p);
    }
  }

  predicate EndsInCommits(run: seq<Event>, p: Pod) {
    |run| >= 2 && run[|run| - 2] == Commit(p, true) && run[|run| - 1] == Publish(p)
  }

  lemma LastIsLeft(n: Node, s: Index, after: Index, was: Store, left: Store, target: Store,
                   acts: seq<Act>, net: seq<Change>)
    requires Collected(s, after, was, left, target, acts, net) && HoldsLast(n, s, was, acts, |acts|)
    ensures n.ram == left
  {
    MapsEqual(n.ram, left);
  }

  /** A write transaction of the repository, in Active mode and with no other step meanwhile,
      is such a run of its pod: memory and database are afterwards what the run leaves. If
      they agreed, they do so afterwards if and only if every row left with another value is
      saved, after a success, and if and only if there is none, after a failure. */
  method Transact(repo: InMemRepo, payload: Payload, env: Environment, ghost w: World, ghost p: Pod)
    returns (ok: bool, ghost run: seq<Event>, ghost v: World)
    requires PodWellFormed(w, p) && PhaseOf(w, p).Idle?
    requires repo.storage.View() == Ram(w, p) && repo.flusher.db == w.db && repo.flusher.pod == p
    requires Filed(repo.storage.rows) && repo.flusher as object != repo.storage
    requires env.election.Some? ==> env.election.value == w.election
    modifies repo.storage, repo.flusher, Written(payload.acts)
    ensures exists target, net :: run == TransactionRun(p, old(repo.storage.rows), payload, target, net, env)
    ensures Leads(w, run, v) && PhaseOf(v, p).Idle? && AllConcern(run, p)
    ensures ok ==> EndsInCommits(run, p)
    ensures !ok ==> v.db == w.db
    ensures repo.storage.View() == Ram(v, p) && repo.flusher.db == v.db
    ensures Ram(w, p) == w.db ==>
              (Ram(v, p) == v.db <==> if ok then AllSaved(old(repo.storage.rows), Ram(w, p), payload.acts)
                                      else Undone(old(repo.storage.rows), Ram(w, p), payload.acts))
  {
    ghost var rows := repo.storage.rows;
    var changes;
    ghost var net, left, target;
    ok, changes, net, left, target := repo.WithWTxVal(payload, false, env);
    run := TransactionRun(p, rows, payload, target, net, env);
    TransactionConcerns(p, rows, payload, target, net, env);
    v := TransactionLeads(w, p, rows, AppliedAll(rows, payload.acts, |payload.acts|), payload, left, target, net, env);
  }

  /** And so is a load. */
  method Reload(storage: RamStorage, db: Store, ghost w: World, ghost p: Pod) returns (ghost v: World)
    requires PodWellFormed(w, p) && PhaseOf(w, p).Idle? && Keyed(w.db)
    requires Filed(storage.rows) && storage.View() == Ram(w, p) && db == w.db
    modifies storage
    ensures Leads(w, LoadRun(p, RELATION_ORDER), v)
    ensures storage.View() == Ram(v, p) == v.db == w.db
    ensures p in v.loaded <==> Names(w.election, p)
  {
    var order := LoadOrder();
    var dbs := seq(|order|, i => db);
    var ok := ClearAndLoad(storage, dbs, None);
    assert LoadedTruly(dbs, db);
    v := Reloaded(w, p);
    LoadRunLoads(w, p, order);
  }
}
