/** The election loop of one node: contend, define the role, prolong (`clustering/elector.go`). */
module Elector {
  import opened Common
  import opened Clustering
  import Election
  import opened Lifecycle

  /** What the outside does during one pass of the election loop: the serial value and the
      fault of the write, the other nodes' transactions before each read, whether the reads
      fail, and how the role change turns out. */
  datatype Pass = Pass(
    serial: int, fault: Election.Fault, others: seq<Election.Step>, readFails: bool,
    later: seq<Election.Step>, getFails: bool, out: Outcome)

  /** One pass of the prolongation loop: other nodes' transactions before its read and before
      its shift, the moment of the shift, and where it fails. */
  datatype Round = Round(
    others: seq<Election.Step>, getFails: bool, later: seq<Election.Step>, time: int, shiftFault: Election.Fault)

  /** Where a pass of the election loop ends: prolonging, sleeping after an init error,
      waiting for the ticker, or dead of a nil dereference. */
  datatype Ending = Prolongs | Sleeps | Waits | Dies

  // ---------------------------------------------------------------- the schedule of a loop

  function ShiftStep(round: Round, shift: int): Election.Step {
    Election.Step(round.time, 0, Election.Shift(shift), round.shiftFault)
  }

  /** The transactions of a round that does not fall back, those of other nodes included. */
  function StepsOf(round: Round, shift: int): seq<Election.Step> {
    round.others + (round.later + [ShiftStep(round, shift)])
  }

  function Schedule(rounds: seq<Round>, shift: int, n: nat): seq<Election.Step>
    requires n <= |rounds|
  {
    if n == 0 then [] else Schedule(rounds, shift, n - 1) + StepsOf(rounds[n - 1], shift)
  }

  lemma {:induction false} ScheduleGrows(rounds: seq<Round>, shift: int, k: nat, n: nat)
    requires k <= n <= |rounds|
    ensures Schedule(rounds, shift, k) <= Schedule(rounds, shift, n)
  {
    if k < n {
      ScheduleGrows(rounds, shift, k, n - 1);
    }
  }

  /** From there on the run goes through the round. */
  predicate Placed(steps: seq<Election.Step>, from: nat, round: Round, shift: int) {
    && from + |StepsOf(round, shift)| <= |steps|
    && steps[from..from + |StepsOf(round, shift)|] == StepsOf(round, shift)
  }

  lemma RoundInSchedule(rounds: seq<Round>, shift: int, k: nat, n: nat)
    requires k < n <= |rounds|
    ensures Placed(Schedule(rounds, shift, n), |Schedule(rounds, shift, k)|, rounds[k], shift)
    ensures |Schedule(rounds, shift, k + 1)| == |Schedule(rounds, shift, k)| + |StepsOf(rounds[k], shift)|
  {
    ScheduleGrows(rounds, shift, k + 1, n);
    PartOfPrefix(Schedule(rounds, shift, k), StepsOf(rounds[k], shift), Schedule(rounds, shift, n));
  }

  lemma PlacedEnd(steps: seq<Election.Step>, from: nat, round: Round, shift: int)
    requires Placed(steps, from, round, shift)
    ensures steps[from + |StepsOf(round, shift)| - 1] == ShiftStep(round, shift)
  {
    var part := StepsOf(round, shift);
    assert steps[from..from + |part|][|part| - 1] == steps[from + |part| - 1];
  }

  /** The table after the first k rounds, none of which falls back. */
  function TableAfter(rows: seq<Election.Row>, rounds: seq<Round>, shift: int, k: nat): seq<Election.Row>
    requires k <= |rounds|
  {
    Election.At(rows, Schedule(rounds, shift, k), |Schedule(rounds, shift, k)|)
  }

  function AfterRound(rows: seq<Election.Row>, round: Round, shift: int): seq<Election.Row> {
    Election.At(rows, StepsOf(round, shift), |StepsOf(round, shift)|)
  }

  /** The tables before, between and after the rounds. */
  ghost predicate Follows(tables: seq<seq<Election.Row>>, rounds: seq<Round>, shift: int) {
    && |tables| == |rounds| + 1
    && forall k :: 0 <= k < |rounds| ==> tables[k + 1] == AfterRound(tables[k], rounds[k], shift)
  }

  lemma {:induction false} TablesOf(rows: seq<Election.Row>, rounds: seq<Round>, shift: int)
    returns (tables: seq<seq<Election.Row>>)
    ensures Follows(tables, rounds, shift) && tables[0] == rows
  {
    if rounds == [] {
      tables := [rows];
    } else {
      var n := |rounds| - 1;
      var before := TablesOf(rows, rounds[..n], shift);
      tables := before + [AfterRound(before[n], rounds[n], shift)];
    }
  }

  lemma {:induction false} TableOf(tables: seq<seq<Election.Row>>, rounds: seq<Round>, shift: int, k: nat)
    requires Follows(tables, rounds, shift) && k <= |rounds|
    ensures tables[k] == TableAfter(tables[0], rounds, shift, k)
  {
    if k > 0 {
      TableOf(tables, rounds, shift, k - 1);
      Election.AtSum(tables[0], Schedule(rounds, shift, k - 1), StepsOf(rounds[k - 1], shift));
      assert tables[(k - 1) + 1] == AfterRound(tables[k - 1], rounds[k - 1], shift);
    }
  }

  /** It is the table at that place of the whole schedule, and so is what a round reads. */
  lemma TableInSchedule(rows: seq<Election.Row>, rounds: seq<Round>, shift: int, k: nat)
    requires k < |rounds|
    ensures var all, from, others := Schedule(rounds, shift, |rounds|), |Schedule(rounds, shift, k)|, rounds[k].others;
            && from + |others| <= |all|
            && Election.At(rows, all, from + |others|)
               == Election.At(TableAfter(rows, rounds, shift, k), others, |others|)
  {
    var upTo, others := Schedule(rounds, shift, k), rounds[k].others;
    ScheduleGrows(rounds, shift, k + 1, |rounds|);
    PrefixOfSum(upTo, others, rounds[k].later + [ShiftStep(rounds[k], shift)], Schedule(rounds, shift, |rounds|));
    Election.AtPrefixSum(rows, upTo, others, Schedule(rounds, shift, |rounds|));
  }

  lemma StepsOfEnd(rows: seq<Election.Row>, round: Round, shift: int)
    ensures var read := Election.At(rows, round.others, |round.others|);
            var before := Election.At(read, round.later, |round.later|);
            AfterRound(rows, round, shift) == Election.After(before, ShiftStep(round, shift))
  {
    var all := StepsOf(round, shift);
    assert all[0..|round.others|] == round.others;
    Election.AtStretch(rows, all, 0, round.others, |round.others|);
    assert all[|round.others|..|round.others| + |round.later|] == round.later;
    Election.AtStretch(rows, all, |round.others|, round.later, |round.later|);
  }

  lemma {:induction false} RoundOf(rounds: seq<Round>, shift: int, n: nat, j: nat) returns (k: nat)
    requires n <= |rounds| && j < |Schedule(rounds, shift, n)|
    ensures k < n && |Schedule(rounds, shift, k)| <= j < |Schedule(rounds, shift, k + 1)|
  {
    if j < |Schedule(rounds, shift, n - 1)| {
      k := RoundOf(rounds, shift, n - 1, j);
    } else {
      k := n - 1;
    }
  }

  /** The first shift comes within 30 seconds of the win, each other one within 30 seconds of
      the one before, and nothing fails. */
  predicate InTime(win: int, rounds: seq<Round>) {
    forall k :: 0 <= k < |rounds| ==>
      && !rounds[k].getFails && rounds[k].shiftFault == Election.NoFault
      && rounds[k].time <= (if k == 0 then win else rounds[k - 1].time) + Election.SYNC_CLOCK_SHIFT
  }

  /** The other nodes leave the holder alone, and prolong by 30 seconds if at all. */
  predicate Harmless(s: Election.Step, holder: Election.Row) {
    && Election.Quiet(s, holder)
    && (s.fault == Election.NoFault && s.txn.Shift? ==> Election.Prolongs(s))
  }

  /** Rounds in time, whatever other nodes do between them. */
  predicate Regular(win: int, rounds: seq<Round>, shift: int, holder: Election.Row) {
    && shift == Election.SYNC_CLOCK_SHIFT && InTime(win, rounds)
    && Election.Ordered(win, Schedule(rounds, shift, |rounds|))
    && forall s :: s in Schedule(rounds, shift, |rounds|) ==> Harmless(s, holder)
  }

  /** Rounds in time make a schedule that is covered throughout. */
  lemma RegularIsCovered(win: int, rounds: seq<Round>, shift: int, holder: Election.Row, j: nat)
    requires Regular(win, rounds, shift, holder) && j < |Schedule(rounds, shift, |rounds|)|
    ensures Election.Covered(win, Schedule(rounds, shift, |rounds|), j)
  {
    var steps := Schedule(rounds, shift, |rounds|);
    var k := RoundOf(rounds, shift, |rounds|, j);
    var last := ShiftOfRound(rounds, shift, k);
    if k > 0 {
      var before := ShiftOfRound(rounds, shift, k - 1);
      CoveredBetween(win, steps, before, j, last);
    } else {
      CoveredAtFirst(win, steps, j, last);
    }
  }

  lemma ShiftOfRound(rounds: seq<Round>, shift: int, k: nat) returns (i: nat)
    requires k < |rounds|
    ensures i + 1 == |Schedule(rounds, shift, k + 1)| <= |Schedule(rounds, shift, |rounds|)|
    ensures Schedule(rounds, shift, |rounds|)[i] == ShiftStep(rounds[k], shift)
  {
    i := |Schedule(rounds, shift, k + 1)| - 1;
    RoundInSchedule(rounds, shift, k, |rounds|);
    PlacedEnd(Schedule(rounds, shift, |rounds|), |Schedule(rounds, shift, k)|, rounds[k], shift);
  }

  lemma CoveredBetween(win: int, steps: seq<Election.Step>, before: nat, j: nat, last: nat)
    requires Election.Ordered(win, steps) && before < j <= last < |steps| && Election.Prolongs(steps[before])
    requires steps[last].time <= steps[before].time + Election.SYNC_CLOCK_SHIFT
    ensures Election.Covered(win, steps, j)
  {
    assert steps[j].time <= steps[last].time;
  }

  lemma CoveredAtFirst(win: int, steps: seq<Election.Step>, j: nat, last: nat)
    requires Election.Ordered(win, steps) && j <= last < |steps|
    requires steps[last].time <= win + Election.SYNC_CLOCK_SHIFT
    ensures Election.Covered(win, steps, j)
  {
    assert steps[j].time <= steps[last].time;
    if m :| 0 <= m < j && Election.Prolongs(steps[m]) {
      assert win <= steps[m].time;
    }
  }

  /** So the row stays the holder's at every moment. */
  lemma RegularKeepsRow(win: int, rounds: seq<Round>, shift: int, holder: Election.Row, k: nat)
    requires Regular(win, rounds, shift, holder) && holder.syncClock == win + Election.WIN_LEASE
    requires k <= |Schedule(rounds, shift, |rounds|)|
    ensures var rows := Election.At([holder], Schedule(rounds, shift, |rounds|), k);
            |rows| == 1 && rows[0].owner == holder.owner && rows[0].id == holder.id
  {
    var steps := Schedule(rounds, shift, |rounds|);
    forall j | 0 <= j < |steps|
      ensures Election.Covered(win, steps, j) && Harmless(steps[j], holder)
    {
      RegularIsCovered(win, rounds, shift, holder, j);
    }
    Election.LeaseRetention(holder, win, steps, k);
  }

  /** And every round reads it. */
  lemma RegularReadsOwn(win: int, rounds: seq<Round>, shift: int, holder: Election.Row, k: nat)
    requires Regular(win, rounds, shift, holder) && holder.syncClock == win + Election.WIN_LEASE && k < |rounds|
    ensures !rounds[k].getFails && rounds[k].shiftFault == Election.NoFault
    ensures var others := rounds[k].others;
            var read := Election.At(TableAfter([holder], rounds, shift, k), others, |others|);
            |read| == 1 && read[0].owner == holder.owner
  {
    TableInSchedule([holder], rounds, shift, k);
    RegularKeepsRow(win, rounds, shift, holder, |Schedule(rounds, shift, k)| + |rounds[k].others|);
  }

  class Elector {
    const record: MasterMetadata
    const manager: LifeCycleManager
    const service: Election.NodeInfoService
    const shift: int

    /** The elector's own record carries this node's identity. */
    ghost predicate Valid()
      reads this, record, manager, manager.state, manager.fatal, manager.currentMaster
    {
      && record as object != service as object
      && record.owner == manager.thisNode && manager.thisNode != NO_IDENTITY
      && Sound(manager.View(record), manager.Cfg())
    }

    constructor (manager: LifeCycleManager, namespace: string, service: Election.NodeInfoService, shift: int)
      requires manager.thisNode != NO_IDENTITY
      requires manager.currentMaster != null
      requires manager.currentMaster.id == 0 && manager.currentMaster.owner == NO_IDENTITY
      requires manager.state.role == Initial && !manager.state.masterReady
      requires manager.fatal.fatalErrors == [] && !manager.failed
      ensures Valid() && this.manager == manager && this.service == service
      ensures this.shift == if shift == 0 then Election.SYNC_CLOCK_SHIFT else shift
    {
      this.record := new MasterMetadata(0, manager.thisNode, namespace);
      this.manager, this.service := manager, service;
      this.shift := if shift == 0 then Election.SYNC_CLOCK_SHIFT else shift;
    }

    /** The win has overwritten the record's id, and with it the current master's when that
        is the same object; then the record is reported. */
    method ReportWin(out: Outcome, ghost before: Life)
      requires record as object != service as object
      requires record.owner == manager.thisNode && manager.thisNode != NO_IDENTITY && Sound(before, manager.Cfg())
      requires manager.View(record) ==
               if before.own then before.(current := Some(Rec(record.id, manager.thisNode))) else before
      modifies manager`currentMaster, manager`calls, manager`failed, manager.state, manager.fatal
      ensures Valid() && manager.currentMaster == record
      ensures manager.View(record) == After(before, Win(record.id, out), manager.Cfg())
      ensures HasInitError(manager.fatal.fatalErrors) <==>
              BreaksOff(out, manager.callbacks) && !IsSilent(before, record.id, record.owner)
    {
      StepIsSound(before, Win(record.id, out), manager.Cfg());
      WinBreaksOffIff(before, record.id, out, manager.Cfg());
      manager.DefineNodeRole(record, out, record);
    }

    method ReportRead(master: MasterMetadata?, out: Outcome)
      requires Valid() && master != record
      modifies manager`currentMaster, manager`calls, manager`failed, manager.state, manager.fatal
      ensures Valid()
      ensures manager.View(record) ==
              After(old(manager.View(record)),
                    Read(if master == null then None else Some(Rec(master.id, master.owner)), out), manager.Cfg())
    {
      StepIsSound(manager.View(record), Read(if master == null then None else Some(Rec(master.id, master.owner)), out),
                  manager.Cfg());
      manager.DefineNodeRole(master, out, record);
    }

    /** One pass of `startElectionLoop`. Its effect on the manager is one event of a life
        cycle run: a win reported through the elector's own record, whose id has just been
        overwritten, or whatever row is read, or none. A pass that goes on to prolong has a
        master to compare with, and it is the record itself. */
    method RunOnce(p: Pass) returns (ending: Ending, ghost event: Event)
      requires Valid()
      modifies service, record`id, manager`currentMaster, manager`calls, manager`failed, manager.state, manager.fatal
      ensures ending != Dies ==> Valid() && !event.Append?
      ensures ending != Dies ==> manager.View(record) == After(old(manager.View(record)), event, manager.Cfg())
      ensures ending == Prolongs || ending == Sleeps ==>
                event == Win(record.id, p.out) && manager.currentMaster == record
      ensures ending == Prolongs ==> manager.state.role == Master && manager.state.masterReady
      ensures ending == Sleeps ==> manager.state.role == Master && !manager.state.masterReady
      ensures ending == Waits ==> event.Read? && event.out == p.out
      ensures ending == Waits <==> Loses(old(service.rows), old(service.now), p.fault)
      ensures ending == Dies <==>
                !Loses(old(service.rows), old(service.now), p.fault) && (p.readFails || service.rows == [])
      ensures ending == Sleeps <==>
                && !Loses(old(service.rows), old(service.now), p.fault) && !p.readFails && service.rows != []
                && BreaksOff(p.out, manager.callbacks) && !IsSilent(old(manager.View(record)), record.id, record.owner)
      ensures var written := Written(p, old(service.rows), old(service.now), old(Election.AsCandidate(record)));
              service.rows == if ending == Waits then Election.At(written, p.later, |p.later|)
                              else Election.At(written, p.others, |p.others|)
      ensures ending == Waits ==> (event.master == None <==> p.getFails || service.rows == [])
      ensures ending == Waits && event.master != None ==>
                exists r :: r in service.rows && r.id == event.master.value.id && r.owner == event.master.value.owner
    {
      ghost var before := manager.View(record);
      event := Append("");
      var attempt := Contend(p);
      if attempt == Election.Crashed {
        return Dies, event;
      }
      if attempt == Election.Won {
        event := Win(record.id, p.out);
        ReportWin(p.out, before);
        var broken := manager.fatal.HasInitErrorInNode();
        return if broken then Sleeps else Prolongs, event;
      }
      service.Interleave(p.later);
      event := Observe(p.getFails, p.out);
      ending := Waits;
    }

    /** The table once the node's own write is through, or is not. */
    function Written(p: Pass, rows: seq<Election.Row>, now: int, c: Election.Candidate): seq<Election.Row> {
      Election.After(rows, Election.Step(now, p.serial, Election.TryWrite(c), p.fault))
    }

    /** The node's attempt to win. */
    method Contend(p: Pass) returns (attempt: Election.Attempt)
      requires record as object != service
      modifies service, record`id
      ensures attempt == Election.Lost <==> Loses(old(service.rows), old(service.now), p.fault)
      ensures attempt == Election.Crashed <==> attempt != Election.Lost && (p.readFails || service.rows == [])
      ensures attempt == Election.Lost ==> record.id == old(record.id)
      ensures var written := Written(p, old(service.rows), old(service.now), old(Election.AsCandidate(record)));
              service.rows == if attempt == Election.Lost then written else Election.At(written, p.others, |p.others|)
    {
      attempt := service.TryWriteAsMaster(record, p.serial, p.fault, p.others, p.readFails);
    }

    /** The write is refused, or fails before it is decided: the table is one row whose lease
        lives on and which belongs to this namespace or to none. */
    predicate Loses(rows: seq<Election.Row>, now: int, fault: Election.Fault)
      reads record
    {
      || fault == Election.InTransaction
      || (&& |rows| == 1 && now <= rows[0].syncClock
          && (rows[0].namespace == None || rows[0].namespace == Some(record.namespace)))
    }

    /** Reads the master's row and reports it, or none. */
    method Observe(getFails: bool, out: Outcome) returns (ghost event: Event)
      requires Valid()
      modifies manager`currentMaster, manager`calls, manager`failed, manager.state, manager.fatal
      ensures Valid() && event.Read? && event.out == out
      ensures manager.View(record) == After(old(manager.View(record)), event, manager.Cfg())
      ensures event.master == None <==> getFails || service.rows == []
      ensures event.master != None ==>
                exists r :: r in service.rows && r.id == event.master.value.id && r.owner == event.master.value.owner
    {
      var row := service.GetMaster(getFails);
      if row == None {
        event := Read(None, out);
        ReportRead(null, out);
      } else {
        var namespace := if row.value.namespace.Some? then row.value.namespace.value else "";
        var master := new MasterMetadata(row.value.id, row.value.owner, namespace);
        event := Read(Some(Rec(master.id, master.owner)), out);
        ReportRead(master, out);
        assert row.value in service.rows;
      }
    }

    /** `startMasterProlongation`, for as many rounds as there are. It dereferences the
        current master in every round, which is never nil there, and leaves the manager
        alone. A round prolongs only if the row it read was this node's; it falls back
        otherwise, and at the first error. With rounds in time after the win it does neither:
        the loop itself keeps the row this node's through all of them. */
    method StartMasterProlongation(rounds: seq<Round>, ghost holder: Election.Row, ghost win: int) returns (kept: nat)
      requires Valid() && manager.currentMaster == record
      modifies service
      ensures Valid() && manager.View(record) == old(manager.View(record)) && manager.currentMaster == record
      ensures kept <= |rounds|
      ensures kept < |rounds| ==> FallsBack(TableAfter(old(service.rows), rounds, shift, kept), rounds[kept])
      ensures kept == |rounds| ==> service.rows == TableAfter(old(service.rows), rounds, shift, |rounds|)
      ensures kept == |rounds| && rounds != [] ==>
                forall r :: r in service.rows ==> r.syncClock == rounds[|rounds| - 1].time + shift
      ensures Holds(holder, win, old(service.rows)) && Regular(win, rounds, shift, holder) ==>
                kept == |rounds| && |service.rows| == 1 && service.rows[0].owner == record.owner
    {
      kept := ProlongAll(rounds);
      if Holds(holder, win, old(service.rows)) && Regular(win, rounds, shift, holder) {
        if kept < |rounds| {
          RegularReadsOwn(win, rounds, shift, holder, kept);
        } else {
          RegularKeepsRow(win, rounds, shift, holder, |Schedule(rounds, shift, |rounds|)|);
        }
      }
    }

    /** The rounds up to the first that falls back. */
    method ProlongAll(rounds: seq<Round>) returns (kept: nat)
      requires record as object != service && manager.currentMaster == record
      modifies service
      ensures kept <= |rounds|
      ensures kept == |rounds| ==> service.rows == TableAfter(old(service.rows), rounds, shift, |rounds|)
      ensures kept == |rounds| && rounds != [] ==>
                forall r :: r in service.rows ==> r.syncClock == rounds[|rounds| - 1].time + shift
      ensures kept < |rounds| ==> FallsBack(TableAfter(old(service.rows), rounds, shift, kept), rounds[kept])
    {
      ghost var tables := TablesOf(service.rows, rounds, shift);
      kept := 0;
      while kept < |rounds|
        invariant 0 <= kept <= |rounds| && service.rows == tables[kept]
        invariant kept > 0 ==> forall r :: r in service.rows ==> r.syncClock == rounds[kept - 1].time + shift
      {
        assert tables[kept + 1] == AfterRound(tables[kept], rounds[kept], shift);
        var ok := Prolong(rounds[kept]);
        if !ok {
          TableOf(tables, rounds, shift, kept);
          return;
        }
        kept := kept + 1;
      }
      TableOf(tables, rounds, shift, kept);
    }

    /** Something fails in the round, or it may read a row that is not this node's. */
    ghost predicate FallsBack(rows: seq<Election.Row>, round: Round)
      reads record
    {
      var read := Election.At(rows, round.others, |round.others|);
      || round.getFails || round.shiftFault != Election.NoFault || read == []
      || exists r :: r in read && r.owner != record.owner && forall q :: q in read ==> r.id <= q.id
    }

    /** One round: it prolongs every clock unless something fails or the row read is not this
        node's. */
    method Prolong(round: Round) returns (ok: bool)
      requires record as object != service && manager.currentMaster == record
      modifies service
      ensures ok ==> service.rows == AfterRound(old(service.rows), round, shift)
      ensures ok ==> forall r :: r in service.rows ==> r.syncClock == round.time + shift
      ensures ok ==> !round.getFails && round.shiftFault == Election.NoFault
      ensures ok ==> var read := Election.At(old(service.rows), round.others, |round.others|);
                     exists r :: r in read && r.owner == record.owner && forall q :: q in read ==> r.id <= q.id
      ensures !ok ==> FallsBack(old(service.rows), round)
      ensures !ok ==> var read := Election.At(old(service.rows), round.others, |round.others|);
                      || service.rows == read
                      || (round.shiftFault != Election.NoFault
                          && service.rows == Election.At(read, round.later, |round.later|))
    {
      ghost var rows0 := service.rows;
      service.Interleave(round.others);
      var master := service.GetMaster(round.getFails);
      if master == None {
        return false;
      }
      if master.value.owner != manager.currentMaster.owner {
        return false;
      }
      service.Interleave(round.later);
      service.now := round.time;
      ok := service.ShiftSyncClock(shift, round.shiftFault);
      StepsOfEnd(rows0, round, shift);
    }

    /** The table is this node's row, as its win at that moment left it. */
    ghost predicate Holds(holder: Election.Row, win: int, rows: seq<Election.Row>)
      reads record
    {
      rows == [holder] && holder.owner == record.owner && holder.syncClock == win + Election.WIN_LEASE
    }
  }
}
