/** The election table and the service that contends for it
    (`clustering/sql_service.go`, `clustering/service.go`, `clustering/elector.go`). */
module Election {
  import opened Common
  import opened Clustering

  /** Lease given by a win, age of the placeholder row, lease given by a prolongation. */
  const WIN_LEASE := 60 * SECOND
  const INTERNAL_AGE := 3600 * SECOND
  const SYNC_CLOCK_SHIFT := 30 * SECOND

  const INTERNAL := Identity("internal", NodeInfo("0.0.0.0", 0, 0, 0))

  /** A row of the table. The namespace column was added later and may hold NULL. */
  datatype Row = Row(id: int, owner: Identity, syncClock: int, namespace: Option<string>)

  /** What a contender brings: the fields of its record that reach the table. */
  datatype Candidate = Candidate(id: int, owner: Identity, namespace: string)

  // ---------------------------------------------------------------- statements

  /** The WHERE clause of the master update; comparing NULL selects nothing. */
  predicate Suitable(r: Row, c: Candidate, now: int) {
    r.syncClock < now || (r.namespace.Some? && r.namespace.value != c.namespace)
  }

  function Taken(r: Row, c: Candidate, now: int): Row {
    Row(r.id, c.owner, now + WIN_LEASE, Some(c.namespace))
  }

  function UpdateMaster(rows: seq<Row>, c: Candidate, now: int): seq<Row> {
    seq(|rows|, i requires 0 <= i < |rows| => if Suitable(rows[i], c, now) then Taken(rows[i], c, now) else rows[i])
  }

  function CountSuitable(rows: seq<Row>, c: Candidate, now: int): nat {
    if rows == [] then 0 else (if Suitable(rows[0], c, now) then 1 else 0) + CountSuitable(rows[1..], c, now)
  }

  function ShiftClocks(rows: seq<Row>, clock: int): seq<Row> {
    seq(|rows|, i requires 0 <= i < |rows| => rows[i].(syncClock := clock))
  }

  function ResetClocks(rows: seq<Row>, name: string, clock: int): seq<Row> {
    seq(|rows|, i requires 0 <= i < |rows| =>
          if rows[i].owner.name == name then rows[i].(syncClock := clock) else rows[i])
  }

  function OnlyInternal(rows: seq<Row>): seq<Row> {
    if rows == [] then []
    else (if rows[0].owner.name == "internal" then [rows[0]] else []) + OnlyInternal(rows[1..])
  }

  function InternalRow(serial: int, now: int): Row {
    Row(serial, INTERNAL, now - INTERNAL_AGE, Some(""))
  }

  /** A zero id asks the serial column for a value, any other id is written as it is. */
  function FreshMasterRow(c: Candidate, serial: int, now: int): Row {
    Row(if c.id == 0 then serial else c.id, c.owner, now + WIN_LEASE, Some(c.namespace))
  }

  // ---------------------------------------------------------------- transactions

  /** One transaction of the election service. */
  datatype Txn =
    | AddInternal
    | DropNotInternal
    | TryWrite(c: Candidate)
    | Shift(d: int)
    | Reset(name: string)

  /** Where the first error of a transaction comes up, if any. A failed statement aborts
      its transaction, so both places undo all of it. */
  datatype Fault = NoFault | InTransaction | AtCommit

  /** One transaction at one instant; `serial` is the value the id column would give. */
  datatype Step = Step(time: int, serial: int, txn: Txn, fault: Fault)

  /** The net effect of a transaction that commits. */
  function Effect(rows: seq<Row>, s: Step): seq<Row> {
    match s.txn
    case AddInternal => if |rows| == 1 then rows else [InternalRow(s.serial, s.time)]
    case DropNotInternal => OnlyInternal(rows)
    case TryWrite(c) =>
      if |rows| == 1 then UpdateMaster(rows, c, s.time) else [FreshMasterRow(c, s.serial, s.time)]
    case Shift(d) => ShiftClocks(rows, s.time + d)
    case Reset(name) => ResetClocks(rows, name, s.time)
  }

  function After(rows: seq<Row>, s: Step): seq<Row> {
    if s.fault == NoFault then Effect(rows, s) else rows
  }

  /** The table after the first k transactions of a run. */
  function At(rows: seq<Row>, steps: seq<Step>, k: nat): seq<Row>
    requires k <= |steps|
  {
    if k == 0 then rows else After(At(rows, steps, k - 1), steps[k - 1])
  }

  /** A stretch of a run is a run from where the run stood. */
  lemma {:induction false} AtStretch(rows: seq<Row>, steps: seq<Step>, i: nat, part: seq<Step>, k: nat)
    requires k <= |part| && i + |part| <= |steps| && steps[i..i + |part|] == part
    ensures At(rows, steps, i + k) == At(At(rows, steps, i), part, k)
  {
    if k > 0 {
      AtStretch(rows, steps, i, part, k - 1);
      assert steps[i..i + |part|][k - 1] == part[k - 1];
    }
  }

  lemma AtOne(rows: seq<Row>, s: Step)
    ensures At(rows, [s], 1) == After(rows, s)
  {
    assert At(rows, [s], 0) == rows;
  }

  lemma AtSum(rows: seq<Row>, a: seq<Step>, b: seq<Step>)
    ensures At(rows, a + b, |a + b|) == At(At(rows, a, |a|), b, |b|)
  {
    assert (a + b)[0..|a|] == a && (a + b)[|a|..|a| + |b|] == b;
    AtStretch(rows, a + b, 0, a, |a|);
    AtStretch(rows, a + b, |a|, b, |b|);
  }

  lemma AtPrefixSum(rows: seq<Row>, a: seq<Step>, b: seq<Step>, steps: seq<Step>)
    requires a + b <= steps
    ensures At(rows, steps, |a| + |b|) == At(At(rows, a, |a|), b, |b|)
  {
    assert steps[0..|a + b|] == a + b;
    AtStretch(rows, steps, 0, a + b, |a + b|);
    AtSum(rows, a, b);
  }

  /** Whether a contender's transaction would write itself as master. */
  predicate Wins(rows: seq<Row>, c: Candidate, now: int) {
    |rows| != 1 || Suitable(rows[0], c, now)
  }

  // ---------------------------------------------------------------- the service

  /** What a caller of TryWriteAsMaster sees. Reading the master back may fail, and the
      service then dereferences nil. */
  datatype Attempt = Won | Lost | Crashed

  /** The table behind its service. */
  class NodeInfoService {
    var rows: seq<Row>
    var now: int

    constructor (rows: seq<Row>, now: int)
      ensures this.rows == rows && this.now == now
    {
      this.rows, this.now := rows, now;
    }

    // Statements: each changes the rows in place and returns the number of rows affected.

    method InsertRecordOutdated(serial: int) returns (affected: nat)
      modifies this`rows
      ensures rows == old(rows) + [InternalRow(serial, now)] && affected == 1
    {
      rows := rows + [InternalRow(serial, now)];
      affected := 1;
    }

    method InsertRecord(record: MasterMetadata, serial: int) returns (affected: nat)
      modifies this`rows
      ensures rows == old(rows) + [FreshMasterRow(AsCandidate(record), serial, now)] && affected == 1
    {
      rows := rows + [FreshMasterRow(AsCandidate(record), serial, now)];
      affected := 1;
    }

    method DeleteAllRecords() returns (affected: nat)
      modifies this`rows
      ensures rows == [] && affected == |old(rows)|
    {
      affected := |rows|;
      rows := [];
    }

    method DeleteNotInternalRecords() returns (affected: nat)
      modifies this`rows
      ensures rows == OnlyInternal(old(rows)) && affected == |old(rows)| - |rows|
    {
      OnlyInternalIsFilter(rows);
      affected := |rows| - |OnlyInternal(rows)|;
      rows := OnlyInternal(rows);
    }

    method UpdateMasterRecord(record: MasterMetadata) returns (affected: nat)
      modifies this`rows
      ensures rows == UpdateMaster(old(rows), AsCandidate(record), now)
      ensures |rows| == |old(rows)| && forall i :: 0 <= i < |rows| ==>
                rows[i] == if old(rows)[i].syncClock < now
                              || (old(rows)[i].namespace.Some? && old(rows)[i].namespace.value != record.namespace)
                           then Row(old(rows)[i].id, record.owner, now + 60 * SECOND, Some(record.namespace))
                           else old(rows)[i]
      ensures affected == CountSuitable(old(rows), AsCandidate(record), now)
    {
      affected := CountSuitable(rows, AsCandidate(record), now);
      rows := UpdateMaster(rows, AsCandidate(record), now);
    }

    method ShiftSyncClock(d: int, fault: Fault) returns (ok: bool)
      modifies this`rows
      ensures ok <==> fault == NoFault
      ensures rows == After(old(rows), Step(now, 0, Shift(d), fault))
    {
      ok := fault == NoFault;
      if ok {
        rows := ShiftClocks(rows, now + d);
      }
    }

    method ResetSyncClock(master: string, fault: Fault) returns (ok: bool)
      modifies this`rows
      ensures ok <==> fault == NoFault
      ensures rows == After(old(rows), Step(now, 0, Reset(master), fault))
    {
      ok := fault == NoFault;
      if ok {
        rows := ResetClocks(rows, master, now);
      }
    }

    /** The row with the smallest id, or an error on an empty table. */
    method GetMaster(fails: bool) returns (master: Option<Row>)
      ensures master.Some? <==> !fails && rows != []
      ensures master.Some? ==> master.value in rows && forall r :: r in rows ==> master.value.id <= r.id
    {
      if fails || rows == [] {
        return None;
      }
      var least := rows[0];
      for i := 1 to |rows|
        invariant least in rows
        invariant forall j :: 0 <= j < i ==> least.id <= rows[j].id
      {
        if rows[i].id < least.id {
          least := rows[i];
        }
      }
      master := Some(least);
    }

    // Transactions: all or nothing.

    method TryAddInternalRecord(serial: int, fault: Fault) returns (ok: bool)
      modifies this`rows
      ensures ok <==> fault == NoFault
      ensures rows == After(old(rows), Step(now, serial, AddInternal, fault))
    {
      var saved := rows;
      var count := |rows|;
      if count != 1 {
        if count > 1 {
          var _ := DeleteAllRecords();
        }
        var _ := InsertRecordOutdated(serial);
      }
      ok := fault == NoFault;
      if !ok {
        rows := saved;
      }
    }

    /** Two transactions; other nodes' transactions may come between them. */
    method DeleteSeveralRecordsFromDb(serial: int, dropFault: Fault, others: seq<Step>, addFault: Fault)
      returns (ok: bool)
      modifies this
      ensures ok <==> dropFault == NoFault && addFault == NoFault
      ensures dropFault != NoFault ==> rows == old(rows) && now == old(now)
      ensures dropFault == NoFault ==>
                rows == After(At(OnlyInternal(old(rows)), others, |others|), Step(now, serial, AddInternal, addFault))
    {
      var saved := rows;
      var _ := DeleteNotInternalRecords();
      if dropFault != NoFault {
        rows := saved;
        return false;
      }
      Interleave(others);
      ok := TryAddInternalRecord(serial, addFault);
    }

    method UpdateAsMaster(record: MasterMetadata) returns (written: bool, ok: bool)
      modifies this`rows
      ensures rows == UpdateMaster(old(rows), AsCandidate(record), now)
      ensures written <==> CountSuitable(old(rows), AsCandidate(record), now) > 0
      ensures ok <==> CountSuitable(old(rows), AsCandidate(record), now) <= 1
    {
      var affected := UpdateMasterRecord(record);
      if affected == 0 {
        return false, true;
      }
      if affected == 1 {
        return true, true;
      }
      return true, false;
    }

    method RestoreElectionTable(record: MasterMetadata, erase: bool, serial: int)
      modifies this`rows
      ensures rows == (if erase then [] else old(rows)) + [FreshMasterRow(AsCandidate(record), serial, now)]
    {
      if erase {
        var _ := DeleteAllRecords();
      }
      var _ := InsertRecord(record, serial);
    }

    /** The write transaction, then a second one that reads the master back. `others`
        are the transactions other nodes commit between the two. */
    method TryWriteAsMaster(record: MasterMetadata, serial: int, fault: Fault, others: seq<Step>, readFails: bool)
      returns (attempt: Attempt)
      requires record as object != this
      modifies this, record`id
      ensures var c := Candidate(old(record.id), record.owner, record.namespace);
              var write := Step(old(now), serial, TryWrite(c), fault);
              && (attempt == Lost <==>
                  || fault == InTransaction
                  || (&& |old(rows)| == 1 && old(now) <= old(rows)[0].syncClock
                      && (old(rows)[0].namespace == None || old(rows)[0].namespace == Some(record.namespace))))
              && (attempt == Lost ==> rows == After(old(rows), write) && record.id == old(record.id))
              && (attempt != Lost ==> rows == At(After(old(rows), write), others, |others|))
              && (attempt == Crashed <==> attempt != Lost && (readFails || rows == []))
              && (attempt == Won ==> exists r :: r in rows && r.id == record.id)
    {
      var saved := rows;
      var written, ok := false, true;
      WinsIff(rows, AsCandidate(record), now);
      if fault == InTransaction {
        return Lost;
      }
      if |rows| == 1 {
        SingleRowIsSuitableOrNot(rows, AsCandidate(record), now);
        written, ok := UpdateAsMaster(record);
      } else {
        RestoreElectionTable(record, |rows| != 0, serial);
        written := true;
        assert rows == [FreshMasterRow(AsCandidate(record), serial, now)];
      }
      if !ok || fault != NoFault {
        rows := saved;
      }
      if !written {
        return Lost;
      }
      Interleave(others);
      var master := GetMaster(readFails);
      if master == None {
        return Crashed;
      }
      record.id := master.value.id;
      attempt := Won;
    }

    /** Other nodes' transactions, one after another. */
    method Interleave(others: seq<Step>)
      modifies this
      ensures rows == At(old(rows), others, |others|)
    {
      ghost var start := rows;
      for i := 0 to |others|
        invariant rows == At(start, others, i)
      {
        now := others[i].time;
        rows := After(rows, others[i]);
      }
    }
  }

  function AsCandidate(record: MasterMetadata): Candidate
    reads record
  {
    Candidate(record.id, record.owner, record.namespace)
  }

  lemma {:induction false} OnlyInternalIsFilter(rows: seq<Row>)
    ensures |OnlyInternal(rows)| <= |rows|
    ensures forall r :: r in OnlyInternal(rows) <==> r in rows && r.owner.name == "internal"
    ensures forall r :: multiset(OnlyInternal(rows))[r] == if r.owner.name == "internal" then multiset(rows)[r] else 0
  {
    if rows != [] {
      OnlyInternalIsFilter(rows[1..]);
      assert rows == [rows[0]] + rows[1..];
      assert OnlyInternal(rows) ==
             (if rows[0].owner.name == "internal" then [rows[0]] else []) + OnlyInternal(rows[1..]);
    }
  }

  /** And the rows that are left keep their order. */
  lemma {:induction false} OnlyInternalInOrder(a: seq<Row>, b: seq<Row>)
    ensures OnlyInternal(a + b) == OnlyInternal(a) + OnlyInternal(b)
  {
    if a == [] {
      assert a + b == b;
    } else {
      var head := if a[0].owner.name == "internal" then [a[0]] else [];
      assert (a + b)[1..] == a[1..] + b && (a + b)[0] == a[0];
      OnlyInternalInOrder(a[1..], b);
      Regroup(head, OnlyInternal(a[1..]), OnlyInternal(b));
    }
  }

  /** The branch of `updateAsMaster` that reports several affected rows is never reached:
      it runs only on a table of one row. */
  lemma SingleRowIsSuitableOrNot(rows: seq<Row>, c: Candidate, now: int)
    requires |rows| == 1
    ensures CountSuitable(rows, c, now) == (if Wins(rows, c, now) then 1 else 0)
  {
    assert rows[1..] == [];
  }

  // ---------------------------------------------------------------- one step

  /** A winning transaction leaves exactly one row, the caller's, leased for a minute;
      a losing one changes nothing. */
  lemma WinnerOwnsTable(rows: seq<Row>, s: Step)
    requires s.txn.TryWrite? && s.fault == NoFault
    ensures Wins(rows, s.txn.c, s.time) ==>
              && |After(rows, s)| == 1
              && After(rows, s)[0].owner == s.txn.c.owner
              && After(rows, s)[0].namespace == Some(s.txn.c.namespace)
              && After(rows, s)[0].syncClock == s.time + 60 * SECOND
              && After(rows, s)[0].id ==
                 (if |rows| == 1 then rows[0].id else if s.txn.c.id == 0 then s.serial else s.txn.c.id)
    ensures !Wins(rows, s.txn.c, s.time) ==> After(rows, s) == rows
  {
    if !Wins(rows, s.txn.c, s.time) {
      assert UpdateMaster(rows, s.txn.c, s.time) == rows;
    }
  }

  /** A node that has been told it won holds the table if and only if its transaction also
      committed: the flag is set before the commit and survives its failure. */
  lemma ReportedWinIsReal(rows: seq<Row>, s: Step)
    requires s.txn.TryWrite? && Wins(rows, s.txn.c, s.time) && s.fault != InTransaction
    ensures (&& |After(rows, s)| == 1
             && After(rows, s)[0].owner == s.txn.c.owner
             && After(rows, s)[0].namespace == Some(s.txn.c.namespace)
             && After(rows, s)[0].syncClock == s.time + WIN_LEASE)
            <==> s.fault == NoFault
  {
    WinnerOwnsTable(rows, s.(fault := NoFault));
  }

  /** Who wins: anyone on a table of no row or of several, and on a single row exactly a
      contender that finds the lease expired, or a namespace in the row that is not its own. */
  lemma WinsIff(rows: seq<Row>, c: Candidate, now: int)
    ensures Wins(rows, c, now) <==>
            || |rows| != 1
            || rows[0].syncClock < now
            || (rows[0].namespace.Some? && rows[0].namespace.value != c.namespace)
  {
  }

  /** The holder of a single row is replaced by another contender exactly when that one finds
      the lease expired or another namespace in the row, whatever is left of the lease. */
  lemma TakenOverIff(r: Row, s: Step)
    requires s.fault == NoFault && s.txn.TryWrite? && s.txn.c.owner != r.owner
    ensures |After([r], s)| == 1
    ensures After([r], s)[0].owner == s.txn.c.owner <==>
            r.syncClock < s.time || (r.namespace.Some? && r.namespace.value != s.txn.c.namespace)
    ensures After([r], s)[0].owner != s.txn.c.owner ==> After([r], s) == [r]
  {
    WinsIff([r], s.txn.c, s.time);
    WinnerOwnsTable([r], s);
  }

  /** The placeholder that a rebuild leaves gives way to any contender that comes less than an
      hour earlier, or later. */
  lemma PlaceholderGivesWay(rows: seq<Row>, add: Step, write: Step)
    requires add.fault == NoFault && add.txn.AddInternal? && |rows| != 1
    requires write.fault == NoFault && write.txn.TryWrite? && write.txn.c.owner != INTERNAL
    ensures var held := After(rows, add);
            && |held| == 1 && held[0].id == add.serial
            && held[0].owner == Identity("internal", NodeInfo("0.0.0.0", 0, 0, 0))
            && |After(held, write)| == 1
            && (After(held, write)[0].owner == write.txn.c.owner <==>
                add.time - 3600 * SECOND < write.time || write.txn.c.namespace != "")
  {
    TakenOverIff(After(rows, add)[0], write);
  }

  /** A reset ends the lease of the node it names and of no other: the next contender that
      comes later takes the row. */
  lemma ResetEndsLease(r: Row, reset: Step, write: Step)
    requires reset.fault == NoFault && reset.txn.Reset?
    requires write.fault == NoFault && write.txn.TryWrite? && write.txn.c.owner != r.owner
    ensures reset.txn.name != r.owner.name ==> After([r], reset) == [r]
    ensures reset.txn.name == r.owner.name ==>
              && After([r], reset) == [r.(syncClock := reset.time)]
              && (reset.time < write.time ==> After(After([r], reset), write)[0].owner == write.txn.c.owner)
  {
    var row := if reset.txn.name == r.owner.name then r.(syncClock := reset.time) else r;
    assert After([r], reset) == [row];
    TakenOverIff(row, write);
  }

  /** Who holds the table can change in one way only, and then it must: a contender other
      than the holder finds the lease expired or another namespace in the row. */
  lemma OwnerChanges(r: Row, s: Step)
    ensures (|After([r], s)| == 1 && After([r], s)[0].owner != r.owner) <==>
            (&& s.fault == NoFault && s.txn.TryWrite? && s.txn.c.owner != r.owner
             && (r.syncClock < s.time || (r.namespace.Some? && r.namespace.value != s.txn.c.namespace)))
    ensures |After([r], s)| == 1 && After([r], s)[0].owner != r.owner ==> After([r], s)[0].owner == s.txn.c.owner
    ensures |After([r], s)| != 1 <==>
            s.fault == NoFault && s.txn.DropNotInternal? && r.owner.name != "internal"
  {
    assert [r][1..] == [];
    assert OnlyInternal([r]) == (if r.owner.name == "internal" then [r] else []) + OnlyInternal([]);
  }

  // ---------------------------------------------------------------- whole runs

  /** A committed transaction that leaves exactly one row whatever it finds. */
  predicate Rebuilds(s: Step) {
    s.fault == NoFault && (s.txn.AddInternal? || s.txn.TryWrite?)
  }

  predicate Drops(s: Step) {
    s.fault == NoFault && s.txn.DropNotInternal?
  }

  lemma RebuildLeavesOneRow(rows: seq<Row>, s: Step)
    requires Rebuilds(s)
    ensures |After(rows, s)| == 1
  {
  }

  lemma OtherStepsKeepTheCount(rows: seq<Row>, s: Step)
    requires !Rebuilds(s)
    ensures |After(rows, s)| == |rows| || (Drops(s) && |After(rows, s)| <= |rows|)
  {
    OnlyInternalIsFilter(rows);
  }

  /** From any table, once one rebuilding transaction has committed there is at most one
      row for ever, and none only while the latest rebuild is older than a drop. */
  lemma {:induction false} TableStabilises(rows: seq<Row>, steps: seq<Step>, first: nat, k: nat)
    requires first < k <= |steps| && Rebuilds(steps[first])
    ensures |At(rows, steps, k)| <= 1
    ensures At(rows, steps, k) == [] ==>
              exists d :: first < d < k && Drops(steps[d]) && forall j :: d < j < k ==> !Rebuilds(steps[j])
  {
    var before := At(rows, steps, k - 1);
    if Rebuilds(steps[k - 1]) {
      RebuildLeavesOneRow(before, steps[k - 1]);
    } else {
      OtherStepsKeepTheCount(before, steps[k - 1]);
      TableStabilises(rows, steps, first, k - 1);
      if At(rows, steps, k) == [] {
        if before == [] {
          var d :| first < d < k - 1 && Drops(steps[d]) && forall j :: d < j < k - 1 ==> !Rebuilds(steps[j]);
          assert forall j :: d < j < k ==> !Rebuilds(steps[j]);
        } else {
          assert Drops(steps[k - 1]);
        }
      }
    }
  }

  // ---------------------------------------------------------------- the lease

  /** The end of the lease of a holder that won at `win`, told from the schedule alone:
      a minute after the win, moved by every committed prolongation since. */
  function Deadline(win: int, steps: seq<Step>, k: nat): int
    requires k <= |steps|
  {
    if k == 0 then win + WIN_LEASE
    else if steps[k - 1].fault == NoFault && steps[k - 1].txn.Shift? then steps[k - 1].time + steps[k - 1].txn.d
    else Deadline(win, steps, k - 1)
  }

  /** No start-up, no reset of the holder, and contenders of the holder's namespace only. */
  predicate Quiet(s: Step, holder: Row) {
    s.fault == NoFault ==>
      match s.txn
      case DropNotInternal => false
      case Reset(name) => name != holder.owner.name
      case TryWrite(c) => holder.namespace == None || holder.namespace == Some(c.namespace)
      case _ => true
  }

  /** While every transaction of a quiet run comes no later than the deadline of its
      moment, the table is the holder's row with that deadline as its clock. */
  lemma {:induction false} LeaseKept(holder: Row, win: int, steps: seq<Step>, k: nat)
    requires holder.syncClock == win + WIN_LEASE
    requires k <= |steps|
    requires forall j :: 0 <= j < k ==> Quiet(steps[j], holder) && steps[j].time <= Deadline(win, steps, j)
    ensures At([holder], steps, k) == [holder.(syncClock := Deadline(win, steps, k))]
  {
    if k > 0 {
      LeaseKept(holder, win, steps, k - 1);
      assert Quiet(steps[k - 1], holder) && steps[k - 1].time <= Deadline(win, steps, k - 1);
    }
  }

  /** The bound is exact: the first contender that comes at all is refused if and only if
      it comes no later than the deadline. */
  lemma TakeoverIffPastDeadline(holder: Row, win: int, steps: seq<Step>, k: nat)
    requires holder.syncClock == win + WIN_LEASE
    requires k < |steps|
    requires forall j :: 0 <= j < k ==> Quiet(steps[j], holder) && steps[j].time <= Deadline(win, steps, j)
    requires Quiet(steps[k], holder) && steps[k].fault == NoFault
    requires steps[k].txn.TryWrite? && steps[k].txn.c.owner != holder.owner
    ensures At([holder], steps, k + 1) == [holder.(syncClock := Deadline(win, steps, k))] <==>
            steps[k].time <= Deadline(win, steps, k)
    ensures steps[k].time > Deadline(win, steps, k) ==>
              At([holder], steps, k + 1)[0].owner == steps[k].txn.c.owner
  {
    var r := holder.(syncClock := Deadline(win, steps, k));
    LeaseKept(holder, win, steps, k);
    assert At([holder], steps, k + 1) == After([r], steps[k]);
    OwnerChanges(r, steps[k]);
    if Suitable(r, steps[k].txn.c, steps[k].time) {
      assert After([r], steps[k]) != [r];
    } else {
      WinnerOwnsTable([r], steps[k]);
    }
  }

  /** Times do not go back, from the win on. */
  predicate Ordered(win: int, steps: seq<Step>) {
    && (forall i :: 0 <= i < |steps| ==> win <= steps[i].time)
    && (forall i, j :: 0 <= i < j < |steps| ==> steps[i].time <= steps[j].time)
  }

  predicate Prolongs(s: Step) {
    s.fault == NoFault && s.txn == Shift(SYNC_CLOCK_SHIFT)
  }

  /** The moment of step k lies within 30 seconds of some earlier prolongation, or within
      a minute of the win when there has been none. */
  predicate Covered(win: int, steps: seq<Step>, k: nat)
    requires k < |steps|
  {
    || (exists j :: 0 <= j < k && Prolongs(steps[j]) && steps[k].time <= steps[j].time + SYNC_CLOCK_SHIFT)
    || (steps[k].time <= win + WIN_LEASE && forall j :: 0 <= j < k ==> !Prolongs(steps[j]))
  }

  lemma {:induction false} DeadlineCovers(win: int, steps: seq<Step>, k: nat, m: nat, moment: int)
    requires m <= k <= |steps| && Ordered(win, steps)
    requires forall j :: 0 <= j < k && steps[j].fault == NoFault && steps[j].txn.Shift? ==> Prolongs(steps[j])
    requires m < k ==> Prolongs(steps[m]) && moment <= steps[m].time + SYNC_CLOCK_SHIFT
    requires m == k ==> moment <= win + WIN_LEASE && forall j :: 0 <= j < k ==> !Prolongs(steps[j])
    ensures moment <= Deadline(win, steps, k)
  {
    if k > 0 {
      if Prolongs(steps[k - 1]) {
        assert m <= k - 1;
        assert steps[m].time <= steps[k - 1].time;
      } else if m < k {
        assert m < k - 1;
        DeadlineCovers(win, steps, k - 1, m, moment);
      } else {
        DeadlineCovers(win, steps, k - 1, k - 1, moment);
      }
    }
  }

  /** A holder whose prolongations are at most 30 seconds apart keeps its row in every
      interleaving of a quiet run, whoever executes the other transactions. */
  lemma LeaseRetention(holder: Row, win: int, steps: seq<Step>, k: nat)
    requires holder.syncClock == win + WIN_LEASE && k <= |steps|
    requires Ordered(win, steps)
    requires forall j :: 0 <= j < |steps| ==> Quiet(steps[j], holder) && Covered(win, steps, j)
    requires forall j :: 0 <= j < |steps| && steps[j].fault == NoFault && steps[j].txn.Shift? ==> Prolongs(steps[j])
    ensures |At([holder], steps, k)| == 1
    ensures At([holder], steps, k)[0].owner == holder.owner && At([holder], steps, k)[0].id == holder.id
    ensures k < |steps| ==> steps[k].time <= At([holder], steps, k)[0].syncClock
  {
    forall j | 0 <= j < |steps|
      ensures steps[j].time <= Deadline(win, steps, j)
    {
      if m :| 0 <= m < j && Prolongs(steps[m]) && steps[j].time <= steps[m].time + SYNC_CLOCK_SHIFT {
        DeadlineCovers(win, steps, j, m, steps[j].time);
      } else {
        assert Covered(win, steps, j);
        DeadlineCovers(win, steps, j, j, steps[j].time);
      }
    }
    LeaseKept(holder, win, steps, k);
  }
}
