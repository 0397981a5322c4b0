/** Sending the net changes of a transaction to the database, behind the master check
    (`constancy/flusher.go`, `constancy/batch.go`, `constancy/pod_state_manager.go`). */
module Flusher {
  import opened Common
  import opened Clustering
  import Election
  import opened Domain
  import opened FlushPlan

  /** This pod, as its configuration names it. */
  datatype Pod = Pod(name: string, ip: string)

  datatype FlushResult = Flushed | DbOperationError | MasterNodeError

  /** `IsCurrentPodDefinedAsMaster` on the rows it has read (None: the read failed): an
      error unless there is exactly one row, else whether that row names the pod. */
  function IsCurrentPodDefinedAsMaster(pod: Pod, election: Option<seq<Election.Row>>): Option<bool> {
    if election.None? || |election.value| != 1 then None
    else Some(election.value[0].owner.name == pod.name && election.value[0].owner.nodeInfo.ip == pod.ip)
  }

  /** The table is one row, and it carries the pod's name and address. */
  predicate Names(election: seq<Election.Row>, pod: Pod) {
    |election| == 1 && election[0].owner.name == pod.name && election[0].owner.nodeInfo.ip == pod.ip
  }

  /** What the outside does during one flush: whether a transaction can be opened, after
      how many statements one fails (None: none does), what the separate connection of the
      master check reads, and whether the commit succeeds. */
  datatype Environment = Environment(
    begins: bool, statements: Option<nat>, election: Option<seq<Election.Row>>, commits: bool)

  /** The statements all come through. */
  predicate Endures(env: Environment, changes: seq<Change>) {
    env.statements.None? || |Plan(changes)| <= env.statements.value
  }

  /** Nothing comes in the way of the flush, and the table names the pod. */
  predicate Flushes(pod: Pod, env: Environment, changes: seq<Change>) {
    env.begins && Endures(env, changes) && env.election.Some? && Names(env.election.value, pod) && env.commits
  }

  /** An entity together with the table its Go type stands for. */
  datatype Typed = Typed(table: Table, row: Entity)

  function Stmts(kind: Kind, pack: seq<Typed>): seq<Statement> {
    seq(|pack|, i requires 0 <= i < |pack| => Statement(kind, pack[i].table, pack[i].row))
  }

  // ---------------------------------------------------------------- the stack of delete packs

  /** What popping the stack empty would send. */
  function Unwound(s: seq<seq<Typed>>): seq<Statement> {
    if s == [] then [] else Stmts(Removal, s[|s| - 1]) + Unwound(s[..|s| - 1])
  }

  /** The same with one pack already in hand. */
  function Pending(pack: Option<seq<Typed>>, s: seq<seq<Typed>>): seq<Statement> {
    if pack == None then [] else Stmts(Removal, pack.value) + Unwound(s)
  }

  lemma PackSent(done: seq<Statement>, pack: seq<Typed>, s: seq<seq<Typed>>)
    ensures done + Pending(Some(pack), s) == (done + Stmts(Removal, pack)) + Unwound(s)
  {
    Regroup(done, Stmts(Removal, pack), Unwound(s));
  }

  class Stuck {
    var s: seq<seq<Typed>>

    constructor ()
      ensures s == []
    {
      s := [];
    }

    method Push(elem: seq<Typed>)
      modifies this
      ensures s == old(s) + [elem]
    {
      s := s + [elem];
    }

    method Pop() returns (elem: Option<seq<Typed>>)
      modifies this
      ensures old(s) == [] ==> elem == None && s == []
      ensures old(s) != [] ==> elem == Some(old(s)[|old(s)| - 1]) && s == old(s)[..|old(s)| - 1]
      ensures Pending(elem, s) == Unwound(old(s))
    {
      var l := |s|;
      if l == 0 {
        return None;
      }
      elem := Some(s[l - 1]);
      s := s[..l - 1];
    }
  }

  // ---------------------------------------------------------------- the open transaction

  /** Where an open transaction stands: its own view of the tables, what it has been sent,
      and how many more statements will come through. */
  datatype Stage = Stage(db: Store, sent: seq<Statement>, left: Option<nat>) {
    predicate Takes(n: nat) { left.None? || n <= left.value }
  }

  /** These statements lead from one stage to the other. */
  predicate Ran(before: Stage, stmts: seq<Statement>, after: Stage) {
    && before.Takes(|stmts|)
    && after.sent == before.sent + stmts
    && after.db == ExecAll(before.db, stmts)
    && after.left == if before.left.None? then None else Some(before.left.value - |stmts|)
  }

  lemma RanTogether(before: Stage, a: seq<Statement>, between: Stage, b: seq<Statement>, after: Stage)
    requires Ran(before, a, between) && Ran(between, b, after)
    ensures Ran(before, a + b, after)
  {
    RunsConcatenate(before.db, a, b);
    Regroup(before.sent, a, b);
  }

  lemma RanOne(before: Stage, st: Statement, left: Option<nat>)
    requires before.left != Some(0) && left == if before.left.None? then None else Some(before.left.value - 1)
    ensures Ran(before, [st], Stage(Exec(before.db, st), before.sent + [st], left))
  {
  }

  class BatchStorage {
    var db: Store
    var sent: seq<Statement>
    var left: Option<nat>

    constructor (db: Store, left: Option<nat>)
      ensures this.db == db && this.left == left && sent == []
    {
      this.db, this.left, this.sent := db, left, [];
    }

    function View(): Stage
      reads this
    {
      Stage(db, sent, left)
    }

    /** One statement per entity, in order, up to the first that fails. */
    method Run(kind: Kind, entities: seq<Typed>) returns (ok: bool)
      modifies this
      ensures ok <==> old(View()).Takes(|entities|)
      ensures ok ==> Ran(old(View()), Stmts(kind, entities), View())
    {
      ghost var start := View();
      var i := 0;
      while i < |entities|
        invariant 0 <= i <= |entities|
        invariant Ran(start, Stmts(kind, entities[..i]), View())
      {
        if left == Some(0) {
          return false;
        }
        ghost var before := View();
        var st := Statement(kind, entities[i].table, entities[i].row);
        db := Exec(db, st);
        sent := sent + [st];
        if left.Some? {
          left := Some(left.value - 1);
        }
        RanOne(before, st, left);
        RanTogether(start, Stmts(kind, entities[..i]), before, [st], View());
        assert Stmts(kind, entities[..i + 1]) == Stmts(kind, entities[..i]) + [st];
        i := i + 1;
      }
      assert entities[..|entities|] == entities;
      ok := true;
    }
  }

  // ---------------------------------------------------------------- grouping

  function OfTable(changes: seq<Change>, t: Table): seq<Change> {
    if changes == [] then []
    else (if changes[0].slot.table == t then [changes[0]] else []) + OfTable(changes[1..], t)
  }

  lemma {:induction false} OfTableSnoc(changes: seq<Change>, c: Change, t: Table)
    ensures OfTable(changes + [c], t) == OfTable(changes, t) + if c.slot.table == t then [c] else []
  {
    if changes == [] {
      assert changes + [c] == [c];
      assert [c][1..] == [];
    } else {
      var head := if changes[0].slot.table == t then [changes[0]] else [];
      assert (changes + [c])[1..] == changes[1..] + [c];
      OfTableSnoc(changes[1..], c, t);
      assert OfTable(changes + [c], t) == head + OfTable(changes[1..] + [c], t);
    }
  }

  lemma {:induction false} PickSnoc(changes: seq<Change>, c: Change, t: Table, kind: Kind)
    ensures Pick(changes + [c], t, kind) ==
            Pick(changes, t, kind) + if c.slot.table == t && c.Is(kind) then [StatementFor(c, kind)] else []
  {
    if changes == [] {
      assert changes + [c] == [c];
      assert [c][1..] == [];
    } else {
      var rest := changes[1..];
      assert (changes + [c])[1..] == rest + [c];
      PickSnoc(rest, c, t, kind);
      Regroup(if changes[0].slot.table == t && changes[0].Is(kind) then [StatementFor(changes[0], kind)] else [],
              Pick(rest, t, kind), if c.slot.table == t && c.Is(kind) then [StatementFor(c, kind)] else []);
    }
  }

  /** Picking from the group of a table is picking from all changes. */
  lemma {:induction false} PickOfTable(changes: seq<Change>, t: Table, kind: Kind)
    ensures Pick(OfTable(changes, t), t, kind) == Pick(changes, t, kind)
    ensures forall c :: c in OfTable(changes, t) ==> c.slot.table == t
  {
    if changes != [] {
      PickOfTable(changes[1..], t, kind);
      var rest := OfTable(changes[1..], t);
      if changes[0].slot.table == t {
        assert OfTable(changes, t) == [changes[0]] + rest;
        assert ([changes[0]] + rest)[1..] == rest;
      } else {
        assert OfTable(changes, t) == rest;
        assert Pick(changes, t, kind) == Pick(changes[1..], t, kind);
      }
    }
  }

  method GroupByTable(changes: seq<Change>) returns (byType: map<Table, seq<Change>>)
    ensures forall t: Table :: t in byType <==> OfTable(changes, t) != []
    ensures forall t: Table :: t in byType ==> byType[t] == OfTable(changes, t)
  {
    byType := map[];
    for i := 0 to |changes|
      invariant forall t: Table :: t in byType <==> OfTable(changes[..i], t) != []
      invariant forall t: Table :: t in byType ==> byType[t] == OfTable(changes[..i], t)
    {
      var change := changes[i];
      forall t: Table
        ensures OfTable(changes[..i + 1], t) ==
                OfTable(changes[..i], t) + if change.slot.table == t then [change] else []
      {
        assert changes[..i + 1] == changes[..i] + [change];
        OfTableSnoc(changes[..i], change, t);
      }
      var typed := if change.slot.table in byType then byType[change.slot.table] else [];
      byType := byType[change.slot.table := typed + [change]];
    }
    assert changes[..|changes|] == changes;
  }

  /** The three packs of one table. */
  method Packs(typed: seq<Change>, t: Table) returns (inserts: seq<Typed>, updates: seq<Typed>, deletes: seq<Typed>)
    requires forall c :: c in typed ==> c.slot.table == t
    ensures Stmts(Insertion, inserts) == Pick(typed, t, Insertion)
    ensures Stmts(Modification, updates) == Pick(typed, t, Modification)
    ensures Stmts(Removal, deletes) == Pick(typed, t, Removal)
  {
    inserts, updates, deletes := [], [], [];
    for i := 0 to |typed|
      invariant Stmts(Insertion, inserts) == Pick(typed[..i], t, Insertion)
      invariant Stmts(Modification, updates) == Pick(typed[..i], t, Modification)
      invariant Stmts(Removal, deletes) == Pick(typed[..i], t, Removal)
    {
      var change := typed[i];
      assert typed[..i + 1] == typed[..i] + [change];
      PickSnoc(typed[..i], change, t, Insertion);
      PickSnoc(typed[..i], change, t, Modification);
      PickSnoc(typed[..i], change, t, Removal);
      if change.Created() {
        inserts := inserts + [Typed(t, change.after.value)];
      } else if change.Updated() {
        updates := updates + [Typed(t, change.after.value)];
      } else if change.Deleted() {
        deletes := deletes + [Typed(t, change.before.value)];
      }
    }
    assert typed[..|typed|] == typed;
  }

  // ---------------------------------------------------------------- the flusher

  class Flusher {
    var db: Store
    const pod: Pod
    /** What the database has been sent by the latest flush that opened a transaction. */
    var sent: seq<Statement>

    constructor (db: Store, pod: Pod)
      ensures this.db == db && this.pod == pod
    {
      this.db, this.pod, this.sent := db, pod, [];
    }

    /** Inserts and updates of one table; its deletes are pushed. */
    method SendTable(changes: seq<Change>, t: Table, byType: map<Table, seq<Change>>,
                     storage: BatchStorage, stack: Stuck)
      returns (ok: bool)
      requires t in byType <==> OfTable(changes, t) != []
      requires t in byType ==> byType[t] == OfTable(changes, t)
      modifies storage, stack
      ensures ok <==> old(storage.View()).Takes(|Pick(changes, t, Insertion) + Pick(changes, t, Modification)|)
      ensures ok ==>
                Ran(old(storage.View()), Pick(changes, t, Insertion) + Pick(changes, t, Modification), storage.View())
      ensures ok ==> Unwound(stack.s) == Pick(changes, t, Removal) + Unwound(old(stack.s))
    {
      PickOfTable(changes, t, Insertion);
      PickOfTable(changes, t, Modification);
      PickOfTable(changes, t, Removal);
      if t in byType {
        ok := SendPacks(byType[t], t, storage, stack);
      } else {
        ok := true;
      }
    }

    method SendPacks(typed: seq<Change>, t: Table, storage: BatchStorage, stack: Stuck) returns (ok: bool)
      requires forall c :: c in typed ==> c.slot.table == t
      modifies storage, stack
      ensures ok <==> old(storage.View()).Takes(|Pick(typed, t, Insertion) + Pick(typed, t, Modification)|)
      ensures ok ==> Ran(old(storage.View()), Pick(typed, t, Insertion) + Pick(typed, t, Modification), storage.View())
      ensures ok ==> Unwound(stack.s) == Pick(typed, t, Removal) + Unwound(old(stack.s))
    {
      ghost var start := storage.View();
      var inserts, updates, deletes := Packs(typed, t);
      ok := storage.Run(Insertion, inserts);
      if !ok {
        return;
      }
      ghost var inserted := storage.View();
      ok := storage.Run(Modification, updates);
      if !ok {
        return;
      }
      RanTogether(start, Stmts(Insertion, inserts), inserted, Stmts(Modification, updates), storage.View());
      ghost var pushed := stack.s;
      stack.Push(deletes);
      assert stack.s[..|stack.s| - 1] == pushed;
    }

    /** Inserts and updates of every table in order. */
    method SendWrites(changes: seq<Change>, order: seq<Table>, storage: BatchStorage, stack: Stuck) returns (ok: bool)
      requires stack.s == []
      modifies storage, stack
      ensures ok <==> old(storage.View()).Takes(|Forward(changes, order, 0)|)
      ensures ok ==> Ran(old(storage.View()), Forward(changes, order, 0), storage.View())
      ensures ok ==> Unwound(stack.s) == Backward(changes, order, |order|)
    {
      var byType := GroupByTable(changes);
      ghost var start, done: seq<Statement> := storage.View(), [];
      for i := 0 to |order|
        invariant done + Forward(changes, order, i) == Forward(changes, order, 0)
        invariant Ran(start, done, storage.View())
        invariant Unwound(stack.s) == Backward(changes, order, i)
      {
        ghost var before := storage.View();
        ghost var stmts := Pick(changes, order[i], Insertion) + Pick(changes, order[i], Modification);
        Regroup(done, stmts, Forward(changes, order, i + 1));
        ok := SendTable(changes, order[i], byType, storage, stack);
        if !ok {
          return;
        }
        RanTogether(start, done, before, stmts, storage.View());
        done := done + stmts;
      }
      assert done == Forward(changes, order, 0);
      ok := true;
    }

    /** Deletes in reverse order: the packs as they come off the stack. */
    method SendDeletes(storage: BatchStorage, stack: Stuck) returns (ok: bool)
      modifies storage, stack
      ensures ok <==> old(storage.View()).Takes(|Unwound(old(stack.s))|)
      ensures ok ==> Ran(old(storage.View()), Unwound(old(stack.s)), storage.View())
    {
      ghost var start, done: seq<Statement>, all := storage.View(), [], Unwound(stack.s);
      var pack := stack.Pop();
      while pack != None
        invariant all == done + Pending(pack, stack.s)
        invariant pack == None ==> stack.s == []
        invariant Ran(start, done, storage.View())
        decreases if pack == None then 0 else |stack.s| + 1
      {
        ghost var before, stmts := storage.View(), Stmts(Removal, pack.value);
        PackSent(done, pack.value, stack.s);
        ok := storage.Run(Removal, pack.value);
        if !ok {
          return;
        }
        RanTogether(start, done, before, stmts, storage.View());
        done := done + stmts;
        pack := stack.Pop();
      }
      assert done == all;
      ok := true;
    }

    method SendAll(changes: seq<Change>, order: seq<Table>, storage: BatchStorage) returns (ok: bool)
      modifies storage
      ensures ok <==> old(storage.View()).Takes(|Forward(changes, order, 0) + Backward(changes, order, |order|)|)
      ensures ok ==>
                Ran(old(storage.View()), Forward(changes, order, 0) + Backward(changes, order, |order|), storage.View())
    {
      ghost var start := storage.View();
      ghost var forward, backward := Forward(changes, order, 0), Backward(changes, order, |order|);
      var stack := new Stuck();
      ok := SendWrites(changes, order, storage, stack);
      if !ok {
        return;
      }
      ghost var written := storage.View();
      ok := SendDeletes(storage, stack);
      if ok {
        RanTogether(start, forward, written, backward, storage.View());
      }
    }

    /** The statements of the plan, up to the first that fails. */
    method SendPlan(changes: seq<Change>, storage: BatchStorage) returns (ok: bool)
      modifies storage
      ensures ok <==> old(storage.View()).Takes(|Plan(changes)|)
      ensures ok ==> Ran(old(storage.View()), Plan(changes), storage.View())
    {
      ok := SendAll(changes, RELATION_ORDER, storage);
    }

    /** The whole flush. In Standby mode nothing is written. Otherwise the flush succeeds if
        and only if the transaction opens, every statement of the plan comes through, the
        election table is one row naming this pod, and the commit succeeds; then the
        database has run exactly the plan, and in every other case it is as before. */
    method Flush(changes: seq<Change>, standby: bool, env: Environment) returns (result: FlushResult)
      modifies this
      ensures standby ==> result == Flushed && db == old(db) && sent == old(sent)
      ensures !standby ==> (result == Flushed <==> Flushes(pod, env, changes))
      ensures !standby && result == Flushed ==> db == ExecAll(old(db), Plan(changes)) && sent == Plan(changes)
      ensures result != Flushed ==> db == old(db)
      ensures result == Flushed <==>
              || standby
              || (&& env.begins && (env.statements.None? || |Plan(changes)| <= env.statements.value) && env.commits
                  && env.election.Some? && |env.election.value| == 1
                  && env.election.value[0].owner.name == pod.name && env.election.value[0].owner.nodeInfo.ip == pod.ip)
      ensures result == MasterNodeError <==>
              && !standby && env.begins && Endures(env, changes)
              && env.election.Some? && |env.election.value| == 1 && !Names(env.election.value, pod)
    {
      if standby {
        return Flushed;
      }
      if !env.begins {
        return DbOperationError;
      }
      var storage := new BatchStorage(db, env.statements);
      var ok := SendPlan(changes, storage);
      if !ok {
        return DbOperationError;
      }
      sent := storage.sent;
      var defined := IsCurrentPodDefinedAsMaster(pod, env.election);
      if defined == None {
        return DbOperationError;
      }
      if !defined.value {
        return MasterNodeError;
      }
      if !env.commits {
        return DbOperationError;
      }
      db := storage.db;
      result := Flushed;
    }
  }
}
