/** The in-memory database, its transactions and the write-through of a committed one
    (`dao/impl.go`, `dao/generic.go`, `ram/storage.go`, `ram/loader.go`). It stores pointers: a
    finder returns the stored row itself, and a row is saved by its pointer. */
module Repository {
  import opened Common
  import opened Domain
  import opened FlushPlan
  import opened Flusher

  // ---------------------------------------------------------------- stored rows

  /** What can be written into a row after it has been made. */
  datatype Fields = Fields(refs: map<Column, Key>, columns: map<string, string>)

  /** A row object. Its type and its primary key place it. */
  class Row {
    const slot: Slot
    var fields: Fields

    constructor (slot: Slot, fields: Fields)
      ensures this.slot == slot && this.fields == fields
    {
      this.slot, this.fields := slot, fields;
    }

    function With(f: Fields): Entity {
      Entity(slot.key, f.refs, f.columns)
    }

    function Value(): Entity
      reads this
    {
      With(fields)
    }

    method Assign(f: Fields)
      modifies this
      ensures Value() == With(f)
    {
      fields := f;
    }
  }

  type Index = map<Slot, Row>

  /** Every row lies in its own place. */
  ghost predicate Filed(s: Index) {
    forall p :: p in s ==> s[p].slot == p
  }

  /** What the rows of an index hold at the moment. */
  function Values(s: Index): Store
    reads s.Values
  {
    map p | p in s :: s[p].Value()
  }

  // ---------------------------------------------------------------- payloads

  /** An operation performed through the repository. */
  datatype Op = Save(row: Row) | Remove(slot: Slot)

  /** A step of a payload: such an operation, or a write into a row it holds, found or made. */
  datatype Act = Call(op: Op) | Assign(row: Row, fields: Fields)

  /** Any payload: the steps it takes, and whether it then returns an error. */
  datatype Payload = Payload(acts: seq<Act>, fails: bool)

  function Applied(s: Index, op: Op): Index {
    match op
    case Save(row) => s[row.slot := row]
    case Remove(p) => s - {p}
  }

  /** The rows in place after the first n steps. */
  function AppliedAll(s: Index, acts: seq<Act>, n: nat): Index
    requires n <= |acts|
  {
    if n == 0 then s
    else
      var before := AppliedAll(s, acts, n - 1);
      if acts[n - 1].Call? then Applied(before, acts[n - 1].op) else before
  }

  function SlotOf(op: Op): Slot {
    match op
    case Save(row) => row.slot
    case Remove(p) => p
  }

  /** The call at i is the last one of the first n steps that goes to its place. */
  ghost predicate IsLastCall(acts: seq<Act>, n: nat, i: nat)
    requires n <= |acts|
  {
    && i < n && acts[i].Call?
    && forall j :: i < j < n && acts[j].Call? ==> SlotOf(acts[j].op) != SlotOf(acts[i].op)
  }

  /** None of the first n steps is a call that goes to this place. */
  ghost predicate IsUncalled(acts: seq<Act>, n: nat, p: Slot)
    requires n <= |acts|
  {
    forall j :: 0 <= j < n ==>
                  acts[j] != Call(Remove(p)) && !(acts[j].Call? && acts[j].op.Save? && acts[j].op.row.slot == p)
  }

  /** The last call to a place decides it: saved, it holds the row, removed, nothing; a place
      that no call goes to is as it was. */
  ghost predicate CallsDecide(before: Index, after: Index, acts: seq<Act>, n: nat)
    requires n <= |acts|
  {
    && (forall i: nat :: IsLastCall(acts, n, i) ==>
          match acts[i].op
          case Save(row) => row.slot in after && after[row.slot] == row
          case Remove(p) => p !in after)
    && (forall p :: IsUncalled(acts, n, p) ==> Lookup(after, p) == Lookup(before, p))
  }

  lemma {:induction false} LastCallDecides(s: Index, acts: seq<Act>, n: nat)
    requires n <= |acts|
    ensures CallsDecide(s, AppliedAll(s, acts, n), acts, n)
  {
    if n > 0 {
      LastCallDecides(s, acts, n - 1);
      forall i: nat | IsLastCall(acts, n, i) && i < n - 1
        ensures IsLastCall(acts, n - 1, i)
        ensures acts[n - 1].Call? ==> SlotOf(acts[n - 1].op) != SlotOf(acts[i].op)
      {
      }
      forall p | IsUncalled(acts, n, p)
        ensures IsUncalled(acts, n - 1, p) && !(acts[n - 1].Call? && SlotOf(acts[n - 1].op) == p)
      {
        assert acts[n - 1] == acts[n - 1];
      }
    }
  }

  function Saved(acts: seq<Act>): set<Row> {
    set a | a in acts && a.Call? && a.op.Save? :: a.op.row
  }

  /** And so it decides what a database that follows holds there: what the row it saved holds
      in the end, or nothing. */
  ghost predicate DatabaseFollows(before: Store, after: Store, acts: seq<Act>)
    reads Saved(acts)
  {
    && (forall i: nat :: IsLastCall(acts, |acts|, i) ==>
          match acts[i].op
          case Save(row) => row.slot in after && after[row.slot] == row.Value()
          case Remove(p) => p !in after)
    && (forall p :: IsUncalled(acts, |acts|, p) ==> Get(after, p) == Get(before, p))
  }

  /** A place is saved or removed exactly if some call goes to it. */
  lemma {:induction false} TrackedIffCalled(acts: seq<Act>, n: nat, p: Slot)
    requires n <= |acts|
    ensures p !in Tracked(acts, n) <==> IsUncalled(acts, n, p)
  {
    if n > 0 {
      TrackedIffCalled(acts, n - 1, p);
      if IsUncalled(acts, n - 1, p) && p !in Tracked(acts, n) {
        assert IsUncalled(acts, n, p);
      }
      if IsUncalled(acts, n, p) {
        assert acts[n - 1] == acts[n - 1];
        assert IsUncalled(acts, n - 1, p);
      }
    }
  }

  lemma TakenFollows(rows: Index, acts: seq<Act>, db: Store, after: Store)
    requires CallsDecide(rows, AppliedAll(rows, acts, |acts|), acts, |acts|)
    requires after == Taken(db, Values(AppliedAll(rows, acts, |acts|)), Tracked(acts, |acts|))
    ensures DatabaseFollows(db, after, acts)
  {
    var published, n := AppliedAll(rows, acts, |acts|), |acts|;
    forall p: Slot
      ensures Get(after, p) == if IsUncalled(acts, n, p) then Get(db, p) else Get(Values(published), p)
    {
      TakenAt(db, Values(published), Tracked(acts, n), p);
      TrackedIffCalled(acts, n, p);
    }
    forall i: nat | IsLastCall(acts, n, i)
      ensures !IsUncalled(acts, n, SlotOf(acts[i].op))
    {
      assert acts[i] == acts[i];
    }
  }

  /** The places saved or removed by the first n steps. */
  function Tracked(acts: seq<Act>, n: nat): set<Slot>
    requires n <= |acts|
  {
    if n == 0 then {} else Tracked(acts, n - 1) + if acts[n - 1].Call? then {SlotOf(acts[n - 1].op)} else {}
  }

  /** What a row holds after the first n steps, if it has held e. */
  function LastValue(acts: seq<Act>, n: nat, row: Row, e: Entity): Entity
    requires n <= |acts|
  {
    if n == 0 then e
    else if acts[n - 1].Assign? && acts[n - 1].row == row then row.With(acts[n - 1].fields)
    else LastValue(acts, n - 1, row, e)
  }

  function Written(acts: seq<Act>): set<Row> {
    set a | a in acts && a.Assign? :: a.row
  }

  /** The writes leave every one of these rows with the value it had. */
  ghost predicate Undone(s: Index, was: Store, acts: seq<Act>)
    requires s.Keys == was.Keys
  {
    forall p :: p in s ==> LastValue(acts, |acts|, s[p], was[p]) == was[p]
  }

  /** Every one of these rows that they leave with another value is saved, or its place is. */
  ghost predicate AllSaved(s: Index, was: Store, acts: seq<Act>)
    requires s.Keys == was.Keys
  {
    forall p :: p in s && LastValue(acts, |acts|, s[p], was[p]) != was[p] ==> p in Tracked(acts, |acts|)
  }

  /** The net changes of a payload that has led from these rows to those: the former held
      `was` and hold `left` by now, what was written last, and the latter hold `target`. */
  ghost predicate Collected(before: Index, after: Index, was: Store, left: Store, target: Store,
                            acts: seq<Act>, net: seq<Change>)
  {
    && before.Keys == was.Keys == left.Keys && Keyed(was) && Keyed(target)
    && (forall p :: p in before ==> left[p] == LastValue(acts, |acts|, before[p], was[p]))
    && (forall p: Slot :: p !in Tracked(acts, |acts|) ==>
          Lookup(before, p) == Lookup(after, p) && Get(left, p) == Get(target, p))
    && NetChanges(left, target, net)
    && (forall p: Slot :: p in SlotsIn(net) <==> p in Tracked(acts, |acts|) && (p in left || p in target))
  }

  /** The rows of these tables. */
  function SlotsOf<V>(s: map<Slot, V>, ts: set<Table>): set<Slot> {
    set p | p in s && p.table in ts
  }

  lemma ValuesPut(s: Index, row: Row)
    ensures Values(s[row.slot := row]) == Values(s)[row.slot := row.Value()]
  {
  }

  lemma FiledIsKeyed(s: Index)
    requires Filed(s)
    ensures Keyed(Values(s))
  {
  }

  /** A memdb transaction: the snapshot it began with, its own view, and the slots it has
      touched when changes are tracked. */
  class Txn {
    const base: Index
    const write: bool
    var rows: Index
    var touched: seq<Slot>

    ghost predicate Valid()
      reads this
    {
      && Filed(base) && Filed(rows) && Distinct(touched)
      && (forall p: Slot :: Lookup(base, p) != Lookup(rows, p) ==> p in touched)
    }

    constructor (base: Index, write: bool)
      requires Filed(base)
      ensures Valid() && this.base == base && this.write == write && rows == base && touched == []
    {
      this.base, this.write := base, write;
      this.rows, this.touched := base, [];
    }

    method Touch(p: Slot)
      modifies this`touched
      ensures touched == if p in old(touched) then old(touched) else old(touched) + [p]
    {
      if p !in touched {
        touched := touched + [p];
      }
    }

    method Insert(row: Row)
      requires Valid() && write
      modifies this
      ensures Valid() && rows == old(rows)[row.slot := row]
      ensures old(touched) <= touched && Elements(touched) == Elements(old(touched)) + {row.slot}
    {
      rows := rows[row.slot := row];
      Touch(row.slot);
      ElementsSnoc(old(touched), row.slot);
    }

    method Delete(p: Slot)
      requires Valid() && write
      modifies this
      ensures Valid() && rows == old(rows) - {p}
      ensures old(touched) <= touched && Elements(touched) == Elements(old(touched)) + {p}
    {
      rows := rows - {p};
      Touch(p);
      ElementsSnoc(old(touched), p);
    }

    method DeleteTable(t: Table)
      requires Valid() && write
      modifies this
      ensures Valid() && rows == old(rows) - SlotsOf(old(rows), {t})
    {
      var doomed := SlotsOf(rows, {t});
      ghost var rows0, all := rows, doomed;
      while doomed != {}
        invariant Valid() && doomed <= all
        invariant rows == rows0 - (all - doomed)
        decreases |doomed|
      {
        var p := AnyOf(doomed);
        Delete(p);
        RemovedTwice(rows0, all - doomed, {p});
        assert all - (doomed - {p}) == (all - doomed) + {p};
        doomed := doomed - {p};
      }
    }

    /** One net change per touched slot, unless the slot was and is empty. The rows are read
        as they are now, the one before like the one after; they may be the same object. */
    method Changes() returns (changes: seq<Change>)
      requires Valid()
      ensures NetChanges(Values(base), Values(rows), changes)
      ensures forall c :: c in changes ==> c.before == Get(Values(base), c.slot)
      ensures forall p: Slot :: p in SlotsIn(changes) <==> p in touched && (p in base || p in rows)
    {
      changes := [];
      ghost var was, now := Values(base), Values(rows);
      FiledIsKeyed(base);
      for i := 0 to |touched|
        invariant Truthful(was, now, changes)
        invariant forall c :: c in changes ==> c.before == Get(was, c.slot)
        invariant forall p: Slot :: p in SlotsIn(changes) <==> p in touched[..i] && (p in base || p in rows)
      {
        var p := touched[i];
        PrefixSnoc(touched, i);
        if p in base || p in rows {
          var change := Change(p, if p in base then Some(base[p].Value()) else None,
                               if p in rows then Some(rows[p].Value()) else None);
          assert p !in touched[..i];
          TruthfulSnoc(was, now, changes, change);
          changes := changes + [change];
        }
      }
      assert touched[..|touched|] == touched;
      TouchedIsComplete(base, rows, touched, changes);
    }
  }

  lemma TruthfulSnoc(was: Store, now: Store, changes: seq<Change>, c: Change)
    requires Keyed(was) && Truthful(was, now, changes) && c.slot !in SlotsIn(changes)
    requires c.before == Get(was, c.slot) && c.after == Get(now, c.slot)
    ensures Truthful(was, now, changes + [c]) && SlotsIn(changes + [c]) == SlotsIn(changes) + {c.slot}
  {
    assert forall i :: 0 <= i < |changes| ==> changes[i] in changes;
    assert forall x :: x in changes + [c] <==> x in changes || x == c;
  }

  /** A value can only differ where the row objects do, or none is. */
  lemma TouchedIsComplete(base: Index, rows: Index, touched: seq<Slot>, changes: seq<Change>)
    requires forall p: Slot :: Lookup(base, p) != Lookup(rows, p) ==> p in touched
    requires forall p: Slot :: p in SlotsIn(changes) <==> p in touched && (p in base || p in rows)
    ensures Complete(Values(base), Values(rows), changes)
  {
    forall p: Slot | Get(Values(base), p) != Get(Values(rows), p)
      ensures exists i :: 0 <= i < |changes| && changes[i].slot == p
    {
      assert Lookup(base, p) != Lookup(rows, p);
      var c :| c in changes && c.slot == p;
    }
  }

  /** The in-memory database: what committed transactions have published. */
  class RamStorage {
    var rows: Index

    constructor ()
      ensures rows == map[]
    {
      rows := map[];
    }

    function View(): Store
      reads this, rows.Values
    {
      Values(rows)
    }

    method Tx(write: bool) returns (tx: Txn)
      requires Filed(rows)
      ensures fresh(tx) && tx.Valid() && tx.base == rows && tx.rows == rows && tx.write == write && tx.touched == []
    {
      tx := new Txn(rows, write);
    }

    method Commit(tx: Txn)
      modifies this
      ensures rows == tx.rows && View() == old(Values(tx.rows))
    {
      rows := tx.rows;
    }
  }

  class TxContext {
    const tx: Txn
    const local: bool
    const write: bool

    constructor (tx: Txn, local: bool, write: bool)
      ensures this.tx == tx && this.local == local && this.write == write
    {
      this.tx, this.local, this.write := tx, local, write;
    }
  }

  /** The repository. Inside a transaction it carries the transaction's context; its one
      before-commit callback is the flush. */
  class InMemRepo {
    const storage: RamStorage
    const flusher: Flusher
    const txCtx: TxContext?

    constructor (storage: RamStorage, flusher: Flusher, txCtx: TxContext?)
      ensures this.storage == storage && this.flusher == flusher && this.txCtx == txCtx
    {
      this.storage, this.flusher, this.txCtx := storage, flusher, txCtx;
    }

    /** The context asked for. A write inside a read-only transaction panics. */
    method GetTxCtx(write: bool) returns (ctx: TxContext)
      requires Filed(storage.rows)
      requires txCtx != null && write ==> txCtx.write
      ensures txCtx != null ==> ctx == txCtx
      ensures txCtx == null ==>
                && fresh(ctx) && fresh(ctx.tx) && ctx.local && ctx.write == write
                && ctx.tx.Valid() && ctx.tx.write == write && ctx.tx.rows == storage.rows
    {
      if txCtx == null {
        var tx := storage.Tx(write);
        ctx := new TxContext(tx, true, write);
      } else {
        ctx := txCtx;
      }
    }

    /** Inside a transaction the operation lands in it. Outside one it lands in a
        transaction of its own, which is aborted: nothing is published. */
    method Perform(op: Op)
      requires Filed(storage.rows)
      requires txCtx != null ==> txCtx.write && txCtx.tx.write && txCtx.tx.Valid()
      modifies if txCtx != null then {txCtx.tx} else {}
      ensures storage.rows == old(storage.rows) && flusher.db == old(flusher.db)
      ensures txCtx != null ==>
                && txCtx.tx.Valid() && txCtx.tx.rows == Applied(old(txCtx.tx.rows), op)
                && Elements(txCtx.tx.touched) == Elements(old(txCtx.tx.touched)) + {SlotOf(op)}
    {
      var ctx := GetTxCtx(true);
      match op
      case Save(row) => ctx.tx.Insert(row);
      case Remove(p) => ctx.tx.Delete(p);
      // A local context aborts here; any other is left to the transaction that owns it.
    }

    /** The payload's steps: operations land in the transaction, writes in the rows
        themselves, published ones among them. */
    method RunPayload(acts: seq<Act>)
      requires txCtx != null && txCtx.write && txCtx.tx.write && txCtx.tx.Valid() && txCtx.tx.touched == []
      requires Filed(storage.rows) && txCtx.tx.rows == txCtx.tx.base
      modifies txCtx.tx, Written(acts)
      ensures txCtx.tx.Valid() && txCtx.tx.rows == AppliedAll(txCtx.tx.base, acts, |acts|)
      ensures Elements(txCtx.tx.touched) == Tracked(acts, |acts|)
      ensures forall r: Row :: old(allocated(r)) ==> r.Value() == LastValue(acts, |acts|, r, old(r.Value()))
      ensures storage.rows == old(storage.rows) && flusher.db == old(flusher.db)
    {
      for i := 0 to |acts|
        invariant txCtx.tx.Valid() && txCtx.tx.rows == AppliedAll(txCtx.tx.base, acts, i)
        invariant Elements(txCtx.tx.touched) == Tracked(acts, i)
        invariant forall r: Row :: old(allocated(r)) ==> r.Value() == LastValue(acts, i, r, old(r.Value()))
        invariant storage.rows == old(storage.rows) && flusher.db == old(flusher.db)
      {
        match acts[i]
        case Call(op) => Perform(op);
        case Assign(row, fields) => row.Assign(fields);
      }
    }

    /** Runs the payload in a transaction of its own and reports the net changes. */
    method Collect(acts: seq<Act>) returns (tx: Txn, net: seq<Change>)
      requires Filed(storage.rows)
      modifies Written(acts)
      ensures fresh(tx) && Filed(tx.rows) && tx.rows == AppliedAll(storage.rows, acts, |acts|)
      ensures Collected(storage.rows, tx.rows, old(storage.View()), storage.View(), Values(tx.rows), acts, net)
      ensures forall r: Row :: old(allocated(r)) ==> r.Value() == LastValue(acts, |acts|, r, old(r.Value()))
      ensures storage.rows == old(storage.rows) && flusher.db == old(flusher.db)
    {
      tx := storage.Tx(true);
      var ctx := new TxContext(tx, false, true);
      var inner := new InMemRepo(storage, flusher, ctx);
      inner.RunPayload(acts);
      net := tx.Changes();
      FiledIsKeyed(tx.rows);
      assert forall p: Slot :: p in tx.touched <==> p in Elements(tx.touched);
    }

    /** A write transaction. It publishes its rows and its flush if and only if both the
        payload and the flush of its net changes succeed; otherwise the rows published and
        the database are as before. What the payload has written into published rows stays
        in memory in any case: `left` is what they hold by then, `target` what the rows to
        be published hold. After a failure memory is as before if and only if the writes
        undo themselves; after a success the database has taken over exactly the slots
        saved or removed, so that two stores that agreed still do if and only if every row
        left with another value is saved. */
    method WithWTxVal(payload: Payload, standby: bool, env: Environment)
      returns (ok: bool, changes: seq<Change>, ghost net: seq<Change>, ghost left: Store, ghost target: Store)
      requires Filed(storage.rows) && flusher as object != storage
      modifies storage, flusher, Written(payload.acts)
      ensures Filed(storage.rows)
      ensures storage.rows ==
              if ok then AppliedAll(old(storage.rows), payload.acts, |payload.acts|) else old(storage.rows)
      ensures forall r: Row :: old(allocated(r)) ==>
                r.Value() == LastValue(payload.acts, |payload.acts|, r, old(r.Value()))
      ensures ok ==> CallsDecide(old(storage.rows), storage.rows, payload.acts, |payload.acts|)
      ensures storage.View() == if ok then target else left
      ensures Collected(old(storage.rows), AppliedAll(old(storage.rows), payload.acts, |payload.acts|),
                        old(storage.View()), left, target, payload.acts, net)
      ensures ok <==> !payload.fails && (standby || Flushes(flusher.pod, env, net))
      ensures changes == if ok then net else []
      ensures ok && !standby ==> flusher.sent == Plan(changes) && flusher.db == ExecAll(old(flusher.db), Plan(changes))
      ensures !ok || standby ==> flusher.db == old(flusher.db)
      ensures left == old(storage.View()) <==> Undone(old(storage.rows), old(storage.View()), payload.acts)
      ensures ok && !standby && Keyed(old(flusher.db)) && old(flusher.db.Keys == storage.rows.Keys) ==>
                flusher.db == Taken(old(flusher.db), target, Tracked(payload.acts, |payload.acts|))
      ensures ok && !standby && Keyed(old(flusher.db)) && old(flusher.db.Keys == storage.rows.Keys) ==>
                DatabaseFollows(old(flusher.db), flusher.db, payload.acts)
      ensures ok && !standby && old(storage.View() == flusher.db) ==>
                (storage.View() == flusher.db <==> AllSaved(old(storage.rows), old(storage.View()), payload.acts))
      ensures !ok && old(storage.View() == flusher.db) ==>
                (storage.View() == flusher.db <==> Undone(old(storage.rows), old(storage.View()), payload.acts))
    {
      ghost var was, db := storage.View(), flusher.db;
      var tx;
      tx, changes := Collect(payload.acts);
      net := changes;
      left, target := storage.View(), Values(tx.rows);
      WrittenValues(storage.rows, tx.rows, was, left, target, payload.acts, net);
      FlushOutcome(storage.rows, tx.rows, was, left, target, payload.acts, net, db);
      if payload.fails {
        changes := [];
        return false, changes, net, left, target;
      }
      ok := FlushAndCommit(tx, changes, standby, env);
      LastCallDecides(old(storage.rows), payload.acts, |payload.acts|);
      if ok && !standby && Keyed(db) && db.Keys == was.Keys {
        TakenFollows(old(storage.rows), payload.acts, db, flusher.db);
      }
      changes := if ok then changes else [];
    }

    /** The end of a transaction: its rows are published if the flush succeeds. */
    method FlushAndCommit(tx: Txn, changes: seq<Change>, standby: bool, env: Environment) returns (ok: bool)
      requires flusher as object != storage
      modifies storage, flusher
      ensures ok <==> standby || Flushes(flusher.pod, env, changes)
      ensures storage.rows == if ok then tx.rows else old(storage.rows)
      ensures ok && !standby ==> flusher.sent == Plan(changes) && flusher.db == ExecAll(old(flusher.db), Plan(changes))
      ensures !ok || standby ==> flusher.db == old(flusher.db)
      ensures storage.View() == if ok then old(Values(tx.rows)) else old(storage.View())
    {
      var result := flusher.Flush(changes, standby, env);
      ok := result == Flushed;
      assert Values(tx.rows) == old(Values(tx.rows));
      if ok {
        storage.Commit(tx);
      }
    }
  }

  // ---------------------------------------------------------------- what a payload leaves

  /** The published rows are as before exactly when the writes undo themselves. */
  lemma WrittenValues(before: Index, after: Index, was: Store, left: Store, target: Store,
                      acts: seq<Act>, net: seq<Change>)
    requires Collected(before, after, was, left, target, acts, net)
    ensures left == was <==> Undone(before, was, acts)
  {
  }

  lemma TakenFromChanges(db: Store, view: Store, slots: set<Slot>, tracked: set<Slot>)
    requires forall p: Slot :: p in slots <==> p in tracked && (p in db || p in view)
    ensures Taken(db, view, slots) == Taken(db, view, tracked)
  {
    forall p: Slot
      ensures Get(Taken(db, view, slots), p) == Get(Taken(db, view, tracked), p)
    {
      TakenAt(db, view, slots, p);
      TakenAt(db, view, tracked, p);
    }
    SameSlots(Taken(db, view, slots), Taken(db, view, tracked));
  }

  /** The flush puts right exactly the slots saved or removed. If memory and database agreed,
      they agree again if and only if every row left with another value is saved. */
  lemma FlushOutcome(before: Index, after: Index, was: Store, left: Store, target: Store,
                     acts: seq<Act>, net: seq<Change>, db: Store)
    requires Collected(before, after, was, left, target, acts, net)
    ensures Keyed(db) && db.Keys == before.Keys ==> ExecAll(db, Plan(net)) == Taken(db, target, Tracked(acts, |acts|))
    ensures was == db ==> (target == ExecAll(db, Plan(net)) <==> AllSaved(before, was, acts))
  {
    if Keyed(db) && db.Keys == before.Keys {
      PlanTakes(db, left, target, net);
      TakenFromChanges(db, target, SlotsIn(net), Tracked(acts, |acts|));
    }
    if was == db {
      PlanReachesIff(was, left, target, net);
      UnsavedDiffer(before, after, was, left, target, acts, net);
    }
  }

  /** Outside what is saved a slot holds the same row object before and after. */
  lemma UnsavedDiffer(before: Index, after: Index, was: Store, left: Store, target: Store,
                      acts: seq<Act>, net: seq<Change>)
    requires Collected(before, after, was, left, target, acts, net)
    ensures (forall p: Slot :: Get(was, p) != Get(target, p) ==> p in SlotsIn(net)) <==> AllSaved(before, was, acts)
  {
    forall p: Slot
      ensures (Get(was, p) != Get(target, p) ==> p in SlotsIn(net)) <==>
              (p in before && LastValue(acts, |acts|, before[p], was[p]) != was[p] ==> p in Tracked(acts, |acts|))
    {
    }
  }

  /** A row found, written with another value and saved: its writes are not undone, so that
      memory keeps them when the flush fails; they are saved, so that a flush that succeeds
      brings the database along. Not saved, not even that one does. */
  lemma SavedButNotUndone(s: Index, was: Store, row: Row, f: Fields)
    requires s.Keys == was.Keys && Filed(s) && row.slot in s && s[row.slot] == row && was[row.slot] != row.With(f)
    ensures !Undone(s, was, [Assign(row, f), Call(Save(row))]) && AllSaved(s, was, [Assign(row, f), Call(Save(row))])
    ensures !Undone(s, was, [Assign(row, f)]) && !AllSaved(s, was, [Assign(row, f)])
  {
    var one, two := [Assign(row, f)], [Assign(row, f), Call(Save(row))];
    forall q | q in s
      ensures LastValue(one, 1, s[q], was[q]) == LastValue(two, 2, s[q], was[q])
      ensures LastValue(one, 1, s[q], was[q]) == if q == row.slot then row.With(f) else was[q]
    {
      LastOfOne(Assign(row, f), s[q], was[q]);
      LastOfTwo(Assign(row, f), Call(Save(row)), s[q], was[q]);
    }
    assert one[0].Assign? && two[0].Assign? && two[1] == Call(Save(row));
    assert Tracked(one, 1) == Tracked(one, 0) + {};
    assert Tracked(two, 2) == Tracked(two, 1) + {row.slot} && Tracked(two, 1) == Tracked(two, 0) + {};
  }

  lemma LastOfOne(a: Act, row: Row, e: Entity)
    ensures LastValue([a], 1, row, e) == if a.Assign? && a.row == row then row.With(a.fields) else e
  {
  }

  lemma LastOfTwo(a: Act, b: Act, row: Row, e: Entity)
    ensures LastValue([a, b], 2, row, e) ==
            if b.Assign? && b.row == row then row.With(b.fields)
            else if a.Assign? && a.row == row then row.With(a.fields) else e
  {
    assert LastValue([a, b], 1, row, e) == if a.Assign? && a.row == row then row.With(a.fields) else e;
  }

  // ---------------------------------------------------------------- loading

  /** Every row of a table, as one SELECT returns them, in some order. */
  method SelectAll(db: Store, t: Table) returns (entities: seq<Entity>, ghost slots: seq<Slot>)
    ensures forall e :: e in entities <==> exists p :: p in SlotsOf(db, {t}) && db[p] == e
    ensures |entities| == |SlotsOf(db, {t})|
    ensures |slots| == |entities| && Elements(slots) == SlotsOf(db, {t})
    ensures forall i :: 0 <= i < |slots| ==> slots[i] in db && slots[i].table == t && db[slots[i]] == entities[i]
  {
    entities, slots := ListRows(db, t, SlotsOf(db, {t}));
    SlotsToEntities(db, SlotsOf(db, {t}), entities, slots);
  }

  method ListRows(db: Store, t: Table, all: set<Slot>) returns (entities: seq<Entity>, ghost slots: seq<Slot>)
    requires forall p :: p in all ==> p in db && p.table == t
    ensures |slots| == |entities| == |all| && Elements(slots) == all
    ensures forall i :: 0 <= i < |slots| ==> slots[i] in db && slots[i].table == t && db[slots[i]] == entities[i]
  {
    entities, slots := [], [];
    var pending := all;
    while pending != {}
      invariant pending <= all
      invariant |slots| == |entities| == |all| - |pending| && Elements(slots) == all - pending
      invariant forall i :: 0 <= i < |slots| ==> slots[i] in db && slots[i].table == t && db[slots[i]] == entities[i]
      decreases |pending|
    {
      var p :| p in pending;
      ElementsSnoc(slots, p);
      entities, slots := entities + [db[p]], slots + [p];
      pending := pending - {p};
    }
  }

  /** Rows listed beside their slots are the rows of those slots. */
  lemma SlotsToEntities(db: Store, all: set<Slot>, entities: seq<Entity>, slots: seq<Slot>)
    requires |slots| == |entities| && Elements(slots) == all
    requires forall i :: 0 <= i < |slots| ==> slots[i] in db && db[slots[i]] == entities[i]
    ensures forall p :: p in all ==> p in db
    ensures forall e :: e in entities <==> exists p :: p in all && db[p] == e
  {
    forall p | p in all
      ensures p in db && db[p] in entities
    {
      assert p in Elements(slots);
      var i :| 0 <= i < |slots| && slots[i] == p;
      assert entities[i] == db[p];
    }
    forall e | e in entities
      ensures exists p :: p in all && p in db && db[p] == e
    {
      var i :| 0 <= i < |entities| && entities[i] == e;
      assert slots[i] in Elements(slots);
    }
  }

  lemma LoadOne(rows0: Store, db: Store, loaded: set<Slot>, p: Slot)
    requires p in db
    ensures (rows0 + Kept(db, loaded))[p := db[p]] == rows0 + Kept(db, loaded + {p})
  {
  }

  lemma LoadTable(db: Store, ts: set<Table>, t: Table)
    ensures Kept(db, SlotsOf(db, ts)) + Kept(db, SlotsOf(db, {t})) == Kept(db, SlotsOf(db, ts + {t}))
  {
  }

  /** A store with a table read over it. */
  function WithTable(s: Store, db: Store, t: Table): Store {
    s + Kept(db, SlotsOf(db, {t}))
  }

  method InsertNew(tx: Txn, t: Table, e: Entity)
    requires tx.Valid() && tx.write
    modifies tx
    ensures tx.Valid() && Values(tx.rows) == Values(old(tx.rows))[Slot(t, e.key) := e]
  {
    var row := new Row(Slot(t, e.key), Fields(e.refs, e.columns));
    ValuesPut(tx.rows, row);
    tx.Insert(row);
  }

  method InsertFrom(tx: Txn, db: Store, ghost rows0: Store, ghost loaded: set<Slot>, t: Table,
                    ghost p: Slot, e: Entity)
    requires tx.Valid() && tx.write && p in db && p == Slot(t, e.key) && db[p] == e
    requires Values(tx.rows) == rows0 + Kept(db, loaded)
    modifies tx
    ensures tx.Valid() && Values(tx.rows) == rows0 + Kept(db, loaded + {p})
  {
    LoadOne(rows0, db, loaded, p);
    InsertNew(tx, t, e);
  }

  method LoadEntity(tx: Txn, db: Store, t: Table, fails: bool) returns (ok: bool)
    requires tx.Valid() && tx.write && Keyed(db)
    modifies tx
    ensures tx.Valid() && ok == !fails
    ensures ok ==> Values(tx.rows) == WithTable(Values(old(tx.rows)), db, t)
  {
    if fails {
      return false;
    }
    var entities, slots := SelectAll(db, t);
    InsertAll(tx, t, db, entities, slots);
    ok := true;
  }

  method InsertAll(tx: Txn, t: Table, db: Store, entities: seq<Entity>, ghost slots: seq<Slot>)
    requires tx.Valid() && tx.write && |slots| == |entities|
    requires forall i :: 0 <= i < |slots| ==>
               slots[i] in db && slots[i] == Slot(t, entities[i].key) && db[slots[i]] == entities[i]
    modifies tx
    ensures tx.Valid() && Values(tx.rows) == Values(old(tx.rows)) + Kept(db, Elements(slots))
  {
    ghost var rows0 := Values(tx.rows);
    ghost var loaded: set<Slot> := {};
    for i := 0 to |entities|
      invariant tx.Valid() && loaded == Elements(slots[..i])
      invariant Values(tx.rows) == rows0 + Kept(db, loaded)
    {
      PrefixSnoc(slots, i);
      ElementsSnoc(slots[..i], slots[i]);
      InsertFrom(tx, db, rows0, loaded, t, slots[i], entities[i]);
      loaded := loaded + {slots[i]};
    }
    assert slots[..|slots|] == slots;
  }

  /** What the first n tables in order give, each read from the database of its moment. */
  function ReadUpTo(order: seq<Table>, dbs: seq<Store>, n: nat): Store
    requires n <= |order| == |dbs|
  {
    if n == 0 then map[] else WithTable(ReadUpTo(order, dbs, n - 1), dbs[n - 1], order[n - 1])
  }

  /** A slot of the table read at i holds what the database held then. */
  lemma {:induction false} ReadAt(order: seq<Table>, dbs: seq<Store>, n: nat, p: Slot)
    requires n <= |order| == |dbs| && Distinct(order)
    ensures forall i :: 0 <= i < n && order[i] == p.table ==> Get(ReadUpTo(order, dbs, n), p) == Get(dbs[i], p)
    ensures (forall i :: 0 <= i < n ==> order[i] != p.table) ==> p !in ReadUpTo(order, dbs, n)
  {
    if n > 0 {
      ReadAt(order, dbs, n - 1, p);
    }
  }

  /** The database has had this table as it was when read. */
  ghost predicate ReadTruly(order: seq<Table>, dbs: seq<Store>, db: Store, i: nat)
    requires i < |order| == |dbs|
  {
    forall p: Slot :: p.table == order[i] ==> Get(dbs[i], p) == Get(db, p)
  }

  lemma PlaceRead(order: seq<Table>, dbs: seq<Store>, p: Slot) returns (i: nat)
    requires |order| == |dbs| && Distinct(order) && p.table in order
    ensures i < |order| && order[i] == p.table
    ensures Get(ReadUpTo(order, dbs, |order|), p) == Get(dbs[i], p)
  {
    i :| 0 <= i < |order| && order[i] == p.table;
    ReadAt(order, dbs, |order|, p);
  }

  /** What has been loaded is the database db if and only if every table was read as db has
      it; so it is when nothing is committed meanwhile. */
  lemma LoadedIsDatabaseIff(order: seq<Table>, dbs: seq<Store>, db: Store)
    requires |order| == |dbs| && Distinct(order) && forall t: Table :: t in order
    ensures ReadUpTo(order, dbs, |order|) == db <==> forall i :: 0 <= i < |order| ==> ReadTruly(order, dbs, db, i)
  {
    var rows := ReadUpTo(order, dbs, |order|);
    if forall i :: 0 <= i < |order| ==> ReadTruly(order, dbs, db, i) {
      forall p: Slot
        ensures Get(rows, p) == Get(db, p)
      {
        var i := PlaceRead(order, dbs, p);
        assert ReadTruly(order, dbs, db, i);
      }
      SameSlots(rows, db);
    }
    if rows == db {
      forall i | 0 <= i < |order|
        ensures ReadTruly(order, dbs, db, i)
      {
        forall p: Slot | p.table == order[i]
          ensures Get(dbs[i], p) == Get(db, p)
        {
          ReadAt(order, dbs, |order|, p);
        }
      }
    }
  }

  /** The tables in the order in which they are loaded, each once. */
  method LoadOrder() returns (order: seq<Table>)
    ensures order == RELATION_ORDER
    ensures Distinct(order) && forall t: Table :: t in order
  {
    order := RELATION_ORDER;
    forall t: Table
      ensures t in order
    {
      OrderListsEveryTable(t);
    }
    forall i, j | 0 <= i < j < |order|
      ensures order[i] != order[j]
    {
      RankOfPlace(i);
      RankOfPlace(j);
    }
  }

  /** Replaces memory by what the database holds, in one transaction of the memory; every
      table is read in a transaction of its own, so `dbs` are the database at each of these
      moments. The first failing SELECT (`failing` tables in) leaves memory as it was. */
  method ClearAndLoad(storage: RamStorage, dbs: seq<Store>, failing: Option<nat>) returns (ok: bool)
    requires Filed(storage.rows) && |dbs| == |RELATION_ORDER| && forall i :: 0 <= i < |dbs| ==> Keyed(dbs[i])
    modifies storage
    ensures ok <==> failing.None? || |RELATION_ORDER| <= failing.value
    ensures Filed(storage.rows)
    ensures ok ==> storage.View() == ReadUpTo(RELATION_ORDER, dbs, |RELATION_ORDER|)
    ensures ok ==> forall db :: storage.View() == db <==> LoadedTruly(dbs, db)
    ensures !ok ==> storage.rows == old(storage.rows)
  {
    var order := LoadOrder();
    ok := LoadInto(storage, order, dbs, failing);
    forall db
      ensures ReadUpTo(order, dbs, |order|) == db <==> LoadedTruly(dbs, db)
    {
      LoadedIsDatabaseIff(order, dbs, db);
    }
  }

  /** Every table was read as db has it. */
  ghost predicate LoadedTruly(dbs: seq<Store>, db: Store)
    requires |dbs| == |RELATION_ORDER|
  {
    forall i :: 0 <= i < |RELATION_ORDER| ==> ReadTruly(RELATION_ORDER, dbs, db, i)
  }

  method LoadInto(storage: RamStorage, order: seq<Table>, dbs: seq<Store>, failing: Option<nat>) returns (ok: bool)
    requires Filed(storage.rows) && |dbs| == |order| && forall i :: 0 <= i < |dbs| ==> Keyed(dbs[i])
    requires forall t: Table :: t in order
    modifies storage
    ensures ok <==> failing.None? || |order| <= failing.value
    ensures Filed(storage.rows)
    ensures ok ==> storage.View() == ReadUpTo(order, dbs, |order|)
    ensures !ok ==> storage.rows == old(storage.rows)
  {
    var tx := storage.Tx(true);
    ClearTables(tx, order);
    ok := LoadTables(tx, order, dbs, failing);
    if ok {
      storage.Commit(tx);
    }
  }

  method ClearTables(tx: Txn, order: seq<Table>)
    requires tx.Valid() && tx.write
    requires forall t: Table :: t in order
    modifies tx
    ensures tx.Valid() && tx.rows == map[]
  {
    ghost var rows0 := tx.rows;
    for i := 0 to |order|
      invariant tx.Valid()
      invariant tx.rows == rows0 - SlotsOf(rows0, Elements(order[..i]))
    {
      PrefixSnoc(order, i);
      ElementsSnoc(order[..i], order[i]);
      tx.DeleteTable(order[i]);
    }
    assert order[..|order|] == order;
    assert forall t: Table :: t in Elements(order);
  }

  method LoadNext(tx: Txn, order: seq<Table>, dbs: seq<Store>, i: nat, fails: bool) returns (ok: bool)
    requires tx.Valid() && tx.write && i < |order| == |dbs| && Keyed(dbs[i])
    requires Values(tx.rows) == ReadUpTo(order, dbs, i)
    modifies tx
    ensures tx.Valid() && ok == !fails
    ensures ok ==> Values(tx.rows) == ReadUpTo(order, dbs, i + 1)
  {
    ok := LoadEntity(tx, dbs[i], order[i], fails);
  }

  method LoadTables(tx: Txn, order: seq<Table>, dbs: seq<Store>, failing: Option<nat>) returns (ok: bool)
    requires tx.Valid() && tx.write && tx.rows == map[]
    requires |dbs| == |order| && forall i :: 0 <= i < |dbs| ==> Keyed(dbs[i])
    modifies tx
    ensures tx.Valid()
    ensures ok <==> failing.None? || |order| <= failing.value
    ensures ok ==> Values(tx.rows) == ReadUpTo(order, dbs, |order|)
  {
    for i := 0 to |order|
      invariant tx.Valid()
      invariant failing.Some? ==> i <= failing.value
      invariant Values(tx.rows) == ReadUpTo(order, dbs, i)
    {
      ok := LoadNext(tx, order, dbs, i, failing == Some(i));
      if !ok {
        return;
      }
    }
    ok := true;
  }
}
