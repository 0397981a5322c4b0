/** The statements a flush sends to the database, and why they can be sent one by one
    (`constancy/flusher.go`). */
module FlushPlan {
  import opened Common
  import opened Domain

  datatype Kind = Insertion | Modification | Removal

  /** A net change of a transaction, as memdb reports it: the row of one slot before and after. */
  datatype Change = Change(slot: Slot, before: Option<Entity>, after: Option<Entity>) {
    predicate Created() { before.None? && after.Some? }
    predicate Updated() { before.Some? && after.Some? }
    predicate Deleted() { before.Some? && after.None? }

    predicate Is(kind: Kind) {
      match kind
      case Insertion => Created()
      case Modification => Updated()
      case Removal => Deleted()
    }
  }

  /** One INSERT, one UPDATE ... WHERE pk or one DELETE ... WHERE pk. */
  datatype Statement = Statement(kind: Kind, table: Table, row: Entity) {
    function Target(): Slot { Slot(table, row.key) }
  }

  // ---------------------------------------------------------------- the plan

  /** A change is written from its new row and deleted by its old one. */
  function StatementFor(c: Change, kind: Kind): Statement
    requires c.Is(kind)
  {
    Statement(kind, c.slot.table, if kind == Removal then c.before.value else c.after.value)
  }

  /** The statements of one kind for one table, in the order of the changes. */
  function Pick(changes: seq<Change>, t: Table, kind: Kind): seq<Statement> {
    if changes == [] then []
    else (if changes[0].slot.table == t && changes[0].Is(kind) then [StatementFor(changes[0], kind)] else [])
         + Pick(changes[1..], t, kind)
  }

  /** Inserts, then updates, table by table from rank i on. */
  function Forward(changes: seq<Change>, order: seq<Table>, i: nat): seq<Statement>
    requires i <= |order|
    decreases |order| - i, changes
  {
    if i == |order| then []
    else Pick(changes, order[i], Insertion) + Pick(changes, order[i], Modification) + Forward(changes, order, i + 1)
  }

  /** Deletes, table by table from rank n - 1 down. */
  function Backward(changes: seq<Change>, order: seq<Table>, n: nat): seq<Statement>
    requires n <= |order|
  {
    if n == 0 then [] else Pick(changes, order[n - 1], Removal) + Backward(changes, order, n - 1)
  }

  function Plan(changes: seq<Change>): seq<Statement> {
    Forward(changes, RELATION_ORDER, 0) + Backward(changes, RELATION_ORDER, |RELATION_ORDER|)
  }

  // ---------------------------------------------------------------- executing it

  /** What a statement does to the database: an update of a missing row affects nothing. */
  function Exec(s: Store, st: Statement): Store {
    match st.kind
    case Insertion => s[st.Target() := st.row]
    case Modification => if st.Target() in s then s[st.Target() := st.row] else s
    case Removal => s - {st.Target()}
  }

  function ExecAll(s: Store, stmts: seq<Statement>): Store
    decreases |stmts|
  {
    if stmts == [] then s else ExecAll(Exec(s, stmts[0]), stmts[1..])
  }

  /** The statement affects exactly one row: an insert meets no duplicate key, an update
      and a delete find their row. */
  predicate AffectsOneRow(s: Store, st: Statement) {
    st.kind == Insertion <==> st.Target() !in s
  }

  /** Every statement affects one row and leaves every foreign key satisfied. */
  ghost predicate SoundRun(s: Store, stmts: seq<Statement>)
    decreases |stmts|
  {
    && Integrity(s)
    && (stmts != [] ==> AffectsOneRow(s, stmts[0]) && SoundRun(Exec(s, stmts[0]), stmts[1..]))
  }

  /** A run is sound whenever the stores it leads between are. */
  ghost predicate SoundBetween(s0: Store, s1: Store, s: Store, stmts: seq<Statement>) {
    Integrity(s0) && Integrity(s1) ==> SoundRun(s, stmts)
  }

  // ---------------------------------------------------------------- net changes

  function Get(s: Store, p: Slot): Option<Entity> {
    if p in s then Some(s[p]) else None
  }

  /** The changes say truly what becomes of their slots from s0 to s1, one per slot: whether
      there was a row, and the row there is. No value of an old row matters but its key, which
      is all that a flush reads of it. */
  ghost predicate Truthful(s0: Store, s1: Store, changes: seq<Change>) {
    && (forall i :: 0 <= i < |changes| ==>
          && (changes[i].before.Some? <==> changes[i].slot in s0)
          && (changes[i].before.Some? ==> changes[i].before.value.key == changes[i].slot.key)
          && changes[i].after == Get(s1, changes[i].slot))
    && (forall i, j :: 0 <= i < j < |changes| ==> changes[i].slot != changes[j].slot)
  }

  /** Nothing that differs is missing. */
  ghost predicate Complete(s0: Store, s1: Store, changes: seq<Change>) {
    forall p: Slot :: Get(s0, p) != Get(s1, p) ==> exists i :: 0 <= i < |changes| && changes[i].slot == p
  }

  ghost predicate NetChanges(s0: Store, s1: Store, changes: seq<Change>) {
    Truthful(s0, s1, changes) && Complete(s0, s1, changes)
  }

  // ---------------------------------------------------------------- the stores in between

  /** A table order with the place of each table in it. */
  datatype Order = Order(tables: seq<Table>, rank: Table -> nat) {
    ghost predicate ListsAll() {
      forall t: Table :: rank(t) < |tables| && tables[rank(t)] == t
    }

    ghost predicate ListsOnce() {
      forall i :: 0 <= i < |tables| ==> rank(tables[i]) == i
    }

    ghost predicate ParentsFirst() {
      forall t: Table, c: Column :: ParentOf(t, c).Some? ==> rank(ParentOf(t, c).value) < rank(t)
    }

    ghost predicate Sound() {
      ListsAll() && ListsOnce() && ParentsFirst()
    }
  }

  lemma RelationOrderListsAll()
    ensures Order(RELATION_ORDER, Rank).ListsAll()
  {
    forall t: Table
      ensures Rank(t) < |RELATION_ORDER| && RELATION_ORDER[Rank(t)] == t
    {
      OrderListsEveryTable(t);
    }
  }

  lemma RelationOrderListsOnce()
    ensures Order(RELATION_ORDER, Rank).ListsOnce()
  {
    forall i | 0 <= i < |RELATION_ORDER|
      ensures Rank(RELATION_ORDER[i]) == i
    {
      RankOfPlace(i);
    }
  }

  lemma RelationOrderParentsFirst()
    ensures Order(RELATION_ORDER, Rank).ParentsFirst()
  {
    forall t: Table, c: Column | ParentOf(t, c).Some?
      ensures Rank(ParentOf(t, c).value) < Rank(t)
    {
      OrderIsTopological(t, c);
    }
  }

  /** While inserts and updates run: the slots in `done` hold their new row, the others
      their old one. */
  ghost function Forwarded(s0: Store, s1: Store, done: set<Slot>): Store {
    map p | p in s0.Keys + s1.Keys && (p in s0 || p in done) :: if p in s1 && p in done then s1[p] else s0[p]
  }

  /** While deletes run: everything new is there, and what is old only has not gone yet. */
  ghost function Deleting(s0: Store, s1: Store, gone: set<Slot>): Store {
    map p | p in s0.Keys + s1.Keys && (p in s1 || p !in gone) :: if p in s1 then s1[p] else s0[p]
  }

  ghost predicate Changed(s0: Store, s1: Store, p: Slot) {
    p in s1 && Get(s0, p) != Get(s1, p)
  }

  /** Up to rank i (exclusive) every new row is in place; beyond rank i none is. */
  ghost predicate ForwardFront(o: Order, s0: Store, s1: Store, done: set<Slot>, i: nat) {
    && (forall p: Slot :: p in done ==> p in s1 && o.rank(p.table) <= i)
    && (forall p: Slot :: Changed(s0, s1, p) && o.rank(p.table) < i ==> p in done)
  }

  /** From rank i (exclusive) on every old row has gone; before rank i none has. */
  ghost predicate BackwardFront(o: Order, s0: Store, s1: Store, gone: set<Slot>, i: nat) {
    && (forall p: Slot :: p in gone ==> p !in s1 && i <= o.rank(p.table))
    && (forall p: Slot :: p in s0 && p !in s1 && i < o.rank(p.table) ==> p in gone)
  }

  lemma ForwardedHasIntegrity(o: Order, s0: Store, s1: Store, done: set<Slot>, i: nat)
    requires o.Sound()
    requires Integrity(s0) && Integrity(s1) && ForwardFront(o, s0, s1, done, i)
    ensures Integrity(Forwarded(s0, s1, done))
  {
    var s := Forwarded(s0, s1, done);
    forall p: Slot | p in s
      ensures Anchored(s, p.table, s[p])
    {
      forall c | c in s[p].refs && ParentOf(p.table, c).Some?
        ensures Slot(ParentOf(p.table, c).value, s[p].refs[c]) in s
      {
        var q := Slot(ParentOf(p.table, c).value, s[p].refs[c]);
        if p in s1 && p in done {
          assert Anchored(s1, p.table, s1[p]);
          assert q in s0 || Changed(s0, s1, q);
        } else {
          assert Anchored(s0, p.table, s0[p]);
        }
      }
    }
  }

  lemma DeletingHasIntegrity(o: Order, s0: Store, s1: Store, gone: set<Slot>, i: nat)
    requires o.Sound()
    requires Integrity(s0) && Integrity(s1) && BackwardFront(o, s0, s1, gone, i)
    ensures Integrity(Deleting(s0, s1, gone))
  {
    var s := Deleting(s0, s1, gone);
    forall p: Slot | p in s
      ensures Anchored(s, p.table, s[p])
    {
      forall c | c in s[p].refs && ParentOf(p.table, c).Some?
        ensures Slot(ParentOf(p.table, c).value, s[p].refs[c]) in s
      {
        if p in s1 {
          assert Anchored(s1, p.table, s1[p]);
        } else {
          assert Anchored(s0, p.table, s0[p]);
          assert o.rank(p.table) <= i;
        }
      }
    }
  }

  // ---------------------------------------------------------------- one pack

  function Targets(stmts: seq<Statement>): set<Slot> {
    set st | st in stmts :: st.Target()
  }

  /** A statement that writes its row of s1, or deletes its row of s0. */
  ghost predicate Writes(s0: Store, s1: Store, st: Statement) {
    match st.kind
    case Insertion => st.Target() !in s0 && Get(s1, st.Target()) == Some(st.row)
    case Modification => st.Target() in s0 && Get(s1, st.Target()) == Some(st.row)
    case Removal => st.Target() in s0 && st.Target() !in s1
  }

  ghost predicate DistinctTargets(stmts: seq<Statement>) {
    forall i, j :: 0 <= i < j < |stmts| ==> stmts[i].Target() != stmts[j].Target()
  }

  lemma WriteMovesForward(s0: Store, s1: Store, done: set<Slot>, st: Statement)
    requires st.kind != Removal && Writes(s0, s1, st) && st.Target() !in done
    ensures AffectsOneRow(Forwarded(s0, s1, done), st)
    ensures Exec(Forwarded(s0, s1, done), st) == Forwarded(s0, s1, done + {st.Target()})
  {
  }

  lemma DeleteMovesBackward(s0: Store, s1: Store, gone: set<Slot>, st: Statement)
    requires st.kind == Removal && Writes(s0, s1, st) && st.Target() !in gone
    ensures AffectsOneRow(Deleting(s0, s1, gone), st)
    ensures Exec(Deleting(s0, s1, gone), st) == Deleting(s0, s1, gone + {st.Target()})
  {
  }

  /** The first statement's target joins the slots already seen. */
  lemma TargetsOfHead(seen: set<Slot>, stmts: seq<Statement>)
    requires stmts != []
    ensures (seen + {stmts[0].Target()}) + Targets(stmts[1..]) == seen + Targets(stmts)
  {
    assert stmts == [stmts[0]] + stmts[1..];
    TargetsOfCons(stmts[0], stmts[1..]);
  }

  lemma TargetsOfCons(st: Statement, tail: seq<Statement>)
    ensures Targets([st] + tail) == {st.Target()} + Targets(tail)
  {
    assert forall x :: x in [st] + tail <==> x == st || x in tail;
  }

  /** Statements of one pack that may follow a front at which none of their targets is seen. */
  ghost predicate Pack(o: Order, s0: Store, s1: Store, seen: set<Slot>, i: nat, stmts: seq<Statement>, removal: bool) {
    && (forall k :: 0 <= k < |stmts| ==>
          && (stmts[k].kind == Removal <==> removal)
          && o.rank(stmts[k].table) == i
          && Writes(s0, s1, stmts[k])
          && stmts[k].Target() !in seen)
    && DistinctTargets(stmts)
  }

  lemma PackTail(o: Order, s0: Store, s1: Store, seen: set<Slot>, i: nat, stmts: seq<Statement>, removal: bool)
    requires Pack(o, s0, s1, seen, i, stmts, removal) && stmts != []
    ensures Pack(o, s0, s1, seen + {stmts[0].Target()}, i, stmts[1..], removal)
  {
    forall k | 0 <= k < |stmts| - 1
      ensures stmts[1..][k] == stmts[k + 1] && stmts[k + 1].Target() != stmts[0].Target()
    {
    }
  }

  lemma {:induction false} RunWrites(o: Order, s0: Store, s1: Store, done: set<Slot>, i: nat, stmts: seq<Statement>)
    requires o.Sound()
    requires ForwardFront(o, s0, s1, done, i)
    requires Pack(o, s0, s1, done, i, stmts, false)
    ensures SoundBetween(s0, s1, Forwarded(s0, s1, done), stmts)
    ensures ExecAll(Forwarded(s0, s1, done), stmts) == Forwarded(s0, s1, done + Targets(stmts))
    ensures ForwardFront(o, s0, s1, done + Targets(stmts), i)
    decreases |stmts|
  {
    if Integrity(s0) && Integrity(s1) {
      ForwardedHasIntegrity(o, s0, s1, done, i);
    }
    if stmts == [] {
      assert done + Targets(stmts) == done;
    } else {
      PackTail(o, s0, s1, done, i, stmts, false);
      WriteMovesForward(s0, s1, done, stmts[0]);
      TargetsOfHead(done, stmts);
      RunWrites(o, s0, s1, done + {stmts[0].Target()}, i, stmts[1..]);
    }
  }

  lemma {:induction false} RunDeletes(o: Order, s0: Store, s1: Store, gone: set<Slot>, i: nat, stmts: seq<Statement>)
    requires o.Sound()
    requires BackwardFront(o, s0, s1, gone, i)
    requires Pack(o, s0, s1, gone, i, stmts, true)
    ensures SoundBetween(s0, s1, Deleting(s0, s1, gone), stmts)
    ensures ExecAll(Deleting(s0, s1, gone), stmts) == Deleting(s0, s1, gone + Targets(stmts))
    ensures BackwardFront(o, s0, s1, gone + Targets(stmts), i)
    decreases |stmts|
  {
    if Integrity(s0) && Integrity(s1) {
      DeletingHasIntegrity(o, s0, s1, gone, i);
    }
    if stmts == [] {
      assert gone + Targets(stmts) == gone;
    } else {
      PackTail(o, s0, s1, gone, i, stmts, true);
      DeleteMovesBackward(s0, s1, gone, stmts[0]);
      TargetsOfHead(gone, stmts);
      RunDeletes(o, s0, s1, gone + {stmts[0].Target()}, i, stmts[1..]);
    }
  }

  // ---------------------------------------------------------------- from changes to statements

  function Slots(changes: seq<Change>, t: Table, kind: Kind): set<Slot> {
    set c | c in changes && c.slot.table == t && c.Is(kind) :: c.slot
  }

  lemma SlotsOfCons(c: Change, rest: seq<Change>, t: Table, kind: Kind)
    ensures Slots([c] + rest, t, kind) ==
            (if c.slot.table == t && c.Is(kind) then {c.slot} else {}) + Slots(rest, t, kind)
  {
    assert forall x :: x in [c] + rest <==> x == c || x in rest;
  }

  /** Each change carries the key of its slot, and no two share a slot. */
  ghost predicate WellKeyed(changes: seq<Change>) {
    && (forall c :: c in changes && c.before.Some? ==> c.before.value.key == c.slot.key)
    && (forall c :: c in changes && c.after.Some? ==> c.after.value.key == c.slot.key)
    && (forall i, j :: 0 <= i < j < |changes| ==> changes[i].slot != changes[j].slot)
  }

  /** The statements of one kind for one table do not meet and cover every change of that
      kind and table. */
  lemma {:induction false} PickTargets(changes: seq<Change>, t: Table, kind: Kind)
    requires WellKeyed(changes)
    ensures DistinctTargets(Pick(changes, t, kind))
    ensures Targets(Pick(changes, t, kind)) == Slots(changes, t, kind)
  {
    if changes != [] {
      HeadIsApart(changes, t, kind);
      PickTargets(changes[1..], t, kind);
      ConsTargets(changes[0], changes[1..], t, kind);
      assert changes == [changes[0]] + changes[1..];
    }
  }

  lemma ConsTargets(c: Change, rest: seq<Change>, t: Table, kind: Kind)
    requires c.slot !in Slots(rest, t, kind) && (c.Is(kind) ==> StatementFor(c, kind).row.key == c.slot.key)
    requires DistinctTargets(Pick(rest, t, kind)) && Targets(Pick(rest, t, kind)) == Slots(rest, t, kind)
    ensures DistinctTargets(Pick([c] + rest, t, kind))
    ensures Targets(Pick([c] + rest, t, kind)) == Slots([c] + rest, t, kind)
  {
    assert ([c] + rest)[1..] == rest;
    SlotsOfCons(c, rest, t, kind);
    if c.slot.table == t && c.Is(kind) {
      var st := StatementFor(c, kind);
      TargetsOfCons(st, Pick(rest, t, kind));
      DistinctCons(st, Pick(rest, t, kind));
    }
  }

  lemma HeadIsApart(changes: seq<Change>, t: Table, kind: Kind)
    requires WellKeyed(changes) && changes != []
    ensures WellKeyed(changes[1..])
    ensures changes[0].slot !in Slots(changes[1..], t, kind)
    ensures changes[0].Is(kind) ==> StatementFor(changes[0], kind).row.key == changes[0].slot.key
  {
    var rest := changes[1..];
    assert forall k :: 0 <= k < |rest| ==> rest[k] == changes[k + 1];
    forall c | c in rest
      ensures c in changes && c.slot != changes[0].slot
    {
      var k :| 0 <= k < |rest| && rest[k] == c;
      assert changes[k + 1] == c;
    }
  }

  lemma DistinctCons(st: Statement, tail: seq<Statement>)
    requires DistinctTargets(tail) && st.Target() !in Targets(tail)
    ensures DistinctTargets([st] + tail)
  {
    assert forall j :: 0 <= j < |tail| ==> tail[j].Target() in Targets(tail);
  }

  /** Each of them is the statement of a change of that kind and table. */
  lemma {:induction false} PickComesFrom(changes: seq<Change>, t: Table, kind: Kind, k: nat) returns (i: nat)
    requires k < |Pick(changes, t, kind)|
    ensures i < |changes| && changes[i].slot.table == t && changes[i].Is(kind)
    ensures Pick(changes, t, kind)[k] == StatementFor(changes[i], kind)
  {
    var head := changes[0].slot.table == t && changes[0].Is(kind);
    if head && k == 0 {
      i := 0;
    } else {
      var j := PickComesFrom(changes[1..], t, kind, if head then k - 1 else k);
      i := j + 1;
    }
  }

  /** The statements of one kind for the table of rank i form a pack. */
  lemma PickIsPack(o: Order, s0: Store, s1: Store, changes: seq<Change>, i: nat, kind: Kind, seen: set<Slot>)
    requires o.Sound()
    requires Keyed(s0) && Keyed(s1) && Truthful(s0, s1, changes) && i < |o.tables|
    requires seen !! Slots(changes, o.tables[i], kind)
    ensures Pack(o, s0, s1, seen, i, Pick(changes, o.tables[i], kind), kind == Removal)
    ensures Targets(Pick(changes, o.tables[i], kind)) == Slots(changes, o.tables[i], kind)
  {
    var stmts := Pick(changes, o.tables[i], kind);
    PickTargets(changes, o.tables[i], kind);
    forall k | 0 <= k < |stmts|
      ensures stmts[k].kind == kind && stmts[k].table == o.tables[i] && Writes(s0, s1, stmts[k])
      ensures stmts[k].Target() in Slots(changes, o.tables[i], kind)
    {
      var c := PickComesFrom(changes, o.tables[i], kind, k);
      assert changes[c] in changes;
    }
  }

  // ---------------------------------------------------------------- runs of statements

  lemma {:induction false} RunsConcatenate(s: Store, a: seq<Statement>, b: seq<Statement>)
    ensures ExecAll(s, a + b) == ExecAll(ExecAll(s, a), b)
    ensures SoundRun(s, a) && SoundRun(ExecAll(s, a), b) ==> SoundRun(s, a + b)
    decreases |a|
  {
    if a == [] {
      assert a + b == b;
    } else {
      assert (a + b)[1..] == a[1..] + b;
      RunsConcatenate(Exec(s, a[0]), a[1..], b);
    }
  }

  /** A run leads from one store to another, soundly if those before and after are sound. */
  ghost predicate Leads(s0: Store, s1: Store, from: Store, stmts: seq<Statement>, to: Store) {
    SoundBetween(s0, s1, from, stmts) && ExecAll(from, stmts) == to
  }

  lemma LeadsTogether(s0: Store, s1: Store, from: Store, a: seq<Statement>, mid: Store, b: seq<Statement>, to: Store)
    requires Leads(s0, s1, from, a, mid) && Leads(s0, s1, mid, b, to)
    ensures Leads(s0, s1, from, a + b, to)
  {
    RunsConcatenate(from, a, b);
  }

  lemma {:induction false} SoundAtEveryPrefix(s: Store, stmts: seq<Statement>, k: nat)
    requires SoundRun(s, stmts) && k <= |stmts|
    ensures Integrity(ExecAll(s, stmts[..k]))
    ensures k < |stmts| ==> AffectsOneRow(ExecAll(s, stmts[..k]), stmts[k])
    decreases k
  {
    if k > 0 {
      assert stmts[..k][1..] == stmts[1..][..k - 1];
      SoundAtEveryPrefix(Exec(s, stmts[0]), stmts[1..], k - 1);
    }
  }

  // ---------------------------------------------------------------- the theorem

  lemma ForwardTable(o: Order, s0: Store, s1: Store, changes: seq<Change>, done: set<Slot>, i: nat)
    returns (end: set<Slot>)
    requires o.Sound()
    requires Keyed(s0) && Keyed(s1) && NetChanges(s0, s1, changes)
    requires i < |o.tables| && ForwardFront(o, s0, s1, done, i)
    requires forall p: Slot :: p in done ==> o.rank(p.table) < i
    ensures Leads(s0, s1, Forwarded(s0, s1, done),
                  Pick(changes, o.tables[i], Insertion) + Pick(changes, o.tables[i], Modification),
                  Forwarded(s0, s1, end))
    ensures ForwardFront(o, s0, s1, end, i + 1)
    ensures forall p: Slot :: p in end ==> o.rank(p.table) < i + 1
  {
    var ins, upd := Pick(changes, o.tables[i], Insertion), Pick(changes, o.tables[i], Modification);
    SlotsHaveRank(o, changes, i, Insertion);
    PickIsPack(o, s0, s1, changes, i, Insertion, done);
    RunWrites(o, s0, s1, done, i, ins);
    var mid := done + Targets(ins);
    SlotsHaveRank(o, changes, i, Modification);
    KindsDoNotMeet(s0, s1, changes, o.tables[i]);
    PickIsPack(o, s0, s1, changes, i, Modification, mid);
    RunWrites(o, s0, s1, mid, i, upd);
    end := mid + Targets(upd);
    TableIsDone(o, s0, s1, changes, i, end);
    LeadsTogether(s0, s1, Forwarded(s0, s1, done), ins, Forwarded(s0, s1, mid), upd, Forwarded(s0, s1, end));
  }

  lemma AllDoneIsMerged(o: Order, s0: Store, s1: Store, done: set<Slot>)
    requires o.Sound() && ForwardFront(o, s0, s1, done, |o.tables|)
    ensures Forwarded(s0, s1, done) == Deleting(s0, s1, {})
  {
    forall p: Slot | p in s1
      ensures p in done || (p in s0 && s0[p] == s1[p])
    {
      assert p !in done ==> !Changed(s0, s1, p);
    }
  }

  /** With nothing left to insert or update everything new is in place. */
  lemma ForwardEnds(o: Order, s0: Store, s1: Store, done: set<Slot>)
    requires o.Sound() && ForwardFront(o, s0, s1, done, |o.tables|)
    requires forall p: Slot :: p in done ==> o.rank(p.table) < |o.tables|
    ensures Leads(s0, s1, Forwarded(s0, s1, done), [], Deleting(s0, s1, {}))
  {
    if Integrity(s0) && Integrity(s1) {
      ForwardedHasIntegrity(o, s0, s1, done, |o.tables|);
    }
    AllDoneIsMerged(o, s0, s1, done);
  }

  lemma {:induction false} ForwardRuns(o: Order, s0: Store, s1: Store, changes: seq<Change>, done: set<Slot>, i: nat)
    requires o.Sound()
    requires Keyed(s0) && Keyed(s1) && NetChanges(s0, s1, changes)
    requires i <= |o.tables| && ForwardFront(o, s0, s1, done, i)
    requires forall p: Slot :: p in done ==> o.rank(p.table) < i
    ensures Leads(s0, s1, Forwarded(s0, s1, done), Forward(changes, o.tables, i), Deleting(s0, s1, {}))
    decreases |o.tables| - i
  {
    if i == |o.tables| {
      ForwardEnds(o, s0, s1, done);
    } else {
      var end := ForwardTable(o, s0, s1, changes, done, i);
      ForwardRuns(o, s0, s1, changes, end, i + 1);
      LeadsTogether(s0, s1, Forwarded(s0, s1, done),
                    Pick(changes, o.tables[i], Insertion) + Pick(changes, o.tables[i], Modification),
                    Forwarded(s0, s1, end), Forward(changes, o.tables, i + 1), Deleting(s0, s1, {}));
    }
  }

  lemma SlotsHaveRank(o: Order, changes: seq<Change>, i: nat, kind: Kind)
    requires o.Sound()
    requires i < |o.tables|
    ensures forall p: Slot :: p in Slots(changes, o.tables[i], kind) ==> o.rank(p.table) == i
  {
  }

  lemma KindsDoNotMeet(s0: Store, s1: Store, changes: seq<Change>, t: Table)
    requires Truthful(s0, s1, changes)
    ensures Slots(changes, t, Insertion) !! Slots(changes, t, Modification)
  {
  }

  /** Once the inserts and updates of rank i have run, the front moves to the next rank. */
  lemma TableIsDone(o: Order, s0: Store, s1: Store, changes: seq<Change>, i: nat, end: set<Slot>)
    requires o.Sound()
    requires NetChanges(s0, s1, changes) && i < |o.tables| && ForwardFront(o, s0, s1, end, i)
    requires Slots(changes, o.tables[i], Insertion) + Slots(changes, o.tables[i], Modification) <= end
    ensures ForwardFront(o, s0, s1, end, i + 1)
  {
    forall p: Slot | Changed(s0, s1, p) && o.rank(p.table) == i
      ensures p in end
    {
      var k :| 0 <= k < |changes| && changes[k].slot == p;
      assert changes[k] in changes;
      assert changes[k].Is(Insertion) || changes[k].Is(Modification);
    }
  }

  /** From rank n (inclusive) on every old row has gone; before rank n none has. */
  ghost predicate GoneFrom(o: Order, s0: Store, s1: Store, gone: set<Slot>, n: nat) {
    && (forall p: Slot :: p in gone ==> p !in s1 && n <= o.rank(p.table))
    && (forall p: Slot :: p in s0 && p !in s1 && n <= o.rank(p.table) ==> p in gone)
  }

  /** Once the deletes of rank i have run, the front moves to the rank before. */
  lemma TableIsGone(o: Order, s0: Store, s1: Store, changes: seq<Change>, i: nat, end: set<Slot>)
    requires o.Sound()
    requires NetChanges(s0, s1, changes) && i < |o.tables| && BackwardFront(o, s0, s1, end, i)
    requires Slots(changes, o.tables[i], Removal) <= end
    ensures GoneFrom(o, s0, s1, end, i)
  {
    forall p: Slot | p in s0 && p !in s1 && o.rank(p.table) == i
      ensures p in end
    {
      assert Get(s0, p) != Get(s1, p);
      var k :| 0 <= k < |changes| && changes[k].slot == p;
      assert changes[k] in changes && changes[k].Is(Removal);
    }
  }

  lemma BackwardEnds(o: Order, s0: Store, s1: Store, gone: set<Slot>)
    requires GoneFrom(o, s0, s1, gone, 0)
    ensures Leads(s0, s1, Deleting(s0, s1, gone), [], s1)
  {
    assert Deleting(s0, s1, gone) == s1;
  }

  lemma BackwardTable(o: Order, s0: Store, s1: Store, changes: seq<Change>, gone: set<Slot>, i: nat)
    returns (end: set<Slot>)
    requires o.Sound()
    requires Keyed(s0) && Keyed(s1) && NetChanges(s0, s1, changes)
    requires i < |o.tables| && GoneFrom(o, s0, s1, gone, i + 1)
    ensures Leads(s0, s1, Deleting(s0, s1, gone), Pick(changes, o.tables[i], Removal), Deleting(s0, s1, end))
    ensures GoneFrom(o, s0, s1, end, i)
  {
    var del := Pick(changes, o.tables[i], Removal);
    SlotsHaveRank(o, changes, i, Removal);
    PickIsPack(o, s0, s1, changes, i, Removal, gone);
    RunDeletes(o, s0, s1, gone, i, del);
    end := gone + Targets(del);
    TableIsGone(o, s0, s1, changes, i, end);
  }

  lemma {:induction false} BackwardRuns(o: Order, s0: Store, s1: Store, changes: seq<Change>, gone: set<Slot>, n: nat)
    requires o.Sound()
    requires Keyed(s0) && Keyed(s1) && NetChanges(s0, s1, changes)
    requires n <= |o.tables| && GoneFrom(o, s0, s1, gone, n)
    ensures Leads(s0, s1, Deleting(s0, s1, gone), Backward(changes, o.tables, n), s1)
    decreases n
  {
    if n == 0 {
      BackwardEnds(o, s0, s1, gone);
    } else {
      var end := BackwardTable(o, s0, s1, changes, gone, n - 1);
      BackwardRuns(o, s0, s1, changes, end, n - 1);
      LeadsTogether(s0, s1, Deleting(s0, s1, gone), Pick(changes, o.tables[n - 1], Removal),
                    Deleting(s0, s1, end), Backward(changes, o.tables, n - 1), s1);
    }
  }

  /** If the stores before and after a transaction satisfy all relations, the flush of its
      net changes satisfies them after every single statement, and every statement affects
      exactly one row. */
  lemma PlanKeepsIntegrity(s0: Store, s1: Store, changes: seq<Change>)
    requires Keyed(s0) && Keyed(s1) && NetChanges(s0, s1, changes)
    requires Integrity(s0) && Integrity(s1)
    ensures forall k :: 0 <= k <= |Plan(changes)| ==> Integrity(ExecAll(s0, Plan(changes)[..k]))
    ensures forall k :: 0 <= k < |Plan(changes)| ==>
              (Plan(changes)[k].kind == Insertion <==> Plan(changes)[k].Target() !in ExecAll(s0, Plan(changes)[..k]))
  {
    RelationOrderIsSound();
    PlanRuns(Order(RELATION_ORDER, Rank), s0, s1, changes);
    forall k | 0 <= k <= |Plan(changes)|
      ensures Integrity(ExecAll(s0, Plan(changes)[..k]))
      ensures k < |Plan(changes)| ==>
                (Plan(changes)[k].kind == Insertion <==> Plan(changes)[k].Target() !in ExecAll(s0, Plan(changes)[..k]))
    {
      SoundAtEveryPrefix(s0, Plan(changes), k);
    }
  }

  /** Sent in full, the plan turns the store before the transaction into the store after it. */
  lemma PlanReachesTarget(s0: Store, s1: Store, changes: seq<Change>)
    requires Keyed(s0) && Keyed(s1) && NetChanges(s0, s1, changes)
    ensures ExecAll(s0, Plan(changes)) == s1
  {
    RelationOrderIsSound();
    PlanRuns(Order(RELATION_ORDER, Rank), s0, s1, changes);
  }

  lemma PlanRuns(o: Order, s0: Store, s1: Store, changes: seq<Change>)
    requires o.Sound()
    requires Keyed(s0) && Keyed(s1) && NetChanges(s0, s1, changes)
    ensures var plan := Forward(changes, o.tables, 0) + Backward(changes, o.tables, |o.tables|);
            && SoundBetween(s0, s1, s0, plan)
            && ExecAll(s0, plan) == s1
  {
    assert Forwarded(s0, s1, {}) == s0;
    ForwardRuns(o, s0, s1, changes, {}, 0);
    BackwardRuns(o, s0, s1, changes, {}, |o.tables|);
    LeadsTogether(s0, s1, s0, Forward(changes, o.tables, 0), Deleting(s0, s1, {}),
                  Backward(changes, o.tables, |o.tables|), s1);
  }

  // ---------------------------------------------------------------- the order of the plan

  /** Writes come before deletes; writes go by rank, inserts before updates within a table, and
      deletes against it. */
  predicate Precedes(rank: Table -> nat, a: Statement, b: Statement) {
    if b.kind == Removal then a.kind == Removal ==> rank(b.table) <= rank(a.table)
    else
      && a.kind != Removal
      && (rank(a.table) < rank(b.table)
          || (rank(a.table) == rank(b.table) && (a.kind == Insertion || b.kind == Modification)))
  }

  ghost predicate Sorted(rank: Table -> nat, stmts: seq<Statement>) {
    forall i, j :: 0 <= i < j < |stmts| ==> Precedes(rank, stmts[i], stmts[j])
  }

  lemma SortedSum(rank: Table -> nat, a: seq<Statement>, b: seq<Statement>)
    requires Sorted(rank, a) && Sorted(rank, b)
    requires forall x, y :: x in a && y in b ==> Precedes(rank, x, y)
    ensures Sorted(rank, a + b)
  {
    forall i, j | 0 <= i < j < |a + b|
      ensures Precedes(rank, (a + b)[i], (a + b)[j])
    {
      if i < |a| <= j {
        assert (a + b)[i] == a[i] && (a + b)[j] == b[j - |a|];
      }
    }
  }

  lemma {:induction false} PickIs(changes: seq<Change>, t: Table, kind: Kind)
    ensures forall st :: st in Pick(changes, t, kind) ==> st.kind == kind && st.table == t
  {
    if changes != [] {
      PickIs(changes[1..], t, kind);
    }
  }

  lemma PickIsSorted(rank: Table -> nat, changes: seq<Change>, t: Table, kind: Kind)
    ensures Sorted(rank, Pick(changes, t, kind))
  {
    PickIs(changes, t, kind);
    var stmts := Pick(changes, t, kind);
    assert forall i :: 0 <= i < |stmts| ==> stmts[i] in stmts;
  }

  lemma {:induction false} ForwardIsSorted(o: Order, changes: seq<Change>, i: nat)
    requires o.Sound() && i <= |o.tables|
    ensures Sorted(o.rank, Forward(changes, o.tables, i))
    ensures forall st :: st in Forward(changes, o.tables, i) ==> st.kind != Removal && i <= o.rank(st.table)
    decreases |o.tables| - i
  {
    if i < |o.tables| {
      var t := o.tables[i];
      var ins, upd := Pick(changes, t, Insertion), Pick(changes, t, Modification);
      ForwardIsSorted(o, changes, i + 1);
      PickIs(changes, t, Insertion);
      PickIs(changes, t, Modification);
      PickIsSorted(o.rank, changes, t, Insertion);
      PickIsSorted(o.rank, changes, t, Modification);
      SortedSum(o.rank, ins, upd);
      SortedSum(o.rank, ins + upd, Forward(changes, o.tables, i + 1));
    }
  }

  lemma {:induction false} BackwardIsSorted(o: Order, changes: seq<Change>, n: nat)
    requires o.Sound() && n <= |o.tables|
    ensures Sorted(o.rank, Backward(changes, o.tables, n))
    ensures forall st :: st in Backward(changes, o.tables, n) ==> st.kind == Removal && o.rank(st.table) < n
  {
    if n > 0 {
      var t := o.tables[n - 1];
      BackwardIsSorted(o, changes, n - 1);
      PickIs(changes, t, Removal);
      PickIsSorted(o.rank, changes, t, Removal);
      SortedSum(o.rank, Pick(changes, t, Removal), Backward(changes, o.tables, n - 1));
    }
  }

  lemma RelationOrderIsSound()
    ensures Order(RELATION_ORDER, Rank).Sound()
  {
    RelationOrderListsAll();
    RelationOrderListsOnce();
    RelationOrderParentsFirst();
  }

  /** The statements are sent in the order that the relations ask for. */
  lemma PlanIsSorted(changes: seq<Change>)
    ensures Sorted(Rank, Plan(changes))
  {
    RelationOrderIsSound();
    var o := Order(RELATION_ORDER, Rank);
    ForwardIsSorted(o, changes, 0);
    BackwardIsSorted(o, changes, |RELATION_ORDER|);
    SortedSum(Rank, Forward(changes, RELATION_ORDER, 0), Backward(changes, RELATION_ORDER, |RELATION_ORDER|));
  }

  // ---------------------------------------------------------------- one statement per change

  lemma DistinctTargetsSum(a: seq<Statement>, b: seq<Statement>)
    requires DistinctTargets(a) && DistinctTargets(b) && Targets(a) !! Targets(b)
    ensures DistinctTargets(a + b) && Targets(a + b) == Targets(a) + Targets(b)
  {
    assert forall x :: x in a + b <==> x in a || x in b;
    assert forall i :: 0 <= i < |a| ==> a[i].Target() in Targets(a);
    assert forall i :: 0 <= i < |b| ==> b[i].Target() in Targets(b);
    forall i, j | 0 <= i < j < |a + b|
      ensures (a + b)[i].Target() != (a + b)[j].Target()
    {
      assert (a + b)[i] == if i < |a| then a[i] else b[i - |a|];
      assert (a + b)[j] == if j < |a| then a[j] else b[j - |a|];
    }
  }

  /** The slots of the changes of this kind in the tables of these ranks. */
  ghost function SlotsBetween(o: Order, changes: seq<Change>, from: nat, to: nat, kind: Kind): set<Slot> {
    set c | c in changes && c.Is(kind) && from <= o.rank(c.slot.table) < to :: c.slot
  }

  lemma KindsAreApart(changes: seq<Change>, a: Change, b: Change)
    requires WellKeyed(changes) && a in changes && b in changes && a.slot == b.slot
    ensures a == b
  {
  }

  lemma SlotsOfRank(o: Order, changes: seq<Change>, i: nat, kind: Kind)
    requires o.Sound() && i < |o.tables|
    ensures Slots(changes, o.tables[i], kind) == SlotsBetween(o, changes, i, i + 1, kind)
  {
    forall c: Change
      ensures c.slot.table == o.tables[i] <==> o.rank(c.slot.table) == i
    {
    }
  }

  lemma SlotsFrom(o: Order, changes: seq<Change>, from: nat, mid: nat, to: nat, kind: Kind)
    requires from <= mid <= to
    ensures SlotsBetween(o, changes, from, to, kind) ==
            SlotsBetween(o, changes, from, mid, kind) + SlotsBetween(o, changes, mid, to, kind)
  {
  }

  /** The statements aim at different slots, and together at these. */
  ghost predicate AimAt(stmts: seq<Statement>, slots: set<Slot>) {
    DistinctTargets(stmts) && Targets(stmts) == slots
  }

  ghost function SlotsWritten(o: Order, changes: seq<Change>, from: nat, to: nat): set<Slot> {
    SlotsBetween(o, changes, from, to, Insertion) + SlotsBetween(o, changes, from, to, Modification)
  }

  lemma TableTargets(o: Order, changes: seq<Change>, i: nat)
    requires o.Sound() && i < |o.tables| && WellKeyed(changes)
    ensures AimAt(Pick(changes, o.tables[i], Insertion) + Pick(changes, o.tables[i], Modification),
                  SlotsWritten(o, changes, i, i + 1))
  {
    var t := o.tables[i];
    PickTargets(changes, t, Insertion);
    PickTargets(changes, t, Modification);
    SlotsOfRank(o, changes, i, Insertion);
    SlotsOfRank(o, changes, i, Modification);
    WritesAreApart(o, changes, i);
    DistinctTargetsSum(Pick(changes, t, Insertion), Pick(changes, t, Modification));
  }

  lemma WrittenFrom(o: Order, changes: seq<Change>, from: nat, mid: nat, to: nat)
    requires from <= mid <= to
    ensures SlotsWritten(o, changes, from, to) ==
            SlotsWritten(o, changes, from, mid) + SlotsWritten(o, changes, mid, to)
  {
    SlotsFrom(o, changes, from, mid, to, Insertion);
    SlotsFrom(o, changes, from, mid, to, Modification);
  }

  lemma AimTogether(a: seq<Statement>, x: set<Slot>, b: seq<Statement>, y: set<Slot>)
    requires AimAt(a, x) && AimAt(b, y) && x !! y
    ensures AimAt(a + b, x + y)
  {
    DistinctTargetsSum(a, b);
  }

  lemma NothingIsWritten(o: Order, changes: seq<Change>)
    requires o.Sound()
    ensures AimAt([], SlotsWritten(o, changes, |o.tables|, |o.tables|))
  {
  }

  lemma AimedForward(o: Order, changes: seq<Change>, i: nat)
    requires o.Sound() && i < |o.tables| && WellKeyed(changes)
    requires AimAt(Forward(changes, o.tables, i + 1), SlotsWritten(o, changes, i + 1, |o.tables|))
    ensures AimAt(Forward(changes, o.tables, i), SlotsWritten(o, changes, i, |o.tables|))
  {
    var t, n := o.tables[i], |o.tables|;
    TableTargets(o, changes, i);
    WrittenFrom(o, changes, i, i + 1, n);
    WritesAreApart(o, changes, i);
    AimTogether(Pick(changes, t, Insertion) + Pick(changes, t, Modification), SlotsWritten(o, changes, i, i + 1),
                Forward(changes, o.tables, i + 1), SlotsWritten(o, changes, i + 1, n));
  }

  lemma {:induction false} ForwardTargets(o: Order, changes: seq<Change>, i: nat)
    requires o.Sound() && i <= |o.tables| && WellKeyed(changes)
    ensures AimAt(Forward(changes, o.tables, i), SlotsWritten(o, changes, i, |o.tables|))
    decreases |o.tables| - i
  {
    if i < |o.tables| {
      ForwardTargets(o, changes, i + 1);
      AimedForward(o, changes, i);
    } else {
      NothingIsWritten(o, changes);
    }
  }

  lemma WritesAreApart(o: Order, changes: seq<Change>, i: nat)
    requires WellKeyed(changes)
    ensures SlotsBetween(o, changes, i, i + 1, Insertion) !! SlotsBetween(o, changes, i, i + 1, Modification)
    ensures SlotsWritten(o, changes, i, i + 1) !! SlotsWritten(o, changes, i + 1, |o.tables|)
  {
    forall a, b | a in changes && b in changes && a.slot == b.slot
      ensures a == b
    {
      KindsAreApart(changes, a, b);
    }
  }

  lemma {:induction false} BackwardTargets(o: Order, changes: seq<Change>, n: nat)
    requires o.Sound() && n <= |o.tables| && WellKeyed(changes)
    ensures DistinctTargets(Backward(changes, o.tables, n))
    ensures Targets(Backward(changes, o.tables, n)) == SlotsBetween(o, changes, 0, n, Removal)
  {
    if n > 0 {
      BackwardTargets(o, changes, n - 1);
      PickTargets(changes, o.tables[n - 1], Removal);
      SlotsOfRank(o, changes, n - 1, Removal);
      SlotsFrom(o, changes, 0, n - 1, n, Removal);
      DistinctTargetsSum(Pick(changes, o.tables[n - 1], Removal), Backward(changes, o.tables, n - 1));
    }
  }

  /** Some change is about this slot, and there is a row before it or after it. */
  ghost predicate Touches(changes: seq<Change>, p: Slot) {
    exists c :: c in changes && c.slot == p && (c.before.Some? || c.after.Some?)
  }

  /** Some statement is about this slot. */
  ghost predicate Aims(stmts: seq<Statement>, p: Slot) {
    exists i :: 0 <= i < |stmts| && stmts[i].Target() == p
  }

  /** Every change of a row, and nothing else, has a statement, and it has one only. */
  lemma PlanIsOncePerChange(changes: seq<Change>)
    requires WellKeyed(changes)
    ensures forall i, j :: 0 <= i < j < |Plan(changes)| ==> Plan(changes)[i].Target() != Plan(changes)[j].Target()
    ensures forall p: Slot :: Aims(Plan(changes), p) <==> Touches(changes, p)
  {
    RelationOrderIsSound();
    PlanOfOrder(Order(RELATION_ORDER, Rank), changes);
  }

  lemma PlanOfOrder(o: Order, changes: seq<Change>)
    requires o.Sound() && WellKeyed(changes)
    ensures var plan := Forward(changes, o.tables, 0) + Backward(changes, o.tables, |o.tables|);
            DistinctTargets(plan) && forall p: Slot :: Aims(plan, p) <==> Touches(changes, p)
  {
    var fwd, bwd := Forward(changes, o.tables, 0), Backward(changes, o.tables, |o.tables|);
    ForwardTargets(o, changes, 0);
    BackwardTargets(o, changes, |o.tables|);
    DeletesAreApart(o, changes);
    DistinctTargetsSum(fwd, bwd);
    forall p: Slot
      ensures Aims(fwd + bwd, p) <==> Touches(changes, p)
    {
      TargetsAre(fwd + bwd, p);
      SlotsAre(o, changes, p);
    }
  }

  /** All slots with a change that is written or deleted. */
  ghost function AllSlots(o: Order, changes: seq<Change>): set<Slot> {
    var n := |o.tables|;
    SlotsBetween(o, changes, 0, n, Insertion) + SlotsBetween(o, changes, 0, n, Modification)
    + SlotsBetween(o, changes, 0, n, Removal)
  }

  lemma DeletesAreApart(o: Order, changes: seq<Change>)
    requires WellKeyed(changes)
    ensures var n := |o.tables|;
            SlotsBetween(o, changes, 0, n, Insertion) + SlotsBetween(o, changes, 0, n, Modification)
            !! SlotsBetween(o, changes, 0, n, Removal)
  {
    forall a, b | a in changes && b in changes && a.slot == b.slot
      ensures a == b
    {
      KindsAreApart(changes, a, b);
    }
  }

  lemma SlotsAre(o: Order, changes: seq<Change>, p: Slot)
    requires o.Sound()
    ensures p in AllSlots(o, changes) <==> Touches(changes, p)
  {
    if c :| c in changes && c.slot == p && (c.before.Some? || c.after.Some?) {
      assert o.rank(p.table) < |o.tables|;
      assert c.Is(Insertion) || c.Is(Modification) || c.Is(Removal);
    }
  }

  lemma TargetsAre(stmts: seq<Statement>, p: Slot)
    ensures p in Targets(stmts) <==> Aims(stmts, p)
  {
    if p in Targets(stmts) {
      var st :| st in stmts && st.Target() == p;
      var i :| 0 <= i < |stmts| && stmts[i] == st;
    }
    if i :| 0 <= i < |stmts| && stmts[i].Target() == p {
      assert stmts[i] in stmts;
    }
  }

  // ---------------------------------------------------------------- a database that has drifted

  function SlotsIn(changes: seq<Change>): set<Slot> {
    set c | c in changes :: c.slot
  }

  /** The store with these slots taken from another. */
  function Taken(s: Store, from: Store, slots: set<Slot>): Store {
    (s - slots) + Kept(from, slots)
  }

  lemma TakenAt(s: Store, from: Store, slots: set<Slot>, p: Slot)
    ensures Get(Taken(s, from, slots), p) == if p in slots then Get(from, p) else Get(s, p)
  {
  }

  lemma NetOfDrifted(db: Store, s0: Store, s1: Store, changes: seq<Change>)
    requires Keyed(db) && Keyed(s1) && db.Keys == s0.Keys && NetChanges(s0, s1, changes)
    ensures var taken := Taken(db, s1, SlotsIn(changes));
            Keyed(taken) && NetChanges(db, taken, changes)
  {
    var slots := SlotsIn(changes);
    var taken := Taken(db, s1, slots);
    forall i | 0 <= i < |changes|
      ensures changes[i].after == Get(taken, changes[i].slot)
    {
      assert changes[i] in changes;
      TakenAt(db, s1, slots, changes[i].slot);
    }
    forall p: Slot | Get(db, p) != Get(taken, p)
      ensures exists i :: 0 <= i < |changes| && changes[i].slot == p
    {
      TakenAt(db, s1, slots, p);
      var c :| c in changes && c.slot == p;
    }
  }

  /** Sent to a database that holds other values than the store before, in the same slots,
      the plan puts right exactly the slots that are among the changes. */
  lemma PlanTakes(db: Store, s0: Store, s1: Store, changes: seq<Change>)
    requires Keyed(db) && Keyed(s1) && db.Keys == s0.Keys && NetChanges(s0, s1, changes)
    ensures ExecAll(db, Plan(changes)) == Taken(db, s1, SlotsIn(changes))
  {
    NetOfDrifted(db, s0, s1, changes);
    PlanReachesTarget(db, Taken(db, s1, SlotsIn(changes)), changes);
  }

  /** So it reaches the store after if and only if nothing outside the changes differs. */
  lemma PlanReachesIff(db: Store, s0: Store, s1: Store, changes: seq<Change>)
    requires Keyed(db) && Keyed(s1) && db.Keys == s0.Keys && NetChanges(s0, s1, changes)
    ensures ExecAll(db, Plan(changes)) == s1 <==> forall p: Slot :: Get(db, p) != Get(s1, p) ==> p in SlotsIn(changes)
  {
    var slots := SlotsIn(changes);
    PlanTakes(db, s0, s1, changes);
    forall p: Slot
      ensures Get(Taken(db, s1, slots), p) == if p in slots then Get(s1, p) else Get(db, p)
    {
      TakenAt(db, s1, slots, p);
    }
    if forall p: Slot :: Get(Taken(db, s1, slots), p) == Get(s1, p) {
      SameSlots(Taken(db, s1, slots), s1);
    }
  }

  lemma SameSlots(a: Store, b: Store)
    requires forall p: Slot :: Get(a, p) == Get(b, p)
    ensures a == b
  {
    assert forall p: Slot :: p in a <==> Get(a, p).Some?;
    assert forall p: Slot :: p in b <==> Get(b, p).Some?;
    assert forall p: Slot :: p in a ==> Get(a, p) == Some(a[p]) && Get(b, p) == Some(b[p]);
  }
}
