/** Snapshots of the in-memory database: how they are taken and how they are put back
    (`ram/storage.go`, `domain/domain_marshalling.go`). */
module Snapshots {
  import opened Common
  import opened Domain

  // ---------------------------------------------------------------- rows in memory

  /** A row as it stands in memory: what is persisted of it, and by field name the rows its
      pointers lead to (a missing field is nil). */
  datatype Record = Record(row: Entity, links: map<Field, seq<Key>>)

  /** The fields that `MarshalPrepare` sets to nil, table by table. */
  function LinkFields(t: Table): set<Field> {
    match t
    case NodeGroups => {ClustersField}
    case Listeners => {NodeGroupField, WasmFiltersField, ExtAuthzFilterField}
    case Clusters => {NodeGroupsField, EndpointsField, HealthChecksField, CircuitBreakerField, TLSField}
    case MicroserviceVersions => {DeploymentVersionValField}
    case TlsConfigs => {NodeGroupsField}
    case TlsConfigsNodeGroups => {NodeGroupField, TlsConfigField}
    case ClustersNodeGroups => {ClusterField, NodeGroupField}
    case ListenersWasmFilters => {ListenerField, WasmFilterField}
    case Endpoints => {ClusterField, HashPoliciesField, StatefulSessionField}
    case RouteConfigurations => {NodeGroupField, VirtualHostsField}
    case VirtualHosts => {RouteConfigurationField, RoutesField, DomainsField, RateLimitField}
    case VirtualHostDomains => {VirtualHostField}
    case Routes =>
      {VirtualHostField, HeaderMatchersField, HashPoliciesField, RetryPolicyField, StatefulSessionField, RateLimitField}
    case HeaderMatchers => {RouteField}
    case HashPolicies => {RouteField, EndpointField}
    case RetryPolicies => {RouteField}
    case HealthChecks => {ClusterField}
    case WasmFilters => {ListenersField}
    case StatefulSessions => {DeploymentVersionValField}
    case CircuitBreakers => {ThresholdField}
    case _ => {}
  }

  /** What is left of a row's links once it is prepared: four fields. */
  lemma LinkIsLostOrNot(t: Table, i: nat)
    requires i < |LinksOf(t)|
    ensures var field := LinksOf(t)[i].field;
            field !in LinkFields(t) <==>
            || (t == Clusters && field == TcpKeepaliveField)
            || (t == Endpoints && field == DeploymentVersionValField)
            || (t == Routes && (field == DeploymentVersionValField || field == LuaFilterField))
  {
  }

  /** And what these lead to leads nowhere, so that no cycle is left to follow. */
  lemma PreparedLinksAreFlat(t: Table, i: nat)
    requires i < |LinksOf(t)| && LinksOf(t)[i].field !in LinkFields(t)
    ensures LinksOf(LinksOf(t)[i].target) == []
  {
    LinkIsLostOrNot(t, i);
  }

  /** A health check also loses two columns that are persisted. */
  const HEALTH_CHECK_DETAILS := {"http_health_check", "tls_options"}

  function Prepared(t: Table, r: Record): Record {
    Record(if t == HealthChecks then r.row.(columns := r.row.columns - HEALTH_CHECK_DETAILS) else r.row,
           r.links - LinkFields(t))
  }

  /** A stored object. */
  class Row {
    var record: Record

    constructor (r: Record)
      ensures record == r
    {
      record := r;
    }

    method MarshalPrepare(t: Table)
      modifies this
      ensures record == Prepared(t, old(record))
    {
      record := record.(links := record.links - LinkFields(t));
      if t == HealthChecks {
        record := record.(row := record.row.(columns := record.row.columns - HEALTH_CHECK_DETAILS));
      }
    }
  }

  // ---------------------------------------------------------------- the id index

  /** Where the id index of a table puts a row: under its primary key, except that header
      matchers stand under their route and name. */
  datatype IndexKey = Primary(key: Key) | RouteAndName(route: Option<Key>, name: Option<string>)

  function IndexKeyOf(t: Table, r: Record): IndexKey {
    if t == HeaderMatchers then
      RouteAndName(if RouteId in r.row.refs then Some(r.row.refs[RouteId]) else None,
                   if "name" in r.row.columns then Some(r.row.columns["name"]) else None)
    else Primary(r.row.key)
  }

  /** Rows have different keys exactly when their primary keys differ; header matchers, when
      their routes or their names do. */
  lemma IndexTellsApart(t: Table, a: Record, b: Record)
    ensures IndexKeyOf(t, a) == IndexKeyOf(t, b) <==>
            if t == HeaderMatchers then
              && Lookup(a.row.refs, RouteId) == Lookup(b.row.refs, RouteId)
              && Lookup(a.row.columns, "name") == Lookup(b.row.columns, "name")
            else a.row.key == b.row.key
  {
  }

  /** The order of the index, by a position for every key; an order of countably many keys
      always has such positions among the reals. */
  type Order = IndexKey -> real

  ghost predicate Injective(place: Order) {
    forall a, b :: place(a) == place(b) ==> a == b
  }

  ghost predicate IsLeast(place: Order, keys: set<IndexKey>, k: IndexKey) {
    k in keys && forall j :: j in keys ==> place(k) <= place(j)
  }

  lemma {:induction false} LeastExists(place: Order, keys: set<IndexKey>)
    requires keys != {}
    ensures exists k :: IsLeast(place, keys, k)
    decreases |keys|
  {
    var j :| j in keys;
    if keys != {j} {
      assert keys - {j} != {};
      LeastExists(place, keys - {j});
      var k :| IsLeast(place, keys - {j}, k);
      assert IsLeast(place, keys, if place(j) <= place(k) then j else k);
    } else {
      assert IsLeast(place, keys, j);
    }
  }

  ghost function Least(place: Order, keys: set<IndexKey>): (k: IndexKey)
    requires keys != {}
    ensures IsLeast(place, keys, k)
  {
    LeastExists(place, keys);
    var k :| IsLeast(place, keys, k);
    k
  }

  /** The values of a table in the order of its index, from the keys left to visit. */
  ghost function InOrder(place: Order, m: map<IndexKey, Record>, keys: set<IndexKey>): seq<Record>
    requires keys <= m.Keys
    decreases |keys|
  {
    if keys == {} then []
    else
      var k := Least(place, keys);
      [m[k]] + InOrder(place, m, keys - {k})
  }

  /** The keys listed from the least to the greatest, each once, with the value of each. */
  ghost predicate Ascending(place: Order, m: map<IndexKey, Record>, keys: seq<IndexKey>, list: seq<Record>) {
    && |keys| == |list|
    && (forall i :: 0 <= i < |keys| ==> keys[i] in m && m[keys[i]] == list[i])
    && (forall i, j :: 0 <= i < j < |keys| ==> place(keys[i]) < place(keys[j]))
  }

  lemma AscendingFrom(place: Order, m: map<IndexKey, Record>, k: IndexKey, keys: seq<IndexKey>, list: seq<Record>)
    requires Ascending(place, m, keys, list) && k in m && forall i :: 0 <= i < |keys| ==> place(k) < place(keys[i])
    ensures Ascending(place, m, [k] + keys, [m[k]] + list)
  {
  }

  lemma LeastIsBelow(place: Order, keys: set<IndexKey>, rest: seq<IndexKey>)
    requires Injective(place) && keys != {} && Elements(rest) == keys - {Least(place, keys)}
    ensures forall i :: 0 <= i < |rest| ==> place(Least(place, keys)) < place(rest[i])
    ensures Elements([Least(place, keys)] + rest) == keys
  {
    forall i | 0 <= i < |rest|
      ensures place(Least(place, keys)) < place(rest[i])
    {
      assert rest[i] in Elements(rest);
    }
    assert Elements([Least(place, keys)] + rest) == {Least(place, keys)} + Elements(rest);
  }

  lemma {:induction false} InOrderAscends(place: Order, m: map<IndexKey, Record>, keys: set<IndexKey>)
    returns (listed: seq<IndexKey>)
    requires Injective(place) && keys <= m.Keys
    ensures Elements(listed) == keys && Ascending(place, m, listed, InOrder(place, m, keys))
    decreases |keys|
  {
    listed := [];
    if keys != {} {
      var k := Least(place, keys);
      var rest := InOrderAscends(place, m, keys - {k});
      LeastIsBelow(place, keys, rest);
      AscendingFrom(place, m, k, rest, InOrder(place, m, keys - {k}));
      listed := [k] + rest;
    }
  }

  lemma InOrderStep(place: Order, m: map<IndexKey, Record>, rest: set<IndexKey>, list: seq<Record>)
    requires rest != {} && rest <= m.Keys
    ensures var k := Least(place, rest);
            list + InOrder(place, m, rest) == (list + [m[k]]) + InOrder(place, m, rest - {k})
  {
  }

  /** Advances an iterator over the index. */
  method Next(place: Order, keys: set<IndexKey>) returns (k: IndexKey)
    requires keys != {} && Injective(place)
    ensures k == Least(place, keys)
  {
    k :| k in keys;
    var rest := keys - {k};
    while rest != {}
      invariant rest <= keys && k in keys
      invariant forall j :: j in keys - rest ==> place(k) <= place(j)
      decreases |rest|
    {
      var j :| j in rest;
      if place(j) < place(k) {
        k := j;
      }
      rest := rest - {j};
    }
    assert place(k) == place(Least(place, keys));
  }

  /** A table restored from the first n rows of a list. */
  function Filled(base: map<IndexKey, Record>, t: Table, rows: seq<Record>, n: nat): map<IndexKey, Record>
    requires n <= |rows|
  {
    if n == 0 then base else Filled(base, t, rows, n - 1)[IndexKeyOf(t, rows[n - 1]) := rows[n - 1]]
  }

  // ---------------------------------------------------------------- the storage

  datatype Snapshot = Snapshot(id: string, lists: map<Table, seq<Record>>)

  /** A table the snapshot does not hold is an empty list. */
  function ListOf(snapshot: Snapshot, t: Table): seq<Record> {
    if t in snapshot.lists then snapshot.lists[t] else []
  }

  /** The table whose rows have all been prepared. */
  function PreparedTable(t: Table, m: map<IndexKey, Record>): map<IndexKey, Record> {
    map k | k in m :: Prepared(t, m[k])
  }

  /** What a backup holds of a table: its rows in index order, prepared. */
  ghost function PreparedRows(place: Order, t: Table, m: map<IndexKey, Record>): seq<Record> {
    InOrder(place, PreparedTable(t, m), m.Keys)
  }

  /** A backup lists every row of the table once, in the order of their keys, prepared. */
  lemma BackupListsInOrder(place: Order, t: Table, m: map<IndexKey, Record>) returns (keys: seq<IndexKey>)
    requires Injective(place)
    ensures Elements(keys) == m.Keys && |keys| == |PreparedRows(place, t, m)|
    ensures forall i :: 0 <= i < |keys| ==> keys[i] in m && PreparedRows(place, t, m)[i] == Prepared(t, m[keys[i]])
    ensures forall i, j :: 0 <= i < j < |keys| ==> place(keys[i]) < place(keys[j])
  {
    keys := InOrderAscends(place, PreparedTable(t, m), m.Keys);
  }

  /** The tables whose clearing fails, each with the keys deleted by then. */
  type Stuck = map<Table, set<IndexKey>>

  /** What is left of a table after its clearing. */
  function Left<T>(before: map<IndexKey, T>, t: Table, stuck: Stuck): map<IndexKey, T> {
    if t in stuck then before - stuck[t] else map[]
  }

  /** A table's content after a restore that goes through. */
  function Restored(before: map<IndexKey, Record>, t: Table, stuck: Stuck, snapshot: Snapshot)
    : map<IndexKey, Record>
  {
    Filled(Left(before, t, stuck), t, ListOf(snapshot, t), |ListOf(snapshot, t)|)
  }

  /** The index holds objects of `rows`, and these have the given values. */
  ghost predicate Mirrors(s: map<IndexKey, Row>, rows: set<Row>, v: map<IndexKey, Record>)
    reads rows
  {
    s.Keys == v.Keys && forall k :: k in s ==> s[k] in rows && s[k].record == v[k]
  }

  /** Every row stands where its value puts it. */
  ghost predicate Filed(t: Table, v: map<IndexKey, Record>) {
    forall k :: k in v ==> IndexKeyOf(t, v[k]) == k
  }

  type Tables = map<Table, map<IndexKey, Row>>
  type Values = map<Table, map<IndexKey, Record>>

  ghost predicate Consistent(tables: Tables, rows: set<Row>, items: Values)
    reads rows
  {
    forall t: Table :: t in tables && t in items && Mirrors(tables[t], rows, items[t]) && Filed(t, items[t])
  }

  lemma ConsistentWith(tables: Tables, rows: set<Row>, items: Values, t: Table, s: map<IndexKey, Row>, more: set<Row>,
                       v: map<IndexKey, Record>)
    requires Consistent(tables, rows, items) && rows <= more && Mirrors(s, more, v) && Filed(t, v)
    ensures Consistent(tables[t := s], more, items[t := v])
  {
  }

  lemma {:induction false} FilledIsFiled(base: map<IndexKey, Record>, t: Table, rows: seq<Record>, n: nat)
    requires n <= |rows| && Filed(t, base)
    ensures Filed(t, Filled(base, t, rows, n))
  {
    if n > 0 {
      FilledIsFiled(base, t, rows, n - 1);
    }
  }

  /** The tables of `done` are restored, all others are as before. */
  ghost predicate Progress(before: Values, after: Values, done: seq<Table>, stuck: Stuck, snapshot: Snapshot) {
    forall t: Table :: t in before && t in after &&
                       after[t] == if t in done then Restored(before[t], t, stuck, snapshot) else before[t]
  }

  lemma ProgressWith(before: Values, after: Values, done: seq<Table>, stuck: Stuck, snapshot: Snapshot, t: Table)
    requires Progress(before, after, done, stuck, snapshot)
    ensures Progress(before, after[t := Restored(before[t], t, stuck, snapshot)], done + [t], stuck, snapshot)
  {
  }

  /** Every table holds what the snapshot says. */
  ghost predicate AllRestored(before: Values, after: Values, stuck: Stuck, snapshot: Snapshot) {
    forall t: Table :: t in before && t in after && after[t] == Restored(before[t], t, stuck, snapshot)
  }

  /** What a backup of these tables holds. */
  ghost predicate BackupOf(place: Order, source: Values, snapshot: Snapshot) {
    forall t: Table :: t in source && ListOf(snapshot, t) == PreparedRows(place, t, source[t])
  }

  /** Every table once. */
  method AllTables() returns (order: seq<Table>)
    ensures forall t: Table :: t in order
    ensures forall i, j :: 0 <= i < j < |order| ==> order[i] != order[j]
  {
    order := RELATION_ORDER;
    forall t: Table
      ensures t in order
    {
      OrderListsEveryTable(t);
    }
    forall i, j | 0 <= i < j < |order|
      ensures order[i] != order[j]
    {
      RankOfPlace(i);
      RankOfPlace(j);
    }
  }

  class RamStorage {
    const place: Order
    var tables: Tables
    ghost var rows: set<Row>
    ghost var items: Values

    /** `items` are the values of the stored objects, table by table. */
    ghost predicate Valid()
      reads this, rows
    {
      Consistent(tables, rows, items)
    }

    /** Copies every row, prepares the copy and leaves the stored rows as they are. */
    method Backup(id: string) returns (snapshot: Snapshot)
      requires Injective(place) && Valid()
      ensures Valid()
      ensures snapshot.id == id
      ensures BackupOf(place, items, snapshot)
    {
      var order := AllTables();
      var lists := BackupTables(order);
      snapshot := Snapshot(id, lists);
    }

    method BackupTables(order: seq<Table>) returns (lists: map<Table, seq<Record>>)
      requires Injective(place) && Valid()
      ensures Valid() && lists.Keys == Elements(order)
      ensures forall t :: t in lists ==> lists[t] == PreparedRows(place, t, items[t])
    {
      lists := map[];
      for i := 0 to |order|
        invariant Valid() && lists.Keys == Elements(order[..i])
        invariant forall t :: t in lists ==> lists[t] == PreparedRows(place, t, items[t])
      {
        PrefixSnoc(order, i);
        ElementsSnoc(order[..i], order[i]);
        var list := BackupTable(place, order[i], tables[order[i]], rows, items[order[i]]);
        lists := lists[order[i] := list];
      }
      assert order[..|order|] == order;
    }

    /** Clears and refills table by table in one transaction. A table whose clearing fails
        keeps the rows not yet deleted and is refilled all the same; the first failing insert
        undoes everything. */
    method Restore(snapshot: Snapshot, stuck: Stuck, failing: Option<(Table, nat)>) returns (ok: bool)
      requires Valid()
      modifies this
      ensures Valid()
      ensures ok <==> failing == None || |ListOf(snapshot, failing.value.0)| <= failing.value.1
      ensures !ok ==> tables == old(tables) && rows == old(rows) && items == old(items)
      ensures ok ==> AllRestored(old(items), items, stuck, snapshot)
    {
      var order := AllTables();
      var done, work, all, values := RestoreTables(order, snapshot, stuck, failing);
      ok := done;
      if ok {
        assert AllRestored(items, values, stuck, snapshot);
        Publish(work, all, values);
      }
    }

    /** The commit: the transaction's view becomes the storage's. */
    method Publish(work: Tables, ghost all: set<Row>, ghost values: Values)
      requires Consistent(work, all, values)
      modifies this
      ensures Valid() && tables == work && rows == all && items == values
    {
      assert forall r :: r in all ==> r as object != this;
      tables, rows, items := work, all, values;
    }

    /** The loop over the tables, on the transaction's own view. */
    method RestoreTables(order: seq<Table>, snapshot: Snapshot, stuck: Stuck, failing: Option<(Table, nat)>)
      returns (ok: bool, work: Tables, ghost all: set<Row>, ghost values: Values)
      requires Valid()
      requires forall i, j :: 0 <= i < j < |order| ==> order[i] != order[j]
      ensures ok <==> failing == None || failing.value.0 !in order
                      || |ListOf(snapshot, failing.value.0)| <= failing.value.1
      ensures Consistent(work, all, values)
      ensures ok ==> Progress(items, values, order, stuck, snapshot)
    {
      work, all, values := tables, rows, items;
      for i := 0 to |order|
        invariant failing == None || failing.value.0 !in order[..i]
                  || |ListOf(snapshot, failing.value.0)| <= failing.value.1
        invariant Consistent(work, all, values)
        invariant rows <= all && Progress(items, values, order[..i], stuck, snapshot)
      {
        PrefixSnoc(order, i);
        var t := order[i];
        var failAt := if failing.Some? && failing.value.0 == t then Some(failing.value.1) else None;
        var done, filled, more := RestoreTable(t, work[t], stuck, snapshot, failAt, all, items[t]);
        if !done {
          return false, work, all, values;
        }
        ConsistentWith(work, all, values, t, filled, more, Restored(items[t], t, stuck, snapshot));
        ProgressWith(items, values, order[..i], stuck, snapshot, t);
        work, all, values := work[t := filled], more, values[t := Restored(items[t], t, stuck, snapshot)];
      }
      assert order[..|order|] == order;
      ok := true;
    }
  }

  /** A copy that is free of its links; the row itself keeps them. */
  method CloneAndPrepare(t: Table, row: Row) returns (copy: Row)
    ensures fresh(copy) && copy.record == Prepared(t, row.record)
  {
    copy := new Row(row.record);
    copy.MarshalPrepare(t);
  }

  /** One table's loop: each row is copied and the copy prepared. */
  method BackupTable(place: Order, t: Table, index: map<IndexKey, Row>, ghost rows: set<Row>,
                     ghost v: map<IndexKey, Record>)
    returns (list: seq<Record>)
    requires Injective(place) && Mirrors(index, rows, v)
    ensures list == PreparedRows(place, t, v)
  {
    list := [];
    var rest := index.Keys;
    ghost var p := PreparedTable(t, v);
    while rest != {}
      invariant rest <= p.Keys && Mirrors(index, rows, v)
      invariant list + InOrder(place, p, rest) == PreparedRows(place, t, v)
      decreases |rest|
    {
      var k := Next(place, rest);
      InOrderStep(place, p, rest, list);
      var copy := CloneAndPrepare(t, index[k]);
      list := list + [copy.record];
      rest := rest - {k};
    }
  }

  /** One table: its rows are deleted, unless that fails, and a copy of each row of the
      list is inserted. */
  method RestoreTable(t: Table, index: map<IndexKey, Row>, stuck: Stuck, snapshot: Snapshot, failAt: Option<nat>,
                      ghost rows: set<Row>, ghost before: map<IndexKey, Record>)
    returns (ok: bool, filled: map<IndexKey, Row>, ghost all: set<Row>)
    requires Mirrors(index, rows, before) && Filed(t, before)
    ensures rows <= all && fresh(all - rows)
    ensures ok <==> failAt == None || |ListOf(snapshot, t)| <= failAt.value
    ensures ok ==> Mirrors(filled, all, Restored(before, t, stuck, snapshot))
    ensures Filed(t, Restored(before, t, stuck, snapshot))
  {
    LeftMirrors(index, rows, before, t, stuck);
    FilledIsFiled(Left(before, t, stuck), t, ListOf(snapshot, t), |ListOf(snapshot, t)|);
    ok, filled, all := InsertRows(t, Left(index, t, stuck), ListOf(snapshot, t), failAt, rows, Left(before, t, stuck));
  }

  lemma LeftMirrors(index: map<IndexKey, Row>, rows: set<Row>, before: map<IndexKey, Record>, t: Table, stuck: Stuck)
    requires Mirrors(index, rows, before) && Filed(t, before)
    ensures Mirrors(Left(index, t, stuck), rows, Left(before, t, stuck)) && Filed(t, Left(before, t, stuck))
  {
  }

  lemma MirrorsPut(s: map<IndexKey, Row>, rows: set<Row>, v: map<IndexKey, Record>, k: IndexKey, e: Row)
    requires Mirrors(s, rows, v)
    ensures Mirrors(s[k := e], rows + {e}, v[k := e.record])
  {
  }

  /** A copy of each row of the list is inserted, up to the first failure. */
  method InsertRows(t: Table, index: map<IndexKey, Row>, list: seq<Record>, failAt: Option<nat>, ghost rows: set<Row>,
                    ghost base: map<IndexKey, Record>)
    returns (ok: bool, filled: map<IndexKey, Row>, ghost all: set<Row>)
    requires Mirrors(index, rows, base)
    ensures rows <= all && fresh(all - rows)
    ensures ok <==> failAt == None || |list| <= failAt.value
    ensures ok ==> Mirrors(filled, all, Filled(base, t, list, |list|))
  {
    filled, all := index, rows;
    for i := 0 to |list|
      invariant failAt == None || i <= failAt.value
      invariant rows <= all && fresh(all - rows)
      invariant Mirrors(filled, all, Filled(base, t, list, i))
    {
      if failAt == Some(i) {
        return false, filled, all;
      }
      var e := new Row(list[i]);
      MirrorsPut(filled, all, Filled(base, t, list, i), IndexKeyOf(t, list[i]), e);
      filled, all := filled[IndexKeyOf(t, list[i]) := e], all + {e};
    }
    ok := true;
  }

  // ---------------------------------------------------------------- the round trip

  /** Preparing keeps a row's identity and its place in the index, and repeats without effect. */
  lemma PreparedIsStable(t: Table, r: Record)
    ensures Prepared(t, r).row.key == r.row.key && Prepared(t, r).row.refs == r.row.refs
    ensures IndexKeyOf(t, Prepared(t, r)) == IndexKeyOf(t, r)
    ensures Prepared(t, Prepared(t, r)) == Prepared(t, r)
    ensures forall f :: f !in LinkFields(t) ==> Lookup(Prepared(t, r).links, f) == Lookup(r.links, f)
    ensures forall f :: f in LinkFields(t) ==> f !in Prepared(t, r).links
  {
    assert Prepared(t, r).links - LinkFields(t) == Prepared(t, r).links;
    assert t == HealthChecks ==> Prepared(t, r).row.columns - HEALTH_CHECK_DETAILS == Prepared(t, r).row.columns;
  }

  /** What is persisted of a row survives a snapshot, except for a health check with
      details of its own. */
  lemma PersistedPartLostIff(t: Table, r: Record)
    ensures Prepared(t, r).row != r.row <==>
            t == HealthChecks && ("http_health_check" in r.row.columns || "tls_options" in r.row.columns)
  {
    var columns := r.row.columns;
    if "http_health_check" !in columns && "tls_options" !in columns {
      assert columns - HEALTH_CHECK_DETAILS == columns;
    } else {
      var lost := if "http_health_check" in columns then "http_health_check" else "tls_options";
      assert lost in columns && lost !in columns - HEALTH_CHECK_DETAILS;
    }
  }

  lemma {:induction false} FilledAppend(base: map<IndexKey, Record>, t: Table, first: Record, rest: seq<Record>, n: nat)
    requires n <= |rest|
    ensures Filled(base, t, [first] + rest, n + 1) == Filled(base[IndexKeyOf(t, first) := first], t, rest, n)
  {
    if n > 0 {
      FilledAppend(base, t, first, rest, n - 1);
      assert ([first] + rest)[n] == rest[n - 1];
    }
  }

  /** Filling a table with the listed rows of another lays the other over it. */
  lemma {:induction false} FilledIsOverlay(place: Order, base: map<IndexKey, Record>, t: Table,
                                           m: map<IndexKey, Record>, keys: set<IndexKey>)
    requires keys <= m.Keys && Filed(t, m)
    ensures var rows := InOrder(place, m, keys);
            Filled(base, t, rows, |rows|) == base + Kept(m, keys)
    decreases |keys|
  {
    if keys == {} {
      assert base + Kept(m, keys) == base;
    } else {
      var k := Least(place, keys);
      var rest := InOrder(place, m, keys - {k});
      assert InOrder(place, m, keys) == [m[k]] + rest;
      FilledAppend(base, t, m[k], rest, |rest|);
      FilledIsOverlay(place, base[k := m[k]], t, m, keys - {k});
      OverlayStep(base, m, keys, k);
    }
  }

  lemma PreparedIsFiled(t: Table, m: map<IndexKey, Record>)
    requires Filed(t, m)
    ensures Filed(t, PreparedTable(t, m)) && PreparedTable(t, m).Keys == m.Keys
  {
    forall k | k in m
      ensures IndexKeyOf(t, PreparedTable(t, m)[k]) == k
    {
      PreparedIsStable(t, m[k]);
    }
  }

  /** Refilling a table from the backup of `m` gives the prepared `m` exactly when nothing
      is left of a row that `m` does not have. */
  lemma TableRoundTrip(place: Order, base: map<IndexKey, Record>, t: Table, m: map<IndexKey, Record>)
    requires Filed(t, m)
    ensures var rows := PreparedRows(place, t, m);
            Filled(base, t, rows, |rows|) == PreparedTable(t, m) <==> base.Keys <= m.Keys
  {
    var p := PreparedTable(t, m);
    PreparedIsFiled(t, m);
    FilledIsOverlay(place, base, t, p, m.Keys);
    assert Kept(p, m.Keys) == p;
    assert p.Keys == m.Keys;
    OverlayIsTopIff(base, p);
  }

  /** Restoring a backup into any storage makes every table the source's table with each
      row prepared, unless a table could not be cleared of a row the source lacks. */
  lemma RestoreOfBackup(place: Order, source: Values, snapshot: Snapshot, before: Values, stuck: Stuck, after: Values)
    requires forall t: Table :: t in source && Filed(t, source[t])
    requires BackupOf(place, source, snapshot) && AllRestored(before, after, stuck, snapshot)
    ensures forall t: Table :: t in after && (after[t] == PreparedTable(t, source[t]) <==>
                                              t !in stuck || before[t].Keys - stuck[t] <= source[t].Keys)
  {
    forall t: Table
      ensures t in after && (after[t] == PreparedTable(t, source[t]) <==>
                             t !in stuck || before[t].Keys - stuck[t] <= source[t].Keys)
    {
      TableRoundTrip(place, Left(before[t], t, stuck), t, source[t]);
    }
  }

  lemma PreparedTableIsStable(t: Table, m: map<IndexKey, Record>)
    ensures PreparedTable(t, m).Keys == m.Keys
    ensures PreparedTable(t, PreparedTable(t, m)) == PreparedTable(t, m)
  {
    var p := PreparedTable(t, m);
    forall k | k in p
      ensures Prepared(t, p[k]) == p[k]
    {
      PreparedIsStable(t, m[k]);
    }
    MapsEqual(PreparedTable(t, p), p);
  }

  /** Backing up what was restored gives the same snapshot again, up to its id. */
  lemma SecondBackup(place: Order, source: Values, first: Snapshot, restored: Values, second: Snapshot)
    requires BackupOf(place, source, first) && BackupOf(place, restored, second)
    requires forall t: Table :: t in source && t in restored && restored[t] == PreparedTable(t, source[t])
    ensures forall t: Table :: ListOf(second, t) == ListOf(first, t)
  {
    forall t: Table
      ensures ListOf(second, t) == ListOf(first, t)
    {
      PreparedTableIsStable(t, source[t]);
    }
  }
}
