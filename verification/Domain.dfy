/** The persisted tables, their rows and their relations (`domain/table.go`, `domain/domain.go`). */
module Domain {
  import opened Common

  datatype Table =
    | NodeGroups | DeploymentVersions | ClustersNodeGroups | Listeners | ExtAuthzFilters
    | MicroserviceVersions | Clusters | Endpoints | RouteConfigurations | VirtualHosts
    | VirtualHostDomains | Routes | HeaderMatchers | HashPolicies | RetryPolicies
    | EnvoyConfigVersions | HealthChecks | TlsConfigs | TlsConfigsNodeGroups | WasmFilters
    | ListenersWasmFilters | LuaFilters | CompositeSatellites | StatefulSessions | RateLimits
    | CircuitBreakers | TcpKeepalives | Thresholds

  /** The order in which tables are flushed, restored and loaded. */
  const RELATION_ORDER: seq<Table> := [
    TcpKeepalives, Thresholds, CircuitBreakers, NodeGroups, TlsConfigs, TlsConfigsNodeGroups,
    DeploymentVersions, Clusters, ClustersNodeGroups, StatefulSessions, Endpoints,
    RouteConfigurations, Listeners, ExtAuthzFilters, WasmFilters, ListenersWasmFilters,
    LuaFilters, VirtualHosts, VirtualHostDomains, Routes, HeaderMatchers, HashPolicies,
    RetryPolicies, EnvoyConfigVersions, HealthChecks, CompositeSatellites, RateLimits,
    MicroserviceVersions]

  /** The place of a table in that order. */
  function Rank(t: Table): nat {
    match t
    case TcpKeepalives => 0        case Thresholds => 1           case CircuitBreakers => 2
    case NodeGroups => 3           case TlsConfigs => 4           case TlsConfigsNodeGroups => 5
    case DeploymentVersions => 6   case Clusters => 7             case ClustersNodeGroups => 8
    case StatefulSessions => 9     case Endpoints => 10           case RouteConfigurations => 11
    case Listeners => 12           case ExtAuthzFilters => 13     case WasmFilters => 14
    case ListenersWasmFilters => 15 case LuaFilters => 16         case VirtualHosts => 17
    case VirtualHostDomains => 18  case Routes => 19              case HeaderMatchers => 20
    case HashPolicies => 21        case RetryPolicies => 22       case EnvoyConfigVersions => 23
    case HealthChecks => 24        case CompositeSatellites => 25 case RateLimits => 26
    case MicroserviceVersions => 27
  }

  /** A primary key: a serial id, a name, or a compound of several columns. */
  datatype Key = Id(n: int) | Name(s: string) | Compound(parts: seq<string>)

  /** The columns that are foreign keys in some table. */
  datatype Column =
    | ThresholdId | CircuitBreakerId | TcpKeepaliveId | TlsId | TlsConfigId | NodeGroupName
    | ClustersId | NodegroupsName | ClusterId | EndpointId | StatefulSessionId | DeploymentVersion
    | Nodegroup | ListenerId | WasmFilterId | RouteConfigId | VirtualHostId | RouteId
    | RateLimitId | LuaFilterName

  /** A persisted row: its primary key, its foreign keys by column (a missing column is
      NULL) and everything else. */
  datatype Entity = Entity(key: Key, refs: map<Column, Key>, columns: map<string, string>)

  /** All tables at once: a row is found under its table and primary key. */
  datatype Slot = Slot(table: Table, key: Key)
  type Store = map<Slot, Entity>

  /** The table a column of `child` belongs to, for every belongs-to relation joined on the
      primary key of the parent. */
  function ParentOf(child: Table, column: Column): Option<Table> {
    match (child, column)
    case (CircuitBreakers, ThresholdId) => Some(Thresholds)
    case (TlsConfigsNodeGroups, TlsConfigId) => Some(TlsConfigs)
    case (TlsConfigsNodeGroups, NodeGroupName) => Some(NodeGroups)
    case (Clusters, TlsId) => Some(TlsConfigs)
    case (Clusters, CircuitBreakerId) => Some(CircuitBreakers)
    case (Clusters, TcpKeepaliveId) => Some(TcpKeepalives)
    case (ClustersNodeGroups, ClustersId) => Some(Clusters)
    case (ClustersNodeGroups, NodegroupsName) => Some(NodeGroups)
    case (StatefulSessions, DeploymentVersion) => Some(DeploymentVersions)
    case (Endpoints, ClusterId) => Some(Clusters)
    case (Endpoints, DeploymentVersion) => Some(DeploymentVersions)
    case (Endpoints, StatefulSessionId) => Some(StatefulSessions)
    case (RouteConfigurations, Nodegroup) => Some(NodeGroups)
    case (Listeners, Nodegroup) => Some(NodeGroups)
    case (ListenersWasmFilters, ListenerId) => Some(Listeners)
    case (ListenersWasmFilters, WasmFilterId) => Some(WasmFilters)
    case (VirtualHosts, RouteConfigId) => Some(RouteConfigurations)
    case (VirtualHostDomains, VirtualHostId) => Some(VirtualHosts)
    case (Routes, VirtualHostId) => Some(VirtualHosts)
    case (Routes, DeploymentVersion) => Some(DeploymentVersions)
    case (Routes, StatefulSessionId) => Some(StatefulSessions)
    case (HeaderMatchers, RouteId) => Some(Routes)
    case (HashPolicies, RouteId) => Some(Routes)
    case (HashPolicies, EndpointId) => Some(Endpoints)
    case (RetryPolicies, RouteId) => Some(Routes)
    case (HealthChecks, ClusterId) => Some(Clusters)
    case (MicroserviceVersions, DeploymentVersion) => Some(DeploymentVersions)
    case _ => None
  }

  datatype Field =
    | ClustersField | NodeGroupField | WasmFiltersField | ExtAuthzFilterField | TLSField
    | NodeGroupsField | EndpointsField | HealthChecksField | CircuitBreakerField
    | TcpKeepaliveField | ThresholdField | TlsConfigField | ClusterField | ListenerField
    | WasmFilterField | DeploymentVersionValField | HashPoliciesField | StatefulSessionField
    | VirtualHostsField | RouteConfigurationField | RoutesField | DomainsField
    | RateLimitField | VirtualHostField | HeaderMatchersField | RetryPolicyField
    | LuaFilterField | RouteField | EndpointField | ListenersField

  /** A field that points to a row of another table or to several, with the column of its own
      that says which, if there is one. */
  datatype Link = Link(field: Field, target: Table, column: Option<Column>)

  /** All such fields of a table's Go type. */
  function LinksOf(t: Table): seq<Link> {
    match t
    case NodeGroups => [Link(ClustersField, Clusters, None)]
    case Listeners => [
      Link(NodeGroupField, NodeGroups, Some(Nodegroup)),
      Link(WasmFiltersField, WasmFilters, None),
      Link(ExtAuthzFilterField, ExtAuthzFilters, None)]
    case Clusters => [
      Link(TLSField, TlsConfigs, Some(TlsId)),
      Link(CircuitBreakerField, CircuitBreakers, Some(CircuitBreakerId)),
      Link(TcpKeepaliveField, TcpKeepalives, Some(TcpKeepaliveId)),
      Link(NodeGroupsField, NodeGroups, None),
      Link(EndpointsField, Endpoints, None),
      Link(HealthChecksField, HealthChecks, None)]
    case CircuitBreakers => [Link(ThresholdField, Thresholds, Some(ThresholdId))]
    case TlsConfigs => [Link(NodeGroupsField, NodeGroups, None)]
    case TlsConfigsNodeGroups => [
      Link(TlsConfigField, TlsConfigs, Some(TlsConfigId)),
      Link(NodeGroupField, NodeGroups, Some(NodeGroupName))]
    case ClustersNodeGroups => [
      Link(ClusterField, Clusters, Some(ClustersId)),
      Link(NodeGroupField, NodeGroups, Some(NodegroupsName))]
    case ListenersWasmFilters => [
      Link(ListenerField, Listeners, Some(ListenerId)),
      Link(WasmFilterField, WasmFilters, Some(WasmFilterId))]
    case Endpoints => [
      Link(ClusterField, Clusters, Some(ClusterId)),
      Link(DeploymentVersionValField, DeploymentVersions, Some(DeploymentVersion)),
      Link(StatefulSessionField, StatefulSessions, Some(StatefulSessionId)),
      Link(HashPoliciesField, HashPolicies, None)]
    case RouteConfigurations => [
      Link(NodeGroupField, NodeGroups, Some(Nodegroup)),
      Link(VirtualHostsField, VirtualHosts, None)]
    case VirtualHosts => [
      Link(RouteConfigurationField, RouteConfigurations, Some(RouteConfigId)),
      Link(RoutesField, Routes, None),
      Link(DomainsField, VirtualHostDomains, None),
      Link(RateLimitField, RateLimits, Some(RateLimitId))]
    case VirtualHostDomains => [Link(VirtualHostField, VirtualHosts, Some(VirtualHostId))]
    case Routes => [
      Link(VirtualHostField, VirtualHosts, Some(VirtualHostId)),
      Link(DeploymentVersionValField, DeploymentVersions, Some(DeploymentVersion)),
      Link(StatefulSessionField, StatefulSessions, Some(StatefulSessionId)),
      Link(HeaderMatchersField, HeaderMatchers, None),
      Link(HashPoliciesField, HashPolicies, None),
      Link(RetryPolicyField, RetryPolicies, None),
      Link(RateLimitField, RateLimits, Some(RateLimitId)),
      Link(LuaFilterField, LuaFilters, Some(LuaFilterName))]
    case HeaderMatchers => [Link(RouteField, Routes, Some(RouteId))]
    case HashPolicies => [
      Link(RouteField, Routes, Some(RouteId)),
      Link(EndpointField, Endpoints, Some(EndpointId))]
    case RetryPolicies => [Link(RouteField, Routes, Some(RouteId))]
    case HealthChecks => [Link(ClusterField, Clusters, Some(ClusterId))]
    case WasmFilters => [Link(ListenersField, Listeners, None)]
    case StatefulSessions => [Link(DeploymentVersionValField, DeploymentVersions, Some(DeploymentVersion))]
    case MicroserviceVersions => [Link(DeploymentVersionValField, DeploymentVersions, Some(DeploymentVersion))]
    case _ => []
  }

  /** The parent's primary key is what the column holds; rate limits and Lua filters are found
      by their names. */
  predicate ByPrimaryKey(parent: Table) {
    parent != RateLimits && parent != LuaFilters
  }

  /** The field at i belongs to this parent by this column. */
  predicate BelongsTo(links: seq<Link>, i: nat, column: Column, parent: Table) {
    i < |links| && links[i].column == Some(column) && links[i].target == parent
  }

  lemma RelationIsLink(child: Table, column: Column)
    requires ParentOf(child, column).Some?
    ensures exists i: nat :: BelongsTo(LinksOf(child), i, column, ParentOf(child, column).value)
  {
    var links, parent := LinksOf(child), ParentOf(child, column).value;
    assert BelongsTo(links, 0, column, parent) || BelongsTo(links, 1, column, parent)
           || BelongsTo(links, 2, column, parent);
  }

  lemma ParentIsByPrimaryKey(child: Table, column: Column)
    requires ParentOf(child, column).Some?
    ensures ByPrimaryKey(ParentOf(child, column).value)
  {
  }

  lemma LinkIsRelation(child: Table, i: nat)
    requires i < |LinksOf(child)|
    ensures var l := LinksOf(child)[i];
            l.column.Some? && ByPrimaryKey(l.target) ==> ParentOf(child, l.column.value) == Some(l.target)
  {
  }

  /** Every relation is a field that belongs to its parent, joined on the parent's primary key,
      and every such field is a relation. */
  lemma RelationsAreLinks(child: Table, column: Column, parent: Table)
    ensures ParentOf(child, column) == Some(parent) <==>
            ByPrimaryKey(parent) && exists i: nat :: BelongsTo(LinksOf(child), i, column, parent)
  {
    if ParentOf(child, column) == Some(parent) {
      RelationIsLink(child, column);
      ParentIsByPrimaryKey(child, column);
    }
    forall i: nat | BelongsTo(LinksOf(child), i, column, parent)
      ensures ByPrimaryKey(parent) ==> ParentOf(child, column) == Some(parent)
    {
      LinkIsRelation(child, i);
    }
  }

  /** Every table stands in the order at its rank. */
  lemma OrderListsEveryTable(t: Table)
    ensures Rank(t) < |RELATION_ORDER| && RELATION_ORDER[Rank(t)] == t
  {
  }

  /** And nowhere else. */
  lemma RankOfPlace(i: nat)
    requires i < |RELATION_ORDER|
    ensures Rank(RELATION_ORDER[i]) == i
  {
  }

  /** The order is topological: a parent always comes before its child. */
  lemma OrderIsTopological(child: Table, column: Column)
    ensures ParentOf(child, column).Some? ==> Rank(ParentOf(child, column).value) < Rank(child)
  {
  }

  /** Every row lies under its own key. */
  ghost predicate Keyed(s: Store) {
    forall p: Slot :: p in s ==> s[p].key == p.key
  }

  /** Every foreign key of the row leads to a row. */
  ghost predicate Anchored(s: Store, t: Table, e: Entity) {
    forall c :: c in e.refs && ParentOf(t, c).Some? ==> Slot(ParentOf(t, c).value, e.refs[c]) in s
  }

  /** Referential integrity of the whole store. */
  ghost predicate Integrity(s: Store) {
    forall p: Slot :: p in s ==> Anchored(s, p.table, s[p])
  }
}
