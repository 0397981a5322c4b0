/** Saving a TLS configuration and its many-to-many table (`dao/tlsConfig.go`). */
module TlsConfigs {
  import opened Common

  /** The join table: pairs of a configuration's id and the name of a node group. */
  type Joins = set<(int, string)>

  function RowsOf(joins: Joins, id: int): set<string> {
    set p | p in joins && p.0 == id :: p.1
  }

  lemma RowsOfHas(joins: Joins, id: int, group: string)
    ensures group in RowsOf(joins, id) <==> (id, group) in joins
  {
    if (id, group) in joins {
      assert (id, group).1 in RowsOf(joins, id);
    }
  }

  /** A configuration as an object; node groups by name. */
  class TlsConfig {
    var id: int
    var name: string
    var nodeGroups: seq<string>
  }

  // ---------------------------------------------------------------- the join table as a value

  /** The rows of the stored configuration that the saved one does not list. */
  function Outdated(joins: Joins, found: Option<int>, names: set<string>): Joins {
    if found == None then {} else set p | p in joins && p.0 == found.value && p.1 !in names
  }

  /** The rows written: one for every listed group the stored configuration is not bound to. */
  function Written(joins: Joins, found: Option<int>, id: int, names: set<string>): Joins {
    set g | g in names && !(found.Some? && (found.value, g) in joins) :: (id, g)
  }

  function Saved(joins: Joins, found: Option<int>, id: int, names: set<string>): Joins {
    (joins - Outdated(joins, found, names)) + Written(joins, found, id, names)
  }

  /** Whether the rows of the final id come to be the listed groups: always when the stored
      configuration of that name has this id. Without one, or with one of another id, the id
      must not be bound to further groups already; and with another id it must in addition
      be bound to whatever the listed groups and the stored configuration have in common. */
  ghost predicate Reconciles(joins: Joins, found: Option<int>, id: int, names: set<string>) {
    || found == Some(id)
    || (&& RowsOf(joins, id) <= names
        && (found.Some? ==> names * RowsOf(joins, found.value) <= RowsOf(joins, id)))
  }

  lemma ReconcilesIff(joins: Joins, found: Option<int>, id: int, names: set<string>)
    ensures RowsOf(Saved(joins, found, id, names), id) == names <==> Reconciles(joins, found, id, names)
  {
    var saved := Saved(joins, found, id, names);
    forall g
      ensures g in RowsOf(saved, id) <==>
              || (found == Some(id) && g in names)
              || (found != Some(id) && g in RowsOf(joins, id))
              || (found != Some(id) && g in names && !(found.Some? && g in RowsOf(joins, found.value)))
    {
      RowsOfHas(saved, id, g);
      RowsOfHas(joins, id, g);
      if found.Some? {
        RowsOfHas(joins, found.value, g);
      }
    }
  }

  /** No other configuration's rows change; a stored one that gave up its name to another id
      keeps what it shares with the listed groups. */
  lemma OthersKeepTheirRows(joins: Joins, found: Option<int>, id: int, names: set<string>, other: int)
    requires other != id
    ensures RowsOf(Saved(joins, found, id, names), other) ==
            if found == Some(other) then RowsOf(joins, other) * names else RowsOf(joins, other)
  {
    var saved := Saved(joins, found, id, names);
    forall g
      ensures g in RowsOf(saved, other) <==> g in RowsOf(joins, other) && (found == Some(other) ==> g in names)
    {
      RowsOfHas(saved, other, g);
      RowsOfHas(joins, other, g);
    }
  }

  /** The two loops go through lists, the table changes by the sets of their members. */
  lemma ListsAreSets(joins: Joins, found: Option<int>, id: int, bound: seq<string>, names: seq<string>)
    requires if found.Some? then Elements(bound) == RowsOf(joins, found.value) else bound == []
    ensures found.Some? ==>
              (set g | g in bound && g !in names :: (found.value, g)) == Outdated(joins, found, Elements(names))
    ensures (set g | g in names && g !in bound :: (id, g)) == Written(joins, found, id, Elements(names))
  {
    forall g
      ensures found.Some? ==> (g in bound <==> (found.value, g) in joins)
    {
      if found.Some? {
        RowsOfHas(joins, found.value, g);
        assert g in bound <==> g in Elements(bound);
      }
    }
    if found.Some? {
      forall p: (int, string)
        ensures p in Outdated(joins, found, Elements(names)) <==> p.0 == found.value && p.1 in bound && p.1 !in names
      {
        assert p == (p.0, p.1);
      }
    }
  }

  // ---------------------------------------------------------------- the repository

  class TlsRepository {
    var configs: map<int, TlsConfig>
    var joins: Joins

    /** Rows lie under their ids, which are not zero, and are bound only if they exist. */
    ghost predicate Valid()
      reads this, configs.Values
    {
      && 0 !in configs
      && (forall id :: id in configs ==> configs[id].id == id)
      && (forall p :: p in joins ==> p.0 in configs)
    }

    method ListRows(id: int) returns (groups: seq<string>)
      ensures Elements(groups) == RowsOf(joins, id)
    {
      groups := [];
      var pending := RowsOf(joins, id);
      while pending != {}
        invariant pending <= RowsOf(joins, id) && Elements(groups) == RowsOf(joins, id) - pending
        decreases |pending|
      {
        var group := AnyOf(pending);
        ElementsSnoc(groups, group);
        groups, pending := groups + [group], pending - {group};
      }
    }

    method FirstByName(name: string) returns (found: TlsConfig?)
      ensures found != null ==> found in configs.Values && found.name == name
      ensures found == null ==> forall c :: c in configs.Values ==> c.name != name
    {
      found := null;
      var pending := configs.Values;
      while pending != {}
        invariant pending <= configs.Values
        invariant forall c :: c in configs.Values - pending ==> c.name != name
        decreases |pending|
      {
        var c := AnyOf(pending);
        if c.name == name {
          return c;
        }
        pending := pending - {c};
      }
    }

    /** The stored object itself, its list of groups overwritten by its rows. */
    method FindTlsConfigByName(name: string) returns (found: TlsConfig?)
      modifies configs.Values
      ensures found != null ==> found in configs.Values && found.name == name
                                && Elements(found.nodeGroups) == RowsOf(joins, found.id)
      ensures found == null ==> forall c :: c in configs.Values ==> c.name != name
      ensures forall c :: c in configs.Values ==> c.id == old(c.id) && c.name == old(c.name)
      ensures forall c :: c in configs.Values && c != found ==> c.nodeGroups == old(c.nodeGroups)
    {
      found := FirstByName(name);
      if found != null {
        var groups := ListRows(found.id);
        found.nodeGroups := groups;
      }
    }

    method DeleteOutdated(found: TlsConfig, names: seq<string>)
      modifies this`joins
      ensures joins == old(joins) - set g | g in found.nodeGroups && g !in names :: (found.id, g)
    {
      for i := 0 to |found.nodeGroups|
        invariant joins == old(joins) - set g | g in found.nodeGroups[..i] && g !in names :: (found.id, g)
      {
        PrefixSnoc(found.nodeGroups, i);
        if found.nodeGroups[i] !in names {
          joins := joins - {(found.id, found.nodeGroups[i])};
        }
      }
      assert found.nodeGroups[..|found.nodeGroups|] == found.nodeGroups;
    }

    method SaveMissing(id: int, names: seq<string>, bound: seq<string>)
      modifies this`joins
      ensures joins == old(joins) + set g | g in names && g !in bound :: (id, g)
    {
      for i := 0 to |names|
        invariant joins == old(joins) + set g | g in names[..i] && g !in bound :: (id, g)
      {
        PrefixSnoc(names, i);
        if names[i] !in bound {
          joins := joins + {(id, names[i])};
        }
      }
      assert names[..|names|] == names;
    }

    /** Saves the object and brings its rows up to date against the stored configuration of
        the same name. When the object is that configuration, its list has been overwritten
        by the rows before it is looked at, and the rows stay what they were: then they are
        the groups the caller listed only if they were before. For any other object they are
        exactly if the configurations reconcile. */
    method SaveTlsConfig(tls: TlsConfig, generated: Option<int>) returns (ok: bool, ghost found: Option<int>)
      requires Valid() && (generated.Some? ==> generated.value !in configs && generated.value != 0)
      modifies this, tls, configs.Values
      ensures Valid()
      ensures !ok ==> configs == old(configs) && joins == old(joins)
      ensures ok <==> old(tls.id) != 0 || found.Some? || generated.Some?
      ensures found == None <==> forall c :: c in old(configs.Values) ==> old(c.name) != old(tls.name)
      ensures found.Some? ==> found.value in old(configs) && old(configs[found.value].name) == old(tls.name)
      ensures ok ==> tls.id == if old(tls.id) != 0 then old(tls.id)
                               else if found.Some? then found.value else generated.value
      ensures ok ==> configs == old(configs)[tls.id := tls]
      ensures ok ==> joins == Saved(old(joins), found, tls.id,
                                    if found.Some? && old(configs[found.value]) == tls
                                    then RowsOf(old(joins), found.value)
                                    else Elements(old(tls.nodeGroups)))
      ensures ok ==>
                (RowsOf(joins, tls.id) == Elements(old(tls.nodeGroups)) <==>
                 if found.Some? && old(configs[found.value]) == tls then
                   RowsOf(old(joins), tls.id) == Elements(old(tls.nodeGroups))
                 else Reconciles(old(joins), found, tls.id, Elements(old(tls.nodeGroups))))
    {
      found, ok := None, false;
      var stored := FindTlsConfigByName(tls.name);
      if stored != null {
        found := Some(stored.id);
        ghost var k := KeyOf(configs, stored);
        assert stored.id == k;
      }
      ghost var joins0 := joins;
      if tls.id == 0 {
        if stored == null {
          if generated == None {
            return;
          }
          tls.id := generated.value;
        } else {
          tls.id := stored.id;
        }
      }
      configs := configs[tls.id := tls];
      if stored != null {
        DeleteOutdated(stored, tls.nodeGroups);
      }
      ListsAreSets(joins0, found, tls.id, if stored == null then [] else stored.nodeGroups, tls.nodeGroups);
      SaveMissing(tls.id, tls.nodeGroups, if stored == null then [] else stored.nodeGroups);
      ReconcilesIff(joins0, found, tls.id, Elements(tls.nodeGroups));
      ok := true;
    }
  }
}
