/** Migration 132: prefixes lose one trailing slash and routes that then collide are removed
    (`constancy/migration/00000000000132_route_duplicate_fix.go`). */
module RouteDuplicates {
  import opened Common

  // ---------------------------------------------------------------- route keys

  datatype HeaderMatcher = HeaderMatcher(
    name: string, exact: string, safeRegex: string, start: Option<int>, end: Option<int>, present: Option<bool>,
    prefix: string, suffix: string, invert: bool)

  datatype HeaderMatch = HeaderMatch(
    name: string, exact: string, safeRegex: string, range: Option<(int, int)>, present: Option<bool>,
    prefix: string, suffix: string, invert: bool)

  /** What a route key is made from, besides the prefix. */
  datatype Rest = Rest(regexp: string, path: string, headers: seq<HeaderMatch>, version: string)
  datatype Match = Match(prefix: string, rest: Rest)

  /** The key of a match: a digest of its JSON form. */
  type Generate = Match -> string

  ghost predicate Injective(gen: Generate) {
    forall a, b :: gen(a) == gen(b) ==> a == b
  }

  function FromHeaderMatcher(h: HeaderMatcher): HeaderMatch {
    HeaderMatch(h.name, h.exact, h.safeRegex,
                if h.start.Some? && h.end.Some? then Some((h.start.value, h.end.value)) else None,
                h.present, h.prefix, h.suffix, h.invert)
  }

  function FromHeaderMatchers(hs: seq<HeaderMatcher>): seq<HeaderMatch> {
    seq(|hs|, i requires 0 <= i < |hs| => FromHeaderMatcher(hs[i]))
  }

  /** A route with its header matchers, as the migration selects it. */
  datatype Route = Route(host: int, key: string, prefix: string, rest: Rest)

  /** What two routes have to share to collide. */
  datatype Identity = Identity(host: int, prefix: string, rest: Rest)

  function IdentityOf(r: Route): Identity {
    Identity(r.host, r.prefix, r.rest)
  }

  function GenerateKey(gen: Generate, r: Route): string {
    gen(Match(r.prefix, r.rest))
  }

  predicate EndsInSlash(s: string) {
    |s| > 0 && s[|s| - 1] == '/'
  }

  function Trimmed(s: string): string {
    if EndsInSlash(s) then s[..|s| - 1] else s
  }

  /** A route as the migration would save it. */
  function Fixed(gen: Generate, r: Route): Route {
    if EndsInSlash(r.prefix) then r.(prefix := Trimmed(r.prefix), key := gen(Match(Trimmed(r.prefix), r.rest))) else r
  }

  /** The class a route belongs to: the identity it has once its slash is gone. */
  function ClassOf(r: Route): Identity {
    Identity(r.host, Trimmed(r.prefix), r.rest)
  }

  type Table = map<int, Route>

  // ---------------------------------------------------------------- the loop as a function

  /** The rows that collide with a route about to be saved. */
  function Duplicates(gen: Generate, t: Table, id: int): set<int>
    requires id in t
  {
    set j | j in t && j != id && t[j].key == gen(Match(Trimmed(t[id].prefix), t[id].rest)) && t[j].host == t[id].host
  }

  function Processed(gen: Generate, t: Table, id: int): Table {
    if id in t then (t - Duplicates(gen, t, id))[id := Fixed(gen, t[id])] else t
  }

  /** The table once the first n selected routes have been looked at. */
  function After(gen: Generate, t: Table, order: seq<int>, n: nat): Table
    requires n <= |order|
  {
    if n == 0 then t else Processed(gen, After(gen, t, order, n - 1), order[n - 1])
  }

  /** A possible answer to the SELECT without an ORDER BY. */
  ghost predicate Enumerates(order: seq<int>, t: Table) {
    Distinct(order) && forall id :: id in order <==> id in t
  }

  ghost predicate KeysMatch(gen: Generate, t: Table) {
    forall id :: id in t ==> t[id].key == GenerateKey(gen, t[id])
  }

  /** A row that is still there is fixed if it has been looked at, and untouched if not. */
  lemma {:induction false} RowsAre(gen: Generate, t: Table, order: seq<int>, n: nat)
    requires n <= |order| && Distinct(order)
    ensures forall id :: id in After(gen, t, order, n) ==>
                           && id in t
                           && After(gen, t, order, n)[id] == if id in order[..n] then Fixed(gen, t[id]) else t[id]
  {
    if n > 0 {
      RowsAre(gen, t, order, n - 1);
      PrefixSnoc(order, n - 1);
    }
  }

  lemma NotYetFixed(gen: Generate, t: Table, order: seq<int>, n: nat)
    requires n < |order| && Distinct(order)
    ensures var before := After(gen, t, order, n);
            order[n] in before ==> order[n] in t && before[order[n]] == t[order[n]]
  {
    RowsAre(gen, t, order, n);
    assert order[n] !in order[..n];
  }

  lemma {:induction false} RowsOnlyVanish(gen: Generate, t: Table, order: seq<int>, n: nat, m: nat)
    requires n <= m <= |order|
    ensures After(gen, t, order, m).Keys <= After(gen, t, order, n).Keys
  {
    if n < m {
      RowsOnlyVanish(gen, t, order, n, m - 1);
    }
  }

  /** Keys keep matching their rows. */
  lemma KeysStayMatched(gen: Generate, t: Table, order: seq<int>, n: nat)
    requires n <= |order| && Distinct(order) && KeysMatch(gen, t)
    ensures KeysMatch(gen, After(gen, t, order, n))
  {
    RowsAre(gen, t, order, n);
  }

  /** A collision is an equal identity. */
  lemma DuplicatesAre(gen: Generate, t: Table, id: int, j: int)
    requires Injective(gen) && KeysMatch(gen, t) && id in t && j in t
    ensures j in Duplicates(gen, t, id) <==> j != id && IdentityOf(t[j]) == ClassOf(t[id])
  {
  }

  /** One step: the route looked at takes its class, every other row of that identity goes. */
  lemma StepIs(gen: Generate, t: Table, order: seq<int>, n: nat)
    requires n < |order| && Distinct(order) && Injective(gen) && KeysMatch(gen, t)
    ensures var before, after, id := After(gen, t, order, n), After(gen, t, order, n + 1), order[n];
            if id in before then
              && id in t && id in after && after[id] == Fixed(gen, t[id]) && IdentityOf(after[id]) == ClassOf(t[id])
              && forall j :: j != id ==> (j in after <==> j in before && IdentityOf(before[j]) != ClassOf(t[id]))
                                         && (j in after ==> after[j] == before[j])
            else after == before
  {
    var before, id := After(gen, t, order, n), order[n];
    RowsAre(gen, t, order, n);
    KeysStayMatched(gen, t, order, n);
    if id in before {
      assert id !in order[..n];
      forall j | j in before
        ensures j in Duplicates(gen, before, id) <==> j != id && IdentityOf(before[j]) == ClassOf(t[id])
      {
        DuplicatesAre(gen, before, id, j);
      }
    }
  }

  // ---------------------------------------------------------------- what is left

  /** No two remaining rows share host and key, once all have been looked at. */
  lemma {:induction false} SettledAreDistinct(gen: Generate, t: Table, order: seq<int>, n: nat, a: int, b: int)
    requires n <= |order| && Distinct(order) && Injective(gen) && KeysMatch(gen, t)
    requires a in After(gen, t, order, n) && b in After(gen, t, order, n) && a != b && a in order[..n]
    ensures IdentityOf(After(gen, t, order, n)[a]) != IdentityOf(After(gen, t, order, n)[b])
  {
    var before := After(gen, t, order, n - 1);
    StepIs(gen, t, order, n - 1);
    PrefixSnoc(order, n - 1);
    if a != order[n - 1] && b != order[n - 1] {
      SettledAreDistinct(gen, t, order, n - 1, a, b);
    } else if order[n - 1] !in before {
      assert false;
    }
  }

  lemma FinalAreDistinct(gen: Generate, t: Table, order: seq<int>, a: int, b: int)
    requires Enumerates(order, t) && Injective(gen) && KeysMatch(gen, t)
    requires a in After(gen, t, order, |order|) && b in After(gen, t, order, |order|) && a != b
    ensures IdentityOf(After(gen, t, order, |order|)[a]) != IdentityOf(After(gen, t, order, |order|)[b])
  {
    RowsAre(gen, t, order, |order|);
    assert order[..|order|] == order;
    SettledAreDistinct(gen, t, order, |order|, a, b);
  }

  /** Once all have been looked at, what is left are fixed routes, stored keys match their
      rows, and no two rows share host and key. */
  lemma FinalTable(gen: Generate, t: Table, order: seq<int>)
    requires Enumerates(order, t) && Injective(gen) && KeysMatch(gen, t)
    ensures var after := After(gen, t, order, |order|);
            && KeysMatch(gen, after)
            && (forall a :: a in after ==> a in t && after[a] == Fixed(gen, t[a]))
            && (forall a, b :: a in after && b in after && a != b ==>
                                 after[a].host != after[b].host || after[a].key != after[b].key)
  {
    var after := After(gen, t, order, |order|);
    KeysStayMatched(gen, t, order, |order|);
    RowsAre(gen, t, order, |order|);
    assert order[..|order|] == order;
    forall a, b | a in after && b in after && a != b
      ensures after[a].host != after[b].host || after[a].key != after[b].key
    {
      FinalAreDistinct(gen, t, order, a, b);
    }
  }

  /** Some remaining row has this identity. */
  ghost predicate Held(t: Table, q: Identity) {
    exists id :: id in t && IdentityOf(t[id]) == q
  }

  /** And has been looked at already. */
  ghost predicate Settled(gen: Generate, t: Table, order: seq<int>, n: nat, q: Identity)
    requires n <= |order|
  {
    exists id :: id in After(gen, t, order, n) && id in order[..n] && IdentityOf(After(gen, t, order, n)[id]) == q
  }

  /** An identity without a trailing slash is never given up. */
  lemma {:induction false} PlainStaysHeld(gen: Generate, t: Table, order: seq<int>, n: nat, q: Identity)
    requires n <= |order| && Distinct(order) && Injective(gen) && KeysMatch(gen, t)
    requires !EndsInSlash(q.prefix) && Held(t, q)
    ensures Held(After(gen, t, order, n), q)
  {
    if n > 0 {
      PlainStaysHeld(gen, t, order, n - 1, q);
      RowsAre(gen, t, order, n - 1);
      StepIs(gen, t, order, n - 1);
      var before, after := After(gen, t, order, n - 1), After(gen, t, order, n);
      var j :| j in before && IdentityOf(before[j]) == q;
      assert j !in after ==> order[n - 1] in after;
    }
  }

  /** Nor is one that a route has taken. */
  lemma {:induction false} SettledStays(gen: Generate, t: Table, order: seq<int>, n: nat, m: nat, q: Identity)
    requires n <= m <= |order| && Distinct(order) && Injective(gen) && KeysMatch(gen, t)
    requires Settled(gen, t, order, n, q)
    ensures Settled(gen, t, order, m, q)
  {
    if n < m {
      SettledStays(gen, t, order, n, m - 1, q);
      StepIs(gen, t, order, m - 1);
      PrefixSnoc(order, m - 1);
      var before := After(gen, t, order, m - 1);
      var j :| j in before && j in order[..m - 1] && IdentityOf(before[j]) == q;
      assert order[m - 1] != j;
      assert order[m - 1] in order[..m];
    }
  }

  /** A route of the table that differs only in a further slash. */
  ghost predicate Longer(t: Table, b: int, c: int) {
    b in t && c in t && IdentityOf(t[c]) == IdentityOf(t[b]).(prefix := t[b].prefix + "/")
  }

  lemma TakerIsLonger(t: Table, b: int, c: int)
    requires b in t && c in t && EndsInSlash(t[b].prefix) && ClassOf(t[c]) == IdentityOf(t[b])
    ensures Longer(t, b, c)
  {
    assert EndsInSlash(t[c].prefix);
    assert t[c].prefix == Trimmed(t[c].prefix) + "/";
  }

  lemma LongerHasBoth(t: Table, b: int, c: int)
    requires Longer(t, b, c)
    ensures EndsInSlash(t[c].prefix) && Trimmed(t[c].prefix) == t[b].prefix
  {
  }

  /** A route ending in a slash waits for its turn unless a longer one swallows it. */
  lemma {:induction false} Waits(gen: Generate, t: Table, order: seq<int>, n: nat, b: int)
    requires n <= |order| && Distinct(order) && Injective(gen) && KeysMatch(gen, t)
    requires b in t && EndsInSlash(t[b].prefix) && b !in order[..n] && forall c :: !Longer(t, b, c)
    ensures b in After(gen, t, order, n)
  {
    if n > 0 {
      PrefixSnoc(order, n - 1);
      Waits(gen, t, order, n - 1, b);
      RowsAre(gen, t, order, n - 1);
      StepIs(gen, t, order, n - 1);
      var c := order[n - 1];
      if c in t && ClassOf(t[c]) == IdentityOf(t[b]) {
        TakerIsLonger(t, b, c);
        assert false;
      }
    }
  }

  /** The condition: wherever a route x/ has a longer x//, x has no slash of its own and
      is itself a route. */
  ghost predicate NoSwallow(t: Table) {
    forall b, c :: Longer(t, b, c) && EndsInSlash(t[b].prefix) ==>
                     !EndsInSlash(Trimmed(t[b].prefix)) && Held(t, ClassOf(t[b]))
  }

  /** Every class of the table before is held by a row of the table after. */
  ghost predicate ClassesHeld(before: Table, after: Table) {
    forall id :: id in before ==> Held(after, ClassOf(before[id]))
  }

  lemma ClassIsHeld(gen: Generate, t: Table, order: seq<int>, b: int)
    requires Injective(gen) && KeysMatch(gen, t) && Enumerates(order, t) && NoSwallow(t) && b in t
    ensures Held(After(gen, t, order, |order|), ClassOf(t[b]))
  {
    var q := ClassOf(t[b]);
    if !EndsInSlash(t[b].prefix) {
      assert IdentityOf(t[b]) == q;
      PlainStaysHeld(gen, t, order, |order|, q);
    } else if c :| Longer(t, b, c) {
      PlainStaysHeld(gen, t, order, |order|, q);
    } else {
      var k :| 0 <= k < |order| && order[k] == b;
      Waits(gen, t, order, k, b);
      StepIs(gen, t, order, k);
      assert order[..k + 1][k] == b;
      assert Settled(gen, t, order, k + 1, q);
      SettledStays(gen, t, order, k + 1, |order|, q);
    }
  }

  /** A row that ends up in the class of b stood beside b, or in the class already. */
  lemma HolderWas(gen: Generate, t: Table, b: int, f: int)
    requires b in t && f in t && EndsInSlash(t[b].prefix) && IdentityOf(Fixed(gen, t[f])) == ClassOf(t[b])
    ensures EndsInSlash(t[f].prefix) ==> IdentityOf(t[f]) == IdentityOf(t[b])
    ensures !EndsInSlash(t[f].prefix) ==> Held(t, ClassOf(t[b])) && !EndsInSlash(Trimmed(t[b].prefix))
  {
    if EndsInSlash(t[f].prefix) {
      assert t[f].prefix == Trimmed(t[f].prefix) + "/";
      assert t[b].prefix == Trimmed(t[b].prefix) + "/";
    } else {
      assert IdentityOf(t[f]) == ClassOf(t[b]);
    }
  }

  /** Looking at the longer route first loses the class of the shorter for good. */
  lemma SwallowedIsLost(gen: Generate, t: Table, order: seq<int>, b: int, c: int)
    requires Injective(gen) && KeysMatch(gen, t) && Enumerates(order, t)
    requires Longer(t, b, c) && EndsInSlash(t[b].prefix)
    requires EndsInSlash(Trimmed(t[b].prefix)) || !Held(t, ClassOf(t[b]))
    requires |order| > 0 && order[0] == c
    ensures !Held(After(gen, t, order, |order|), ClassOf(t[b]))
  {
    var after := After(gen, t, order, |order|);
    RowsAre(gen, t, order, |order|);
    assert order[..|order|] == order;
    LongerHasBoth(t, b, c);
    forall f | f in after
      ensures IdentityOf(after[f]) != ClassOf(t[b])
    {
      if IdentityOf(after[f]) == ClassOf(t[b]) {
        HolderWas(gen, t, b, f);
        if EndsInSlash(t[f].prefix) {
          StepIs(gen, t, order, 0);
          RowsOnlyVanish(gen, t, order, 1, |order|);
          assert false;
        } else {
          assert false;
        }
      }
    }
  }

  lemma SomeOrderLoses(gen: Generate, t: Table) returns (order: seq<int>)
    requires Injective(gen) && KeysMatch(gen, t) && !NoSwallow(t)
    ensures Enumerates(order, t) && !ClassesHeld(t, After(gen, t, order, |order|))
  {
    var b, c :| Longer(t, b, c) && EndsInSlash(t[b].prefix)
                && (EndsInSlash(Trimmed(t[b].prefix)) || !Held(t, ClassOf(t[b])));
    var rest := SetToSeq(t.Keys - {c});
    order := [c] + rest;
    assert forall id :: id in rest <==> id in Elements(rest);
    SwallowedIsLost(gen, t, order, b, c);
  }

  lemma EveryOrderHolds(gen: Generate, t: Table, order: seq<int>)
    requires Injective(gen) && KeysMatch(gen, t) && NoSwallow(t) && Enumerates(order, t)
    ensures ClassesHeld(t, After(gen, t, order, |order|))
  {
    forall b | b in t
      ensures Held(After(gen, t, order, |order|), ClassOf(t[b]))
    {
      ClassIsHeld(gen, t, order, b);
    }
  }

  /** For every order in which the routes may be selected, every initial class is held by
      a remaining row: this is so exactly when no route can swallow another. */
  lemma EveryClassHeldIff(gen: Generate, t: Table)
    requires Injective(gen) && KeysMatch(gen, t)
    ensures (forall order :: Enumerates(order, t) ==> ClassesHeld(t, After(gen, t, order, |order|))) <==> NoSwallow(t)
  {
    if NoSwallow(t) {
      forall order | Enumerates(order, t)
        ensures ClassesHeld(t, After(gen, t, order, |order|))
      {
        EveryOrderHolds(gen, t, order);
      }
    } else {
      var order := SomeOrderLoses(gen, t);
    }
  }

  ghost predicate OnlyHolder(t: Table, f: int, q: Identity) {
    f in t && forall g :: g in t ==> (IdentityOf(t[g]) == q <==> g == f)
  }

  /** Tables without a double slash at the end of a prefix are safe, and then exactly one
      remaining row holds each initial class. */
  lemma OneSurvivorPerClass(gen: Generate, t: Table, order: seq<int>, id: int) returns (f: int)
    requires Injective(gen) && KeysMatch(gen, t) && Enumerates(order, t) && id in t
    requires forall j :: j in t ==> !(EndsInSlash(t[j].prefix) && EndsInSlash(Trimmed(t[j].prefix)))
    ensures OnlyHolder(After(gen, t, order, |order|), f, ClassOf(t[id]))
  {
    var after := After(gen, t, order, |order|);
    forall b, c | Longer(t, b, c)
      ensures !EndsInSlash(t[b].prefix)
    {
      LongerHasBoth(t, b, c);
    }
    ClassIsHeld(gen, t, order, id);
    f :| f in after && IdentityOf(after[f]) == ClassOf(t[id]);
    forall g | g in after && g != f
      ensures IdentityOf(after[g]) != ClassOf(t[id])
    {
      FinalAreDistinct(gen, t, order, f, g);
    }
  }

  /** j has, or gets, what id has or would get. */
  ghost predicate Rivals(t: Table, id: int, j: int) {
    id in t && j in t && j != id && (ClassOf(t[j]) == IdentityOf(t[id]) || ClassOf(t[j]) == ClassOf(t[id]))
  }

  /** No route is removed without a rival. */
  lemma {:induction false} RemovedHadRival(gen: Generate, t: Table, order: seq<int>, n: nat, id: int)
    requires n <= |order| && Distinct(order) && Injective(gen) && KeysMatch(gen, t)
    requires id in t && id !in After(gen, t, order, n)
    ensures exists j :: Rivals(t, id, j)
  {
    if id !in After(gen, t, order, n - 1) {
      RemovedHadRival(gen, t, order, n - 1, id);
    } else {
      StepIs(gen, t, order, n - 1);
      RowsAre(gen, t, order, n - 1);
      assert Rivals(t, id, order[n - 1]);
    }
  }

  // ---------------------------------------------------------------- the migration

  /** A row of the routes table; header matchers are in a table of their own. */
  datatype RouteRow = RouteRow(host: int, key: string, prefix: string, regexp: string, path: string, version: string)

  type Routes = map<int, RouteRow>
  type Matchers = map<int, seq<HeaderMatcher>>

  function MatchersOf(matchers: Matchers, id: int): seq<HeaderMatcher> {
    if id in matchers then matchers[id] else []
  }

  /** A route with the matchers that name it. */
  function Join(r: RouteRow, hs: seq<HeaderMatcher>): Route {
    Route(r.host, r.key, r.prefix, Rest(r.regexp, r.path, FromHeaderMatchers(hs), r.version))
  }

  function Selected(routes: Routes, matchers: Matchers): Table {
    map id | id in routes :: Join(routes[id], MatchersOf(matchers, id))
  }

  /** The route key tells all columns of a matcher apart, but a range only if it has both
      ends. */
  predicate SameMatcher(a: HeaderMatcher, b: HeaderMatcher) {
    && a.name == b.name && a.exact == b.exact && a.safeRegex == b.safeRegex && a.present == b.present
    && a.prefix == b.prefix && a.suffix == b.suffix && a.invert == b.invert
    && ((a.start == b.start && a.end == b.end) || ((a.start.None? || a.end.None?) && (b.start.None? || b.end.None?)))
  }

  lemma MatcherIsSameIff(a: HeaderMatcher, b: HeaderMatcher)
    ensures FromHeaderMatcher(a) == FromHeaderMatcher(b) <==> SameMatcher(a, b)
  {
  }

  predicate SameMatchers(hs: seq<HeaderMatcher>, gs: seq<HeaderMatcher>) {
    |hs| == |gs| && forall i :: 0 <= i < |hs| ==> SameMatcher(hs[i], gs[i])
  }

  lemma MatchersAreSameIff(hs: seq<HeaderMatcher>, gs: seq<HeaderMatcher>)
    ensures FromHeaderMatchers(hs) == FromHeaderMatchers(gs) <==> SameMatchers(hs, gs)
  {
    var a, b := FromHeaderMatchers(hs), FromHeaderMatchers(gs);
    forall i | 0 <= i < |hs| && i < |gs|
      ensures a[i] == b[i] <==> SameMatcher(hs[i], gs[i])
    {
      MatcherIsSameIff(hs[i], gs[i]);
    }
    if SameMatchers(hs, gs) {
      assert |a| == |b| && forall i :: 0 <= i < |a| ==> a[i] == b[i];
    }
  }

  /** Two routes of one host with the same columns and matchers, this prefix given to the one
      and that to the other. */
  predicate Alike(r: RouteRow, p: string, hs: seq<HeaderMatcher>, s: RouteRow, q: string, gs: seq<HeaderMatcher>) {
    && r.host == s.host && p == q && r.regexp == s.regexp && r.path == s.path && r.version == s.version
    && SameMatchers(hs, gs)
  }

  lemma AlikeIff(r: RouteRow, p: string, hs: seq<HeaderMatcher>, s: RouteRow, q: string, gs: seq<HeaderMatcher>)
    ensures Alike(r, p, hs, s, q, gs) <==>
            IdentityOf(Join(r, hs)).(prefix := p) == IdentityOf(Join(s, gs)).(prefix := q)
  {
    MatchersAreSameIff(hs, gs);
  }

  /** q is p without one slash at its end. */
  predicate IsPlain(p: string, q: string) {
    p == q + "/" || (p == q && (q == "" || q[|q| - 1] != '/'))
  }

  lemma PlainIffTrimmed(p: string, q: string)
    ensures IsPlain(p, q) <==> q == Trimmed(p)
  {
    if EndsInSlash(p) {
      assert p == p[..|p| - 1] + "/";
    }
    if p == q + "/" {
      assert q == p[..|p| - 1];
    }
  }

  /** Of these routes, with their matchers, those are left, each without one slash at the
      end of its prefix and otherwise as it was. */
  ghost predicate OnlyTrimmed(was: Routes, now: Routes) {
    forall id :: id in now ==>
                   && id in was && IsPlain(was[id].prefix, now[id].prefix)
                   && now[id] == was[id].(prefix := now[id].prefix, key := now[id].key)
  }

  /** No two of them agree in host, prefix, the other columns and the matchers. */
  ghost predicate NoneAlike(now: Routes, hs: Matchers) {
    forall a, b :: a in now && b in now && a != b ==>
                     !Alike(now[a], now[a].prefix, MatchersOf(hs, a), now[b], now[b].prefix, MatchersOf(hs, b))
  }

  /** With its slash gone the one route would be like the other, or like what that becomes. */
  ghost predicate Displaces(was: Routes, hs: Matchers, j: int, id: int) {
    && j in was && id in was && j != id
    && exists p, q :: IsPlain(was[j].prefix, p) && (q == was[id].prefix || IsPlain(was[id].prefix, q))
                      && Alike(was[j], p, MatchersOf(hs, j), was[id], q, MatchersOf(hs, id))
  }

  /** Another route is removed only in favour of one that is like it. */
  ghost predicate OnlyDisplaced(was: Routes, hs: Matchers, now: Routes) {
    forall id :: id in was && id !in now ==> exists j :: Displaces(was, hs, j, id)
  }

  /** One of them is what a route before would be without its slash. */
  ghost predicate Stands(was: Routes, hs: Matchers, now: Routes, id: int, f: int) {
    && id in was && f in now
    && IsPlain(was[id].prefix, now[f].prefix)
    && Alike(now[f], now[f].prefix, MatchersOf(hs, f), was[id], now[f].prefix, MatchersOf(hs, id))
  }

  ghost predicate AllStand(was: Routes, hs: Matchers, now: Routes) {
    forall id :: id in was ==> exists f :: Stands(was, hs, now, id, f)
  }

  ghost predicate Migrated(gen: Generate, was: Routes, hs: Matchers, now: Routes, order: seq<int>) {
    && Injective(gen) && KeysMatch(gen, Selected(was, hs)) && Enumerates(order, Selected(was, hs))
    && Selected(now, hs) == After(gen, Selected(was, hs), order, |order|)
  }

  lemma TrimmedRows(gen: Generate, was: Routes, hs: Matchers, now: Routes, order: seq<int>)
    requires Migrated(gen, was, hs, now, order)
    ensures OnlyTrimmed(was, now)
  {
    var t := Selected(was, hs);
    FinalTable(gen, t, order);
    forall id | id in now
      ensures id in was && IsPlain(was[id].prefix, now[id].prefix)
      ensures now[id] == was[id].(prefix := now[id].prefix, key := now[id].key)
    {
      assert id in Selected(now, hs) && Selected(now, hs)[id] == Fixed(gen, t[id]);
      PlainIffTrimmed(was[id].prefix, now[id].prefix);
    }
  }

  lemma NoRowsAlike(gen: Generate, was: Routes, hs: Matchers, now: Routes, order: seq<int>)
    requires Migrated(gen, was, hs, now, order)
    ensures NoneAlike(now, hs)
  {
    forall a, b | a in now && b in now && a != b
      ensures !Alike(now[a], now[a].prefix, MatchersOf(hs, a), now[b], now[b].prefix, MatchersOf(hs, b))
    {
      assert a in Selected(now, hs) && b in Selected(now, hs);
      FinalAreDistinct(gen, Selected(was, hs), order, a, b);
      AlikeIff(now[a], now[a].prefix, MatchersOf(hs, a), now[b], now[b].prefix, MatchersOf(hs, b));
    }
  }

  lemma RivalDisplaces(was: Routes, hs: Matchers, j: int, id: int)
    requires Rivals(Selected(was, hs), id, j)
    ensures Displaces(was, hs, j, id)
  {
    var p, own := Trimmed(was[j].prefix), was[id].prefix;
    PlainIffTrimmed(was[j].prefix, p);
    PlainIffTrimmed(own, Trimmed(own));
    AlikeIff(was[j], p, MatchersOf(hs, j), was[id], own, MatchersOf(hs, id));
    AlikeIff(was[j], p, MatchersOf(hs, j), was[id], Trimmed(own), MatchersOf(hs, id));
  }

  lemma RowsAreDisplaced(gen: Generate, was: Routes, hs: Matchers, now: Routes, order: seq<int>)
    requires Migrated(gen, was, hs, now, order)
    ensures OnlyDisplaced(was, hs, now)
  {
    forall id | id in was && id !in now
      ensures exists j :: Displaces(was, hs, j, id)
    {
      assert id in Selected(was, hs) && id !in Selected(now, hs);
      RemovedHadRival(gen, Selected(was, hs), order, |order|, id);
      var j :| Rivals(Selected(was, hs), id, j);
      RivalDisplaces(was, hs, j, id);
    }
  }

  lemma RowsStand(gen: Generate, was: Routes, hs: Matchers, now: Routes, order: seq<int>)
    requires Migrated(gen, was, hs, now, order) && NoSwallow(Selected(was, hs))
    ensures AllStand(was, hs, now)
  {
    var t, after := Selected(was, hs), Selected(now, hs);
    EveryOrderHolds(gen, t, order);
    forall id | id in was
      ensures exists f :: Stands(was, hs, now, id, f)
    {
      assert id in t && Held(after, ClassOf(t[id]));
      var f :| f in after && IdentityOf(after[f]) == ClassOf(t[id]);
      PlainIffTrimmed(was[id].prefix, now[f].prefix);
      AlikeIff(now[f], now[f].prefix, MatchersOf(hs, f), was[id], now[f].prefix, MatchersOf(hs, id));
      assert Stands(was, hs, now, id, f);
    }
  }

  /** What the migration does to rows whose stored keys are those of their routes. */
  ghost predicate Deduplicated(gen: Generate, was: Routes, hs: Matchers, now: Routes) {
    && KeysMatch(gen, Selected(now, hs)) && OnlyTrimmed(was, now) && NoneAlike(now, hs) && OnlyDisplaced(was, hs, now)
    && (NoSwallow(Selected(was, hs)) ==> AllStand(was, hs, now))
  }

  lemma RowsAreDeduplicated(gen: Generate, was: Routes, hs: Matchers, now: Routes, order: seq<int>)
    requires Migrated(gen, was, hs, now, order)
    ensures Deduplicated(gen, was, hs, now)
  {
    KeysStayMatched(gen, Selected(was, hs), order, |order|);
    TrimmedRows(gen, was, hs, now, order);
    NoRowsAlike(gen, was, hs, now, order);
    RowsAreDisplaced(gen, was, hs, now, order);
    if NoSwallow(Selected(was, hs)) {
      RowsStand(gen, was, hs, now, order);
    }
  }

  /** Matchers of removed routes are removed with them; the others keep theirs. */
  lemma EndsDeduplicated(gen: Generate, was: Routes, hs: Matchers, now: Routes, left: Matchers, gone: set<int>,
                         order: seq<int>)
    requires Enumerates(order, Selected(was, hs)) && left == hs - gone && now.Keys == was.Keys - gone
    requires Selected(now, left) == After(gen, Selected(was, hs), order, |order|)
    ensures Injective(gen) && KeysMatch(gen, Selected(was, hs)) ==> Deduplicated(gen, was, hs, now)
  {
    assert Selected(now, left) == Selected(now, hs);
    if Injective(gen) && KeysMatch(gen, Selected(was, hs)) {
      RowsAreDeduplicated(gen, was, hs, now, order);
    }
  }

  class Database {
    var routes: Routes
    var matchers: Matchers

    function Joined(id: int): Route
      requires id in routes
      reads this
    {
      Join(routes[id], MatchersOf(matchers, id))
    }

    function Table(): Table
      reads this
    {
      Selected(routes, matchers)
    }

    method DeleteRoute(id: int)
      modifies this
      ensures routes == old(routes) - {id} && matchers == old(matchers) - {id}
      ensures Table() == old(Table()) - {id}
    {
      matchers := matchers - {id};
      routes := routes - {id};
    }

    /** `order` is the order in which the first SELECT returns the routes. If the stored keys
        are those of their routes, every route that is left has lost one slash at most, no
        two are alike, none has gone without another that is like it, and all that stood
        before still stand without their slash unless one could swallow another. */
    method RemoveDuplicateRoutes(gen: Generate, order: seq<int>) returns (deletedRouteIds: set<int>)
      requires Enumerates(order, Table())
      modifies this
      ensures Table() == After(gen, old(Table()), order, |order|)
      ensures deletedRouteIds == old(routes.Keys) - routes.Keys
      ensures matchers == old(matchers) - deletedRouteIds
      ensures Injective(gen) && KeysMatch(gen, old(Table())) ==>
                Deduplicated(gen, old(routes), old(matchers), routes)
    {
      deletedRouteIds := ProcessAll(gen, order);
      EndsDeduplicated(gen, old(routes), old(matchers), routes, matchers, deletedRouteIds, order);
    }

    /** The loop over the selected routes. */
    method ProcessAll(gen: Generate, order: seq<int>) returns (deletedRouteIds: set<int>)
      requires Enumerates(order, Table())
      modifies this
      ensures Table() == After(gen, old(Table()), order, |order|)
      ensures routes.Keys == old(routes.Keys) - deletedRouteIds && deletedRouteIds <= old(routes.Keys)
      ensures matchers == old(matchers) - deletedRouteIds
    {
      var selected := Table();
      deletedRouteIds := {};
      for i := 0 to |order|
        invariant Table() == After(gen, selected, order, i)
        invariant routes.Keys == selected.Keys - deletedRouteIds && deletedRouteIds <= selected.Keys
        invariant matchers == old(matchers) - deletedRouteIds
      {
        assert order[i] in order;
        deletedRouteIds := ProcessNext(gen, order, i, selected, deletedRouteIds, old(matchers));
      }
    }

    method ProcessNext(gen: Generate, order: seq<int>, i: nat, selected: Table, deleted: set<int>, ghost hs: Matchers)
      returns (deletedRouteIds: set<int>)
      requires i < |order| && Distinct(order) && order[i] in selected
      requires Table() == After(gen, selected, order, i) && matchers == hs - deleted
      requires routes.Keys == selected.Keys - deleted && deleted <= selected.Keys
      modifies this
      ensures Table() == After(gen, selected, order, i + 1) && matchers == hs - deletedRouteIds
      ensures routes.Keys == selected.Keys - deletedRouteIds && deletedRouteIds <= selected.Keys
    {
      deletedRouteIds := deleted;
      if order[i] !in deleted {
        NotYetFixed(gen, selected, order, i);
        var removed := Process(gen, order[i], selected[order[i]]);
        RemovedTwice(hs, deleted, removed);
        deletedRouteIds := deleted + removed;
      }
    }

    /** One turn of the loop, on the route as it was selected. */
    method Process(gen: Generate, id: int, selected: Route) returns (removed: set<int>)
      requires id in routes && Joined(id) == selected
      modifies this
      ensures Table() == Processed(gen, old(Table()), id)
      ensures removed <= old(routes.Keys) && routes.Keys == old(routes.Keys) - removed
      ensures matchers == old(matchers) - removed
    {
      var route, saveRoute := selected, false;
      if EndsInSlash(route.prefix) {
        route := route.(prefix := route.prefix[..|route.prefix| - 1]);
        saveRoute := true;
      }
      var routeKey := GenerateKey(gen, route);
      var duplicates := set j | j in routes && j != id && routes[j].key == routeKey && routes[j].host == route.host;
      ghost var t := Table();
      assert duplicates == Duplicates(gen, t, id);
      DeleteAll(duplicates);
      removed := duplicates;
      assert id in Table() && Table()[id] == t[id];
      if saveRoute {
        Save(id, route.prefix, routeKey);
      }
      assert Fixed(gen, t[id]) == Table()[id];
    }

    /** The UPDATE of the two columns. */
    method Save(id: int, prefix: string, key: string)
      requires id in routes
      modifies this`routes
      ensures routes.Keys == old(routes.Keys)
      ensures Table() == old(Table())[id := old(Joined(id)).(prefix := prefix, key := key)]
    {
      routes := routes[id := routes[id].(prefix := prefix, key := key)];
    }

    method DeleteAll(ids: set<int>)
      modifies this
      ensures routes == old(routes) - ids && matchers == old(matchers) - ids
      ensures Table() == old(Table()) - ids
    {
      var pending := ids;
      ghost var done: set<int> := {};
      while pending != {}
        invariant pending + done == ids
        invariant routes == old(routes) - done && matchers == old(matchers) - done
        invariant Table() == old(Table()) - done
        decreases |pending|
      {
        var id := AnyOf(pending);
        DeleteRoute(id);
        RemovedTwice(old(routes), done, {id});
        RemovedTwice(old(matchers), done, {id});
        RemovedTwice(old(Table()), done, {id});
        pending, done := pending - {id}, done + {id};
      }
    }
  }
}
