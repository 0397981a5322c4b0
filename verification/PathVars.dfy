/** Migration 27: old-style path variables that migration 18 left behind
    (`constancy/migration/00000000000027_route_path_vars_fix.go`). */
module PathVars {
  import opened Common
  import opened Strings
  import opened RouteRegex

  function NewStyle(regexp: string): string {
    ReplaceAll(TrimSuffix(regexp, TRAIL), WILDCARD, NEW_VAR) + TRAIL
  }

  /** Every route is rewritten once; one that is listed twice comes out the same. */
  method RemoveOldStylePathVars(routes: seq<Route>)
    modifies set r | r in routes :: r`regexp
    ensures forall r :: r in routes ==> r.regexp == NewStyle(old(r.regexp))
  {
    for i := 0 to |routes|
      invariant forall r :: r in routes ==>
                              r.regexp == if r in routes[..i] then NewStyle(old(r.regexp)) else old(r.regexp)
    {
      PrefixSnoc(routes, i);
      var route := routes[i];
      NewStyleIsIdempotent(old(route.regexp));
      var withoutTrail := TrimSuffix(route.regexp, TRAIL);
      route.regexp := ReplaceAll(withoutTrail, WILDCARD, NEW_VAR) + TRAIL;
    }
    assert routes[..|routes|] == routes;
  }

  lemma TrailComesOff(s: string)
    ensures TrimSuffix(s + TRAIL, TRAIL) == s
  {
    assert (s + TRAIL)[|s|..] == TRAIL;
  }

  /** No wildcard is left before the trail, and so a second pass changes nothing. */
  lemma NewStyleIsIdempotent(regexp: string)
    ensures !Contains(TrimSuffix(NewStyle(regexp), TRAIL), WILDCARD)
    ensures NewStyle(NewStyle(regexp)) == NewStyle(regexp)
  {
    var body := ReplaceAll(TrimSuffix(regexp, TRAIL), WILDCARD, NEW_VAR);
    TrailComesOff(body);
    NewVarIsHarmless();
    ReplaceAllRemoves(TrimSuffix(regexp, TRAIL), WILDCARD, NEW_VAR);
    ReplaceAllOfNone(body, WILDCARD, NEW_VAR);
  }

  /** The trail aside, new variables stand where the wildcards stood; then the trail follows. */
  lemma NewStyleIs(body: string)
    ensures NewStyle(body + "(/.*)?") == Joined(Pieces(body, ".*"), "([^/]+)") + "(/.*)?"
    ensures !HasSuffix(body, "(/.*)?") ==> NewStyle(body) == Joined(Pieces(body, ".*"), "([^/]+)") + "(/.*)?"
  {
    TrailComesOff(body);
    PiecesReplace(body, WILDCARD, NEW_VAR);
  }

  /** A wildcard at i that is not the inside of an old variable. */
  predicate Bare(s: string, i: int) {
    && 0 <= i && i + 2 <= |s| && s[i] == '.' && s[i + 1] == '*'
    && !(i > 0 && i + 2 < |s| && s[i - 1] == '(' && s[i + 2] == ')')
  }

  /** Replacing the old variables leaves a wildcard exactly when one was bare. */
  lemma {:induction false} BareSurvives(s: string)
    ensures Contains(ReplaceAll(s, OLD_VAR, NEW_VAR), WILDCARD) <==> exists i :: Bare(s, i)
  {
    if s == "" {
    } else if HasPrefix(s, OLD_VAR) {
      var rest := s[4..];
      BareSurvives(rest);
      BareAfterVar(s);
      NewVarHoldsNoWildcard(ReplaceAll(rest, OLD_VAR, NEW_VAR));
    } else {
      BareSurvives(s[1..]);
      BareAfterLetter(s);
      var all := ReplaceAll(s, OLD_VAR, NEW_VAR);
      assert all[1..] == ReplaceAll(s[1..], OLD_VAR, NEW_VAR);
      StarIsKept(s[1..]);
      WildcardInFront(all);
      WildcardInFront(s);
      BareInFront(s);
    }
  }

  lemma BareInFront(s: string)
    ensures Bare(s, 0) <==> HasPrefix(s, WILDCARD)
  {
    if HasPrefix(s, WILDCARD) {
      PrefixLetter(s, WILDCARD, 0);
      PrefixLetter(s, WILDCARD, 1);
    }
    if Bare(s, 0) {
      assert s[..2] == WILDCARD;
    }
  }

  lemma OldVarInFront(s: string)
    requires |s| > 3 && s[0] == '(' && s[1] == '.' && s[2] == '*' && s[3] == ')'
    ensures HasPrefix(s, OLD_VAR)
  {
    assert s[..4] == OLD_VAR;
  }

  lemma NewVarHoldsNoWildcard(w: string)
    ensures Contains(NEW_VAR + w, WILDCARD) <==> Contains(w, WILDCARD)
  {
    forall j | 0 <= j < |NEW_VAR|
      ensures !HasPrefix((NEW_VAR + w)[j..], WILDCARD)
    {
      if HasPrefix((NEW_VAR + w)[j..], WILDCARD) {
        PrefixLetter((NEW_VAR + w)[j..], WILDCARD, 0);
        assert false;
      }
    }
    SkipLetters(NEW_VAR, w, WILDCARD);
  }

  /** Past an old variable nothing bare is lost and nothing becomes bare. */
  lemma BareAfterVar(s: string)
    requires HasPrefix(s, OLD_VAR)
    ensures (exists i :: Bare(s, i)) <==> exists i :: Bare(s[4..], i)
  {
    var rest := s[4..];
    PrefixLetter(s, OLD_VAR, 0);
    PrefixLetter(s, OLD_VAR, 1);
    PrefixLetter(s, OLD_VAR, 2);
    PrefixLetter(s, OLD_VAR, 3);
    assert forall i :: 0 <= i < |rest| ==> rest[i] == s[i + 4];
    if i :| Bare(s, i) {
      assert Bare(rest, i - 4);
    }
    if i :| Bare(rest, i) {
      assert Bare(s, i + 4);
    }
  }

  lemma BareAfterLetter(s: string)
    requires s != "" && !HasPrefix(s, OLD_VAR)
    ensures (exists i :: Bare(s, i)) <==> Bare(s, 0) || exists i :: Bare(s[1..], i)
  {
    var rest := s[1..];
    assert forall i :: 0 <= i < |rest| ==> rest[i] == s[i + 1];
    if i :| Bare(s, i) {
      assert i == 0 || Bare(rest, i - 1);
    }
    if i :| Bare(rest, i) {
      if i == 0 && s[0] == '(' && |s| > 3 && s[3] == ')' {
        OldVarInFront(s);
        assert false;
      }
      assert Bare(s, i + 1);
    }
  }

  /** A star in front stays there, and none appears. */
  lemma StarIsKept(s: string)
    ensures HasPrefix(ReplaceAll(s, OLD_VAR, NEW_VAR), "*") <==> HasPrefix(s, "*")
  {
    var all := ReplaceAll(s, OLD_VAR, NEW_VAR);
    if HasPrefix(all, "*") {
      PrefixLetter(all, "*", 0);
      HeadIsKept(s, OLD_VAR, NEW_VAR, 1);
      assert s[..1] == all[..1];
    }
    if HasPrefix(s, "*") {
      PrefixLetter(s, "*", 0);
      if HasPrefix(s, OLD_VAR) {
        PrefixLetter(s, OLD_VAR, 0);
        assert false;
      }
      assert all[..1] == "*";
    }
  }

  /** What migration 18 makes of a regexp with variables is final for migration 27 exactly
      when every wildcard stood inside an old variable. */
  lemma MigratedIsFinalIff(regexp: string)
    requires Contains(regexp, OLD_VAR)
    ensures NewStyle(NewRegexp(regexp)) == NewRegexp(regexp) <==> forall i :: !Bare(regexp, i)
  {
    var all := ReplaceAll(regexp, OLD_VAR, NEW_VAR);
    var body := TrimSlashes(all);
    CountIsZeroIff(regexp, OLD_VAR);
    TrailComesOff(body);
    ReplaceAllIsIdentityIff(body, WILDCARD, NEW_VAR);
    SuffixCancels(ReplaceAll(body, WILDCARD, NEW_VAR), body, TRAIL);
    TrimmedContains(all, WILDCARD);
    BareSurvives(regexp);
  }

  lemma SuffixCancels(a: string, b: string, suffix: string)
    ensures a + suffix == b + suffix <==> a == b
  {
    if a + suffix == b + suffix {
      assert |a + suffix| == |b + suffix|;
      assert a == (a + suffix)[..|a|] && b == (b + suffix)[..|b|];
    }
  }

  // ---------------------------------------------------------------- duplicates

  /** The fields the migration compares, and the route they come from. */
  datatype Compared = Compared(
    regexp: string, prefix: string, deploymentVersion: string, prefixRewrite: string,
    regexpRewrite: string, host: int, clusterName: string, version: int)
  datatype Candidate = Candidate(id: int, fields: Compared)

  predicate Known(s: seq<Candidate>, target: Candidate) {
    exists i :: 0 <= i < |s| && s[i].fields == target.fields
  }

  /** The plain form: every route is compared with all unique routes before it. */
  function Uniques(s: seq<Candidate>): seq<Candidate> {
    if s == [] then []
    else
      var before, last := Uniques(s[..|s| - 1]), s[|s| - 1];
      if Known(before, last) then before else before + [last]
  }

  function Repeats(s: seq<Candidate>): seq<Candidate> {
    if s == [] then []
    else
      var last := s[|s| - 1];
      Repeats(s[..|s| - 1]) + if Known(Uniques(s[..|s| - 1]), last) then [last] else []
  }

  /** The routes of one regexp, order kept. */
  function Bucket(s: seq<Candidate>, regexp: string): seq<Candidate> {
    if s == [] then []
    else Bucket(s[..|s| - 1], regexp) + if s[|s| - 1].fields.regexp == regexp then [s[|s| - 1]] else []
  }

  lemma {:induction false} BucketIsPart(s: seq<Candidate>, regexp: string)
    ensures forall c :: c in Bucket(s, regexp) <==> c in s && c.fields.regexp == regexp
  {
    if s != [] {
      BucketIsPart(s[..|s| - 1], regexp);
      assert s == s[..|s| - 1] + [s[|s| - 1]];
    }
  }

  /** Searching the bucket is searching everything. */
  lemma KnownInBucket(s: seq<Candidate>, target: Candidate)
    ensures Known(Bucket(s, target.fields.regexp), target) <==> Known(s, target)
  {
    var bucket := Bucket(s, target.fields.regexp);
    BucketIsPart(s, target.fields.regexp);
    if i :| 0 <= i < |bucket| && bucket[i].fields == target.fields {
      assert bucket[i] in s;
    }
    if i :| 0 <= i < |s| && s[i].fields == target.fields {
      assert s[i] in bucket;
    }
  }

  method ContainsRoute(routes: seq<Candidate>, target: Candidate) returns (found: bool)
    ensures found <==> Known(routes, target)
  {
    for i := 0 to |routes|
      invariant forall j :: 0 <= j < i ==> routes[j].fields != target.fields
    {
      var r, t := routes[i].fields, target.fields;
      if t.regexp == r.regexp && t.prefix == r.prefix && t.deploymentVersion == r.deploymentVersion
         && t.prefixRewrite == r.prefixRewrite && t.regexpRewrite == r.regexpRewrite && t.host == r.host
         && t.clusterName == r.clusterName && t.version == r.version
      {
        return true;
      }
    }
    found := false;
  }

  /** Every bucket holds the unique routes of its regexp; a regexp without a bucket has none. */
  ghost predicate Indexed(regexps: map<string, seq<Candidate>>, unique: seq<Candidate>) {
    forall x: string :: Bucket(unique, x) == if x in regexps then regexps[x] else []
  }

  lemma IndexedAfter(regexps: map<string, seq<Candidate>>, unique: seq<Candidate>, route: Candidate)
    requires Indexed(regexps, unique)
    ensures var x := route.fields.regexp;
            Indexed(regexps[x := (if x in regexps then regexps[x] else []) + [route]], unique + [route])
  {
    assert (unique + [route])[..|unique|] == unique;
  }

  /** Searching one bucket per regexp gives what comparing with everything gives. */
  method SplitToUniqueAndDuplicates(routes: seq<Candidate>)
    returns (unique: seq<Candidate>, forDeletion: seq<Candidate>)
    ensures unique == Uniques(routes) && forDeletion == Repeats(routes)
  {
    var regexps: map<string, seq<Candidate>> := map[];
    unique, forDeletion := [], [];
    for i := 0 to |routes|
      invariant unique == Uniques(routes[..i]) && forDeletion == Repeats(routes[..i])
      invariant Indexed(regexps, unique)
    {
      var route := routes[i];
      var x := route.fields.regexp;
      assert routes[..i + 1][..i] == routes[..i];
      KnownInBucket(unique, route);
      var known := false;
      if x in regexps {
        known := ContainsRoute(regexps[x], route);
      }
      if known {
        forDeletion := forDeletion + [route];
      } else {
        IndexedAfter(regexps, unique, route);
        regexps := regexps[x := (if x in regexps then regexps[x] else []) + [route]];
        unique := unique + [route];
      }
    }
    assert routes[..|routes|] == routes;
  }

  /** The plain form sorts every route into one of its lists. */
  lemma {:induction false} NothingIsLost(s: seq<Candidate>)
    ensures multiset(Uniques(s)) + multiset(Repeats(s)) == multiset(s)
  {
    if s != [] {
      var init, last := s[..|s| - 1], s[|s| - 1];
      NothingIsLost(init);
      assert s == init + [last];
      PartsSnoc(Uniques(init), Repeats(init), init, last);
    }
  }

  /** It keeps no two alike, and gives up only what it keeps another copy of. */
  lemma {:induction false} KeptAreDifferent(s: seq<Candidate>)
    ensures forall i, j :: 0 <= i < j < |Uniques(s)| ==> Uniques(s)[i].fields != Uniques(s)[j].fields
    ensures forall c :: c in s ==> Known(Uniques(s), c)
  {
    if s != [] {
      var init, last := s[..|s| - 1], s[|s| - 1];
      KeptAreDifferent(init);
      assert s == init + [last];
      if !Known(Uniques(init), last) {
        forall c | c in s
          ensures Known(Uniques(init) + [last], c)
        {
          KnownInMore(Uniques(init), last, c);
        }
      }
    }
  }

  /** The routes of a part of the list, and where each of them stands in it: in the same order. */
  ghost predicate StandsIn(s: seq<Candidate>, part: seq<Candidate>, places: seq<nat>) {
    && |places| == |part|
    && (forall k :: 0 <= k < |part| ==> places[k] < |s| && s[places[k]] == part[k])
    && (forall k, l :: 0 <= k < l < |part| ==> places[k] < places[l])
  }

  /** A route like this one stands before this place. */
  ghost predicate AlikeBefore(s: seq<Candidate>, target: Candidate, place: nat) {
    exists j :: 0 <= j < place && j < |s| && s[j].fields == target.fields
  }

  lemma StandsInSnoc(s: seq<Candidate>, part: seq<Candidate>, places: seq<nat>, last: Candidate)
    requires StandsIn(s, part, places)
    ensures StandsIn(s + [last], part, places)
    ensures StandsIn(s + [last], part + [last], places + [|s|])
  {
  }

  lemma AlikeBeforeSnoc(s: seq<Candidate>, target: Candidate, place: nat, last: Candidate)
    requires place <= |s|
    ensures AlikeBefore(s + [last], target, place) <==> AlikeBefore(s, target, place)
  {
    forall j | 0 <= j < place
      ensures (s + [last])[j] == s[j]
    {
    }
  }

  lemma KnownIsAlike(s: seq<Candidate>, target: Candidate)
    ensures Known(Uniques(s), target) <==> AlikeBefore(s, target, |s|)
  {
    KeptAreDifferent(s);
    OnlyListedAreKept(s);
    if AlikeBefore(s, target, |s|) {
      var j :| 0 <= j < |s| && s[j].fields == target.fields;
      assert s[j] in s && Known(Uniques(s), s[j]);
    }
  }

  lemma {:induction false} OnlyListedAreKept(s: seq<Candidate>)
    ensures forall c :: c in Uniques(s) ==> c in s
  {
    if s != [] {
      OnlyListedAreKept(s[..|s| - 1]);
    }
  }

  /** Of routes that are alike the first is kept, and all others are dropped; both lists are in
      order. */
  lemma {:induction false} FirstsAreKept(s: seq<Candidate>) returns (kept: seq<nat>, dropped: seq<nat>)
    ensures StandsIn(s, Uniques(s), kept) && StandsIn(s, Repeats(s), dropped)
    ensures forall k :: 0 <= k < |kept| ==> !AlikeBefore(s, Uniques(s)[k], kept[k])
    ensures forall k :: 0 <= k < |dropped| ==> AlikeBefore(s, Repeats(s)[k], dropped[k])
  {
    kept, dropped := [], [];
    if s != [] {
      var init, last := s[..|s| - 1], s[|s| - 1];
      kept, dropped := FirstsAreKept(init);
      assert s == init + [last];
      StandsInSnoc(init, Uniques(init), kept, last);
      StandsInSnoc(init, Repeats(init), dropped, last);
      forall c: Candidate, place: nat | place <= |init|
        ensures AlikeBefore(s, c, place) <==> AlikeBefore(init, c, place)
      {
        AlikeBeforeSnoc(init, c, place, last);
      }
      KnownIsAlike(init, last);
      if Known(Uniques(init), last) {
        dropped := dropped + [|init|];
      } else {
        kept := kept + [|init|];
      }
    }
  }

  lemma KnownInMore(s: seq<Candidate>, more: Candidate, c: Candidate)
    ensures Known(s + [more], c) <==> Known(s, c) || more.fields == c.fields
  {
    assert (s + [more])[|s|] == more;
    if i :| 0 <= i < |s| && s[i].fields == c.fields {
      assert (s + [more])[i].fields == c.fields;
    }
  }
}
