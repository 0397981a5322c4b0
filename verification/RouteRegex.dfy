/** Migration 18: path variables in route regexps, and the duplicates this makes
    (`constancy/migration/00000000000018_route_regex_fix.go`). */
module RouteRegex {
  import opened Common
  import opened Strings

  const OLD_VAR := "(.*)"
  const NEW_VAR := "([^/]+)"
  const TRAIL := "(/.*)?"
  const WILDCARD := ".*"

  // ---------------------------------------------------------------- rewriting a route

  function TrimSlashes(s: string): string {
    if HasSuffix(s, "/") then TrimSlashes(s[..|s| - 1]) else s
  }

  function DigitChar(d: nat): char
    requires d < 10
  {
    "0123456789"[d]
  }

  /** A number in decimal. */
  function Decimal(n: nat): string {
    if n < 10 then [DigitChar(n)] else Decimal(n / 10) + [DigitChar(n % 10)]
  }

  /** What a reader makes of digits. */
  function ValueOf(digits: string): int {
    if digits == "" then 0
    else 10 * ValueOf(digits[..|digits| - 1]) + (digits[|digits| - 1] as int - '0' as int)
  }

  /** A number is written in digits, without a zero in front, and read back. */
  lemma {:induction false} DecimalIsRead(n: nat)
    ensures ValueOf(Decimal(n)) == n
    ensures Decimal(n) != "" && forall i :: 0 <= i < |Decimal(n)| ==> '0' <= Decimal(n)[i] <= '9'
    ensures |Decimal(n)| == 1 <==> n < 10
    ensures n > 0 ==> Decimal(n)[0] != '0'
  {
    if n >= 10 {
      DecimalIsRead(n / 10);
      assert Decimal(n)[..|Decimal(n)| - 1] == Decimal(n / 10);
    } else {
      assert Decimal(n)[..0] == "";
    }
  }

  lemma DecimalsDiffer(n: nat, m: nat)
    ensures Decimal(n) == Decimal(m) <==> n == m
  {
    DecimalIsRead(n);
    DecimalIsRead(m);
  }

  function NewRegexp(regexp: string): string {
    if Count(regexp, OLD_VAR) == 0 then regexp
    else TrimSlashes(ReplaceAll(regexp, OLD_VAR, NEW_VAR)) + TRAIL
  }

  function NewRewrite(regexp: string, rewrite: string): string {
    if Count(regexp, OLD_VAR) == 0 || rewrite == "" then rewrite
    else TrimSlashes(rewrite) + "\\" + Decimal(Count(regexp, OLD_VAR) + 1)
  }

  class Route {
    var regexp: string
    var regexpRewrite: string

    method ProcessRegexp()
      modifies this
      ensures regexp == NewRegexp(old(regexp))
      ensures regexpRewrite == NewRewrite(old(regexp), old(regexpRewrite))
    {
      if regexp == "" {
        return;
      }
      var varsNumber := Count(regexp, OLD_VAR);
      if varsNumber == 0 {
        return;
      }
      regexp := ReplaceAll(regexp, OLD_VAR, NEW_VAR);
      while HasSuffix(regexp, "/")
        invariant TrimSlashes(regexp) == TrimSlashes(ReplaceAll(old(regexp), OLD_VAR, NEW_VAR))
        invariant regexpRewrite == old(regexpRewrite)
        decreases |regexp|
      {
        regexp := regexp[..|regexp| - 1];
      }
      regexp := regexp + TRAIL;
      if regexpRewrite != "" {
        while HasSuffix(regexpRewrite, "/")
          invariant TrimSlashes(regexpRewrite) == TrimSlashes(old(regexpRewrite))
          invariant regexp == NewRegexp(old(regexp))
          decreases |regexpRewrite|
        {
          regexpRewrite := regexpRewrite[..|regexpRewrite| - 1];
        }
        regexpRewrite := regexpRewrite + "\\" + Decimal(varsNumber + 1);
      }
    }
  }

  lemma NewVarIsHarmless()
    ensures Harmless(OLD_VAR, NEW_VAR) && Harmless(WILDCARD, NEW_VAR)
  {
  }

  lemma WildcardInFront(s: string)
    requires s != ""
    ensures HasPrefix(s, WILDCARD) <==> s[0] == '.' && HasPrefix(s[1..], "*")
  {
    if HasPrefix(s, WILDCARD) {
      PrefixLetter(s, WILDCARD, 0);
      PrefixLetter(s, WILDCARD, 1);
      assert s[1..][..1] == "*";
    }
    if s[0] == '.' && HasPrefix(s[1..], "*") {
      PrefixLetter(s[1..], "*", 0);
      assert s[..2] == WILDCARD;
    }
  }

  /** Trimming slashes neither hides nor reveals a pattern that does not end in one. */
  lemma {:induction false} TrimmedContains(s: string, pat: string)
    requires pat != "" && pat[|pat| - 1] != '/'
    ensures Contains(TrimSlashes(s), pat) <==> Contains(s, pat)
  {
    if HasSuffix(s, "/") {
      var init := s[..|s| - 1];
      TrimmedContains(init, pat);
      assert s == init + "/";
      LastLetterMatters(init, '/', pat);
    }
  }

  lemma {:induction false} LastLetterMatters(s: string, c: char, pat: string)
    requires pat != "" && pat[|pat| - 1] != c
    ensures Contains(s + [c], pat) <==> Contains(s, pat)
  {
    assert HasPrefix(s + [c], pat) <==> HasPrefix(s, pat) by {
      if HasPrefix(s + [c], pat) {
        PrefixLetter(s + [c], pat, |pat| - 1);
      }
      if |pat| <= |s| {
        assert (s + [c])[..|pat|] == s[..|pat|];
      }
    }
    if s == "" {
      assert (s + [c])[1..] == "";
    } else {
      LastLetterMatters(s[1..], c, pat);
      assert (s + [c])[1..] == s[1..] + [c];
    }
  }

  /** No old variable is left, neither in a replacement nor across its ends. */
  lemma NoOldVarLeft(regexp: string)
    ensures !Contains(NewRegexp(regexp), OLD_VAR)
  {
    CountIsZeroIff(regexp, OLD_VAR);
    if Count(regexp, OLD_VAR) != 0 {
      var all := ReplaceAll(regexp, OLD_VAR, NEW_VAR);
      NewVarIsHarmless();
      ReplaceAllRemoves(regexp, OLD_VAR, NEW_VAR);
      TrimmedContains(all, OLD_VAR);
      TrailHoldsNoOldVar();
      AppendContains(TrimSlashes(all), TRAIL, OLD_VAR);
    }
  }

  lemma TrailHoldsNoOldVar()
    ensures !Contains(TRAIL, OLD_VAR)
  {
    ReplaceAllRemoves(OLD_VAR, OLD_VAR, TRAIL);
    assert OLD_VAR[4..] == "";
    assert ReplaceAll(OLD_VAR, OLD_VAR, TRAIL) == TRAIL + ReplaceAll("", OLD_VAR, TRAIL);
  }

  /** The whole route is processed once and for all. */
  lemma ProcessingIsIdempotent(regexp: string, rewrite: string)
    ensures NewRegexp(NewRegexp(regexp)) == NewRegexp(regexp)
    ensures NewRewrite(NewRegexp(regexp), NewRewrite(regexp, rewrite)) == NewRewrite(regexp, rewrite)
  {
    NoOldVarLeft(regexp);
    CountIsZeroIff(NewRegexp(regexp), OLD_VAR);
  }

  // ---------------------------------------------------------------- capturing groups

  /** Where a reader of a regexp stands: in plain text, after a backslash, after an opening
      parenthesis, after the question mark or the P that may follow it, or at the start, at
      the first character or further inside a character class, or after a backslash there. */
  datatype Place = Text | Escape | Opening | Question | QuestionP | ClassStart | ClassFirst | Class | ClassEscape

  predicate InClass(at: Place) {
    at.ClassStart? || at.ClassFirst? || at.Class? || at.ClassEscape?
  }

  function NextInText(c: char): Place {
    if c == '\\' then Escape else if c == '(' then Opening else if c == '[' then ClassStart else Text
  }

  function NextInClass(c: char): Place {
    if c == '\\' then ClassEscape else Class
  }

  function Next(at: Place, c: char): Place {
    match at
    case Text => NextInText(c)
    case Escape => Text
    case Opening => if c == '?' then Question else NextInText(c)
    case Question => if c == 'P' then QuestionP else if c == '<' then Text else NextInText(c)
    case QuestionP => if c == '<' then Text else NextInText(c)
    case ClassStart => if c == '^' then ClassFirst else NextInClass(c)
    case ClassFirst => NextInClass(c)
    case Class => if c == ']' then Text else NextInClass(c)
    case ClassEscape => Class
  }

  /** A parenthesis opens a capturing group unless a question mark follows; a named group
      captures all the same. It counts once the next character has decided. */
  function Decided(at: Place, c: char): nat {
    if (at.Opening? && c != '?') || ((at.Question? || at.QuestionP?) && c == '<') then 1 else 0
  }

  function PlaceAfter(at: Place, s: string): Place
    decreases |s|
  {
    if s == "" then at else PlaceAfter(Next(at, s[0]), s[1..])
  }

  function Captures(at: Place, s: string): nat
    decreases |s|
  {
    if s == "" then 0 else Decided(at, s[0]) + Captures(Next(at, s[0]), s[1..])
  }

  /** The capturing groups a text opens, a parenthesis at its very end included. */
  function Groups(s: string): nat {
    Captures(Text, s) + if PlaceAfter(Text, s) == Opening then 1 else 0
  }

  lemma {:induction false} ReadOn(at: Place, a: string, b: string)
    ensures PlaceAfter(at, a + b) == PlaceAfter(PlaceAfter(at, a), b)
    ensures Captures(at, a + b) == Captures(at, a) + Captures(PlaceAfter(at, a), b)
    decreases |a|
  {
    if a == "" {
      assert a + b == b;
    } else {
      assert (a + b)[1..] == a[1..] + b;
      ReadOn(Next(at, a[0]), a[1..], b);
    }
  }

  lemma ReadOne(at: Place, c: char)
    ensures PlaceAfter(at, [c]) == Next(at, c) && Captures(at, [c]) == Decided(at, c)
  {
    assert [c][1..] == "";
  }

  lemma ReadFirst(at: Place, c: char, s: string)
    ensures PlaceAfter(at, [c] + s) == PlaceAfter(Next(at, c), s)
    ensures Captures(at, [c] + s) == Decided(at, c) + Captures(Next(at, c), s)
  {
    assert ([c] + s)[1..] == s;
  }

  lemma ReadTwo(at: Place, c: char, d: char)
    ensures PlaceAfter(at, [c, d]) == Next(Next(at, c), d)
    ensures Captures(at, [c, d]) == Decided(at, c) + Decided(Next(at, c), d)
  {
    assert [c, d] == [c] + [d];
    ReadFirst(at, c, [d]);
    ReadOne(Next(at, c), d);
  }

  lemma ReadFour(at: Place, c: char, d: char, e: char, f: char)
    ensures var mid := Next(Next(at, c), d);
            && PlaceAfter(at, [c, d, e, f]) == Next(Next(mid, e), f)
            && Captures(at, [c, d, e, f])
               == Decided(at, c) + Decided(Next(at, c), d) + Decided(mid, e) + Decided(Next(mid, e), f)
  {
    assert [c, d, e, f] == [c, d] + [e, f];
    ReadTwo(at, c, d);
    ReadTwo(Next(Next(at, c), d), e, f);
    ReadOn(at, [c, d], [e, f]);
  }

  lemma ReadOldVar(at: Place)
    requires !InClass(at)
    ensures PlaceAfter(at, OLD_VAR) == Text
    ensures Captures(at, OLD_VAR) == Decided(at, '(') + if at == Escape then 0 else 1
  {
    assert OLD_VAR == ['(', '.', '*', ')'];
    ReadFour(at, '(', '.', '*', ')');
  }

  /** The beginning of a new variable up to the end of its character class. */
  lemma ReadSegment(at: Place)
    requires !InClass(at)
    ensures PlaceAfter(at, ['(', '[', '^', '/']) == Class
    ensures Captures(at, ['(', '[', '^', '/']) == Decided(at, '(') + if at == Escape then 0 else 1
  {
    ReadFour(at, '(', '[', '^', '/');
  }

  lemma ReadSegmentEnd()
    ensures PlaceAfter(Class, [']', '+', ')']) == Text && Captures(Class, [']', '+', ')']) == 0
  {
    assert [']', '+', ')'] == [']', '+'] + [')'];
    ReadTwo(Class, ']', '+');
    ReadOne(Text, ')');
    ReadOn(Class, [']', '+'], [')']);
  }

  lemma ReadNewVar(at: Place)
    requires !InClass(at)
    ensures PlaceAfter(at, NEW_VAR) == Text
    ensures Captures(at, NEW_VAR) == Decided(at, '(') + if at == Escape then 0 else 1
  {
    var head, tail := ['(', '[', '^', '/'], [']', '+', ')'];
    assert NEW_VAR == head + tail;
    ReadSegment(at);
    ReadSegmentEnd();
    ReadOn(at, head, tail);
  }

  /** Every old variable begins outside the character classes. */
  ghost predicate VarsOutside(at: Place, s: string) {
    forall i :: 0 <= i < |s| && HasPrefix(s[i..], OLD_VAR) ==> !InClass(PlaceAfter(at, s[..i]))
  }

  lemma VarsOutsideFrom(at: Place, s: string, k: nat)
    requires k <= |s| && VarsOutside(at, s)
    ensures VarsOutside(PlaceAfter(at, s[..k]), s[k..])
  {
    var rest := s[k..];
    forall i | 0 <= i < |rest| && HasPrefix(rest[i..], OLD_VAR)
      ensures !InClass(PlaceAfter(PlaceAfter(at, s[..k]), rest[..i]))
    {
      assert rest[i..] == s[i + k..];
      assert s[..i + k] == s[..k] + rest[..i];
      ReadOn(at, s[..k], rest[..i]);
    }
  }

  /** Replacing the variables changes neither where a reader ends nor how many groups it has
      met. */
  lemma {:induction false} ReplacingIsNotRead(at: Place, s: string)
    requires VarsOutside(at, s)
    ensures PlaceAfter(at, ReplaceAll(s, OLD_VAR, NEW_VAR)) == PlaceAfter(at, s)
    ensures Captures(at, ReplaceAll(s, OLD_VAR, NEW_VAR)) == Captures(at, s)
    decreases |s|
  {
    if s == "" {
    } else if HasPrefix(s, OLD_VAR) {
      VarPast(at, s);
      ReplacingIsNotRead(Text, s[4..]);
      ReadOn(at, NEW_VAR, ReplaceAll(s[4..], OLD_VAR, NEW_VAR));
    } else {
      LetterPast(at, s);
      ReplacingIsNotRead(Next(at, s[0]), s[1..]);
      ReadFirst(at, s[0], ReplaceAll(s[1..], OLD_VAR, NEW_VAR));
    }
  }

  lemma VarPast(at: Place, s: string)
    requires VarsOutside(at, s) && s != "" && HasPrefix(s, OLD_VAR)
    ensures !InClass(at) && VarsOutside(Text, s[4..])
    ensures PlaceAfter(at, s) == PlaceAfter(Text, s[4..]) && PlaceAfter(at, NEW_VAR) == Text
    ensures Captures(at, s) == Captures(at, NEW_VAR) + Captures(Text, s[4..])
  {
    assert s[0..] == s && s[..0] == "";
    assert !InClass(at);
    assert s == OLD_VAR + s[4..];
    ReadOldVar(at);
    ReadNewVar(at);
    ReadOn(at, OLD_VAR, s[4..]);
    VarsOutsideFrom(at, s, 4);
  }

  lemma LetterPast(at: Place, s: string)
    requires VarsOutside(at, s) && s != ""
    ensures VarsOutside(Next(at, s[0]), s[1..])
  {
    VarsOutsideFrom(at, s, 1);
    assert s[..1] == [s[0]];
    ReadOne(at, s[0]);
  }

  lemma SlashOpensNothing(s: string)
    ensures Groups(s + "/") == Groups(s)
  {
    ReadOn(Text, s, ['/']);
    ReadOne(PlaceAfter(Text, s), '/');
  }

  /** Slashes at the end open and close nothing. */
  lemma {:induction false} TrimmedGroups(s: string)
    ensures Groups(TrimSlashes(s)) == Groups(s)
  {
    if HasSuffix(s, "/") {
      var init := s[..|s| - 1];
      TrimmedGroups(init);
      assert s == init + "/";
      SlashOpensNothing(init);
    }
  }

  /** Trimming before and after replacing are the same: a replacement does not end in a slash. */
  lemma {:induction false} TrimCommutes(s: string)
    ensures TrimSlashes(ReplaceAll(s, OLD_VAR, NEW_VAR)) == ReplaceAll(TrimSlashes(s), OLD_VAR, NEW_VAR)
  {
    var all := ReplaceAll(s, OLD_VAR, NEW_VAR);
    LastLetter(s);
    if HasSuffix(s, "/") {
      var init := s[..|s| - 1];
      TrimCommutes(init);
      assert s == init + "/";
      SlashIsKept(init);
      assert all[..|all| - 1] == ReplaceAll(init, OLD_VAR, NEW_VAR);
    }
  }

  lemma {:induction false} SlashIsKept(s: string)
    ensures ReplaceAll(s + "/", OLD_VAR, NEW_VAR) == ReplaceAll(s, OLD_VAR, NEW_VAR) + "/"
  {
    NoVarEndsInSlash(s);
    if s == "" {
      assert "/"[1..] == "";
    } else if HasPrefix(s, OLD_VAR) {
      assert (s + "/")[4..] == s[4..] + "/";
      SlashIsKept(s[4..]);
    } else {
      assert (s + "/")[1..] == s[1..] + "/";
      SlashIsKept(s[1..]);
    }
  }

  lemma NoVarEndsInSlash(s: string)
    ensures HasPrefix(s + "/", OLD_VAR) <==> HasPrefix(s, OLD_VAR)
  {
    if HasPrefix(s + "/", OLD_VAR) {
      PrefixLetter(s + "/", OLD_VAR, 3);
    }
    if |s| >= 4 {
      assert (s + "/")[..4] == s[..4];
    }
  }

  /** A result ends in a slash exactly when the text does. */
  lemma {:induction false} LastLetter(s: string)
    ensures HasSuffix(ReplaceAll(s, OLD_VAR, NEW_VAR), "/") <==> HasSuffix(s, "/")
    ensures ReplaceAll(s, OLD_VAR, NEW_VAR) == "" <==> s == ""
  {
    if s == "" {
    } else if HasPrefix(s, OLD_VAR) {
      LastLetter(s[4..]);
      assert s == OLD_VAR + s[4..];
      SuffixOfSum(OLD_VAR, s[4..]);
      SuffixOfSum(NEW_VAR, ReplaceAll(s[4..], OLD_VAR, NEW_VAR));
    } else {
      LastLetter(s[1..]);
      assert s == [s[0]] + s[1..];
      SuffixOfSum([s[0]], s[1..]);
      SuffixOfSum([s[0]], ReplaceAll(s[1..], OLD_VAR, NEW_VAR));
    }
  }

  lemma SuffixOfSum(a: string, b: string)
    requires a != ""
    ensures HasSuffix(a + b, "/") <==> if b == "" then a[|a| - 1] == '/' else HasSuffix(b, "/")
  {
    assert (a + b)[|a + b| - 1..] == [(a + b)[|a + b| - 1]];
    if b != "" {
      assert b[|b| - 1..] == [b[|b| - 1]];
    }
  }

  /** A parenthesis here begins a group. */
  predicate Opens(at: Place) {
    at != Escape && !InClass(at)
  }

  lemma ReadTrailHead(at: Place)
    ensures PlaceAfter(at, ['(', '/', '.', '*']) == if InClass(at) then Class else Text
    ensures Captures(at, ['(', '/', '.', '*']) == (if at == Opening then 1 else 0) + if Opens(at) then 1 else 0
  {
    ReadFour(at, '(', '/', '.', '*');
  }

  lemma ReadTrailEnd(at: Place)
    requires at == Text || at == Class
    ensures PlaceAfter(at, [')', '?']) == at && Captures(at, [')', '?']) == 0
  {
    ReadTwo(at, ')', '?');
  }

  lemma ReadTrail(at: Place)
    ensures PlaceAfter(at, TRAIL) != Opening
    ensures Captures(at, TRAIL) == (if at == Opening then 1 else 0) + if Opens(at) then 1 else 0
  {
    var head, end := ['(', '/', '.', '*'], [')', '?'];
    assert TRAIL == head + end;
    ReadTrailHead(at);
    ReadTrailEnd(PlaceAfter(at, head));
    ReadOn(at, head, end);
  }

  /** The trail is a group of its own exactly where a parenthesis begins one. */
  lemma TrailIsGroupIff(body: string)
    ensures Groups(body + TRAIL) == Groups(body) + if Opens(PlaceAfter(Text, body)) then 1 else 0
  {
    ReadOn(Text, body, TRAIL);
    ReadTrail(PlaceAfter(Text, body));
  }

  /** The group appended to the regexp has the number of variables plus one exactly in these
      cases. */
  lemma TrailNumberIff(regexp: string)
    requires Contains(regexp, OLD_VAR) && VarsOutside(Text, regexp)
    ensures var body := TrimSlashes(ReplaceAll(regexp, OLD_VAR, NEW_VAR));
            && NewRegexp(regexp) == body + TRAIL
            && (Groups(NewRegexp(regexp)) == Groups(body) + 1 && Groups(body) == Count(regexp, OLD_VAR) <==>
                Groups(regexp) == Count(regexp, OLD_VAR) && Opens(PlaceAfter(Text, TrimSlashes(regexp))))
  {
    var all, kept := ReplaceAll(regexp, OLD_VAR, NEW_VAR), TrimSlashes(regexp);
    CountIsZeroIff(regexp, OLD_VAR);
    ReplacingIsNotRead(Text, regexp);
    TrimmedGroups(all);
    TrailIsGroupIff(TrimSlashes(all));
    TrimCommutes(regexp);
    OnlySlashesAreTrimmed(regexp);
    VarsOutsidePrefix(regexp, |kept|);
    assert regexp[..|kept|] == kept;
    ReplacingIsNotRead(Text, kept);
  }

  /** The reference appended to the rewrite is the number of the group appended to the
      regexp if and only if the regexp has as many capturing groups as old variables, and
      does not end, its slashes gone, where a parenthesis is a literal: behind a backslash. */
  lemma AppendedReferenceNamesTrail(regexp: string, rewrite: string)
    requires Contains(regexp, "(.*)") && VarsOutside(Text, regexp) && rewrite != ""
    ensures var body := TrimSlashes(ReplaceAll(regexp, "(.*)", "([^/]+)"));
            && NewRegexp(regexp) == body + "(/.*)?"
            && (&& Groups(NewRegexp(regexp)) == Groups(body) + 1
                && NewRewrite(regexp, rewrite) == TrimSlashes(rewrite) + "\\" + Decimal(Groups(NewRegexp(regexp)))
                <==>
                && Groups(regexp) == Count(regexp, "(.*)")
                && Opens(PlaceAfter(Text, TrimSlashes(regexp))))
  {
    var front, number := TrimSlashes(rewrite) + "\\", Groups(NewRegexp(regexp));
    CountIsZeroIff(regexp, OLD_VAR);
    TrailNumberIff(regexp);
    assert NewRewrite(regexp, rewrite) == front + Decimal(Count(regexp, OLD_VAR) + 1);
    FrontCancels(front, Decimal(Count(regexp, OLD_VAR) + 1), Decimal(number));
    DecimalsDiffer(Count(regexp, OLD_VAR) + 1, number);
  }

  lemma FrontCancels(front: string, a: string, b: string)
    ensures front + a == front + b <==> a == b
  {
    assert (front + a)[|front|..] == a && (front + b)[|front|..] == b;
  }

  /** Without a variable a route stays as it is. With some, the new ones stand where the old
      ones stood, and the trail follows the slashes that are cut off. */
  lemma RewrittenRegexp(regexp: string, rewrite: string)
    ensures !Contains(regexp, "(.*)") ==> NewRegexp(regexp) == regexp && NewRewrite(regexp, rewrite) == rewrite
    ensures Contains(regexp, "(.*)") ==>
              && NewRegexp(regexp) == TrimSlashes(Joined(Pieces(regexp, "(.*)"), "([^/]+)")) + "(/.*)?"
              && NewRewrite(regexp, "") == ""
  {
    CountIsZeroIff(regexp, OLD_VAR);
    PiecesReplace(regexp, OLD_VAR, NEW_VAR);
  }

  /** All slashes at the end are cut off, and nothing else. */
  lemma {:induction false} OnlySlashesAreTrimmed(s: string)
    ensures TrimSlashes(s) <= s && forall i :: |TrimSlashes(s)| <= i < |s| ==> s[i] == '/'
    ensures TrimSlashes(s) != "" ==> TrimSlashes(s)[|TrimSlashes(s)| - 1] != '/'
  {
    if s != "" {
      assert s[|s| - 1..] == [s[|s| - 1]];
    }
    if HasSuffix(s, "/") {
      OnlySlashesAreTrimmed(s[..|s| - 1]);
      assert s == s[..|s| - 1] + "/";
    }
  }

  lemma VarsOutsidePrefix(s: string, k: nat)
    requires k <= |s| && VarsOutside(Text, s)
    ensures VarsOutside(Text, s[..k])
  {
    forall i | 0 <= i < k && HasPrefix(s[..k][i..], OLD_VAR)
      ensures !InClass(PlaceAfter(Text, s[..k][..i]))
    {
      assert s[..k][i..] == s[i..k];
      assert s[i..][..4] == s[i..k][..4];
      assert s[..k][..i] == s[..i];
    }
  }

  // ---------------------------------------------------------------- duplicates

  /** A route as the search for duplicates sees it. */
  datatype Keyed = Keyed(id: int, host: int, key: string)

  predicate Same(a: Keyed, b: Keyed) {
    a.host == b.host && a.key == b.key
  }

  /** The first route of its class in the list. */
  predicate First(s: seq<Keyed>, r: Keyed) {
    s != [] && (First(s[..|s| - 1], r) || (s[|s| - 1] == r && forall a :: a in s[..|s| - 1] ==> !Same(a, r)))
  }

  predicate DistinctIds(s: seq<Keyed>) {
    forall i, j :: 0 <= i < j < |s| ==> s[i].id != s[j].id
  }

  /** The routes of one host, order kept. */
  function OfHost(s: seq<Keyed>, host: int): seq<Keyed> {
    if s == [] then []
    else OfHost(s[..|s| - 1], host) + if s[|s| - 1].host == host then [s[|s| - 1]] else []
  }

  lemma {:induction false} OfHostIsPart(s: seq<Keyed>, host: int)
    ensures forall r :: r in OfHost(s, host) <==> r in s && r.host == host
    ensures DistinctIds(s) ==> DistinctIds(OfHost(s, host))
  {
    if s != [] {
      var init, last := s[..|s| - 1], s[|s| - 1];
      OfHostIsPart(init, host);
      assert s == init + [last];
      if DistinctIds(s) {
        assert DistinctIds(init);
        forall r | r in init
          ensures r.id != last.id
        {
        }
      }
    }
  }

  lemma FirstSnoc(s: seq<Keyed>, x: Keyed, r: Keyed)
    ensures First(s + [x], r) <==> First(s, r) || (x == r && forall a :: a in s ==> !Same(a, r))
  {
    assert (s + [x])[..|s|] == s;
  }

  /** A host's first routes are the first routes of that host. */
  lemma {:induction false} FirstOfHost(s: seq<Keyed>, host: int, r: Keyed)
    ensures First(OfHost(s, host), r) <==> First(s, r) && r.host == host
  {
    if s != [] {
      var init, last := s[..|s| - 1], s[|s| - 1];
      assert s == init + [last];
      FirstOfHost(init, host, r);
      FirstSnoc(init, last, r);
      if last.host == host {
        OfHostIsPart(init, host);
        FirstSnoc(OfHost(init, host), last, r);
      } else {
        assert OfHost(s, host) == OfHost(init, host);
      }
    }
  }

  /** First by position: with distinct ids the route at i is first exactly when nothing of
      its class stands before it. */
  lemma {:induction false} FirstAt(s: seq<Keyed>, i: nat)
    requires i < |s| && DistinctIds(s)
    ensures First(s, s[i]) <==> forall j :: 0 <= j < i ==> !Same(s[j], s[i])
    ensures exists j :: 0 <= j <= i && Same(s[j], s[i]) && First(s, s[j])
    decreases i
  {
    FirstIsAt(s, s[i]);
    assert StandsFirst(s, s[i], i) <==> forall j :: 0 <= j < i ==> !Same(s[j], s[i]);
    if First(s, s[i]) {
      assert Same(s[i], s[i]);
    } else {
      var j :| 0 <= j < i && Same(s[j], s[i]);
      FirstAt(s, j);
      var k :| 0 <= k <= j && Same(s[k], s[j]) && First(s, s[k]);
      assert Same(s[k], s[i]);
    }
  }

  /** The route stands here and nothing of its class before it. */
  ghost predicate StandsFirst(s: seq<Keyed>, r: Keyed, i: nat) {
    i < |s| && s[i] == r && forall j :: 0 <= j < i ==> !Same(s[j], r)
  }

  lemma {:induction false} FirstIsAt(s: seq<Keyed>, r: Keyed)
    ensures First(s, r) <==> exists i: nat :: StandsFirst(s, r, i)
  {
    if s != [] {
      var n := |s| - 1;
      FirstIsAt(s[..n], r);
      forall i: nat | i < n
        ensures StandsFirst(s, r, i) <==> StandsFirst(s[..n], r, i)
      {
      }
      assert StandsFirst(s, r, n) <==> s[n] == r && forall a :: a in s[..n] ==> !Same(a, r);
    }
  }

  /** Marked by u: another route under u's key. */
  predicate Shadows(u: Keyed, r: Keyed) {
    u.id != r.id && u.key == r.key
  }

  /** Two routes of one class are not both first. */
  lemma OneFirstPerClass(s: seq<Keyed>, i: nat, j: nat)
    requires DistinctIds(s) && i < j < |s| && Same(s[i], s[j])
    ensures !First(s, s[j])
  {
    FirstAt(s, j);
  }

  lemma FirstsDiffer(s: seq<Keyed>, a: Keyed, b: Keyed)
    requires DistinctIds(s) && a in s && b in s && a != b && Same(a, b)
    ensures !First(s, a) || !First(s, b)
  {
    var i :| 0 <= i < |s| && s[i] == a;
    var j :| 0 <= j < |s| && s[j] == b;
    if i < j {
      OneFirstPerClass(s, i, j);
    } else {
      OneFirstPerClass(s, j, i);
    }
  }

  /** The firsts among the first n routes. */
  ghost predicate FirstsOf(s: seq<Keyed>, n: nat, firsts: seq<Keyed>)
    requires n <= |s|
  {
    && (forall r :: r in firsts ==> r in s[..n])
    && (forall j :: 0 <= j < n ==> (s[j] in firsts <==> First(s, s[j])))
  }

  /** A route not after them is shadowed by one of them exactly when it is not a first itself. */
  lemma ShadowedIffNotFirst(s: seq<Keyed>, host: int, n: nat, firsts: seq<Keyed>, i: nat)
    requires DistinctIds(s) && forall r :: r in s ==> r.host == host
    requires i <= n <= |s| && i < |s| && FirstsOf(s, n, firsts)
    ensures (exists u :: u in firsts && Shadows(u, s[i])) <==> !First(s, s[i])
  {
    if u :| u in firsts && Shadows(u, s[i]) {
      assert u in s[..n];
      assert s[i] in s;
      FirstsDiffer(s, u, s[i]);
    }
    if !First(s, s[i]) {
      FirstAt(s, i);
      var j :| 0 <= j <= i && Same(s[j], s[i]) && First(s, s[j]);
      assert j != i;
      assert s[j] in firsts && Shadows(s[j], s[i]);
    }
  }

  /** The inner loop: all other routes under the key. */
  method Others(route: Keyed, routes: seq<Keyed>) returns (others: seq<Keyed>)
    requires DistinctIds(routes)
    ensures Distinct(others) && forall r :: r in others <==> r in routes && Shadows(route, r)
  {
    others := [];
    for i := 0 to |routes|
      invariant Distinct(others) && forall r :: r in others <==> r in routes[..i] && Shadows(route, r)
    {
      PrefixSnoc(routes, i);
      assert forall r :: r in routes[..i] ==> r != routes[i];
      if Shadows(route, routes[i]) {
        others := others + [routes[i]];
      }
    }
    assert routes[..|routes|] == routes;
  }

  method Marked(route: Keyed, duplicates: seq<Keyed>) returns (marked: bool)
    ensures marked <==> exists d :: d in duplicates && d.id == route.id
  {
    for i := 0 to |duplicates|
      invariant forall j :: 0 <= j < i ==> duplicates[j].id != route.id
    {
      if route.id == duplicates[i].id {
        return true;
      }
    }
    marked := false;
  }

  /** The map holds the routes of every host that has any. */
  ghost predicate Grouped(byHost: map<int, seq<Keyed>>, routes: seq<Keyed>) {
    forall h: int :: OfHost(routes, h) == if h in byHost then byHost[h] else []
  }

  lemma GroupedAfter(byHost: map<int, seq<Keyed>>, routes: seq<Keyed>, route: Keyed)
    requires Grouped(byHost, routes)
    ensures var h := route.host;
            Grouped(byHost[h := (if h in byHost then byHost[h] else []) + [route]], routes + [route])
  {
    assert (routes + [route])[..|routes|] == routes;
  }

  method GroupByHost(routes: seq<Keyed>) returns (byHost: map<int, seq<Keyed>>)
    ensures Grouped(byHost, routes)
    ensures forall r :: r in routes ==> r.host in byHost
  {
    byHost := map[];
    for i := 0 to |routes|
      invariant Grouped(byHost, routes[..i])
    {
      var route := routes[i];
      PrefixSnoc(routes, i);
      GroupedAfter(byHost, routes[..i], route);
      byHost := byHost[route.host := (if route.host in byHost then byHost[route.host] else []) + [route]];
    }
    assert routes[..|routes|] == routes;
    forall r | r in routes
      ensures r.host in byHost
    {
      OfHostIsPart(routes, r.host);
      assert r in OfHost(routes, r.host);
    }
  }

  /** The routes of one host: the first of each class, and all others. */
  method FindInHost(routes: seq<Keyed>, ghost host: int) returns (unique: seq<Keyed>, duplicates: seq<Keyed>)
    requires DistinctIds(routes) && forall r :: r in routes ==> r.host == host
    ensures Distinct(unique) && forall r :: r in unique <==> First(routes, r)
    ensures Distinct(duplicates) && forall r :: r in duplicates <==> r in routes && !First(routes, r)
  {
    unique, duplicates := [], [];
    for i := 0 to |routes|
      invariant Distinct(unique) && FirstsOf(routes, i, unique)
      invariant Distinct(duplicates)
      invariant forall r :: r in duplicates <==> r in routes && exists u :: u in unique && Shadows(u, r)
    {
      var route := routes[i];
      PrefixSnoc(routes, i);
      var alreadyMarkedAsDuplicate := Marked(route, duplicates);
      assert alreadyMarkedAsDuplicate <==> route in duplicates by {
        assert forall d :: d in duplicates ==> d in routes;
      }
      ShadowedIffNotFirst(routes, host, i, unique, i);
      if !alreadyMarkedAsDuplicate {
        var others := Others(route, routes);
        forall r | r in duplicates
          ensures r !in others
        {
          var u :| u in unique && Shadows(u, r);
          assert u.id != route.id && !Shadows(u, route);
        }
        DistinctSum(duplicates, others);
        assert route !in unique;
        DistinctSum(unique, [route]);
        unique, duplicates := unique + [route], duplicates + others;
      }
    }
    assert routes[..|routes|] == routes;
    forall r
      ensures First(routes, r) ==> r in routes
    {
      FirstIsIn(routes, r);
    }
    forall r | r in routes
      ensures r in duplicates <==> !First(routes, r)
    {
      var i :| 0 <= i < |routes| && routes[i] == r;
      ShadowedIffNotFirst(routes, host, |routes|, unique, i);
    }
  }

  /** Whatever order the map of hosts is visited in: the two lists together are the routes
      given, no two unique routes share host and key, and every duplicate has an earlier
      unique route of its class. */
  method FindRouteDuplicates(routes: seq<Keyed>) returns (unique: seq<Keyed>, duplicates: seq<Keyed>)
    requires DistinctIds(routes)
    ensures multiset(unique + duplicates) == multiset(routes)
    ensures forall i, j :: 0 <= i < j < |unique| ==> !Same(unique[i], unique[j])
    ensures forall i :: 0 <= i < |routes| && routes[i] in duplicates ==>
                          exists j :: 0 <= j < i && routes[j] in unique && Same(routes[j], routes[i])
  {
    var byHost := GroupByHost(routes);
    unique, duplicates := [], [];
    var pending := byHost.Keys;
    while pending != {}
      invariant pending <= byHost.Keys
      invariant Distinct(unique)
      invariant forall r :: r in unique <==> Visited(routes, byHost.Keys - pending, r) && First(routes, r)
      invariant Distinct(duplicates)
      invariant forall r :: r in duplicates <==> Visited(routes, byHost.Keys - pending, r) && !First(routes, r)
      decreases |pending|
    {
      var host := AnyOf(pending);
      OfHostIsPart(routes, host);
      var uniqueInHost, duplicatesInHost := FindInHost(byHost[host], host);
      forall r
        ensures r in uniqueInHost <==> r in routes && r.host == host && First(routes, r)
        ensures r in duplicatesInHost <==> r in routes && r.host == host && !First(routes, r)
      {
        FirstOfHost(routes, host, r);
        FirstIsIn(routes, r);
      }
      DistinctSum(unique, uniqueInHost);
      DistinctSum(duplicates, duplicatesInHost);
      unique, duplicates := unique + uniqueInHost, duplicates + duplicatesInHost;
      pending := pending - {host};
    }
    Partitioned(routes, unique, duplicates);
  }

  predicate Visited(routes: seq<Keyed>, hosts: set<int>, r: Keyed) {
    r in routes && r.host in hosts
  }

  lemma {:induction false} FirstIsIn(s: seq<Keyed>, r: Keyed)
    ensures First(s, r) ==> r in s
  {
    if s != [] {
      FirstIsIn(s[..|s| - 1], r);
    }
  }

  /** What it means that one list holds the firsts and the other all the rest. */
  lemma Partitioned(routes: seq<Keyed>, unique: seq<Keyed>, duplicates: seq<Keyed>)
    requires DistinctIds(routes) && Distinct(unique) && Distinct(duplicates)
    requires forall r :: r in unique <==> r in routes && First(routes, r)
    requires forall r :: r in duplicates <==> r in routes && !First(routes, r)
    ensures multiset(unique + duplicates) == multiset(routes)
    ensures forall i, j :: 0 <= i < j < |unique| ==> !Same(unique[i], unique[j])
    ensures forall i :: 0 <= i < |routes| && routes[i] in duplicates ==>
                          exists j :: 0 <= j < i && routes[j] in unique && Same(routes[j], routes[i])
  {
    DistinctSum(unique, duplicates);
    assert Distinct(routes);
    SameMembersPermute(unique + duplicates, routes);
    forall i, j | 0 <= i < j < |unique|
      ensures !Same(unique[i], unique[j])
    {
      if Same(unique[i], unique[j]) {
        FirstsDiffer(routes, unique[i], unique[j]);
      }
    }
    forall i | 0 <= i < |routes| && routes[i] in duplicates
      ensures exists j :: 0 <= j < i && routes[j] in unique && Same(routes[j], routes[i])
    {
      FirstAt(routes, i);
    }
  }
}
