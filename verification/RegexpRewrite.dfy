/** Migration 21: wildcards in regexp rewrites become group references
    (`constancy/migration/00000000000021_route_regexp_rewrite_fix.go`). */
module RegexpRewrite {
  import opened Common
  import opened Strings
  import opened RouteRegex

  function Ref(k: nat): string {
    "\\" + Decimal(k)
  }

  /** The first m wildcards replaced by references from k on. */
  function Renumbered(s: string, k: nat, m: nat): string {
    if s == "" || m == 0 then s
    else if HasPrefix(s, WILDCARD) then Ref(k) + Renumbered(s[2..], k + 1, m - 1)
    else [s[0]] + Renumbered(s[1..], k, m)
  }

  /** The migration's result: every wildcard replaced, two letters cut off, one more
      reference appended. Its caller passes only texts with a wildcard, which have two. */
  function Fixed(s: string): string
    requires |s| >= 2
  {
    var all := Renumbered(s, 1, Count(s, WILDCARD));
    RenumberedIsNotShort(s, 1, Count(s, WILDCARD));
    all[..|all| - 2] + Ref(Count(s, WILDCARD) + 1)
  }

  /** The loop replaces the first wildcard that is left, again and again. */
  method FixRouteRegexRewrite(s: string) returns (fixed: string)
    requires |s| >= 2
    ensures fixed == Fixed(s)
  {
    var rewrite, brokenRegexpNum := s, Count(s, WILDCARD);
    for orderNum := 1 to brokenRegexpNum + 1
      invariant rewrite == Renumbered(s, 1, orderNum - 1)
    {
      ReplaceNext(s, 1, orderNum - 1);
      rewrite := ReplaceFirst(rewrite, WILDCARD, Ref(orderNum));
    }
    RenumberedIsNotShort(s, 1, brokenRegexpNum);
    fixed := rewrite[..|rewrite| - 2] + Ref(brokenRegexpNum + 1);
  }

  /** No wildcard starts in a reference. */
  lemma RefHoldsNoStart(k: nat, w: string)
    ensures NoStart(Ref(k), w, WILDCARD)
  {
    DecimalIsRead(k);
    forall j | 0 <= j < |Ref(k)|
      ensures !HasPrefix((Ref(k) + w)[j..], WILDCARD)
    {
      if HasPrefix((Ref(k) + w)[j..], WILDCARD) {
        PrefixLetter((Ref(k) + w)[j..], WILDCARD, 0);
        assert false;
      }
    }
  }

  lemma RefIsNotShort(k: nat)
    ensures |Ref(k)| >= 2
  {
    DecimalIsRead(k);
  }

  lemma {:induction false} RenumberedIsNotShort(s: string, k: nat, m: nat)
    ensures |Renumbered(s, k, m)| >= |s|
  {
    if s != "" && m > 0 {
      if HasPrefix(s, WILDCARD) {
        RefIsNotShort(k);
        RenumberedIsNotShort(s[2..], k + 1, m - 1);
      } else {
        RenumberedIsNotShort(s[1..], k, m);
      }
    }
  }

  /** So every text that the migration passes has the two letters it cuts off. */
  lemma {:induction false} WildcardTakesTwo(s: string)
    requires Contains(s, WILDCARD)
    ensures |s| >= 2
  {
    if !HasPrefix(s, WILDCARD) {
      WildcardTakesTwo(s[1..]);
    }
  }

  /** A letter that was not the start of a wildcard is not one after renumbering either. */
  lemma NoNewStart(s: string, k: nat, m: nat)
    requires s != "" && !HasPrefix(s, WILDCARD)
    ensures !HasPrefix([s[0]] + Renumbered(s[1..], k, m), WILDCARD)
  {
    var rest := Renumbered(s[1..], k, m);
    WildcardInFront(s);
    WildcardInFront([s[0]] + rest);
    assert ([s[0]] + rest)[1..] == rest;
    StarWasThere(s[1..], k, m);
  }

  lemma StarWasThere(s: string, k: nat, m: nat)
    ensures HasPrefix(Renumbered(s, k, m), "*") ==> HasPrefix(s, "*")
  {
    var all := Renumbered(s, k, m);
    if HasPrefix(all, "*") {
      PrefixLetter(all, "*", 0);
      assert s[..1] == "*";
    }
  }

  /** One turn of the loop. */
  lemma {:induction false} ReplaceNext(s: string, k: nat, m: nat)
    requires m < Count(s, WILDCARD)
    ensures ReplaceFirst(Renumbered(s, k, m), WILDCARD, Ref(k + m)) == Renumbered(s, k, m + 1)
  {
    if HasPrefix(s, WILDCARD) {
      if m > 0 {
        calc {
          ReplaceFirst(Renumbered(s, k, m), WILDCARD, Ref(k + m));
          { ReplacePastRef(s, k, m, Ref(k + m)); }
          Ref(k) + ReplaceFirst(Renumbered(s[2..], k + 1, m - 1), WILDCARD, Ref(k + m));
          { ReplaceNext(s[2..], k + 1, m - 1); }
          Ref(k) + Renumbered(s[2..], k + 1, m);
          Renumbered(s, k, m + 1);
        }
      } else {
        assert Renumbered(s[2..], k + 1, 0) == s[2..];
      }
    } else {
      calc {
        ReplaceFirst(Renumbered(s, k, m), WILDCARD, Ref(k + m));
        { ReplacePastLetter(s, k, m, Ref(k + m)); }
        [s[0]] + ReplaceFirst(Renumbered(s[1..], k, m), WILDCARD, Ref(k + m));
        { ReplaceNext(s[1..], k, m); }
        [s[0]] + Renumbered(s[1..], k, m + 1);
        { RenumberedPastLetter(s, k, m + 1); }
        Renumbered(s, k, m + 1);
      }
    }
  }

  lemma ReplacePastRef(s: string, k: nat, m: nat, rep: string)
    requires m > 0 && HasPrefix(s, WILDCARD)
    ensures ReplaceFirst(Renumbered(s, k, m), WILDCARD, rep)
            == Ref(k) + ReplaceFirst(Renumbered(s[2..], k + 1, m - 1), WILDCARD, rep)
  {
    var w := Renumbered(s[2..], k + 1, m - 1);
    RefHoldsNoStart(k, w);
    ReplaceFirstSkips(Ref(k), w, WILDCARD, rep);
  }

  lemma ReplacePastLetter(s: string, k: nat, m: nat, rep: string)
    requires s != "" && !HasPrefix(s, WILDCARD)
    ensures ReplaceFirst(Renumbered(s, k, m), WILDCARD, rep)
            == [s[0]] + ReplaceFirst(Renumbered(s[1..], k, m), WILDCARD, rep)
  {
    var w := Renumbered(s[1..], k, m);
    NoNewStart(s, k, m);
    RenumberedPastLetter(s, k, m);
    ReplaceFirstSkipsOne([s[0]] + w, WILDCARD, rep);
    assert ([s[0]] + w)[1..] == w;
  }

  lemma RenumberedPastLetter(s: string, k: nat, m: nat)
    requires s != "" && !HasPrefix(s, WILDCARD)
    ensures Renumbered(s, k, m) == [s[0]] + Renumbered(s[1..], k, m)
  {
    assert s == [s[0]] + s[1..];
  }

  // ---------------------------------------------------------------- pieces

  /** The pieces joined by references from k on. */
  function Numbered(ps: seq<string>, k: nat): string
    requires |ps| > 0
  {
    if |ps| == 1 then ps[0] else ps[0] + ("\\" + Decimal(k)) + Numbered(ps[1..], k + 1)
  }

  /** Renumbering joins them anew. */
  lemma {:induction false} PiecesNumber(s: string, k: nat)
    ensures Renumbered(s, k, Count(s, WILDCARD)) == Numbered(Pieces(s, WILDCARD), k)
  {
    if s == "" {
    } else if HasPrefix(s, WILDCARD) {
      PiecesNumber(s[2..], k + 1);
      assert Pieces(s, WILDCARD)[1..] == Pieces(s[2..], WILDCARD);
    } else {
      PiecesNumber(s[1..], k);
      RenumberedPastLetter(s, k, Count(s, WILDCARD));
      LetterInFront(s[0], Pieces(s[1..], WILDCARD), k);
    }
  }

  lemma LetterInFront(c: char, ps: seq<string>, k: nat)
    requires |ps| > 0
    ensures Numbered([[c] + ps[0]] + ps[1..], k) == [c] + Numbered(ps, k)
  {
    var qs := [[c] + ps[0]] + ps[1..];
    assert qs[1..] == ps[1..];
    if |ps| > 1 {
      LetterMoves(c, ps[0], Ref(k), Numbered(ps[1..], k + 1));
    }
  }

  lemma {:induction false} NumberedSnoc(ps: seq<string>, last: string, k: nat)
    requires |ps| > 0
    ensures Numbered(ps + [last], k) == Numbered(ps, k) + Ref(k + |ps| - 1) + last
  {
    assert (ps + [last])[1..] == ps[1..] + [last];
    if |ps| > 1 {
      NumberedSnoc(ps[1..], last, k + 1);
    }
  }

  /** A wildcard appears nowhere in a renumbered text. */
  lemma {:induction false} RenumberedHoldsNone(s: string, k: nat)
    ensures !Contains(Renumbered(s, k, Count(s, WILDCARD)), WILDCARD)
  {
    if s == "" {
    } else if HasPrefix(s, WILDCARD) {
      var w := Renumbered(s[2..], k + 1, Count(s[2..], WILDCARD));
      RenumberedHoldsNone(s[2..], k + 1);
      RefHoldsNoStart(k, w);
      SkipLetters(Ref(k), w, WILDCARD);
    } else {
      var w := Renumbered(s[1..], k, Count(s[1..], WILDCARD));
      RenumberedHoldsNone(s[1..], k);
      RenumberedPastLetter(s, k, Count(s, WILDCARD));
      NoNewStart(s, k, Count(s[1..], WILDCARD));
      assert ([s[0]] + w)[1..] == w;
    }
  }

  /** No wildcard is left, so that a second pass would not touch the rewrite. */
  lemma FixedHoldsNone(s: string)
    requires |s| >= 2
    ensures !Contains(Fixed(s), WILDCARD)
  {
    var n := Count(s, WILDCARD);
    var all := Renumbered(s, 1, n);
    RenumberedIsNotShort(s, 1, n);
    RenumberedHoldsNone(s, 1);
    var cut, rest := all[..|all| - 2], all[|all| - 2..];
    assert cut + rest == all;
    if Contains(cut, WILDCARD) {
      PrefixContains(cut, rest, WILDCARD);
    }
    RefHoldsNoStart(n + 1, "");
    SkipLetters(Ref(n + 1), "", WILDCARD);
    assert Ref(n + 1) + "" == Ref(n + 1);
    AppendContains(cut, Ref(n + 1), WILDCARD);
  }

  /** The text up to and with the reference that replaces the last wildcard. */
  function Body(ps: seq<string>): string
    requires |ps| > 1
  {
    Numbered(ps[..|ps| - 1], 1) + Ref(|ps| - 1)
  }

  lemma NumberedIsBodyAndLast(ps: seq<string>)
    requires |ps| > 1
    ensures Numbered(ps, 1) == Body(ps) + ps[|ps| - 1]
  {
    var n := |ps| - 1;
    assert ps == ps[..n] + [ps[n]];
    NumberedSnoc(ps[..n], ps[n], 1);
  }

  lemma FixedIs(s: string)
    requires |s| >= 2 && Contains(s, WILDCARD)
    ensures var ps := Pieces(s, WILDCARD);
            && |ps| > 1
            && var all := Body(ps) + ps[|ps| - 1];
               |all| >= 2 && Fixed(s) == all[..|all| - 2] + Ref(|ps|)
  {
    CountIsZeroIff(s, WILDCARD);
    PiecesJoin(s, WILDCARD);
    PiecesNumber(s, 1);
    NumberedIsBodyAndLast(Pieces(s, WILDCARD));
    RenumberedIsNotShort(s, 1, Count(s, WILDCARD));
  }

  lemma CutAfter(body: string, last: string, more: string)
    requires |last| >= 2
    ensures var all := body + last;
            && all[..|all| - 2] + more == body + last[..|last| - 2] + more
            && body <= all[..|all| - 2] + more
  {
    assert (body + last)[..|body + last| - 2] == body + last[..|last| - 2];
  }

  /** The references that replace the wildcards survive the cut exactly when two letters
      follow the last wildcard; then these two are what the last reference replaces. */
  lemma ReferencesSurviveIff(s: string)
    requires |s| >= 2 && Contains(s, WILDCARD)
    ensures |Pieces(s, WILDCARD)| > 1
    ensures var ps := Pieces(s, WILDCARD);
            var last := ps[|ps| - 1];
            && (Body(ps) <= Fixed(s) <==> |last| >= 2)
            && (|last| >= 2 ==> Fixed(s) == Body(ps) + last[..|last| - 2] + Ref(|ps|))
  {
    FixedIs(s);
    var ps := Pieces(s, WILDCARD);
    var last := ps[|ps| - 1];
    if |last| >= 2 {
      CutAfter(Body(ps), last, Ref(|ps|));
    } else {
      CutReference(Numbered(ps[..|ps| - 1], 1), |ps| - 1, last);
    }
  }

  /** The letters at the end of a reference. */
  lemma ReferenceEnds(front: string, n: nat)
    ensures var body := front + Ref(n);
            && |body| >= 2 && body[|body| - 1] != '\\'
            && (n >= 10 ==> body[|body| - 2] != '\\')
            && (n < 10 ==> body[|body| - 1] == DigitChar(n))
  {
    DecimalIsRead(n);
    var body, d := front + Ref(n), Decimal(n);
    assert body[|body| - 1] == d[|d| - 1];
    if n >= 10 {
      assert body[|body| - 2] == d[|d| - 2];
    }
  }

  lemma NextStartsAnew(n: nat)
    requires n < 10
    ensures Decimal(n + 1) != "" && Decimal(n + 1)[0] != DigitChar(n)
  {
    if n == 9 {
      assert Decimal(10) == Decimal(1) + [DigitChar(0)];
    }
  }

  /** Cutting into a reference and appending the next one never restores it. */
  lemma CutReference(front: string, n: nat, last: string)
    requires |last| < 2
    ensures var all := front + Ref(n) + last;
            |all| >= 2 && !(front + Ref(n) <= all[..|all| - 2] + Ref(n + 1))
  {
    var body := front + Ref(n);
    var all := body + last;
    ReferenceEnds(front, n);
    DecimalIsRead(n + 1);
    var result := all[..|all| - 2] + Ref(n + 1);
    var cut: nat, end: nat := |all| - 2, |body| - 1;
    assert result[|all| - 2] == '\\' && result[|all| - 1] == Decimal(n + 1)[0];
    if n < 10 {
      NextStartsAnew(n);
    }
    if body <= result {
      SameLetter(body, result, cut);
      if |last| == 0 {
        SameLetter(body, result, end);
      }
      assert false;
    }
  }

  lemma SameLetter(a: string, b: string, i: nat)
    requires a <= b && i < |a|
    ensures a[i] == b[i]
  {
  }

  /** The broken form the migration is written for: a rewrite that ends in \1. */
  lemma {:induction false} BrokenFormHasReference(s: string)
    requires |s| >= 2 && s[|s| - 2] == '\\' && s[|s| - 1] == '1'
    ensures var last := Pieces(s, WILDCARD)[|Pieces(s, WILDCARD)| - 1];
            |last| >= 2 && last[|last| - 2] == '\\' && last[|last| - 1] == '1'
  {
    if HasPrefix(s, WILDCARD) {
      PrefixLetter(s, WILDCARD, 0);
      PrefixLetter(s, WILDCARD, 1);
      BrokenFormHasReference(s[2..]);
    } else if |s| > 2 {
      BrokenFormHasReference(s[1..]);
      var ps := Pieces(s[1..], WILDCARD);
      assert Pieces(s, WILDCARD)[|ps| - 1] == if |ps| == 1 then [s[0]] + ps[0] else ps[|ps| - 1];
    } else {
      assert s[1..] == "1" && "1"[1..] == "";
      assert !HasPrefix("1", WILDCARD);
      assert Pieces("1", WILDCARD) == [['1'] + ""];
    }
  }

  lemma EndsInOne(s: string)
    ensures HasSuffix(s, "\\1") <==> |s| >= 2 && s[|s| - 2] == '\\' && s[|s| - 1] == '1'
  {
    if |s| >= 2 {
      var end := s[|s| - 2..];
      assert end[0] == s[|s| - 2] && end[1] == s[|s| - 1];
      if s[|s| - 2] == '\\' && s[|s| - 1] == '1' {
        assert end == "\\1";
      }
    }
  }

  /** On such a rewrite: the same pieces, joined by the references 1 to n in order, and the
      old reference at the end replaced by n+1. */
  lemma BrokenFormIsRepaired(s: string)
    requires |s| >= 2 && Contains(s, WILDCARD) && HasSuffix(s, "\\1")
    ensures var ps := Pieces(s, WILDCARD);
            var n := |ps| - 1;
            && Joined(ps, WILDCARD) == s && n == Count(s, WILDCARD) && HasSuffix(ps[n], "\\1")
            && Fixed(s) == Numbered(ps[..n] + [TrimSuffix(ps[n], "\\1")], 1) + "\\" + Decimal(n + 1)
  {
    var ps := Pieces(s, WILDCARD);
    PiecesJoin(s, WILDCARD);
    EndsInOne(s);
    BrokenFormHasReference(s);
    EndsInOne(ps[|ps| - 1]);
    ReferencesSurviveIff(s);
    NumberedSnoc(ps[..|ps| - 1], TrimSuffix(ps[|ps| - 1], "\\1"), 1);
  }
}
