/** The functions of Go's `strings` package that the route migrations use. Patterns are not
    empty; occurrences are taken from the left and do not overlap. */
module Strings {

  predicate HasPrefix(s: string, pat: string) {
    |pat| <= |s| && s[..|pat|] == pat
  }

  predicate HasSuffix(s: string, suffix: string) {
    |suffix| <= |s| && s[|s| - |suffix|..] == suffix
  }

  function TrimSuffix(s: string, suffix: string): string {
    if HasSuffix(s, suffix) then s[..|s| - |suffix|] else s
  }

  predicate Contains(s: string, pat: string) {
    HasPrefix(s, pat) || (s != "" && Contains(s[1..], pat))
  }

  function Count(s: string, pat: string): nat
    requires pat != ""
  {
    if s == "" then 0
    else if HasPrefix(s, pat) then 1 + Count(s[|pat|..], pat)
    else Count(s[1..], pat)
  }

  function ReplaceAll(s: string, pat: string, rep: string): string
    requires pat != ""
  {
    if s == "" then ""
    else if HasPrefix(s, pat) then rep + ReplaceAll(s[|pat|..], pat, rep)
    else [s[0]] + ReplaceAll(s[1..], pat, rep)
  }

  /** `strings.Replace` with a limit of one. */
  function ReplaceFirst(s: string, pat: string, rep: string): string
    requires pat != ""
  {
    if s == "" then ""
    else if HasPrefix(s, pat) then rep + s[|pat|..]
    else [s[0]] + ReplaceFirst(s[1..], pat, rep)
  }

  lemma PrefixLetter(s: string, pat: string, i: nat)
    requires HasPrefix(s, pat) && i < |pat|
    ensures s[i] == pat[i]
  {
    assert s[..|pat|][i] == s[i];
  }

  lemma TailLetter(s: string, pat: string, i: nat)
    requires HasPrefix(s, pat) && 0 < i < |pat|
    ensures s[i] in pat[1..]
  {
    PrefixLetter(s, pat, i);
    assert pat[1..][i - 1] == pat[i];
  }

  lemma {:induction false} CountIsZeroIff(s: string, pat: string)
    requires pat != ""
    ensures Count(s, pat) == 0 <==> !Contains(s, pat)
  {
    if s != "" && !HasPrefix(s, pat) {
      CountIsZeroIff(s[1..], pat);
    }
  }

  /** Nothing to replace, nothing replaced. */
  lemma {:induction false} ReplaceAllOfNone(s: string, pat: string, rep: string)
    requires pat != "" && !Contains(s, pat)
    ensures ReplaceAll(s, pat, rep) == s
  {
    if s != "" {
      ReplaceAllOfNone(s[1..], pat, rep);
      assert s == [s[0]] + s[1..];
    }
  }

  // ---------------------------------------------------------------- pieces

  /** The text between the occurrences of a pattern. */
  function Pieces(s: string, pat: string): (ps: seq<string>)
    requires pat != ""
    ensures |ps| > 0
  {
    if s == "" then [""]
    else if HasPrefix(s, pat) then [""] + Pieces(s[|pat|..], pat)
    else
      var ps := Pieces(s[1..], pat);
      [[s[0]] + ps[0]] + ps[1..]
  }

  function Joined(ps: seq<string>, sep: string): string
    requires |ps| > 0
  {
    if |ps| == 1 then ps[0] else ps[0] + sep + Joined(ps[1..], sep)
  }

  lemma LetterMoves(c: char, a: string, b: string, d: string)
    ensures ([c] + a) + b + d == [c] + (a + b + d)
  {
  }

  lemma LetterJoins(c: char, ps: seq<string>, sep: string)
    requires |ps| > 0
    ensures Joined([[c] + ps[0]] + ps[1..], sep) == [c] + Joined(ps, sep)
  {
    var qs := [[c] + ps[0]] + ps[1..];
    assert qs[1..] == ps[1..];
    if |ps| > 1 {
      LetterMoves(c, ps[0], sep, Joined(ps[1..], sep));
    }
  }

  /** The pieces are the text cut at the occurrences, which are as many as are counted. */
  lemma {:induction false} PiecesJoin(s: string, pat: string)
    requires pat != ""
    ensures Joined(Pieces(s, pat), pat) == s && |Pieces(s, pat)| == Count(s, pat) + 1
  {
    if s == "" {
    } else if HasPrefix(s, pat) {
      PiecesJoin(s[|pat|..], pat);
      PiecesPast(s, pat, pat);
      assert s == pat + s[|pat|..];
    } else {
      PiecesJoin(s[1..], pat);
      LetterJoins(s[0], Pieces(s[1..], pat), pat);
      assert s == [s[0]] + s[1..];
    }
  }

  /** Replacing all of them joins the pieces by the replacement. */
  lemma {:induction false} PiecesReplace(s: string, pat: string, rep: string)
    requires pat != ""
    ensures ReplaceAll(s, pat, rep) == Joined(Pieces(s, pat), rep)
  {
    if s == "" {
    } else if HasPrefix(s, pat) {
      PiecesReplace(s[|pat|..], pat, rep);
      PiecesPast(s, pat, rep);
    } else {
      PiecesReplace(s[1..], pat, rep);
      LetterJoins(s[0], Pieces(s[1..], pat), rep);
    }
  }

  lemma PiecesPast(s: string, pat: string, sep: string)
    requires pat != "" && s != "" && HasPrefix(s, pat)
    ensures Joined(Pieces(s, pat), sep) == sep + Joined(Pieces(s[|pat|..], pat), sep)
  {
    var rest := Pieces(s[|pat|..], pat);
    assert ([""] + rest)[1..] == rest;
    assert "" + sep == sep;
  }

  /** The cuts are made from the left: no piece holds an occurrence. */
  lemma {:induction false} PiecesHoldNone(s: string, pat: string)
    requires pat != ""
    ensures Pieces(s, pat)[0] <= s
    ensures forall i :: 0 <= i < |Pieces(s, pat)| ==> !Contains(Pieces(s, pat)[i], pat)
  {
    if s == "" {
    } else if HasPrefix(s, pat) {
      PiecesHoldNone(s[|pat|..], pat);
    } else {
      var ps := Pieces(s[1..], pat);
      PiecesHoldNone(s[1..], pat);
      var first := [s[0]] + ps[0];
      assert first[1..] == ps[0];
      assert first <= s;
      assert |pat| <= |first| ==> s[..|pat|] == first[..|pat|];
    }
  }

  /** A replacement that is longer than the pattern shows in the length. */
  lemma {:induction false} ReplaceAllGrows(s: string, pat: string, rep: string)
    requires pat != "" && |pat| < |rep|
    ensures |ReplaceAll(s, pat, rep)| >= |s|
    ensures Contains(s, pat) ==> |ReplaceAll(s, pat, rep)| > |s|
  {
    if s != "" {
      if HasPrefix(s, pat) {
        ReplaceAllGrows(s[|pat|..], pat, rep);
      } else {
        ReplaceAllGrows(s[1..], pat, rep);
      }
    }
  }

  lemma ReplaceAllIsIdentityIff(s: string, pat: string, rep: string)
    requires pat != "" && |pat| < |rep|
    ensures ReplaceAll(s, pat, rep) == s <==> !Contains(s, pat)
  {
    if Contains(s, pat) {
      ReplaceAllGrows(s, pat, rep);
    } else {
      ReplaceAllOfNone(s, pat, rep);
    }
  }

  /** The beginning of a result without the first letter of the replacement was there before. */
  lemma {:induction false} HeadIsKept(s: string, pat: string, rep: string, k: nat)
    requires pat != "" && rep != "" && k <= |ReplaceAll(s, pat, rep)|
    requires forall i :: 0 <= i < k ==> ReplaceAll(s, pat, rep)[i] != rep[0]
    ensures k <= |s| && s[..k] == ReplaceAll(s, pat, rep)[..k]
  {
    if k > 0 && s != "" {
      var all := ReplaceAll(s, pat, rep);
      assert all[0] != rep[0];
      assert !HasPrefix(s, pat);
      var rest := ReplaceAll(s[1..], pat, rep);
      assert forall i :: 0 <= i < k - 1 ==> rest[i] == all[i + 1];
      HeadIsKept(s[1..], pat, rep, k - 1);
      assert s[..k] == [s[0]] + s[1..][..k - 1];
      assert all[..k] == [s[0]] + rest[..k - 1];
    }
  }

  /** Letters before which no occurrence can start do not add one. */
  lemma {:induction false} SkipLetters(a: string, w: string, pat: string)
    requires NoStart(a, w, pat)
    ensures Contains(a + w, pat) <==> Contains(w, pat)
    decreases |a|
  {
    if a == "" {
      assert a + w == w;
    } else {
      NoStartTail(a, w, pat);
      assert (a + w)[1..] == a[1..] + w;
      SkipLetters(a[1..], w, pat);
    }
  }

  /** The replacement can neither contain the pattern nor help to build it: inside it every
      first letter of the pattern is followed by a wrong one, and it starts with a letter
      the pattern has at most in front. */
  predicate Harmless(pat: string, rep: string) {
    && |pat| > 1 && rep != "" && rep[0] !in pat[1..]
    && forall j :: 0 <= j < |rep| && rep[j] == pat[0] ==> j + 1 < |rep| && rep[j + 1] != pat[1]
  }

  /** A harmless replacement leaves no occurrence, not even across its ends. */
  lemma {:induction false} ReplaceAllRemoves(s: string, pat: string, rep: string)
    requires Harmless(pat, rep)
    ensures !Contains(ReplaceAll(s, pat, rep), pat)
  {
    var all := ReplaceAll(s, pat, rep);
    if s == "" {
    } else if HasPrefix(s, pat) {
      var rest := ReplaceAll(s[|pat|..], pat, rep);
      ReplaceAllRemoves(s[|pat|..], pat, rep);
      forall j | 0 <= j < |rep|
        ensures !HasPrefix((rep + rest)[j..], pat)
      {
        if HasPrefix((rep + rest)[j..], pat) {
          PrefixLetter((rep + rest)[j..], pat, 0);
          PrefixLetter((rep + rest)[j..], pat, 1);
          assert false;
        }
      }
      SkipLetters(rep, rest, pat);
    } else {
      var rest := ReplaceAll(s[1..], pat, rep);
      ReplaceAllRemoves(s[1..], pat, rep);
      assert all[1..] == rest;
      if HasPrefix(all, pat) {
        StartWasThere(s, pat, rep);
        assert false;
      }
    }
  }

  lemma StartWasThere(s: string, pat: string, rep: string)
    requires Harmless(pat, rep) && s != "" && HasPrefix([s[0]] + ReplaceAll(s[1..], pat, rep), pat)
    ensures HasPrefix(s, pat)
  {
    var rest := ReplaceAll(s[1..], pat, rep);
    var k := |pat| - 1;
    assert rest[..k] == ([s[0]] + rest)[..|pat|][1..];
    assert rest[..k] == pat[1..];
    forall i | 0 <= i < k
      ensures rest[i] != rep[0]
    {
      assert rest[i] == rest[..k][i];
      assert pat[1..][i] in pat[1..];
    }
    HeadIsKept(s[1..], pat, rep, k);
    assert s[..|pat|] == [s[0]] + s[1..][..k];
    assert pat == [pat[0]] + pat[1..];
    assert ([s[0]] + rest)[..|pat|][0] == pat[0];
  }

  /** A beginning contains no more than the whole. */
  lemma {:induction false} PrefixContains(a: string, w: string, pat: string)
    requires Contains(a, pat)
    ensures Contains(a + w, pat)
  {
    if HasPrefix(a, pat) {
      assert (a + w)[..|pat|] == a[..|pat|];
    } else {
      PrefixContains(a[1..], w, pat);
      assert (a + w)[1..] == a[1..] + w;
    }
  }

  lemma StartsBefore(a: string, w: string, pat: string)
    requires a != "" && w != "" && pat != "" && w[0] !in pat[1..] && HasPrefix(a + w, pat)
    ensures HasPrefix(a, pat)
  {
    if |a| < |pat| {
      TailLetter(a + w, pat, |a|);
      assert false;
    }
    assert (a + w)[..|pat|] == a[..|pat|];
  }

  /** An appended text whose first letter the pattern has at most in front brings only the
      occurrences it holds itself. */
  lemma {:induction false} AppendContains(a: string, w: string, pat: string)
    requires pat != "" && w != "" && w[0] !in pat[1..]
    ensures Contains(a + w, pat) <==> Contains(a, pat) || Contains(w, pat)
  {
    if a == "" {
      assert a + w == w;
      assert !HasPrefix(a, pat);
    } else {
      AppendContains(a[1..], w, pat);
      assert (a + w)[1..] == a[1..] + w;
      if HasPrefix(a + w, pat) && !HasPrefix(a, pat) {
        StartsBefore(a, w, pat);
        assert false;
      }
      if HasPrefix(a, pat) {
        PrefixContains(a, w, pat);
      }
    }
  }

  /** No occurrence starts within the letters a of a + w. */
  predicate NoStart(a: string, w: string, pat: string) {
    forall j :: 0 <= j < |a| ==> !HasPrefix((a + w)[j..], pat)
  }

  lemma NoStartTail(a: string, w: string, pat: string)
    requires a != "" && NoStart(a, w, pat)
    ensures !HasPrefix(a + w, pat) && NoStart(a[1..], w, pat)
  {
    assert (a + w)[0..] == a + w;
    forall j | 0 <= j < |a[1..]|
      ensures !HasPrefix((a[1..] + w)[j..], pat)
    {
      assert (a[1..] + w)[j..] == (a + w)[j + 1..];
    }
  }

  lemma {:induction false} ReplaceFirstSkips(a: string, w: string, pat: string, rep: string)
    requires pat != "" && NoStart(a, w, pat)
    ensures ReplaceFirst(a + w, pat, rep) == a + ReplaceFirst(w, pat, rep)
    decreases |a|
  {
    if a == "" {
      assert a + w == w;
    } else {
      NoStartTail(a, w, pat);
      ReplaceFirstSkips(a[1..], w, pat, rep);
      ReplaceFirstSkipsOne(a + w, pat, rep);
      assert (a + w)[1..] == a[1..] + w;
      assert [(a + w)[0]] + (a[1..] + ReplaceFirst(w, pat, rep)) == a + ReplaceFirst(w, pat, rep);
    }
  }

  lemma ReplaceFirstSkipsOne(s: string, pat: string, rep: string)
    requires s != "" && pat != "" && !HasPrefix(s, pat)
    ensures ReplaceFirst(s, pat, rep) == [s[0]] + ReplaceFirst(s[1..], pat, rep)
  {
  }
}
