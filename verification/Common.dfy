/** Small datatypes and sequence facts shared by every module. */
module Common {

  datatype Option<+T> = None | Some(value: T)

  function Elements<T>(s: seq<T>): set<T> {
    set x | x in s
  }

  lemma ElementsSnoc<T>(s: seq<T>, x: T)
    ensures Elements(s + [x]) == Elements(s) + {x}
  {
    assert forall y :: y in s + [x] <==> y in s || y == x;
  }

  /** A prefix one longer. */
  lemma PrefixSnoc<T>(s: seq<T>, k: nat)
    requires k < |s|
    ensures s[..k + 1] == s[..k] + [s[k]]
  {
  }

  lemma Regroup<T>(a: seq<T>, b: seq<T>, c: seq<T>)
    ensures (a + b) + c == a + (b + c)
  {
  }

  lemma PartOfPrefix<T>(a: seq<T>, part: seq<T>, s: seq<T>)
    requires a + part <= s
    ensures s[|a|..|a| + |part|] == part
  {
    assert (a + part)[|a|..] == part;
  }

  lemma PrefixOfSum<T>(a: seq<T>, b: seq<T>, rest: seq<T>, s: seq<T>)
    requires a + (b + rest) <= s
    ensures a + b <= s
  {
    assert a + (b + rest) == (a + b) + rest;
  }

  ghost predicate Distinct<T>(s: seq<T>) {
    forall i, j :: 0 <= i < j < |s| ==> s[i] != s[j]
  }

  lemma DistinctSum<T>(a: seq<T>, b: seq<T>)
    requires Distinct(a) && Distinct(b) && forall x :: x in a ==> x !in b
    ensures Distinct(a + b)
  {
    assert forall i :: 0 <= i < |a| ==> (a + b)[i] in a;
    assert forall i :: |a| <= i < |a + b| ==> (a + b)[i] in b;
  }

  /** Two parts of a list stay parts when one of them and the list get one more. */
  lemma PartsSnoc<T>(a: seq<T>, b: seq<T>, s: seq<T>, x: T)
    requires multiset(a) + multiset(b) == multiset(s)
    ensures multiset(a + [x]) + multiset(b + []) == multiset(s + [x])
    ensures multiset(a) + multiset(b + [x]) == multiset(s + [x])
    ensures b + [] == b
  {
  }

  lemma {:induction false} DistinctCounts<T>(s: seq<T>, x: T)
    requires Distinct(s)
    ensures multiset(s)[x] == if x in s then 1 else 0
  {
    if s != [] {
      var n := |s| - 1;
      DistinctCounts(s[..n], x);
      assert s == s[..n] + [s[n]];
    }
  }

  /** Lists without repetition and with the same members are permutations of each other. */
  lemma SameMembersPermute<T>(a: seq<T>, b: seq<T>)
    requires Distinct(a) && Distinct(b) && Elements(a) == Elements(b)
    ensures multiset(a) == multiset(b)
  {
    forall x: T
      ensures multiset(a)[x] == multiset(b)[x]
    {
      assert x in a <==> x in Elements(a);
      assert x in b <==> x in Elements(b);
      DistinctCounts(a, x);
      DistinctCounts(b, x);
    }
  }

  /** Every finite set can be listed. */
  lemma {:induction false} SetToSeq<T>(all: set<T>) returns (s: seq<T>)
    ensures Distinct(s) && Elements(s) == all
    decreases |all|
  {
    if all == {} {
      s := [];
    } else {
      var x :| x in all;
      var rest := SetToSeq(all - {x});
      s := rest + [x];
      ElementsSnoc(rest, x);
      assert forall y :: y in rest ==> y in Elements(rest);
    }
  }

  /** Some element: where an iteration without an order goes next. */
  method AnyOf<T>(s: set<T>) returns (x: T)
    requires s != {}
    ensures x in s
  {
    x :| x in s;
  }

  lemma KeyOf<K, V>(m: map<K, V>, v: V) returns (k: K)
    requires v in m.Values
    ensures k in m && m[k] == v
  {
    k :| k in m && m[k] == v;
  }

  function Lookup<K, V>(m: map<K, V>, k: K): Option<V> {
    if k in m then Some(m[k]) else None
  }

  lemma MapsEqual<K, V>(a: map<K, V>, b: map<K, V>)
    requires a.Keys == b.Keys && forall k :: k in a ==> a[k] == b[k]
    ensures a == b
  {
  }

  lemma RemovedTwice<K, V>(m: map<K, V>, a: set<K>, b: set<K>)
    ensures (m - a) - b == m - (a + b)
  {
  }

  lemma PutTwice<K, V>(m: map<K, V>, k: K, v: V, u: V)
    ensures m[k := v][k := u] == m[k := u] && m[k := v] - {k} == m - {k}
  {
  }

  /** A map cut down to the given keys. */
  function Kept<K, V>(m: map<K, V>, keys: set<K>): map<K, V> {
    map k | k in m && k in keys :: m[k]
  }

  /** Laying over one key and then the others is laying over all of them. */
  lemma OverlayStep<K, V>(base: map<K, V>, m: map<K, V>, keys: set<K>, k: K)
    requires k in m && k in keys
    ensures base[k := m[k]] + Kept(m, keys - {k}) == base + Kept(m, keys)
  {
  }

  /** A map laid over another gives itself exactly when it covers the other's keys. */
  lemma OverlayIsTopIff<K, V>(base: map<K, V>, top: map<K, V>)
    ensures base + top == top <==> base.Keys <= top.Keys
  {
    assert (base + top).Keys == base.Keys + top.Keys;
    if base.Keys <= top.Keys {
      assert forall k :: k in base + top ==> (base + top)[k] == top[k];
    }
  }
}
