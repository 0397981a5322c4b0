/** The cache of subscriptions by topic (`event/bus/bus.go`). */
module Subscribers {
  import opened Common

  /** A subscription, and the name of a topic, each told apart from others by identity. */
  datatype Sub = Sub(identity: nat)
  datatype Name = Name(identity: nat)

  /** A list without one subscription, order kept. */
  function Without(s: seq<Sub>, sub: Sub): seq<Sub> {
    if s == [] then []
    else Without(s[..|s| - 1], sub) + if s[|s| - 1] == sub then [] else [s[|s| - 1]]
  }

  lemma {:induction false} WithoutCounts(s: seq<Sub>, sub: Sub, x: Sub)
    ensures multiset(Without(s, sub))[x] == if x == sub then 0 else multiset(s)[x]
    ensures |Without(s, sub)| <= |s|
  {
    if s != [] {
      WithoutCounts(s[..|s| - 1], sub, x);
      assert s == s[..|s| - 1] + [s[|s| - 1]];
    }
  }

  /** A part at a time: what is kept stays in its order. */
  lemma {:induction false} WithoutByParts(a: seq<Sub>, b: seq<Sub>, sub: Sub)
    ensures Without(a + b, sub) == Without(a, sub) + Without(b, sub)
    ensures |b| == 1 ==> Without(b, sub) == if b == [sub] then [] else b
  {
    if b == [] {
      assert a + b == a;
    } else {
      var init, last := b[..|b| - 1], b[|b| - 1];
      assert (a + b)[..|a + b| - 1] == a + init;
      WithoutByParts(a, init, sub);
      Regroup(Without(a, sub), Without(init, sub), if last == sub then [] else [last]);
    }
  }

  /** The subscriptions of one topic: a slice, that is, the front part of an array. */
  class Topic {
    var subs: array<Sub>
    var count: nat

    ghost predicate Valid()
      reads this
    {
      count <= subs.Length
    }

    /** Filters in place: what is kept moves forward over what is dropped. */
    method RemoveSub(sub: Sub)
      requires Valid()
      modifies this`count, subs
      ensures Valid() && subs[..count] == Without(old(subs[..count]), sub)
      ensures forall k :: old(count) <= k < subs.Length ==> subs[k] == old(subs[k])
    {
      ghost var was := subs[..count];
      var i := 0;
      for n := 0 to count
        invariant 0 <= i <= n <= count == old(count)
        invariant subs[..i] == Without(was[..n], sub)
        invariant forall k :: n <= k < subs.Length ==> subs[k] == old(subs[k])
      {
        assert was[..n + 1][..n] == was[..n];
        if subs[n] != sub {
          subs[i] := subs[n];
          i := i + 1;
        }
      }
      assert was[..|was|] == was;
      count := i;
    }
  }

  /** What a cache holds, topic by topic, and all of it together. */
  type Contents = map<Name, seq<Sub>>
  type Pairs = multiset<(Name, Sub)>

  function SubsOf(c: Contents, topic: Name): seq<Sub> {
    if topic in c then c[topic] else []
  }

  ghost predicate Tallies(all: Pairs, c: Contents) {
    forall t: Name, s: Sub :: all[(t, s)] == multiset(SubsOf(c, t))[s]
  }

  function Added(c: Contents, topic: Name, sub: Sub): Contents {
    c[topic := SubsOf(c, topic) + [sub]]
  }

  /** A topic whose last subscription goes is dropped. */
  function Removed(c: Contents, topic: Name, sub: Sub): Contents {
    if topic !in c then c
    else if Without(c[topic], sub) == [] then c - {topic}
    else c[topic := Without(c[topic], sub)]
  }

  /** No topic is there without a subscription. */
  ghost predicate Full(c: Contents) {
    forall t :: t in c ==> c[t] != []
  }

  lemma StaysFull(c: Contents, topic: Name, sub: Sub)
    requires Full(c)
    ensures Full(Added(c, topic, sub)) && Full(Removed(c, topic, sub))
  {
  }

  lemma TalliesAdded(all: Pairs, c: Contents, topic: Name, sub: Sub)
    requires Tallies(all, c)
    ensures Tallies(all + multiset{(topic, sub)}, Added(c, topic, sub))
  {
  }

  lemma TalliesRemoved(all: Pairs, c: Contents, topic: Name, sub: Sub)
    requires Tallies(all, c)
    ensures Tallies(all[(topic, sub) := 0], Removed(c, topic, sub))
  {
    forall t: Name, s: Sub
      ensures all[(topic, sub) := 0][(t, s)] == multiset(SubsOf(Removed(c, topic, sub), t))[s]
    {
      assert all[(t, s)] == multiset(SubsOf(c, t))[s];
      RemovedAt(c, topic, sub);
      if t == topic {
        WithoutCounts(SubsOf(c, topic), sub, s);
      }
    }
  }

  lemma RemovedAt(c: Contents, topic: Name, sub: Sub)
    ensures forall t ::
              SubsOf(Removed(c, topic, sub), t) == if t == topic then Without(SubsOf(c, t), sub) else SubsOf(c, t)
  {
  }

  /** The size stays the number of subscriptions exactly when what is removed was there
      once, or its topic did not exist. */
  lemma RemoveKeepsSizeIff(all: Pairs, x: (Name, Sub), topicExists: bool)
    requires !topicExists ==> all[x] == 0
    ensures |all[x := 0]| == |all| - (if topicExists then 1 else 0) <==> !topicExists || all[x] == 1
  {
    var rest := all[x := 0];
    assert all == rest + multiset{}[x := all[x]];
    CountOfOne(x, all[x]);
  }

  lemma {:induction false} CountOfOne<T>(x: T, n: nat)
    ensures |multiset{}[x := n]| == n
  {
    if n > 0 {
      CountOfOne(x, n - 1);
      assert multiset{}[x := n] == multiset{}[x := n - 1] + multiset{x};
    } else {
      assert multiset{}[x := n] == multiset{};
    }
  }

  /** Taking one off is right exactly when one was there, or nothing is taken off. */
  lemma SizeAfterRemove(all: Pairs, c: Contents, topic: Name, sub: Sub)
    requires Tallies(all, c)
    ensures |all| - (if topic in c then 1 else 0) == |all[(topic, sub) := 0]| <==> topic !in c || all[(topic, sub)] == 1
  {
    assert all[(topic, sub)] == multiset(SubsOf(c, topic))[sub];
    RemoveKeepsSizeIff(all, (topic, sub), topic in c);
  }

  class SubscribersCache {
    var topics: Contents
    var size: int
    ghost var all: Pairs

    /** No stored topic is empty, and `all` counts what the topics hold. */
    ghost predicate Valid()
      reads this
    {
      Tallies(all, topics) && Full(topics)
    }

    constructor ()
      ensures Valid() && topics == map[] && size == 0 && all == multiset{}
    {
      topics, size, all := map[], 0, multiset{};
    }

    method Add(topic: Name, sub: Sub)
      requires Valid()
      modifies this
      ensures Valid() && topics == Added(old(topics), topic, sub)
      ensures forall t :: SubsOf(topics, t) == SubsOf(old(topics), t) + if t == topic then [sub] else []
      ensures all == old(all) + multiset{(topic, sub)} && size == old(size) + 1
      ensures old(size == |all|) ==> size == |all|
    {
      ghost var after := Added(topics, topic, sub);
      TalliesAdded(all, topics, topic, sub);
      StaysFull(topics, topic, sub);
      PutTwice(topics, topic, [], [sub]);
      if topic !in topics {
        topics := topics[topic := []];
      }
      topics := topics[topic := topics[topic] + [sub]];
      assert topics == after;
      all := all + multiset{(topic, sub)};
      size := size + 1;
    }

    /** Takes every occurrence out, and one off the size whenever the topic exists. A size
        that is right stays right exactly when there was one occurrence or no topic. */
    method Remove(topic: Name, sub: Sub)
      requires Valid()
      modifies this
      ensures Valid() && topics == Removed(old(topics), topic, sub)
      ensures forall t :: SubsOf(topics, t) ==
                          if t == topic then Without(SubsOf(old(topics), t), sub) else SubsOf(old(topics), t)
      ensures all == old(all)[(topic, sub) := 0]
      ensures size == old(size) - if topic in old(topics) then 1 else 0
      ensures old(size == |all|) ==> (size == |all| <==> topic !in old(topics) || old(all)[(topic, sub)] == 1)
    {
      StaysFull(topics, topic, sub);
      RemovedAt(topics, topic, sub);
      TalliesRemoved(all, topics, topic, sub);
      SizeAfterRemove(all, topics, topic, sub);
      RemoveFromTopic(topic, sub);
      all := all[(topic, sub) := 0];
    }

    method RemoveFromTopic(topic: Name, sub: Sub)
      requires Full(topics)
      modifies this`topics, this`size
      ensures topics == Removed(old(topics), topic, sub)
      ensures size == old(size) - if topic in old(topics) then 1 else 0
    {
      if topic in topics {
        PutTwice(topics, topic, Without(topics[topic], sub), []);
        if |topics[topic]| > 0 {
          topics := topics[topic := Without(topics[topic], sub)];
        }
        if |topics[topic]| == 0 {
          topics := topics - {topic};
        }
        size := size - 1;
      }
    }
  }
}
