/** The bus that joins an internal and an external one (`event/bus/aggregator.go`). */
module EventBus {
  import opened Common
  import opened Subscribers
  import opened NodesCommunication
  import Lifecycle

  datatype Event = Event(topic: Name, data: string)

  /** What happens to the bus. A role change calls Connect and, unless that fails, Restart;
      the address a restart is given is only logged. A publish comes with the publishers'
      answers. */
  datatype Op =
    | Connect(role: Lifecycle.Role, master: string, snapshotFails: bool)
    | Restart(role: Lifecycle.Role)
    | Subscribe(topic: Name, handler: Sub)
    | Publish(event: Event, internalFails: bool, externalFails: bool)
    | Shutdown

  /** The aggregator by value: its flags, the handlers it has cached, those subscribed on the
      internal bus, the external subscriber, and what has been published. */
  datatype Bus = Bus(
    asMaster: bool, asSlave: bool, cached: Pairs, internal: Pairs, link: Link,
    publishedInternally: seq<Event>, publishedExternally: seq<Event>)

  const FRESH := Bus(false, false, multiset{}, multiset{}, UNLINKED, [], [])

  function After(b: Bus, op: Op): Bus {
    match op
    case Connect(role, master, snapshotFails) => b.(link := Connected(b.link, role, master, snapshotFails))
    case Restart(role) =>
      if role == Lifecycle.Master && !b.asMaster then b.(asMaster := true, asSlave := false)
      else if role == Lifecycle.Slave && !b.asSlave then
        b.(asMaster := false, asSlave := true, link := Subscribed(b.link, b.cached))
      else b
    case Subscribe(t, h) =>
      var x := multiset{(t, h)};
      b.(cached := b.cached + x, internal := b.internal + x,
         link := if b.asSlave then Subscribed(b.link, x) else b.link)
    case Publish(e, internalFails, externalFails) =>
      if internalFails then b
      else b.(publishedInternally := b.publishedInternally + [e],
              publishedExternally := b.publishedExternally + if b.asMaster && !externalFails then [e] else [])
    case Shutdown => b.(asMaster := false, asSlave := false, link := if b.asSlave then Stopped(b.link) else b.link)
  }

  /** What cannot be published inside goes nowhere; what can, but not outside, is published
      inside only. */
  lemma FailedPublish(b: Bus, e: Event, externalFails: bool)
    ensures After(b, Publish(e, true, externalFails)) == b
    ensures After(b, Publish(e, false, true)) == b.(publishedInternally := b.publishedInternally + [e])
  {
  }

  /** After a shutdown the bus has no part; a slave's subscriptions are dead, anybody else's
      stay as they are. */
  lemma ShutdownEnds(b: Bus)
    requires Coupled(b.link)
    ensures var after := After(b, Shutdown);
            && !after.asMaster && !after.asSlave
            && after.cached == b.cached && after.internal == b.internal
            && after.publishedInternally == b.publishedInternally
            && after.publishedExternally == b.publishedExternally
            && (b.asSlave ==> !after.link.active && after.link.live == multiset{} && after.link.calls == b.link.calls)
            && (!b.asSlave ==> after.link == b.link)
  {
  }

  /** A run: the operations and the states between them, a fresh bus first. */
  ghost predicate Run(ops: seq<Op>, bs: seq<Bus>) {
    |bs| == |ops| + 1 && bs[0] == FRESH && forall k :: 0 <= k < |ops| ==> Follows(ops, bs, k)
  }

  ghost predicate Follows(ops: seq<Op>, bs: seq<Bus>, k: nat)
    requires k < |ops| && |bs| == |ops| + 1
  {
    bs[k + 1] == After(bs[k], ops[k])
  }

  /** Any operations can be run. */
  lemma {:induction false} RunExists(ops: seq<Op>) returns (bs: seq<Bus>)
    ensures Run(ops, bs)
  {
    if ops == [] {
      bs := [FRESH];
    } else {
      var n := |ops| - 1;
      var before := RunExists(ops[..n]);
      bs := before + [After(before[n], ops[n])];
      forall k | 0 <= k < |ops|
        ensures Follows(ops, bs, k)
      {
        assert k < n ==> Follows(ops[..n], before, k);
      }
    }
  }

  // ---------------------------------------------------------------- the object

  /** The internal bus as a subscriber. */
  class BusSubscriber {
    var subscriptions: Pairs

    constructor ()
      ensures subscriptions == multiset{}
    {
      subscriptions := multiset{};
    }

    method Subscribe(topic: Name, handler: Sub)
      modifies this
      ensures subscriptions == old(subscriptions) + multiset{(topic, handler)}
    {
      subscriptions := subscriptions + multiset{(topic, handler)};
    }
  }

  class BusPublisher {
    var published: seq<Event>
    var down: bool

    constructor ()
      ensures published == [] && !down
    {
      published, down := [], false;
    }

    method Publish(event: Event, fails: bool) returns (ok: bool)
      modifies this`published
      ensures ok == !fails && published == old(published) + if fails then [] else [event]
    {
      ok := !fails;
      if ok {
        published := published + [event];
      }
    }

    method Shutdown()
      modifies this`down
      ensures down
    {
      down := true;
    }
  }

  class EventBusAggregator {
    const subscriptions: SubscribersCache
    const externalBusPublisher: BusPublisher
    const internalBusPublisher: BusPublisher
    const externalBusSubscriber: GRPCBusSubscriber
    const internalBusSubscriber: BusSubscriber
    var runningAsMaster: bool
    var runningAsSlave: bool

    ghost predicate Valid()
      reads this, subscriptions
    {
      externalBusPublisher != internalBusPublisher && subscriptions.Valid()
    }

    /** The bus beside a receiver that has started or not. */
    ghost function View(receiving: bool): Bus
      reads this, subscriptions
      reads externalBusPublisher, internalBusPublisher, externalBusSubscriber, internalBusSubscriber
    {
      Bus(runningAsMaster, runningAsSlave, subscriptions.all, internalBusSubscriber.subscriptions,
          externalBusSubscriber.View(receiving), internalBusPublisher.published, externalBusPublisher.published)
    }

    constructor ()
      ensures Valid() && View(false) == FRESH
    {
      subscriptions := new SubscribersCache();
      externalBusPublisher := new BusPublisher();
      internalBusPublisher := new BusPublisher();
      externalBusSubscriber := new GRPCBusSubscriber();
      internalBusSubscriber := new BusSubscriber();
      runningAsMaster, runningAsSlave := false, false;
    }

    method RestartEventBus(role: Lifecycle.Role)
      requires Valid()
      modifies this, externalBusSubscriber
      ensures Valid() && forall r :: View(r) == After(old(View(r)), Restart(role))
    {
      if role == Lifecycle.Master {
        StartAsMaster();
      } else if role == Lifecycle.Slave {
        StartAsSlave();
      }
    }

    method StartAsMaster()
      requires Valid()
      modifies this
      ensures Valid() && forall r :: View(r) == After(old(View(r)), Restart(Lifecycle.Master))
    {
      if runningAsMaster {
        return;
      }
      runningAsSlave := false;
      runningAsMaster := true;
    }

    method StartAsSlave()
      requires Valid()
      modifies this, externalBusSubscriber
      ensures Valid() && forall r :: View(r) == After(old(View(r)), Restart(Lifecycle.Slave))
    {
      if runningAsSlave {
        return;
      }
      runningAsMaster := false;
      runningAsSlave := true;
      ResubscribeOnNewMaster();
    }

    /** Every cached handler is subscribed externally once for each time it is cached, in
        whatever order the cache is gone through. */
    method ResubscribeOnNewMaster()
      requires Valid()
      modifies externalBusSubscriber
      ensures forall r ::
                externalBusSubscriber.View(r) == Subscribed(old(externalBusSubscriber.View(r)), subscriptions.all)
    {
      var topics := subscriptions.topics;
      var pending := topics.Keys;
      ghost var so: Pairs, link := multiset{}, externalBusSubscriber.View(false);
      while pending != {}
        invariant pending <= topics.Keys
        invariant externalBusSubscriber.View(false) == Subscribed(link, so)
        invariant TalliesPart(so, topics, topics.Keys - pending)
        decreases |pending|
      {
        var topic := AnyOf(pending);
        ghost var added := SubscribeAll(topic, topics[topic]);
        TalliesPartNext(so, added, topics, topics.Keys - pending, topic);
        SubscribedTwice(link, so, added);
        so := so + added;
        assert topics.Keys - (pending - {topic}) == (topics.Keys - pending) + {topic};
        pending := pending - {topic};
      }
      assert topics.Keys - pending == topics.Keys;
      TalliesWhole(so, topics, subscriptions.all);
    }

    method SubscribeAll(topic: Name, handlers: seq<Sub>) returns (ghost added: Pairs)
      modifies externalBusSubscriber
      ensures externalBusSubscriber.View(false) == Subscribed(old(externalBusSubscriber.View(false)), added)
      ensures TalliesTopic(added, topic, handlers)
    {
      ghost var link := externalBusSubscriber.View(false);
      added := multiset{};
      for i := 0 to |handlers|
        invariant externalBusSubscriber.View(false) == Subscribed(link, added)
        invariant TalliesTopic(added, topic, handlers[..i])
      {
        PrefixSnoc(handlers, i);
        externalBusSubscriber.Subscribe(topic, handlers[i]);
        SubscribedTwice(link, added, multiset{(topic, handlers[i])});
        added := added + multiset{(topic, handlers[i])};
      }
      assert handlers[..|handlers|] == handlers;
    }

    method Publish(event: Event, internalFails: bool, externalFails: bool) returns (ok: bool)
      requires Valid()
      modifies internalBusPublisher, externalBusPublisher
      ensures Valid() && forall r :: View(r) == After(old(View(r)), Op.Publish(event, internalFails, externalFails))
      ensures ok <==> !internalFails && !(runningAsMaster && externalFails)
    {
      ok := internalBusPublisher.Publish(event, internalFails);
      if !ok {
        return;
      }
      if runningAsMaster {
        ok := externalBusPublisher.Publish(event, externalFails);
      }
    }

    method Subscribe(topic: Name, handler: Sub)
      requires Valid()
      modifies subscriptions, internalBusSubscriber, externalBusSubscriber
      ensures Valid() && forall r :: View(r) == After(old(View(r)), Op.Subscribe(topic, handler))
    {
      subscriptions.Add(topic, handler);
      internalBusSubscriber.Subscribe(topic, handler);
      if runningAsSlave {
        externalBusSubscriber.Subscribe(topic, handler);
      }
    }

    /** The external side is shut down only in the role that uses it; the internal publisher
        always. */
    method Shutdown()
      requires Valid()
      modifies this, externalBusPublisher`down, externalBusSubscriber, internalBusPublisher`down
      ensures Valid() && forall r :: View(r) == After(old(View(r)), Op.Shutdown)
      ensures internalBusPublisher.down
      ensures externalBusPublisher.down <==> old(externalBusPublisher.down) || old(runningAsMaster)
    {
      if runningAsMaster {
        externalBusPublisher.Shutdown();
        runningAsMaster := false;
      }
      if runningAsSlave {
        externalBusSubscriber.Shutdown();
        runningAsSlave := false;
      }
      internalBusPublisher.Shutdown();
    }
  }

  ghost predicate TalliesTopic(added: Pairs, topic: Name, handlers: seq<Sub>) {
    forall t: Name, s: Sub :: added[(t, s)] == if t == topic then multiset(handlers)[s] else 0
  }

  /** The handlers of the topics gone through. */
  ghost predicate TalliesPart(so: Pairs, c: Contents, done: set<Name>) {
    forall t: Name, s: Sub :: so[(t, s)] == if t in done then multiset(SubsOf(c, t))[s] else 0
  }

  lemma TalliesPartNext(so: Pairs, added: Pairs, c: Contents, done: set<Name>, topic: Name)
    requires TalliesPart(so, c, done) && topic !in done && TalliesTopic(added, topic, SubsOf(c, topic))
    ensures TalliesPart(so + added, c, done + {topic})
  {
  }

  lemma TalliesWhole(so: Pairs, c: Contents, all: Pairs)
    requires TalliesPart(so, c, c.Keys) && Tallies(all, c)
    ensures so == all
  {
    forall x: (Name, Sub)
      ensures so[x] == all[x]
    {
      assert x == (x.0, x.1);
      assert all[(x.0, x.1)] == multiset(SubsOf(c, x.0))[x.1];
    }
  }

  lemma SubscribedTwice(l: Link, a: Pairs, b: Pairs)
    ensures Subscribed(Subscribed(l, a), b) == Subscribed(l, a + b)
  {
  }

  // ---------------------------------------------------------------- whole runs

  function RequestedBy(op: Op): Pairs {
    if op.Subscribe? then multiset{(op.topic, op.handler)} else multiset{}
  }

  /** The handlers that the first k operations subscribe on the aggregator. */
  function Requested(ops: seq<Op>, k: nat): Pairs
    requires k <= |ops|
  {
    if k == 0 then multiset{} else Requested(ops, k - 1) + RequestedBy(ops[k - 1])
  }

  /** The node is not both master and slave, the requested handlers are cached and on the
      internal bus, and the external subscriber is active only while it receives. */
  ghost predicate Sound(b: Bus, requested: Pairs) {
    !(b.asMaster && b.asSlave) && b.internal == b.cached == requested && Coupled(b.link)
  }

  lemma StepIsSound(b: Bus, op: Op, requested: Pairs)
    requires Sound(b, requested)
    ensures Sound(After(b, op), requested + RequestedBy(op))
  {
    if op.Connect? {
      ConnectedIsCoupled(b.link, op.role, op.master, op.snapshotFails);
    }
  }

  /** Over every run: the node is never both master and slave, every handler has reached the
      cache and the internal bus exactly as often as it was subscribed, and the external
      subscriber is active only while it receives. */
  lemma {:induction false} RunIsSound(ops: seq<Op>, bs: seq<Bus>, k: nat)
    requires Run(ops, bs) && k <= |ops|
    ensures Sound(bs[k], Requested(ops, k))
  {
    if k > 0 {
      RunIsSound(ops, bs, k - 1);
      assert Follows(ops, bs, k - 1);
      StepIsSound(bs[k - 1], ops[k - 1], Requested(ops, k - 1));
    }
  }

  // ---------------------------------------------------------------- calls of a slave

  /** Whether an operation ends the part a slave plays. */
  predicate Ends(op: Op) {
    op.Shutdown? || op == Restart(Lifecycle.Master)
  }

  lemma SlaveStep(b: Bus, op: Op)
    requires !(b.asMaster && b.asSlave)
    ensures After(b, op).asSlave <==> if b.asSlave then !Ends(op) else op == Restart(Lifecycle.Slave)
  {
  }

  /** What one step of a slave adds to the calls is what it adds to the handlers. */
  lemma EpisodeStep(b: Bus, op: Op)
    requires b.asSlave && !b.asMaster && !Ends(op)
    ensures After(b, op).link.calls == b.link.calls + RequestedBy(op)
  {
  }

  lemma EpisodeStart(b: Bus)
    requires !b.asSlave
    ensures After(b, Restart(Lifecycle.Slave)).link.calls == b.link.calls + b.cached
  {
  }

  /** Step j made the node a slave, and it has been one ever since. */
  ghost predicate SlaveSince(ops: seq<Op>, bs: seq<Bus>, j: nat, k: nat)
    requires k <= |ops| && |bs| == |ops| + 1
  {
    && j < k && ops[j] == Restart(Lifecycle.Slave) && !bs[j].asSlave
    && forall i :: j < i < k ==> !Ends(ops[i])
  }

  lemma SlaveBefore(ops: seq<Op>, bs: seq<Bus>, m: nat)
    requires Run(ops, bs) && m < |ops|
    ensures bs[m + 1].asSlave <==> if bs[m].asSlave then !Ends(ops[m]) else ops[m] == Restart(Lifecycle.Slave)
  {
    RunIsSound(ops, bs, m);
    assert Follows(ops, bs, m);
    SlaveStep(bs[m], ops[m]);
  }

  /** Every slave has become one at some step. */
  lemma {:induction false} SlaveHasBegun(ops: seq<Op>, bs: seq<Bus>, k: nat) returns (j: nat)
    requires Run(ops, bs) && k <= |ops| && bs[k].asSlave
    ensures SlaveSince(ops, bs, j, k)
  {
    assert k > 0;
    var m := k - 1;
    SlaveBefore(ops, bs, m);
    if bs[m].asSlave {
      j := SlaveHasBegun(ops, bs, m);
    } else {
      j := m;
    }
  }

  lemma CallsAdd(a: Pairs, b: Pairs, c: Pairs)
    ensures (a + b) + c == a + (b + c)
  {
  }

  /** A slave has called the external subscriber once for every handler it knows, on top of
      what had been called before it became one. */
  lemma {:induction false} EpisodeCalls(ops: seq<Op>, bs: seq<Bus>, j: nat, k: nat)
    requires Run(ops, bs) && k <= |ops| && SlaveSince(ops, bs, j, k)
    ensures bs[k].asSlave
    ensures bs[k].link.calls == bs[j].link.calls + Requested(ops, k)
  {
    var m := k - 1;
    RunIsSound(ops, bs, m);
    assert Follows(ops, bs, m);
    SlaveStep(bs[m], ops[m]);
    if j == m {
      EpisodeStart(bs[m]);
    } else {
      assert SlaveSince(ops, bs, j, m);
      EpisodeCalls(ops, bs, j, m);
      EpisodeStep(bs[m], ops[m]);
      CallsAdd(bs[j].link.calls, Requested(ops, m), RequestedBy(ops[m]));
    }
  }

  lemma SumIsPartIff(a: Pairs, b: Pairs)
    ensures a + b == b <==> a == multiset{}
  {
    if a != multiset{} {
      assert |a + b| == |a| + |b|;
    }
  }

  /** Each handler has been passed to the external subscriber exactly once for each time it
      was subscribed, if and only if nothing had been passed to it before the node became
      the slave it is. */
  lemma SubscribedOnceIff(ops: seq<Op>, bs: seq<Bus>, j: nat, k: nat)
    requires Run(ops, bs) && k <= |ops| && SlaveSince(ops, bs, j, k)
    ensures bs[k].link.calls == Requested(ops, k) <==> bs[j].link.calls == multiset{}
  {
    EpisodeCalls(ops, bs, j, k);
    SumIsPartIff(bs[j].link.calls, Requested(ops, k));
  }

  /** The node is a slave that knows a handler. */
  predicate SlaveWithHandlers(b: Bus) {
    b.asSlave && b.cached != multiset{}
  }

  /** The first call comes exactly when a node becomes a slave that knows a handler. */
  lemma FirstCall(b: Bus, op: Op)
    requires !SlaveWithHandlers(b)
    ensures After(b, op).link.calls == b.link.calls <==> !SlaveWithHandlers(After(b, op))
  {
    if op.Subscribe? {
      assert (op.topic, op.handler) in multiset{(op.topic, op.handler)};
      SumIsPartIff(multiset{(op.topic, op.handler)}, b.link.calls);
    }
    SumIsPartIff(b.cached, b.link.calls);
  }

  lemma CallsOnlyGrow(b: Bus, op: Op)
    ensures b.link.calls <= After(b, op).link.calls
  {
  }

  /** The node has not been a slave that knew a handler, up to step j. */
  ghost predicate NeverSlaveWithHandlers(bs: seq<Bus>, j: nat)
    requires j < |bs|
  {
    forall i :: 0 <= i <= j ==> !SlaveWithHandlers(bs[i])
  }

  /** And nothing had been passed to it if and only if the node had never been a slave that
      knew a handler. */
  lemma {:induction false} NothingCalledIff(ops: seq<Op>, bs: seq<Bus>, j: nat)
    requires Run(ops, bs) && j <= |ops|
    ensures bs[j].link.calls == multiset{} <==> NeverSlaveWithHandlers(bs, j)
  {
    if j > 0 {
      var b, op := bs[j - 1], ops[j - 1];
      NothingCalledIff(ops, bs, j - 1);
      assert Follows(ops, bs, j - 1);
      CallsOnlyGrow(b, op);
      if !SlaveWithHandlers(b) {
        FirstCall(b, op);
      }
    }
  }

  // ---------------------------------------------------------------- handlers on the master

  /** Step j connected the slave to this master, step j + 1 told the bus, and nothing but
      subscriptions and publications has happened since. */
  ghost predicate ToldOfMaster(ops: seq<Op>, j: nat, k: nat, master: string)
    requires k <= |ops|
  {
    && j + 2 <= k
    && ops[j] == Connect(Lifecycle.Slave, master, false) && ops[j + 1] == Restart(Lifecycle.Slave)
    && forall i :: j + 2 <= i < k ==> ops[i].Subscribe? || ops[i].Publish?
  }

  /** The slave is connected to the master, with these subscriptions alive. */
  predicate AliveOn(b: Bus, master: string, alive: Pairs) {
    b.asSlave && b.link.active && b.link.address == master && b.link.live == alive
  }

  lemma ToldNow(b: Bus, master: string)
    requires Coupled(b.link) && !(b.asMaster && b.asSlave)
    ensures var after := After(After(b, Connect(Lifecycle.Slave, master, false)), Restart(Lifecycle.Slave));
            AliveOn(after, master, if b.asSlave then multiset{} else b.cached)
  {
    ConnectedIsCoupled(b.link, Lifecycle.Slave, master, false);
  }

  lemma AliveStep(b: Bus, op: Op, master: string, alive: Pairs)
    requires AliveOn(b, master, alive) && (op.Subscribe? || op.Publish?)
    ensures AliveOn(After(b, op), master, alive + RequestedBy(op))
  {
  }

  /** What the node had subscribed as a slave of the former master. */
  function Forgotten(ops: seq<Op>, bs: seq<Bus>, j: nat): Pairs
    requires j <= |ops| && |bs| == |ops| + 1
  {
    if bs[j].asSlave then Requested(ops, j) else multiset{}
  }

  lemma AliveAtFirst(ops: seq<Op>, bs: seq<Bus>, j: nat, master: string)
    requires Run(ops, bs) && j + 2 <= |ops| && ToldOfMaster(ops, j, j + 2, master)
    ensures AliveOn(bs[j + 2], master, if bs[j].asSlave then multiset{} else Requested(ops, j))
    ensures Requested(ops, j + 2) == Requested(ops, j)
  {
    RunIsSound(ops, bs, j);
    ToldNow(bs[j], master);
    assert Follows(ops, bs, j) && Follows(ops, bs, j + 1);
    assert Requested(ops, j + 1) == Requested(ops, j);
  }

  lemma AliveNext(ops: seq<Op>, bs: seq<Bus>, m: nat, master: string)
    requires Run(ops, bs) && m < |ops| && AliveOn(bs[m], master, bs[m].link.live)
    requires ops[m].Subscribe? || ops[m].Publish?
    ensures AliveOn(bs[m + 1], master, bs[m].link.live + RequestedBy(ops[m]))
  {
    assert Follows(ops, bs, m);
    AliveStep(bs[m], ops[m], master, bs[m].link.live);
  }

  /** After a change of master the external subscriber is connected to the new one, and what
      is not alive on it are the handlers the node had as a slave of the old one: changing
      the master shuts the subscriber down, and the bus that runs as slave already does not
      subscribe again. */
  lemma {:induction false} AliveOnMaster(ops: seq<Op>, bs: seq<Bus>, j: nat, k: nat, master: string)
    requires Run(ops, bs) && k <= |ops| && ToldOfMaster(ops, j, k, master)
    ensures AliveOn(bs[k], master, bs[k].link.live)
    ensures bs[k].link.live + Forgotten(ops, bs, j) == Requested(ops, k)
  {
    if k == j + 2 {
      AliveAtFirst(ops, bs, j, master);
    } else {
      var m := k - 1;
      AliveOnMaster(ops, bs, j, m, master);
      AliveNext(ops, bs, m, master);
      SumSwaps(bs[m].link.live, RequestedBy(ops[m]), Forgotten(ops, bs, j));
    }
  }

  lemma SumSwaps(a: Pairs, b: Pairs, c: Pairs)
    ensures (a + b) + c == (a + c) + b
  {
  }

  /** A slave's handlers are all alive on its current master, each exactly once for each time
      it was subscribed, if and only if the change of master came with a change of part or
      there was no handler yet. */
  lemma AllAliveIff(ops: seq<Op>, bs: seq<Bus>, j: nat, k: nat, master: string)
    requires Run(ops, bs) && k <= |ops| && ToldOfMaster(ops, j, k, master)
    ensures bs[k].link.live == Requested(ops, k) <==> !SlaveWithHandlers(bs[j])
  {
    AliveOnMaster(ops, bs, j, k, master);
    RunIsSound(ops, bs, j);
    SumIsPartIff(Forgotten(ops, bs, j), bs[k].link.live);
    SumSwaps(multiset{}, Forgotten(ops, bs, j), bs[k].link.live);
  }

  /** A slave that becomes master and slave again calls the external subscriber for every
      handler a second time; alive is each of them once, as the change to master has shut
      the subscriber down. */
  lemma ReturningSlaveSubscribesAgain(b: Bus, master: string)
    requires b.asSlave && !b.asMaster && Coupled(b.link)
    ensures var gone := After(After(b, Connect(Lifecycle.Master, "", false)), Restart(Lifecycle.Master));
            var back := After(After(gone, Connect(Lifecycle.Slave, master, false)), Restart(Lifecycle.Slave));
            gone.link.live == multiset{} && back.link.calls == b.link.calls + b.cached && back.link.live == b.cached
  {
  }

  // ---------------------------------------------------------------- the node's part

  /** Whether an operation decides about the node's part. */
  predicate Decides(op: Op) {
    op.Shutdown? || op == Restart(Lifecycle.Master) || op == Restart(Lifecycle.Slave)
  }

  /** Step j is the last among the first k that decides, and it is a restart in this role. */
  ghost predicate LastAt(ops: seq<Op>, j: nat, k: nat, role: Lifecycle.Role)
    requires k <= |ops|
  {
    j < k && ops[j] == Restart(role) && forall i :: j < i < k ==> !Decides(ops[i])
  }

  ghost predicate LastWas(ops: seq<Op>, k: nat, role: Lifecycle.Role)
    requires k <= |ops|
  {
    exists j :: LastAt(ops, j, k, role)
  }

  lemma LastOneMore(ops: seq<Op>, k: nat, role: Lifecycle.Role)
    requires 0 < k <= |ops| && (role == Lifecycle.Master || role == Lifecycle.Slave)
    ensures LastWas(ops, k, role) <==>
            if Decides(ops[k - 1]) then ops[k - 1] == Restart(role) else LastWas(ops, k - 1, role)
  {
    if ops[k - 1] == Restart(role) {
      assert LastAt(ops, k - 1, k, role);
    } else if !Decides(ops[k - 1]) {
      var m := k - 1;
      if j :| LastAt(ops, j, m, role) {
        assert LastAt(ops, j, k, role);
      }
      if j :| LastAt(ops, j, k, role) {
        assert LastAt(ops, j, m, role);
      }
    }
  }

  lemma PartAfter(b: Bus, op: Op)
    requires !(b.asMaster && b.asSlave)
    ensures After(b, op).asMaster <==> if Decides(op) then op == Restart(Lifecycle.Master) else b.asMaster
    ensures After(b, op).asSlave <==> if Decides(op) then op == Restart(Lifecycle.Slave) else b.asSlave
  {
  }

  /** The node runs as master exactly when the last operation that decides was a restart as
      master, and as slave likewise. Restarts in any other role, a lost master among them,
      leave it in the part it had. */
  lemma {:induction false} PartIsLastDecision(ops: seq<Op>, bs: seq<Bus>, k: nat)
    requires Run(ops, bs) && k <= |ops|
    ensures bs[k].asMaster <==> LastWas(ops, k, Lifecycle.Master)
    ensures bs[k].asSlave <==> LastWas(ops, k, Lifecycle.Slave)
  {
    if k > 0 {
      PartIsLastDecision(ops, bs, k - 1);
      RunIsSound(ops, bs, k - 1);
      assert Follows(ops, bs, k - 1);
      PartAfter(bs[k - 1], ops[k - 1]);
      LastOneMore(ops, k, Lifecycle.Master);
      LastOneMore(ops, k, Lifecycle.Slave);
    }
  }

  /** An event that both publishers take reaches the own handlers in any case, and the other
      nodes exactly when the last decision was for master. */
  lemma PublishReachesOthersIff(ops: seq<Op>, bs: seq<Bus>, k: nat, e: Event)
    requires Run(ops, bs) && k < |ops| && ops[k] == Publish(e, false, false)
    ensures bs[k + 1].publishedInternally == bs[k].publishedInternally + [e]
    ensures bs[k + 1].publishedExternally == bs[k].publishedExternally + [e] <==> LastWas(ops, k, Lifecycle.Master)
  {
    PartIsLastDecision(ops, bs, k);
    assert Follows(ops, bs, k);
    assert |bs[k].publishedExternally + [e]| == |bs[k].publishedExternally| + 1;
  }
}
