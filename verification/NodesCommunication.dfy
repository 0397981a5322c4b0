/** The external subscriber and the role change that connects it to the master
    (`event/bus/grpcbus.go`, `com9n/configurator.go`, `com9n/receiver.go`). */
module NodesCommunication {
  import opened Common
  import opened Subscribers
  import Lifecycle

  /** The subscriber by value, with the receiver that activates it: every subscribe call made
      on it, the subscriptions alive, whether it is active and for which master, and whether
      the receiver has started. The receiver's own subscription is not counted. */
  datatype Link = Link(calls: Pairs, live: Pairs, active: bool, address: string, receiving: bool)

  const UNLINKED := Link(multiset{}, multiset{}, false, "", false)

  /** A subscriber that is not active only warns. */
  function Subscribed(l: Link, more: Pairs): Link {
    l.(calls := l.calls + more, live := if l.active then l.live + more else l.live)
  }

  function Stopped(l: Link): Link {
    if l.active then l.(active := false, live := multiset{}) else l
  }

  /** The receiver stopped, if it had started. */
  function Disconnected(l: Link): Link {
    if l.receiving then Stopped(l).(receiving := false) else l
  }

  /** A role change: a slave stops receiving and starts again from the new master, which
      fails when the subscriber refuses or the first snapshot does not come; a master stops
      receiving; any other role does nothing. */
  function Connected(l: Link, role: Lifecycle.Role, master: string, snapshotFails: bool): Link {
    if role == Lifecycle.Master then Disconnected(l)
    else if role != Lifecycle.Slave then l
    else
      var idle := Disconnected(l);
      if idle.active then idle
      else if snapshotFails then Stopped(idle.(address := master, active := true))
      else idle.(address := master, active := true, receiving := true)
  }

  /** Only a receiver that has started keeps the subscriber active, and nothing is alive on
      an inactive one. */
  predicate Coupled(l: Link) {
    (l.active ==> l.receiving) && (!l.active ==> l.live == multiset{})
  }

  lemma ConnectedIsCoupled(l: Link, role: Lifecycle.Role, master: string, snapshotFails: bool)
    requires Coupled(l)
    ensures var after := Connected(l, role, master, snapshotFails);
            && Coupled(after) && after.calls == l.calls
            && (role == Lifecycle.Slave ==>
                  && after.live == multiset{} && after.address == master
                  && (after.active <==> !snapshotFails) && (after.receiving <==> !snapshotFails))
            && (role == Lifecycle.Master ==>
                  after.live == multiset{} && !after.active && !after.receiving && after.address == l.address)
            && (role != Lifecycle.Slave && role != Lifecycle.Master ==> after == l)
  {
  }

  class GRPCBusSubscriber {
    var calls: Pairs
    var live: Pairs
    var subscriberIsActive: bool
    var targetAddress: string

    constructor ()
      ensures calls == multiset{} && live == multiset{} && !subscriberIsActive && targetAddress == ""
    {
      calls, live, subscriberIsActive, targetAddress := multiset{}, multiset{}, false, "";
    }

    ghost function View(receiving: bool): Link
      reads this
    {
      Link(calls, live, subscriberIsActive, targetAddress, receiving)
    }

    method Subscribe(topic: Name, handler: Sub)
      modifies this
      ensures forall r :: View(r) == Subscribed(old(View(r)), multiset{(topic, handler)})
    {
      calls := calls + multiset{(topic, handler)};
      if subscriberIsActive {
        live := live + multiset{(topic, handler)};
      }
    }

    method Activate(address: string) returns (ok: bool)
      modifies this
      ensures ok <==> !old(subscriberIsActive)
      ensures forall r :: View(r) == if ok then old(View(r)).(active := true, address := address) else old(View(r))
    {
      ok := !subscriberIsActive;
      if ok {
        targetAddress, subscriberIsActive := address, true;
      }
    }

    method Shutdown()
      modifies this
      ensures forall r :: View(r) == Stopped(old(View(r)))
    {
      if subscriberIsActive {
        subscriberIsActive, live := false, multiset{};
      }
    }
  }

  /** The configurator with its receiver. */
  class Configurator {
    const subscriber: GRPCBusSubscriber
    var receiving: bool

    constructor (subscriber: GRPCBusSubscriber)
      ensures this.subscriber == subscriber && !receiving
    {
      this.subscriber, receiving := subscriber, false;
    }

    ghost function View(): Link
      reads this, subscriber
    {
      subscriber.View(receiving)
    }

    method StopReceiving()
      modifies this, subscriber
      ensures View() == Stopped(old(View())).(receiving := false)
    {
      subscriber.Shutdown();
      receiving := false;
    }

    method StartReceiving(master: string, snapshotFails: bool) returns (ok: bool)
      requires !receiving
      modifies this, subscriber
      ensures ok <==> !old(View()).active && !snapshotFails
      ensures View() == if old(View()).active then old(View())
                        else if snapshotFails then Stopped(old(View()).(address := master, active := true))
                        else old(View()).(address := master, active := true, receiving := true)
    {
      ok := subscriber.Activate(master);
      if !ok {
        return;
      }
      if snapshotFails {
        subscriber.Shutdown();
        return false;
      }
      receiving := true;
    }

    method SetUpNodesCommunication(role: Lifecycle.Role, master: string, snapshotFails: bool) returns (ok: bool)
      modifies this, subscriber
      ensures View() == Connected(old(View()), role, master, snapshotFails)
      ensures old(Coupled(View())) ==> Coupled(View()) && (ok <==> role != Lifecycle.Slave || !snapshotFails)
    {
      ok := true;
      if role == Lifecycle.Slave {
        if receiving {
          StopReceiving();
        }
        ok := StartReceiving(master, snapshotFails);
      } else if role == Lifecycle.Master {
        if receiving {
          StopReceiving();
        }
      }
    }
  }
}
