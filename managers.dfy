/**
 * The manager query of publishable models: which (subscriber, instance) pairs
 * have no received-publication record yet.
 */
module Managers {
  import opened Records

  /** Every instance of a publishable model has its channel (the foreign key is not nullable). */
  predicate HasChannels(instances: seq<Obj>) {
    forall n :: 0 <= n < |instances| ==> instances[n].channel.Some?
  }

  /** The subscriber holds a record of having received the instance on the instance's channel. */
  predicate Delivered(received: seq<ReceivedPublication>, instance: Obj, subscriber: UserId)
    requires instance.channel.Some?
  {
    ReceivedPublication(instance.channel.value, subscriber, instance.ref) in received
  }

  /** The pairs one instance contributes: its channel's subscriptions, in table order, without a record. */
  function PendingFor(subs: seq<Subscription>, received: seq<ReceivedPublication>, instance: Obj): seq<(UserId, Obj)>
    requires instance.channel.Some?
  {
    if |subs| == 0 then []
    else
      var s := subs[|subs| - 1];
      PendingFor(subs[..|subs| - 1], received, instance) +
        if s.channel == instance.channel.value && !Delivered(received, instance, s.subscriber) then [(s.subscriber, instance)] else []
  }

  /** The pairs of all instances, grouped per instance in iteration order. */
  function Undelivered(instances: seq<Obj>, subs: seq<Subscription>, received: seq<ReceivedPublication>): seq<(UserId, Obj)>
    requires HasChannels(instances)
  {
    if |instances| == 0 then []
    else Undelivered(instances[..|instances| - 1], subs, received) + PendingFor(subs, received, instances[|instances| - 1])
  }

  /** One instance's pairs are exactly its channel's subscribers that hold no record for it. */
  lemma {:induction false} PendingForSpec(subs: seq<Subscription>, received: seq<ReceivedPublication>, instance: Obj, p: (UserId, Obj))
    requires instance.channel.Some?
    ensures p in PendingFor(subs, received, instance) <==>
      && p.1 == instance
      && !Delivered(received, instance, p.0)
      && exists i :: 0 <= i < |subs| && subs[i].subscriber == p.0 && subs[i].channel == instance.channel.value
  {
    if |subs| > 0 {
      var init := subs[..|subs| - 1];
      PendingForSpec(init, received, instance, p);
      if exists i :: 0 <= i < |init| && init[i].subscriber == p.0 && init[i].channel == instance.channel.value {
        var i :| 0 <= i < |init| && init[i].subscriber == p.0 && init[i].channel == instance.channel.value;
        assert subs[i] == init[i];
      }
      if exists i :: 0 <= i < |subs| && subs[i].subscriber == p.0 && subs[i].channel == instance.channel.value {
        var i :| 0 <= i < |subs| && subs[i].subscriber == p.0 && subs[i].channel == instance.channel.value;
        if i < |init| {
          assert init[i] == subs[i];
        }
      }
    }
  }

  /** The pairs of all instances are the pairs of some instance. */
  lemma {:induction false} UndeliveredMembers(instances: seq<Obj>, subs: seq<Subscription>, received: seq<ReceivedPublication>, p: (UserId, Obj))
    requires HasChannels(instances)
    ensures p in Undelivered(instances, subs, received) <==>
      exists n :: 0 <= n < |instances| && p in PendingFor(subs, received, instances[n])
  {
    if |instances| > 0 {
      var init, last := instances[..|instances| - 1], instances[|instances| - 1];
      UndeliveredMembers(init, subs, received, p);
      assert Undelivered(instances, subs, received) == Undelivered(init, subs, received) + PendingFor(subs, received, last);
      assert forall n :: 0 <= n < |init| ==> init[n] == instances[n];
    }
  }

  /**
   * Soundness: every returned pair is an instance and a subscriber with a
   * subscription on that instance's channel, and no record of that subscriber
   * having received that instance on that channel exists.
   */
  lemma UndeliveredSound(instances: seq<Obj>, subs: seq<Subscription>, received: seq<ReceivedPublication>, p: (UserId, Obj))
    requires HasChannels(instances)
    requires p in Undelivered(instances, subs, received)
    ensures p.1 in instances && p.1.channel.Some?
    ensures exists i :: 0 <= i < |subs| && subs[i].subscriber == p.0 && subs[i].channel == p.1.channel.value
    ensures !Delivered(received, p.1, p.0)
  {
    UndeliveredMembers(instances, subs, received, p);
    var n :| 0 <= n < |instances| && p in PendingFor(subs, received, instances[n]);
    PendingForSpec(subs, received, instances[n], p);
  }

  /** Completeness: every subscription on an instance's channel whose subscriber holds no record yields its pair. */
  lemma UndeliveredComplete(instances: seq<Obj>, subs: seq<Subscription>, received: seq<ReceivedPublication>, n: nat, i: nat)
    requires HasChannels(instances)
    requires n < |instances| && i < |subs|
    requires subs[i].channel == instances[n].channel.value
    requires !Delivered(received, instances[n], subs[i].subscriber)
    ensures (subs[i].subscriber, instances[n]) in Undelivered(instances, subs, received)
  {
    var p := (subs[i].subscriber, instances[n]);
    PendingForSpec(subs, received, instances[n], p);
    UndeliveredMembers(instances, subs, received, p);
  }

  /** The `active` flag is not consulted: tables that differ only in it give the same pairs. */
  lemma {:induction false} UndeliveredIgnoresActive(instances: seq<Obj>, subs: seq<Subscription>, others: seq<Subscription>,
                                                    received: seq<ReceivedPublication>)
    requires HasChannels(instances)
    requires |others| == |subs|
    requires forall i :: 0 <= i < |subs| ==> SamePair(others[i], subs[i].subscriber, subs[i].channel)
    ensures Undelivered(instances, others, received) == Undelivered(instances, subs, received)
  {
    if |instances| > 0 {
      UndeliveredIgnoresActive(instances[..|instances| - 1], subs, others, received);
      PendingForIgnoresActive(subs, others, received, instances[|instances| - 1]);
    }
  }

  lemma {:induction false} PendingForIgnoresActive(subs: seq<Subscription>, others: seq<Subscription>,
                                                   received: seq<ReceivedPublication>, instance: Obj)
    requires instance.channel.Some?
    requires |others| == |subs|
    requires forall i :: 0 <= i < |subs| ==> SamePair(others[i], subs[i].subscriber, subs[i].channel)
    ensures PendingFor(others, received, instance) == PendingFor(subs, received, instance)
  {
    if |subs| > 0 {
      PendingForIgnoresActive(subs[..|subs| - 1], others[..|others| - 1], received, instance);
    }
  }

  /** The pairs are grouped per instance, in the order the instances are iterated. */
  lemma {:induction false} UndeliveredGrouped(a: seq<Obj>, b: seq<Obj>, subs: seq<Subscription>, received: seq<ReceivedPublication>)
    requires HasChannels(a) && HasChannels(b)
    ensures HasChannels(a + b)
    ensures Undelivered(a + b, subs, received) == Undelivered(a, subs, received) + Undelivered(b, subs, received)
    decreases |b|
  {
    if |b| > 0 {
      var b' := b[..|b| - 1];
      assert (a + b)[..|a + b| - 1] == a + b';
      UndeliveredGrouped(a, b', subs, received);
    } else {
      assert a + b == a;
    }
  }

  /** `instance.channel.subscribers`, as the set of their subscribers. */
  method SubscribersOf(subs: seq<Subscription>, channel: string) returns (subscribers: set<UserId>)
    ensures forall u :: u in subscribers <==> exists i :: 0 <= i < |subs| && subs[i].channel == channel && subs[i].subscriber == u
  {
    subscribers := {};
    var j := 0;
    while j < |subs|
      invariant 0 <= j <= |subs|
      invariant subscribers == set i | 0 <= i < j && subs[i].channel == channel :: subs[i].subscriber
    {
      if subs[j].channel == channel {
        subscribers := subscribers + {subs[j].subscriber};
      }
      j := j + 1;
    }
  }

  /**
   * The `subscriber_id`s of the received records for the instance, on the
   * instance's channel, whose subscriber is one of `subscribers`.
   */
  method ReceivedBy(received: seq<ReceivedPublication>, instance: Obj, subscribers: set<UserId>) returns (receivedBy: set<UserId>)
    requires instance.channel.Some?
    ensures forall u :: u in receivedBy <==> u in subscribers && Delivered(received, instance, u)
  {
    receivedBy := {};
    var j := 0;
    while j < |received|
      invariant 0 <= j <= |received|
      invariant forall u :: u in receivedBy <==> u in subscribers && ReceivedPublication(instance.channel.value, u, instance.ref) in received[..j]
    {
      var r := received[j];
      if r.publication == instance.ref && r.channel == instance.channel.value && r.subscriber in subscribers {
        receivedBy := receivedBy + {r.subscriber};
      }
      assert received[..j + 1] == received[..j] + [r];
      j := j + 1;
    }
    assert received[..j] == received;
  }

  /**
   * `get_undelivered`: for each instance in turn, the subscribers of its
   * channel, the subscribers among them with a record of the instance on that
   * channel, and then the channel's subscriptions excluding those. The query
   * reads the tables and changes nothing.
   */
  method GetUndelivered(db: Database, instances: seq<Obj>) returns (undelivered: seq<(UserId, Obj)>)
    requires HasChannels(instances)
    ensures undelivered == Undelivered(instances, db.subscriptions, db.received)
  {
    var subs, received := db.subscriptions, db.received;
    undelivered := [];
    var n := 0;
    while n < |instances|
      invariant 0 <= n <= |instances|
      invariant undelivered == Undelivered(instances[..n], subs, received)
    {
      var instance := instances[n];
      var channel := instance.channel.value;
      var subscribers := SubscribersOf(subs, channel);
      var receivedBy := ReceivedBy(received, instance, subscribers);
      var j := 0;
      ghost var before := undelivered;
      while j < |subs|
        invariant 0 <= j <= |subs|
        invariant undelivered == before + PendingFor(subs[..j], received, instance)
      {
        var s := subs[j];
        assert subs[..j + 1][..j] == subs[..j];
        assert s.channel == channel ==> s.subscriber in subscribers;
        if s.channel == channel && s.subscriber !in receivedBy {
          undelivered := undelivered + [(s.subscriber, instance)];
        }
        j := j + 1;
      }
      assert subs[..j] == subs;
      assert instances[..n + 1][..n] == instances[..n];
      n := n + 1;
    }
    assert instances[..n] == instances;
  }
}
