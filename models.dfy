/**
 * The channel and subscription models: whether a channel has listeners, the
 * subscribe upsert, publishing a model instance as its three-field reference,
 * and the reader a subscription hands out.
 */
module Models {
  import opened Wrappers
  import opened Records
  import opened Broker
  import opened Util

  /** `Channel.active`: some subscription to the channel is switched on. */
  function Active(subs: seq<Subscription>, channel: string): (r: bool)
    ensures r <==> exists i :: 0 <= i < |subs| && subs[i].channel == channel && subs[i].active
  {
    if |subs| == 0 then false
    else Active(subs[..|subs| - 1], channel) || (subs[|subs| - 1].channel == channel && subs[|subs| - 1].active)
  }

  /** The lookup half of `get_or_create`: the row of the pair, if there is one. */
  function FindSubscription(subs: seq<Subscription>, subscriber: UserId, channel: string): (r: Option<nat>)
    ensures r.Some? ==> r.value < |subs| && SamePair(subs[r.value], subscriber, channel)
    ensures r.None? <==> forall i :: 0 <= i < |subs| ==> !SamePair(subs[i], subscriber, channel)
  {
    if |subs| == 0 then None
    else if SamePair(subs[|subs| - 1], subscriber, channel) then Some(|subs| - 1)
    else FindSubscription(subs[..|subs| - 1], subscriber, channel)
  }

  /** The lookup sees only which rows hold the pair, not their `active` flags. */
  lemma {:induction false} FindSeesOnlyPairs(a: seq<Subscription>, b: seq<Subscription>, subscriber: UserId, channel: string)
    requires |a| == |b|
    requires forall i :: 0 <= i < |a| ==> (SamePair(a[i], subscriber, channel) <==> SamePair(b[i], subscriber, channel))
    ensures FindSubscription(a, subscriber, channel) == FindSubscription(b, subscriber, channel)
  {
    if |a| > 0 {
      FindSeesOnlyPairs(a[..|a| - 1], b[..|b| - 1], subscriber, channel);
    }
  }

  /**
   * The subscription table after `subscribe(subscriber)` on `channel`: the
   * row of the pair is switched on where it exists, otherwise a new row,
   * active by default, is appended. Every other row keeps its place and value,
   * the pair stays unique and the channel is active afterwards.
   */
  function Upsert(subs: seq<Subscription>, subscriber: UserId, channel: string): (r: seq<Subscription>)
    ensures |r| == if FindSubscription(subs, subscriber, channel).Some? then |subs| else |subs| + 1
    ensures forall i :: 0 <= i < |subs| && !SamePair(subs[i], subscriber, channel) ==> r[i] == subs[i]
    ensures Subscription(subscriber, channel, true) in r
    ensures UniquePairs(subs) ==> UniquePairs(r)
    ensures UniquePairs(subs) ==> forall i :: 0 <= i < |r| && SamePair(r[i], subscriber, channel) ==> r[i].active
    ensures Active(r, channel)
  {
    match FindSubscription(subs, subscriber, channel)
    case Some(i) =>
      var r := subs[i := subs[i].(active := true)];
      assert r[i] == Subscription(subscriber, channel, true);
      r
    case None =>
      var r := subs + [Subscription(subscriber, channel, true)];
      assert r[|subs|] == Subscription(subscriber, channel, true);
      r
  }

  /** Subscribing twice leaves the table as subscribing once. */
  lemma UpsertIdempotent(subs: seq<Subscription>, subscriber: UserId, channel: string)
    ensures Upsert(Upsert(subs, subscriber, channel), subscriber, channel) == Upsert(subs, subscriber, channel)
  {
    var r := Upsert(subs, subscriber, channel);
    match FindSubscription(subs, subscriber, channel)
    case Some(i) =>
      assert r == subs[i := subs[i].(active := true)];
      FindSeesOnlyPairs(r, subs, subscriber, channel);
      assert r[i := r[i].(active := true)] == r;
    case None =>
      assert r == subs + [Subscription(subscriber, channel, true)];
      assert FindSubscription(r, subscriber, channel) == Some(|subs|);
      assert r[|subs| := r[|subs|].(active := true)] == r;
  }

  /** Subscribing to one channel leaves whether every other channel is active as it was. */
  lemma {:induction false} UpsertOtherChannels(subs: seq<Subscription>, subscriber: UserId, channel: string, other: string)
    requires other != channel
    ensures Active(Upsert(subs, subscriber, channel), other) == Active(subs, other)
  {
    var r := Upsert(subs, subscriber, channel);
    if Active(subs, other) {
      var i :| 0 <= i < |subs| && subs[i].channel == other && subs[i].active;
      assert r[i] == subs[i];
    }
    if Active(r, other) {
      var i :| 0 <= i < |r| && r[i].channel == other && r[i].active;
      assert i < |subs| && r[i] == subs[i];
    }
  }

  /**
   * `Channel.subscribe`: `get_or_create` of the pair's row, then `active` set
   * and saved; returns that subscription.
   */
  method Subscribe(db: Database, channel: string, subscriber: UserId) returns (s: Subscription)
    requires db.Valid()
    modifies db`subscriptions
    ensures db.Valid()
    ensures db.subscriptions == Upsert(old(db.subscriptions), subscriber, channel)
    ensures s == Subscription(subscriber, channel, true)
  {
    var found := FindSubscription(db.subscriptions, subscriber, channel);
    var index: nat;
    if found.None? {
      // created with the field's default
      db.subscriptions := db.subscriptions + [Subscription(subscriber, channel, true)];
      index := |db.subscriptions| - 1;
      assert db.subscriptions == Upsert(old(db.subscriptions), subscriber, channel);
    } else {
      index := found.value;
      assert SamePair(db.subscriptions[index], subscriber, channel);
    }
    s := db.subscriptions[index].(active := true);
    assert s == Subscription(subscriber, channel, true);
    db.subscriptions := db.subscriptions[index := s];
    assert db.subscriptions == Upsert(old(db.subscriptions), subscriber, channel);
  }

  /** The JSON-serialisable reduction of a model instance: its class's label and name, and its primary key. */
  function PayloadOf(ref: ObjectRef): (p: Payload)
    ensures RefOf(p) == ref
  {
    Payload(ref.kind.appLabel, ref.kind.objectName, ref.pk)
  }

  /**
   * What a subscriber's reader recovers from a published payload is the very
   * instance that was published, as long as it is still stored.
   */
  lemma PublishedPayloadResolves(registry: set<ModelKind>, objects: map<ObjectRef, Obj>, model: Obj)
    requires Directory(registry, objects)
    requires model.ref in objects && objects[model.ref] == model
    ensures GetModelInstance(registry, objects, PayloadOf(model.ref)) == Success(model)
  {
    GetModelInstanceSpec(registry, objects, PayloadOf(model.ref));
  }

  /**
   * A stored instance, once published, reaches a listening reader as the
   * stored instance itself: a one-message run hands it over once, and goes on
   * waiting only when the callback answers "continue" and the channel is
   * still open; otherwise it closes.
   */
  lemma PublishedThenDelivered(callback: nat -> bool, registry: set<ModelKind>, objects: map<ObjectRef, Obj>,
                               model: Obj, open: bool, calls: nat)
    requires Directory(registry, objects)
    requires model.ref in objects && objects[model.ref] == model
    ensures ReaderLoop(Some(callback), registry, objects, [PayloadOf(model.ref)], open, 0, calls)
      == LoopRun([model], if callback(calls) && open then Waiting else Closed)
  {
    PublishedPayloadResolves(registry, objects, model);
  }

  /**
   * `Channel.publish`: on an active channel, one message on the channel's name
   * carrying the model's reference; on an inactive one, nothing.
   */
  method Publish(db: Database, redis: SyncRedis, channel: string, model: Obj)
    modifies redis
    ensures redis.published == old(redis.published) +
      if Active(db.subscriptions, channel) then [Message(channel, PayloadOf(model.ref))] else []
  {
    if Active(db.subscriptions, channel) {
      var kwargs := Payload(model.ref.kind.appLabel, model.ref.kind.objectName, model.ref.pk);
      RedisChannelPublish(redis, channel, kwargs);
    }
  }

  /** `Subscription.get_reader`: a new, inactive reader of the subscription's channel, with no callback yet. */
  method GetReader(s: Subscription, manager: SubscriptionManager?) returns (r: ChannelReader)
    ensures fresh(r)
    ensures r.subscriber == s.subscriber && r.channel == s.channel && r.manager == manager
    ensures r.callback.None? && !r.IsActive() && r.delivered == []
  {
    r := new ChannelReader(s, manager);
  }
}
