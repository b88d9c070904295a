/**
 * The persisted records of the publish/subscribe layer: channels (by name),
 * subscriptions, received-publication records and the stored model instances
 * that are published, together with the database that holds them as tables.
 */
module Records {
  import opened Wrappers

  /** A user's primary key. */
  type UserId = nat

  /** A model class as its `_meta.app_label` and `_meta.object_name` name it; a content type stands for one. */
  datatype ModelKind = ModelKind(appLabel: string, objectName: string)

  /** The identity of a stored model instance: its class and its primary key. */
  datatype ObjectRef = ObjectRef(kind: ModelKind, pk: nat)

  /**
   * A stored model instance. `channel` is the channel foreign key of a publishable
   * model (`None` for other models, users for one); `data` stands for its other fields.
   */
  datatype Obj = Obj(ref: ObjectRef, channel: Option<string>, data: string)

  /** The JSON object `{app_label, object_name, pk}` a channel publishes. */
  datatype Payload = Payload(appLabel: string, objectName: string, pk: nat)

  /** A subscriber's subscription to the channel with the given name; `active` can turn it off. */
  datatype Subscription = Subscription(subscriber: UserId, channel: string, active: bool)

  /** The record that a subscriber received a publication on a channel (its timestamp is left out). */
  datatype ReceivedPublication = ReceivedPublication(channel: string, subscriber: UserId, publication: ObjectRef)

  predicate SamePair(s: Subscription, subscriber: UserId, channel: string) {
    s.subscriber == subscriber && s.channel == channel
  }

  /** The `unique_together = ("subscriber", "channel")` constraint of the subscription table. */
  ghost predicate UniquePairs(subs: seq<Subscription>) {
    forall i, j :: 0 <= i < j < |subs| ==> !SamePair(subs[j], subs[i].subscriber, subs[i].channel)
  }

  /** Every stored instance is filed under its own identity, and its class is an installed model. */
  ghost predicate Directory(registry: set<ModelKind>, objects: map<ObjectRef, Obj>) {
    forall r :: r in objects ==> objects[r].ref == r && r.kind in registry
  }

  /** The tables the layer reads and writes. */
  class Database {
    var subscriptions: seq<Subscription>
    var received: seq<ReceivedPublication>
    var objects: map<ObjectRef, Obj>
    /** The installed models, as the model registry (`get_model`) knows them. */
    const registry: set<ModelKind>

    ghost predicate Valid()
      reads this
    {
      UniquePairs(subscriptions) && Directory(registry, objects)
    }

    constructor (registry: set<ModelKind>)
      ensures Valid() && this.registry == registry
      ensures subscriptions == [] && received == [] && objects == map[]
    {
      this.registry := registry;
      subscriptions, received, objects := [], [], map[];
    }
  }
}
