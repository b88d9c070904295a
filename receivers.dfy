/**
 * The `post_save` receiver of publishable models: a saved instance is
 * published on its channel when its class asks for it.
 */
module Receivers {
  import opened Records
  import opened Broker
  import opened Models

  /** A publishable model class: its identity and its two class-level publishing flags. */
  datatype PublishableClass = PublishableClass(kind: ModelKind, publishOnCreate: bool, publishOnUpdate: bool)

  /** The flag the save consults: the creation flag on a creation, the update flag otherwise. */
  function ShouldPublish(sender: PublishableClass, created: bool): bool {
    if created then sender.publishOnCreate else sender.publishOnUpdate
  }

  /** A creation publishes iff the creation flag is set, whatever the update flag says. */
  lemma CreationUsesOnlyCreateFlag(sender: PublishableClass, onUpdate: bool)
    ensures ShouldPublish(sender, true) <==> sender.publishOnCreate
    ensures ShouldPublish(sender.(publishOnUpdate := onUpdate), true) == ShouldPublish(sender, true)
  {
  }

  /** An update publishes iff the update flag is set, whatever the creation flag says. */
  lemma UpdateUsesOnlyUpdateFlag(sender: PublishableClass, onCreate: bool)
    ensures ShouldPublish(sender, false) <==> sender.publishOnUpdate
    ensures ShouldPublish(sender.(publishOnCreate := onCreate), false) == ShouldPublish(sender, false)
  {
  }

  /**
   * `subscribable_changed`: picks the flag for the kind of save, and when it
   * is set publishes the instance on its own channel (`instance.publish()`,
   * which is `channel.publish(instance)`). A save publishes at most once.
   */
  method SubscribableChanged(db: Database, redis: SyncRedis, sender: PublishableClass, instance: Obj, created: bool)
    requires instance.channel.Some?
    modifies redis
    ensures redis.published == old(redis.published) +
      if ShouldPublish(sender, created) && Active(db.subscriptions, instance.channel.value)
      then [Message(instance.channel.value, PayloadOf(instance.ref))] else []
  {
    var publish: bool;
    if created {
      publish := sender.publishOnCreate;
    } else {
      publish := sender.publishOnUpdate;
    }
    if publish {
      Publish(db, redis, instance.channel.value, instance);
    }
  }

  /**
   * A save of an instance of `sender` followed by its `post_save` signal, as
   * the receiver is connected for every publishable class: the instance is
   * stored under its identity, `created` when it was not stored before.
   */
  method Save(db: Database, redis: SyncRedis, sender: PublishableClass, instance: Obj) returns (created: bool)
    requires db.Valid() && instance.channel.Some?
    requires instance.ref.kind == sender.kind && sender.kind in db.registry
    modifies db`objects, redis
    ensures db.Valid()
    ensures created == (instance.ref !in old(db.objects))
    ensures db.objects == old(db.objects)[instance.ref := instance]
    ensures redis.published == old(redis.published) +
      if ShouldPublish(sender, created) && Active(db.subscriptions, instance.channel.value)
      then [Message(instance.channel.value, PayloadOf(instance.ref))] else []
  {
    created := instance.ref !in db.objects;
    db.objects := db.objects[instance.ref := instance];
    SubscribableChanged(db, redis, sender, instance, created);
  }
}
