# django-redis-pubsub: the subscription layer, modelled in Dafny

django-redis-pubsub publishes Django model instances over Redis
publish/subscribe.

- **Channels and subscriptions.** A `Channel` is a uniquely named row. A `Subscription` ties a subscriber to a channel and can be switched off.
- **Publishing.** Saving a publishable model may publish the instance on its channel as the three fields `{app_label, object_name, pk}`. This happens only when the model class asks for it and only when the channel has an active subscription.
- **Receiving.** On the receiving side, a `ChannelReader` wraps a user callback, subscribes its channel through a `SubscriptionManager`, and runs a listen task. For each message, the task resolves the three fields back to the stored instance, hands it to the callback, and then writes a `ReceivedPublication` record. The task stops after the first callback that answers "stop".
- **Managing readers.** The manager keeps one reader per channel name over one subscribing connection. It can remove, clear and stop them.
- **Catching up.** `get_undelivered` lists the `(subscriber, instance)` pairs that have no received record yet.

The model is organised by module:

- `Wrappers`: `Option` and `Result`.
- `Records`: the rows and the `Database` class that holds the tables.
  - The tables are the subscriptions, the received records, the stored instances by identity, and the installed model classes.
  - A channel is identified by its name, which is unique (`redis_pubsub/models.py:57`).
- `Broker`: the Redis side, reduced to what the layer observes.
  - `SyncRedis` is the publishing client and keeps the log of published messages.
  - `AsyncRedis` is the subscribing connection: the set of subscribed channels and a `closed` flag.
  - On a closed connection, `SUBSCRIBE` and `UNSUBSCRIBE` fail. That is aioredis's `ConnectionClosedError`, modelled as an `ok = false` result.
- `Util` (`redis_pubsub/util.py`):
  - the reader loop, as the recursive specification `ReaderLoop` over the finite sequence of messages that reach the channel;
  - `ChannelReader`, a class with `callback`, `manager` and `future` fields, and with `Run`, the task at work, proved against `ReaderLoop`;
  - `SubscriptionManager`, a class whose `readers` map is mutated by `Add`, `Remove`, `Clear` and `Stop`.
- `Models` (`redis_pubsub/models.py`):
  - `Channel.active`;
  - the `subscribe` upsert, a method over the subscription table, specified by the function `Upsert`;
  - `publish`, and `get_reader`.
- `Managers` (`redis_pubsub/managers.py`): `get_undelivered`. It is a nested-loop method proved equal to the specification `Undelivered`, with soundness and completeness lemmas.
- `Receivers` (`redis_pubsub/receivers.py`): `subscribable_changed` and the `post_save` wiring.

The user callback is modelled as a function `nat -> bool`: its answer on its k-th invocation. `k` is the number of invocations so far, which the reader keeps in `delivered`. The task starts with the callback bound when `listen` ran, because `listen` passes `self._callback` to `redis_channel_reader` at that point. A reader's future is `None` (never listened), `Pending`, `Finished`, `Cancelled` or `Failed`. Cancellation takes effect at once.

The loop `while (yield from channel.wait_message())` (`redis_pubsub/util.py:55`) ends once its channel is closed. That happens when the callback answers "stop", when the channel's name is unsubscribed (by `remove` of any reader on that name), and when the connection is closed. `ReaderLoop` therefore takes whether the channel is still `open`: a task hands over the messages queued on its channel and then waits on if the channel is open, or finishes if it was closed.

Three points about the code itself:

- The code has no handler around `get_model_instance` or the callback (`redis_pubsub/util.py:55-59`, `116-118`). A payload that does not resolve therefore ends the task with an exception (`Failed(Unresolved(...))`). So does a reader that listens without a bound callback (`Failed(NoCallback)`).
- `get_undelivered` does not filter on `active` (`redis_pubsub/managers.py:14`, `24`). `Managers.UndeliveredIgnoresActive` states this.
- `subscribe` returns the `Subscription` (`redis_pubsub/models.py:74`), and so does `Models.Subscribe`. `tests/test_channel_reader.py:76-77` asserts that it returns a `ChannelReader`.

## Model

| member | source | states |
|---|---|---|
| Util.RedisChannelPublish | redis_pubsub/util.py:62-71 | publishing appends exactly one message, on the given channel and carrying the given payload, to the client's log |
| Util.GetModelInstance | redis_pubsub/util.py:139-142 | resolution looks up the model class by its label and name, failing with a lookup error when no such model is installed, then the instance by its primary key, failing with does-not-exist when there is none; its properties are stated by `Util.GetModelInstanceSpec` |
| Util.GetModelInstanceSpec | redis_pubsub/util.py:139-142 | over a consistent directory, resolution succeeds iff the named instance is stored and then returns exactly that instance; an unknown model class fails with a lookup error, a missing primary key with does-not-exist |
| Util.ReaderLoop | redis_pubsub/util.py:47-59 | the listen loop over the messages that reach the channel: resolve, hand to the callback, close after the first stop, raise on an unresolvable message or a missing callback; its properties are stated by `Util.ReaderLoopSpec`, `Util.ReaderLoopStopsAtFirstFalse` and `Util.ReaderLoopTurn` |
| Util.ReaderLoopSpec | redis_pubsub/util.py:47-59 | for every message sequence: the n-th publication handed over is the resolution of the n-th message; every invocation but the last said continue; the loop waits on iff the channel is open and every message was handed over and answered continue; it closes right after a stop, or once a closed channel's messages are drained; it raises only after continue answers, at the first unresolvable message, or at once, having handed over nothing, when no callback was bound |
| Util.ReaderLoopStopsAtFirstFalse | redis_pubsub/util.py:55-59 | over messages that all resolve, the callback is invoked on every message up to and including the first one answered stop and on none after it, and the loop closes |
| Util.ReaderLoopTurn | redis_pubsub/util.py:55-59 | one unfolding of `ReaderLoop`, used by the proof of `Util.ChannelReader.Run`: the outcome of one turn of the loop at a given message |
| Util.ChannelReader.constructor | redis_pubsub/util.py:89-94 | a new reader carries the subscription's subscriber and channel and the given manager, has no callback and no future, and is not active |
| Util.ChannelReader.Bind | redis_pubsub/util.py:96-131 | binding the callback stores it and returns the reader itself |
| Util.ChannelReader.IsActive | redis_pubsub/util.py:133-137 | a reader is active iff it has a future and that future is not done; `Util.ChannelReader.Listen` makes it true and `Util.SubscriptionManager.Remove` makes it false |
| Util.ChannelReader.Deliver | redis_pubsub/util.py:114-125 | the wrapper resolves the payload; on failure it raises before the callback runs and writes nothing; on success it invokes the callback once on the resolved instance, then writes exactly one received record with the reader's channel and subscriber, and returns the callback's answer unchanged |
| Util.ChannelReader.Run | redis_pubsub/util.py:47-59 | an inactive (never listened, finished or cancelled) reader does nothing and its callback is never invoked; an active reader's invocations, received records and final future are exactly those of `ReaderLoop` on the messages, where the channel is open iff its name is still subscribed on the manager's open connection |
| Util.ChannelReader.GetManager | redis_pubsub/util.py:159-165 | a manager over the given connection is created only when none was supplied; the reader is then registered under its channel name and nothing else in the map changes |
| Util.ChannelReader.Listen | redis_pubsub/util.py:144-157 | the reader is registered with its (possibly new) manager; a new manager gets an open connection, as `get_async_redis` reconnects a closed one, so the listen succeeds; over an open connection the channel is subscribed and the task is started with the bound callback, leaving the reader active and its channel open; over a closed one the subscribe raises, no task starts and the connection is unchanged; a connection the reader does not use is not touched |
| Util.Added | redis_pubsub/util.py:175-177 | a sequence of adds keeps every reader filed under its own channel name |
| Util.AddedLastWriterWins | redis_pubsub/util.py:175-177 | after the adds, a channel name holds the last reader added for it |
| Util.AddedKeepsOthers | redis_pubsub/util.py:175-177 | a channel name that no added reader is for keeps its entry, or its absence |
| Util.SubscriptionManager.constructor | redis_pubsub/util.py:171-173 | a new manager has an empty map over the given connection |
| Util.SubscriptionManager.Add | redis_pubsub/util.py:175-177 | the map becomes `Added` of the old map and the readers; no reader is cancelled |
| Util.SubscriptionManager.Closed | redis_pubsub/util.py:179-181 | the manager is closed iff its connection is; `Util.SubscriptionManager.Stop` makes it true, and `Util.SubscriptionManager.Remove` and `Util.SubscriptionManager.Clear` leave it as it was |
| Util.SubscriptionManager.Remove | redis_pubsub/util.py:183-188 | the reader is cancelled iff it was active and is inactive afterwards; its channel name is unsubscribed, which closes the channel of every reader listening on that name, and dropped from the map (no error if absent), all other entries unchanged; the connection stays open or closed as it was; over a closed connection the unsubscribe raises and the map is kept |
| Util.SubscriptionManager.Clear | redis_pubsub/util.py:190-193 | every registered reader that was active is cancelled; over an open connection every registered channel name is unsubscribed and the map is left empty; over a closed one it raises unless the map was already empty; the connection stays open or closed as it was |
| Util.SubscriptionManager.Stop | redis_pubsub/util.py:195-199 | after stop the connection is closed; stop succeeds iff the connection was open or no reader was registered, and then the map is empty and nothing remains subscribed (so a second stop succeeds too); when it fails, the clear raised before the close and the map and the subscribed names stay as they were; every registered reader that was active is cancelled |
| Models.Active | redis_pubsub/models.py:60-66 | a channel is active iff some subscription to it is switched on |
| Models.FindSubscription | redis_pubsub/models.py:71 | the lookup finds a row holding the subscriber and channel, and finds none iff no row holds them |
| Models.FindSeesOnlyPairs | redis_pubsub/models.py:71 | the lookup depends only on which rows hold the pair, not on their `active` flags |
| Models.Upsert | redis_pubsub/models.py:68-74 | subscribing switches on the pair's row where it exists and otherwise appends one active row; no other row changes; the unique-together constraint is kept; the pair's row is active afterwards and so is the channel |
| Models.UpsertIdempotent | redis_pubsub/models.py:68-74 | subscribing twice leaves the table exactly as subscribing once |
| Models.UpsertOtherChannels | redis_pubsub/models.py:68-74 | subscribing to one channel leaves whether any other channel is active unchanged |
| Models.Subscribe | redis_pubsub/models.py:68-74 | get-or-create (new rows default to active), then set active and save: the table becomes `Upsert` of the old one, it stays unique per pair, and the returned subscription is the pair's active row |
| Models.PayloadOf | redis_pubsub/models.py:80-88 | the three published fields name exactly the published instance's identity |
| Models.PublishedPayloadResolves | redis_pubsub/util.py:139-142 | the payload a channel publishes for a stored instance resolves back to that very instance |
| Models.PublishedThenDelivered | redis_pubsub/util.py:116-118 | a published stored instance is handed to a listening reader's callback exactly once, as the stored instance; the reader goes on waiting only if the callback answers continue and its channel is still open, and otherwise closes |
| Models.Publish | redis_pubsub/models.py:76-88 | on an active channel exactly one message is published, on the channel's own name, carrying the model's three fields; on an inactive channel nothing is published |
| Models.GetReader | redis_pubsub/models.py:102-122 | the subscription hands out a new, inactive reader of its subscriber and channel, with the given manager and no callback |
| Managers.PendingForSpec | redis_pubsub/managers.py:14-26 | an instance contributes exactly the pairs of its channel's subscribers that hold no received record of it on that channel |
| Managers.UndeliveredMembers | redis_pubsub/managers.py:13-26 | the result holds exactly the pairs some instance contributes |
| Managers.UndeliveredSound | redis_pubsub/managers.py:18-26 | every returned pair is an iterated instance and a subscriber with a subscription on its channel, with no record of that subscriber having received it there |
| Managers.UndeliveredComplete | redis_pubsub/managers.py:24-26 | every subscription on an instance's channel whose subscriber holds no such record yields its pair |
| Managers.UndeliveredIgnoresActive | redis_pubsub/managers.py:14-24 | the `active` flag is not consulted: tables that differ only in it give the same result |
| Managers.PendingForIgnoresActive | redis_pubsub/managers.py:14-24 | one instance's pairs do not depend on the `active` flags |
| Managers.UndeliveredGrouped | redis_pubsub/managers.py:12-28 | the pairs come grouped per instance, in iteration order |
| Managers.SubscribersOf | redis_pubsub/managers.py:14-17 | the subscribers of the instance's channel are exactly the subscribers of its subscriptions |
| Managers.ReceivedBy | redis_pubsub/managers.py:18-23 | the subscribers that received the instance on its channel, among the channel's subscribers, are exactly those that hold a matching record |
| Managers.GetUndelivered | redis_pubsub/managers.py:6-28 | the query returns exactly `Undelivered` of the instances and the tables, and changes nothing |
| Receivers.CreationUsesOnlyCreateFlag | redis_pubsub/receivers.py:10-11 | a creation publishes iff the class's creation flag is set, whatever the update flag is |
| Receivers.UpdateUsesOnlyUpdateFlag | redis_pubsub/receivers.py:12-13 | an update publishes iff the class's update flag is set, whatever the creation flag is |
| Receivers.SubscribableChanged | redis_pubsub/receivers.py:7-16 | a save publishes the instance on its own channel at most once: exactly when the flag for that kind of save is set and the channel is active |
| Receivers.Save | redis_pubsub/receivers.py:19-20 | a save stores the instance under its identity, is a creation iff it was not stored before, and then publishes as `SubscribableChanged` decides |

## Left out

- JSON encoding of payloads and the process-wide clients `get_redis`/`get_async_redis` (`redis_pubsub/util.py:17-44`) are out. The publishing client and the subscribing connection are parameters.
- aioredis's `wait_message`, `get_json` and `wait_closed` are out. The messages that reach a reader's channel are the finite sequence `Run` is given. A run that exhausts them leaves the task waiting if the channel is still open and finishes it otherwise.
- Util.ChannelReader.Run: a channel counts as open while its name is subscribed on the manager's open connection. aioredis closes a channel object for good when its name is unsubscribed, so a task whose name was unsubscribed and then subscribed again stays done in aioredis; the model treats it as listening again.
- Util.ChannelReader.Listen: a listen on a reader that is already active subscribes again and starts a second task; the code reassigns `self.future`, so the first task runs on, orphaned, with the old wrapper, and `remove` can no longer cancel it. The model keeps one task per reader, so the new listen replaces the first task and its callback.
- Util.GetModelInstance: Django's `get_model` matches the model name without regard to case; the model matches `object_name` exactly, which agrees for the names `publish` sends.
- asyncio scheduling is out: `ensure_future`, the interleavings of `gather` in `clear`, and the timing of cancellation. A cancel takes effect at once. `clear` is a loop over a snapshot of the map's keys: every removal cancels its reader before any unsubscribe can fail, and a failure is reported as `ok = false` rather than as the first exception `gather` re-raises.
- The user callback's own effects and exceptions are out. It is reduced to its continue/stop answers.
- `channel.close()` in the loop is modelled as the end of the loop. The loop does not unsubscribe the channel's name on the connection, and neither does the model.
- Timestamps (`datetime_created`, `datetime_received`), content types and the generic foreign key are out. A received record names the publication by its class and primary key.
- `PublishableModel.serialize` and `PublishableModel.subscribe` (`redis_pubsub/models.py:33-47`) are thin delegations and are out. `PublishableModel.publish` is inlined where the receiver calls it.
- The example code in the `ReceivedPublication` docstring (`redis_pubsub/models.py:135-193`) is never executed and is not modelled.
- `Managers.GetUndelivered` requires every instance to have a channel, because the channel foreign key is not nullable (`redis_pubsub/models.py:28`). The queryset order of instances and of subscriptions is the order of the given sequence and of the table.
- The end-to-end test `tests/test_receivers.py` is not replayed as a method. Its steps are the contracts of `Save`, `Publish`, `PublishedThenDelivered` and `Run`.
- The websocket layer, token authentication, the `async_runserver` command, app configuration and settings are out: they are transport and configuration plumbing.
