/**
 * The subscription layer: the per-channel reader with its listen loop and its
 * callback wrapper, and the manager that keeps one reader per channel name over
 * one subscribing connection.
 *
 * Asynchrony is reduced to sequential state changes: a reader's task is a
 * future state; what the task does with the messages that reach its channel is
 * `ChannelReader.Run`; a cancellation takes effect at once.
 */
module Util {
  import opened Wrappers
  import opened Records
  import opened Broker

  /** Why `get_model_instance` fails: an unknown model class, or no row with that primary key. */
  datatype ResolveError = LookupError | DoesNotExist

  /** What ends a reader's task with an exception. */
  datatype ReaderError = NoCallback | Unresolved(cause: ResolveError)

  /** The state of a reader's future: running, or done in one of three ways. */
  datatype TaskState = Pending | Finished | Cancelled | Failed(error: ReaderError)

  /** One invocation of a user callback: the channel name and the publication it was handed. */
  datatype Invocation = Invocation(channelName: string, publication: Obj)

  /** How the listen loop ends on a finite run of messages: still waiting, channel closed, or exception. */
  datatype LoopEnd = Waiting | Closed | Raised(error: ReaderError)

  /** The publications the loop handed to the user callback, in order, and how it ended. */
  datatype LoopRun = LoopRun(handed: seq<Obj>, end: LoopEnd)

  /** Publishing sends the payload on the named channel. */
  method RedisChannelPublish(redis: SyncRedis, channel: string, message: Payload)
    modifies redis
    ensures redis.published == old(redis.published) + [Message(channel, message)]
  {
    redis.Publish(channel, message);
  }

  /** The identity the three published fields name. */
  function RefOf(kwargs: Payload): ObjectRef {
    ObjectRef(ModelKind(kwargs.appLabel, kwargs.objectName), kwargs.pk)
  }

  /** `get_model_instance`: the model class by its label and name, then its instance by primary key. */
  function GetModelInstance(registry: set<ModelKind>, objects: map<ObjectRef, Obj>, kwargs: Payload): Result<Obj, ResolveError> {
    var kind := ModelKind(kwargs.appLabel, kwargs.objectName);
    if kind !in registry then
      Failure(LookupError)
    else if ObjectRef(kind, kwargs.pk) !in objects then
      Failure(DoesNotExist)
    else
      Success(objects[ObjectRef(kind, kwargs.pk)])
  }

  /**
   * Over a well-formed directory, resolution finds exactly the stored instance
   * the three fields name, fails with a lookup error for an unknown model and
   * with does-not-exist for a missing primary key.
   */
  lemma GetModelInstanceSpec(registry: set<ModelKind>, objects: map<ObjectRef, Obj>, kwargs: Payload)
    requires Directory(registry, objects)
    ensures var r := GetModelInstance(registry, objects, kwargs);
      && (r.Success? <==> RefOf(kwargs) in objects)
      && (r.Success? ==> r.value.ref == RefOf(kwargs) && r.value == objects[RefOf(kwargs)])
      && (r == Failure(LookupError) <==> RefOf(kwargs).kind !in registry)
  {
  }

  /** A callback in place that answers "continue" on its `k`-th invocation. */
  predicate Continues(callback: Option<nat -> bool>, k: nat) {
    callback.Some? && callback.value(k)
  }

  /**
   * The listen loop over the messages `msgs[from..]` that reach the channel,
   * with the wrapper of `callback` as its callback, when the user callback has
   * already been invoked `calls` times: each message is resolved and handed to
   * the callback, and the loop closes the channel after the first "stop". Once
   * the queued messages are drained, `wait_message` waits on while the channel
   * is `open` and reports the end of the loop once it was closed (its name
   * unsubscribed, or the connection closed).
   */
  function ReaderLoop(callback: Option<nat -> bool>, registry: set<ModelKind>, objects: map<ObjectRef, Obj>,
                      msgs: seq<Payload>, open: bool, from: nat, calls: nat): LoopRun
    requires from <= |msgs|
    decreases |msgs| - from
  {
    if from == |msgs| then LoopRun([], if open then Waiting else Closed)
    else if callback.None? then LoopRun([], Raised(NoCallback))
    else match GetModelInstance(registry, objects, msgs[from])
      case Failure(e) => LoopRun([], Raised(Unresolved(e)))
      case Success(p) =>
        if !callback.value(calls) then LoopRun([p], Closed)
        else
          var rest := ReaderLoop(callback, registry, objects, msgs, open, from + 1, calls + 1);
          LoopRun([p] + rest.handed, rest.end)
  }

  function Prepend(h: seq<Obj>, r: LoopRun): LoopRun {
    LoopRun(h + r.handed, r.end)
  }

  /**
   * One turn of the loop at `msgs[i]`, for a run `whole` that has handed over
   * `handed` so far: what the turn makes of the rest of the run.
   */
  lemma ReaderLoopTurn(callback: Option<nat -> bool>, registry: set<ModelKind>, objects: map<ObjectRef, Obj>,
                       msgs: seq<Payload>, open: bool, i: nat, calls: nat, handed: seq<Obj>, whole: LoopRun)
    requires i <= |msgs| && whole == Prepend(handed, ReaderLoop(callback, registry, objects, msgs, open, i, calls))
    ensures i == |msgs| ==> whole == LoopRun(handed, if open then Waiting else Closed)
    ensures i < |msgs| && callback.None? ==> whole == LoopRun(handed, Raised(NoCallback))
    ensures i < |msgs| && callback.Some? && GetModelInstance(registry, objects, msgs[i]).Failure? ==>
      whole == LoopRun(handed, Raised(Unresolved(GetModelInstance(registry, objects, msgs[i]).error)))
    ensures i < |msgs| && callback.Some? && GetModelInstance(registry, objects, msgs[i]).Success? && !callback.value(calls) ==>
      whole == LoopRun(handed + [GetModelInstance(registry, objects, msgs[i]).value], Closed)
    ensures i < |msgs| && callback.Some? && GetModelInstance(registry, objects, msgs[i]).Success? && callback.value(calls) ==>
      whole == Prepend(handed + [GetModelInstance(registry, objects, msgs[i]).value],
                       ReaderLoop(callback, registry, objects, msgs, open, i + 1, calls + 1))
  {
    assert handed + [] == handed;
    if i < |msgs| && callback.Some? && GetModelInstance(registry, objects, msgs[i]).Success? {
      var p := GetModelInstance(registry, objects, msgs[i]).value;
      var rest := ReaderLoop(callback, registry, objects, msgs, open, i + 1, calls + 1);
      assert (handed + [p]) + rest.handed == handed + ([p] + rest.handed);
    }
  }

  /** The future of a task once its end is known. */
  function EndState(end: LoopEnd): TaskState {
    match end
    case Waiting => Pending
    case Closed => Finished
    case Raised(e) => Failed(e)
  }

  /** The user callback's invocations for the publications `ps`, on `channelName`. */
  function Invocations(channelName: string, ps: seq<Obj>): seq<Invocation> {
    seq(|ps|, k requires 0 <= k < |ps| => Invocation(channelName, ps[k]))
  }

  /** The received-publication records the wrapper writes for the publications `ps`. */
  function ReceivedFor(channel: string, subscriber: UserId, ps: seq<Obj>): seq<ReceivedPublication> {
    seq(|ps|, k requires 0 <= k < |ps| => ReceivedPublication(channel, subscriber, ps[k].ref))
  }

  lemma AppendOne(channel: string, subscriber: UserId, ps: seq<Obj>, p: Obj)
    ensures Invocations(channel, ps + [p]) == Invocations(channel, ps) + [Invocation(channel, p)]
    ensures ReceivedFor(channel, subscriber, ps + [p]) == ReceivedFor(channel, subscriber, ps) + [ReceivedPublication(channel, subscriber, p.ref)]
  {
  }

  /** Every invocation of the user callback from the `calls`-th on, `n` of them, answers "continue". */
  predicate ContinuesFor(callback: Option<nat -> bool>, calls: nat, n: nat) {
    forall k :: calls <= k < calls + n ==> Continues(callback, k)
  }

  /**
   * What the loop does, message by message from `msgs[from]` on: the n-th
   * publication handed over is the resolution of the n-th message; every
   * invocation but the last said "continue"; the loop waits on exactly when
   * the channel is open and every message was handed over and answered
   * "continue"; it closes right after a "stop", or once the messages of a
   * closed channel are drained; it raises at a message that cannot be
   * resolved, after only "continue" answers, or at the first message, having
   * handed over nothing, when no callback was bound.
   */
  lemma {:induction false} ReaderLoopSpec(callback: Option<nat -> bool>, registry: set<ModelKind>,
                                          objects: map<ObjectRef, Obj>, msgs: seq<Payload>, open: bool,
                                          from: nat, calls: nat)
    requires from <= |msgs|
    ensures var r := ReaderLoop(callback, registry, objects, msgs, open, from, calls);
      && |r.handed| <= |msgs| - from
      && (forall n :: from <= n < from + |r.handed| ==> GetModelInstance(registry, objects, msgs[n]) == Success(r.handed[n - from]))
      && (forall k :: calls <= k < calls + |r.handed| - 1 ==> Continues(callback, k))
      && (r.end == Waiting <==> open && |r.handed| == |msgs| - from && ContinuesFor(callback, calls, |msgs| - from))
      && (r.end == Closed ==>
            || (0 < |r.handed| && callback.Some? && !callback.value(calls + |r.handed| - 1))
            || (!open && |r.handed| == |msgs| - from && ContinuesFor(callback, calls, |msgs| - from)))
      && (r.end.Raised? ==>
            && |r.handed| < |msgs| - from
            && ContinuesFor(callback, calls, |r.handed|)
            && (r.end.error == NoCallback <==> callback.None?)
            && (r.end.error == NoCallback ==> r.handed == [])
            && (r.end.error.Unresolved? ==> GetModelInstance(registry, objects, msgs[from + |r.handed|]) == Failure(r.end.error.cause)))
    decreases |msgs| - from
  {
    var r := ReaderLoop(callback, registry, objects, msgs, open, from, calls);
    if from < |msgs| && callback.Some? && GetModelInstance(registry, objects, msgs[from]).Success? {
      if callback.value(calls) {
        ReaderLoopSpec(callback, registry, objects, msgs, open, from + 1, calls + 1);
        var rest := ReaderLoop(callback, registry, objects, msgs, open, from + 1, calls + 1);
        assert r.handed == [r.handed[0]] + rest.handed;
        assert Continues(callback, calls);
      } else {
        assert !Continues(callback, calls + |r.handed| - 1);
      }
    }
  }

  /**
   * Over messages that all resolve, the loop hands over every message up to
   * and including the first one whose callback answers "stop", none after it,
   * and closes.
   */
  lemma {:induction false} ReaderLoopStopsAtFirstFalse(callback: nat -> bool, registry: set<ModelKind>,
                                                       objects: map<ObjectRef, Obj>, msgs: seq<Payload>, open: bool,
                                                       from: nat, calls: nat, k: nat)
    requires from + k < |msgs|
    requires forall j :: from <= j <= from + k ==> GetModelInstance(registry, objects, msgs[j]).Success?
    requires forall n :: calls <= n < calls + k ==> callback(n)
    requires !callback(calls + k)
    ensures var r := ReaderLoop(Some(callback), registry, objects, msgs, open, from, calls);
      r.end == Closed && |r.handed| == k + 1
    decreases k
  {
    if k > 0 {
      assert callback(calls) && GetModelInstance(registry, objects, msgs[from]).Success?;
      ReaderLoopStopsAtFirstFalse(callback, registry, objects, msgs, open, from + 1, calls + 1, k - 1);
    }
  }

  /** A reader of one subscription's channel, with its user callback and its listen task. */
  class ChannelReader {
    const subscriber: UserId
    /** The name of the subscription's channel. */
    const channel: string
    /** The user callback that `__call__` wraps (its answer on each invocation), if one was bound. */
    var callback: Option<nat -> bool>
    var manager: SubscriptionManager?
    var future: Option<TaskState>
    /** The callback the running task was started with, as `listen` passed it. */
    var loopCallback: Option<nat -> bool>
    /** Every invocation of the user callback so far. */
    var delivered: seq<Invocation>

    constructor (subscription: Subscription, manager: SubscriptionManager?)
      ensures subscriber == subscription.subscriber && channel == subscription.channel
      ensures callback.None? && this.manager == manager && future.None? && delivered == []
      ensures !IsActive()
    {
      subscriber := subscription.subscriber;
      channel := subscription.channel;
      callback := None;
      this.manager := manager;
      future := None;
      loopCallback := None;
      delivered := [];
    }

    /** Binds the user callback (`__call__`, also named `callback`) and returns the reader itself. */
    method Bind(cb: nat -> bool) returns (r: ChannelReader)
      modifies this`callback
      ensures callback == Some(cb) && r == this
    {
      callback := Some(cb);
      r := this;
    }

    /** The task exists and is not done. */
    predicate IsActive()
      reads this
    {
      future.Some? && future.value.Pending?
    }

    /**
     * The callback wrapper: resolves the payload, invokes the user callback on
     * the publication, then writes one received-publication record for this
     * reader's channel and subscriber, and returns the callback's answer. When
     * the payload does not resolve it raises before the user callback runs.
     */
    method Deliver(channelName: string, kwargs: Payload, db: Database) returns (outcome: Result<bool, ReaderError>)
      requires loopCallback.Some?
      modifies this`delivered, db`received
      ensures match GetModelInstance(db.registry, db.objects, kwargs)
        case Failure(e) =>
          outcome == Failure(Unresolved(e)) && delivered == old(delivered) && db.received == old(db.received)
        case Success(p) =>
          && outcome == Success(loopCallback.value(|old(delivered)|))
          && delivered == old(delivered) + [Invocation(channelName, p)]
          && db.received == old(db.received) + [ReceivedPublication(channel, subscriber, p.ref)]
    {
      var publication := GetModelInstance(db.registry, db.objects, kwargs);
      if publication.Failure? {
        return Failure(Unresolved(publication.error));
      }
      var continue_ := loopCallback.value(|delivered|);
      delivered := delivered + [Invocation(channelName, publication.value)];
      db.received := db.received + [ReceivedPublication(channel, subscriber, publication.value.ref)];
      outcome := Success(continue_);
    }

    /**
     * The channel the task listens on is still open: its name is subscribed on
     * the manager's connection, and that connection is not closed.
     */
    predicate ChannelOpen()
      reads this, if manager != null then {manager, manager.redis} else {}
    {
      manager != null && !manager.redis.closed && channel in manager.redis.subscribed
    }

    /**
     * The task at work on the messages `msgs` that reach the channel, in order.
     * A reader that is not active (never listened, done, cancelled) does nothing.
     */
    method Run(msgs: seq<Payload>, db: Database)
      modifies this`future, this`delivered, db`received
      ensures !old(IsActive()) ==>
        future == old(future) && delivered == old(delivered) && db.received == old(db.received)
      ensures old(IsActive()) ==>
        var r := ReaderLoop(loopCallback, db.registry, db.objects, msgs, ChannelOpen(), 0, |old(delivered)|);
        && delivered == old(delivered) + Invocations(channel, r.handed)
        && db.received == old(db.received) + ReceivedFor(channel, subscriber, r.handed)
        && future == Some(EndState(r.end))
    {
      if !IsActive() {
        return;
      }
      var cb := loopCallback;
      var open := ChannelOpen();
      ghost var reg, objs, calls := db.registry, db.objects, |delivered|;
      ghost var whole := ReaderLoop(cb, reg, objs, msgs, open, 0, calls);
      ghost var handed: seq<Obj> := [];
      var i := 0;
      var end := Waiting;
      while i < |msgs| && end == Waiting
        invariant 0 <= i <= |msgs|
        invariant db.objects == objs
        invariant delivered == old(delivered) + Invocations(channel, handed)
        invariant db.received == old(db.received) + ReceivedFor(channel, subscriber, handed)
        invariant end == Waiting ==> |handed| == i && whole == Prepend(handed, ReaderLoop(cb, reg, objs, msgs, open, i, calls + i))
        invariant end != Waiting ==> whole == LoopRun(handed, end)
        decreases |msgs| - i, if end == Waiting then 1 else 0
      {
        if cb.None? {
          ReaderLoopTurn(cb, reg, objs, msgs, open, i, calls + i, handed, whole);
          end := Raised(NoCallback);
        } else {
          ghost var p := GetModelInstance(reg, objs, msgs[i]);
          var outcome := Deliver(channel, msgs[i], db);
          ReaderLoopTurn(cb, reg, objs, msgs, open, i, calls + i, handed, whole);
          if outcome.Failure? {
            end := Raised(outcome.error);
          } else {
            AppendOne(channel, subscriber, handed, p.value);
            handed := handed + [p.value];
            if outcome.value {
              i := i + 1;
            } else {
              // the callback said stop: the channel is closed and the loop ends
              end := Closed;
            }
          }
        }
      }
      if end == Waiting {
        ReaderLoopTurn(cb, reg, objs, msgs, open, i, calls + i, handed, whole);
        if !open {
          // the queue is drained and `wait_message` reports the channel closed
          end := Closed;
        }
      }
      future := Some(EndState(end));
    }

    /**
     * `get_manager`: creates a manager over `redis` (the connection
     * `get_async_redis` hands out) only when none was supplied, and registers
     * this reader with it under its channel name.
     */
    method GetManager(redis: AsyncRedis) returns (m: SubscriptionManager)
      requires manager != null ==> manager.Valid()
      modifies this`manager, if manager != null then {manager} else {}
      ensures m == manager && m.Valid()
      ensures old(manager) == null ==> fresh(m) && m.redis == redis && m.readers == map[channel := this]
      ensures old(manager) != null ==> m == old(manager) && m.readers == old(manager.readers)[channel := this]
    {
      if manager == null {
        manager := new SubscriptionManager(redis);
      }
      manager.Add([this]);
      m := manager;
    }

    /**
     * `listen`: registers with the manager, subscribes the channel on the
     * manager's connection, and starts the task with the bound callback, which
     * leaves the reader active. A manager that `listen` creates gets an open
     * connection, since `get_async_redis` reconnects when its connection is
     * closed, so the listen then succeeds. Over the closed connection of a
     * supplied manager the subscribe raises (`ok` is false): the reader is
     * registered but no task is started, and the connection is unchanged.
     */
    method Listen(redis: AsyncRedis) returns (ok: bool)
      requires manager != null ==> manager.Valid()
      requires manager == null ==> !redis.closed
      modifies this`manager, this`future, this`loopCallback
      modifies if manager != null then {manager, manager.redis} else {redis}
      ensures manager != null && manager.Valid()
      ensures old(manager) == null ==> fresh(manager) && manager.redis == redis && manager.readers == map[channel := this]
      ensures old(manager) != null ==> manager == old(manager) && manager.readers == old(manager.readers)[channel := this]
      ensures old(manager) != null && redis != manager.redis ==> unchanged(redis)
      ensures ok == !old(if manager == null then redis.closed else manager.redis.closed)
      ensures old(manager) == null ==> ok
      ensures manager.redis.closed == old(if manager == null then redis.closed else manager.redis.closed)
      ensures manager.redis.subscribed == (if old(manager) == null then old(redis.subscribed) else old(manager.redis.subscribed))
                                          + (if ok then {channel} else {})
      ensures ok ==> future == Some(Pending) && loopCallback == callback && IsActive() && ChannelOpen()
      ensures !ok ==> future == old(future) && loopCallback == old(loopCallback)
    {
      var m := GetManager(redis);
      ok := m.redis.Subscribe(channel);
      if ok {
        future := Some(Pending);
        loopCallback := callback;
      }
    }
  }

  /** The map a sequence of `add`s leaves: each reader under its channel name, the last one winning. */
  function Added(m: map<string, ChannelReader>, rs: seq<ChannelReader>): (r: map<string, ChannelReader>)
    ensures KeyedByChannel(m) ==> KeyedByChannel(r)
  {
    if |rs| == 0 then m else Added(m, rs[..|rs| - 1])[rs[|rs| - 1].channel := rs[|rs| - 1]]
  }

  /** Every reader is registered under its own channel name. */
  ghost predicate KeyedByChannel(m: map<string, ChannelReader>) {
    forall k :: k in m ==> m[k].channel == k
  }

  /** After the `add`s, a channel name holds the last reader added for it. */
  lemma {:induction false} AddedLastWriterWins(m: map<string, ChannelReader>, rs: seq<ChannelReader>, i: nat)
    requires i < |rs|
    requires forall j :: i < j < |rs| ==> rs[j].channel != rs[i].channel
    ensures rs[i].channel in Added(m, rs) && Added(m, rs)[rs[i].channel] == rs[i]
  {
    if i < |rs| - 1 {
      AddedLastWriterWins(m, rs[..|rs| - 1], i);
    }
  }

  /** A channel name no reader added is for keeps its entry, or its absence. */
  lemma {:induction false} AddedKeepsOthers(m: map<string, ChannelReader>, rs: seq<ChannelReader>, k: string)
    requires forall j :: 0 <= j < |rs| ==> rs[j].channel != k
    ensures (k in Added(m, rs)) == (k in m)
    ensures k in m ==> Added(m, rs)[k] == m[k]
  {
    if |rs| > 0 {
      AddedKeepsOthers(m, rs[..|rs| - 1], k);
    }
  }

  /** The future of a reader that `remove` has handled: cancelled if it was active, else as it was. */
  function AfterRemove(f: Option<TaskState>): Option<TaskState> {
    if f.Some? && f.value.Pending? then Some(Cancelled) else f
  }

  /** The readers of one session, by channel name, over one subscribing connection. */
  class SubscriptionManager {
    var readers: map<string, ChannelReader>
    const redis: AsyncRedis

    ghost predicate Valid()
      reads this
    {
      KeyedByChannel(readers)
    }

    constructor (redis: AsyncRedis)
      ensures Valid() && readers == map[] && this.redis == redis
    {
      readers := map[];
      this.redis := redis;
    }

    /** `add`: stores each reader under its channel name, the last one winning; no reader is cancelled. */
    method Add(rs: seq<ChannelReader>)
      requires Valid()
      modifies this`readers
      ensures Valid() && readers == Added(old(readers), rs)
    {
      var i := 0;
      while i < |rs|
        invariant 0 <= i <= |rs|
        invariant readers == Added(old(readers), rs[..i])
      {
        assert rs[..i + 1][..i] == rs[..i];
        readers := readers[rs[i].channel := rs[i]];
        i := i + 1;
      }
      assert rs[..|rs|] == rs;
    }

    /** `closed`: the connection's closed state. */
    predicate Closed()
      reads this, redis
    {
      redis.closed
    }

    /**
     * `remove`: cancels the reader's task if it is active, unsubscribes its
     * channel name, and drops that name from the map whatever reader it holds
     * (no error when absent). Over a closed connection the unsubscribe raises
     * (`ok` is false) and the name stays.
     */
    method Remove(reader: ChannelReader) returns (ok: bool)
      requires Valid()
      modifies this`readers, reader`future, redis
      ensures Valid()
      ensures reader.future == AfterRemove(old(reader.future))
      ensures ok == !old(Closed()) && Closed() == old(Closed())
      ensures redis.subscribed == if ok then old(redis.subscribed) - {reader.channel} else old(redis.subscribed)
      ensures readers == if ok then old(readers) - {reader.channel} else old(readers)
      ensures !reader.IsActive()
    {
      if reader.IsActive() {
        reader.future := Some(Cancelled);
      }
      ok := redis.Unsubscribe(reader.channel);
      if ok {
        readers := readers - {reader.channel};
      }
    }

    /**
     * `clear`: removes every registered reader. Active readers are cancelled;
     * over an open connection every channel name is unsubscribed and the map is
     * left empty; over a closed one every removal raises and the map stays.
     */
    method Clear() returns (ok: bool)
      requires Valid()
      modifies this`readers, redis, readers.Values`future
      ensures Valid()
      ensures ok == (!old(redis.closed) || old(readers) == map[])
      ensures readers == if old(redis.closed) then old(readers) else map[]
      ensures Closed() == old(Closed())
      ensures redis.subscribed == if old(redis.closed) then old(redis.subscribed) else old(redis.subscribed) - old(readers).Keys
      ensures forall k :: k in old(readers) ==> old(readers)[k].future == AfterRemove(old(readers[k].future))
    {
      var snapshot := readers;
      var keys := readers.Keys;
      ok := true;
      while keys != {}
        invariant keys <= snapshot.Keys && KeyedByChannel(snapshot)
        invariant Valid()
        invariant redis.closed == old(redis.closed)
        invariant ok == (!old(redis.closed) || keys == snapshot.Keys)
        invariant readers == if old(redis.closed) then snapshot else map k | k in keys :: snapshot[k]
        invariant redis.subscribed == if old(redis.closed) then old(redis.subscribed) else old(redis.subscribed) - (snapshot.Keys - keys)
        invariant forall k :: k in snapshot ==>
          snapshot[k].future == if k in keys then old(snapshot[k].future) else AfterRemove(old(snapshot[k].future))
        decreases keys
      {
        var k :| k in keys;
        var reader := snapshot[k];
        var removed := Remove(reader);
        ok := ok && removed;
        keys := keys - {k};
      }
      assert snapshot.Keys == {} ==> snapshot == map[];
    }

    /** `stop`: clears, then closes the connection; stopping again once stopped succeeds and changes nothing more. */
    method Stop() returns (ok: bool)
      requires Valid()
      modifies this`readers, redis, readers.Values`future
      ensures Valid() && Closed()
      ensures ok == (!old(redis.closed) || old(readers) == map[])
      ensures readers == if old(redis.closed) then old(readers) else map[]
      ensures redis.subscribed == if ok then {} else old(redis.subscribed)
      ensures forall k :: k in old(readers) ==> old(readers)[k].future == AfterRemove(old(readers[k].future))
    {
      ok := Clear();
      if ok {
        redis.Close();
      }
    }
  }
}
