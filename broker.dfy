/**
 * The Redis side, reduced to the state the publish/subscribe layer observes:
 * the channels a subscribing connection is subscribed to, whether it is closed,
 * and the messages a publishing client has sent.
 */
module Broker {
  import opened Records

  /** One PUBLISH: a channel name and the payload sent on it (its JSON text encoding is left out). */
  datatype Message = Message(channel: string, payload: Payload)

  /** The synchronous client that publishes. */
  class SyncRedis {
    var published: seq<Message>

    constructor ()
      ensures published == []
    {
      published := [];
    }

    method Publish(channel: string, payload: Payload)
      modifies this
      ensures published == old(published) + [Message(channel, payload)]
    {
      published := published + [Message(channel, payload)];
    }
  }

  /** The asynchronous connection a subscription manager subscribes through. */
  class AsyncRedis {
    var subscribed: set<string>
    var closed: bool

    constructor ()
      ensures subscribed == {} && !closed
    {
      subscribed, closed := {}, false;
    }

    /** SUBSCRIBE; on a closed connection it fails (`ok` is false) and changes nothing. */
    method Subscribe(name: string) returns (ok: bool)
      modifies this
      ensures ok == !old(closed) && closed == old(closed)
      ensures subscribed == if ok then old(subscribed) + {name} else old(subscribed)
    {
      ok := !closed;
      if ok {
        subscribed := subscribed + {name};
      }
    }

    /** UNSUBSCRIBE; on a closed connection it fails (`ok` is false) and changes nothing. */
    method Unsubscribe(name: string) returns (ok: bool)
      modifies this
      ensures ok == !old(closed) && closed == old(closed)
      ensures subscribed == if ok then old(subscribed) - {name} else old(subscribed)
    {
      ok := !closed;
      if ok {
        subscribed := subscribed - {name};
      }
    }

    /** Closing is idempotent and ends every subscription of the connection. */
    method Close()
      modifies this
      ensures closed && subscribed == {}
    {
      closed, subscribed := true, {};
    }
  }
}
