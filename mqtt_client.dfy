/**
 * The Paho `MqttClient` as the bridges use it: a publish and a subscribe
 * call that may throw. The broker's side is two logs; whether a call is
 * accepted is a fixed property of the connection.
 */
module Mqtt {
  import opened Options

  /** One MQTT publication: topic, UTF-8 text of the message, quality of service. */
  datatype Message = Message(topic: string, text: string, qos: int)

  /** One subscription: topic filter and quality of service. */
  datatype Subscription = Subscription(filter: string, qos: int)

  /** `MqttMessage.setQos` accepts only 0, 1 and 2 and throws otherwise. */
  predicate ValidQos(qos: int)
    ensures ValidQos(qos) <==> qos == 0 || qos == 1 || qos == 2
  {
    0 <= qos <= 2
  }

  /** What the broker log gains from one publish attempt (None = nothing was attempted). */
  function Accepted(accepts: Message -> bool, attempt: Option<Message>): (sent: seq<Message>)
    ensures |sent| <= 1
    ensures sent != [] <==> attempt.Some? && accepts(attempt.value)
    ensures sent != [] ==> sent[0] == attempt.value
  {
    if attempt.Some? && accepts(attempt.value) then [attempt.value] else []
  }

  class MqttClient {
    /** Messages the broker took, in order. */
    var published: seq<Message>
    /** Subscriptions the broker took, in order. */
    var subscriptions: seq<Subscription>
    /** The `MqttCallback` registered with `setCallback`. */
    var callback: object?
    /** Whether `publish` returns normally for a message (otherwise it throws). */
    const accepts: Message -> bool
    /** Whether `subscribe` returns normally (otherwise `MqttException`). */
    const acceptsSubscription: Subscription -> bool

    constructor (accepts: Message -> bool, acceptsSubscription: Subscription -> bool)
      ensures published == [] && subscriptions == [] && callback == null
      ensures this.accepts == accepts && this.acceptsSubscription == acceptsSubscription
    {
      published := [];
      subscriptions := [];
      callback := null;
      this.accepts := accepts;
      this.acceptsSubscription := acceptsSubscription;
    }

    method SetCallback(cb: object)
      modifies this
      ensures callback == cb
      ensures published == old(published) && subscriptions == old(subscriptions)
    {
      callback := cb;
    }

    /** `publish(topic, message)`; `ok` is false where the call throws. */
    method Publish(m: Message) returns (ok: bool)
      modifies this
      ensures ok == accepts(m)
      ensures published == old(published) + Accepted(accepts, Some(m))
      ensures subscriptions == old(subscriptions) && callback == old(callback)
    {
      ok := accepts(m);
      if ok {
        published := published + [m];
      }
    }

    /** `subscribe(filter, qos)`; `ok` is false where the call throws `MqttException`. */
    method Subscribe(s: Subscription) returns (ok: bool)
      modifies this
      ensures ok == acceptsSubscription(s)
      ensures subscriptions == old(subscriptions) + (if ok then [s] else [])
      ensures published == old(published) && callback == old(callback)
    {
      ok := acceptsSubscription(s);
      if ok {
        subscriptions := subscriptions + [s];
      }
    }
  }
}
