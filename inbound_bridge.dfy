/**
 * `EmqxInboundBridge`: subscribes to the bus topic tree and turns each
 * arriving envelope back into an application event delivered locally,
 * with the loop guard set for exactly the duration of the delivery.
 */
module InboundBridge {
  import opened Options
  import opened BusTypes
  import opened Mqtt
  import opened LoopGuard
  import opened OutboundBridge
  import opened EventPublisher

  /** `init`'s result: normal return, or the exception it throws. */
  datatype InitOutcome = Subscribed | IllegalStateException(message: string)

  const SUBSCRIBE_FAILURE: string := "Failed to subscribe to EMQX bus topic: "

  /** The filter `init` subscribes with: the base topic and everything below it. */
  function SubscriptionFilter(busTopic: string): (filter: string)
    ensures busTopic + "/" <= filter && |filter| == |busTopic| + 2 && filter[|filter| - 1] == '#'
  {
    busTopic + "/#"
  }

  /** Event `e` is what the envelope's payload decodes to under its declared type. */
  predicate DecodesAs(rt: Runtime, env: Envelope, e: Event)
  {
    && env.typeName.Some? && rt.classExists(env.typeName.value)
    && env.payload.Some? && rt.readEvent(env.payload.value, env.typeName.value) == Some(e)
  }

  /** How the primary path of `messageArrived` ends, short of delivering. */
  datatype Primary = OwnEcho | Decoded(event: Event) | Failed

  /**
   * The primary path: parse the envelope, drop our own echo, resolve the
   * declared type and decode the payload under it; Failed is any `Exception`.
   */
  function PrimaryDecode(rt: Runtime, clientId: string, text: string): (p: Primary)
    ensures p.OwnEcho? <==> rt.readEnvelope(text).Some? && rt.readEnvelope(text).value.senderId == Some(clientId)
    ensures p.Decoded? ==> rt.readEnvelope(text).Some? && DecodesAs(rt, rt.readEnvelope(text).value, p.event)
    ensures rt.readEnvelope(text).None? ==> p.Failed?
    ensures forall e ::
      (rt.readEnvelope(text).Some? && rt.readEnvelope(text).value.senderId != Some(clientId)
       && DecodesAs(rt, rt.readEnvelope(text).value, e)) ==> p == Decoded(e)
  {
    match rt.readEnvelope(text)
    case None => Failed
    case Some(env) =>
      if env.senderId == Some(clientId) then OwnEcho
      else if env.typeName.None? || !rt.classExists(env.typeName.value) then Failed
      else if env.payload.None? then Failed
      else match rt.readEvent(env.payload.value, env.typeName.value)
        case None => Failed
        case Some(e) => Decoded(e)
  }

  /**
   * The fallback: the raw message text (the whole envelope, not its
   * payload) decoded as the base `RemoteApplicationEvent` class.
   */
  function FallbackDecode(rt: Runtime, text: string): (r: Option<Event>)
    ensures r.Some? <==> rt.classExists(REMOTE_EVENT_CLASS) && rt.readEvent(text, REMOTE_EVENT_CLASS).Some?
    ensures r.Some? ==> rt.readEvent(text, REMOTE_EVENT_CLASS) == r
  {
    if rt.classExists(REMOTE_EVENT_CLASS) then rt.readEvent(text, REMOTE_EVENT_CLASS) else None
  }

  /** The events the fallback delivers: at most one. */
  function FallbackDeliveries(rt: Runtime, text: string): (ds: seq<Event>)
    ensures |ds| <= 1
    ensures ds != [] <==> FallbackDecode(rt, text).Some?
    ensures ds != [] ==> ds[0] == FallbackDecode(rt, text).value
  {
    match FallbackDecode(rt, text)
    case None => []
    case Some(e) => [e]
  }

  /**
   * The events `messageArrived` delivers locally for message `text`, in
   * order. A delivery that throws sends control to the fallback, so the
   * primary event may be followed by a fallback one.
   */
  function InboundDeliveries(rt: Runtime, clientId: string, listenerFails: Event -> bool, text: string): (ds: seq<Event>)
    ensures |ds| <= 2
    ensures rt.readEnvelope(text).Some? && rt.readEnvelope(text).value.senderId == Some(clientId) ==> ds == []
    ensures rt.readEnvelope(text).None? ==> ds == FallbackDeliveries(rt, text)
    ensures PrimaryDecode(rt, clientId, text).Failed? ==> ds == FallbackDeliveries(rt, text)
    ensures PrimaryDecode(rt, clientId, text).Decoded? ==>
      && ds != [] && ds[0] == PrimaryDecode(rt, clientId, text).event
      && ds[1..] == (if listenerFails(ds[0]) then FallbackDeliveries(rt, text) else [])
  {
    match PrimaryDecode(rt, clientId, text)
    case OwnEcho => []
    case Failed => FallbackDeliveries(rt, text)
    case Decoded(e) => [e] + (if listenerFails(e) then FallbackDeliveries(rt, text) else [])
  }

  /** Deliveries made with the loop guard set. */
  function Marked(ds: seq<Event>): (r: seq<Delivery>)
    ensures |r| == |ds|
    ensures forall i :: 0 <= i < |ds| ==> r[i] == Delivery(ds[i], true)
  {
    seq(|ds|, i requires 0 <= i < |ds| => Delivery(ds[i], true))
  }

  class EmqxInboundBridge {
    const client: MqttClient
    const properties: Properties
    const rt: Runtime
    const environment: Environment
    const publisher: EventPublisher
    /** The static loop guard shared with the outbound bridge. */
    const context: InboundContext
    /** Null until `init` runs. */
    var busTopic: Option<string>

    /** The publisher's outbound listener uses the same client and the same guard. */
    predicate Valid()
    {
      publisher.outbound.client == client && publisher.outbound.context == context
    }

    constructor (client: MqttClient, properties: Properties, rt: Runtime, environment: Environment,
                 publisher: EventPublisher, context: InboundContext)
      requires publisher.outbound.client == client && publisher.outbound.context == context
      ensures Valid()
      ensures this.client == client && this.properties == properties && this.rt == rt
      ensures this.environment == environment && this.publisher == publisher && this.context == context
      ensures busTopic.None?
    {
      this.client := client;
      this.properties := properties;
      this.rt := rt;
      this.environment := environment;
      this.publisher := publisher;
      this.context := context;
      busTopic := None;
    }

    /**
     * `init`: derive the base topic, register as the client's callback and
     * subscribe to the whole topic tree below it; a refused subscription
     * becomes an `IllegalStateException` naming the topic.
     */
    method Init() returns (outcome: InitOutcome)
      modifies this, client
      ensures busTopic == Some(BusTopic(properties, environment))
      ensures client.callback == this
      ensures var s := Subscription(SubscriptionFilter(busTopic.value), properties.qos);
        && (outcome == Subscribed <==> client.acceptsSubscription(s))
        && client.subscriptions == old(client.subscriptions) + (if outcome == Subscribed then [s] else [])
      ensures outcome.IllegalStateException? ==> outcome.message == SUBSCRIBE_FAILURE + busTopic.value
      ensures client.published == old(client.published)
    {
      var destination := EnvironmentProperty(environment, DESTINATION_KEY, DEFAULT_DESTINATION);
      busTopic := Some(properties.topicPrefix + "/" + destination);
      client.SetCallback(this);
      var ok := client.Subscribe(Subscription(busTopic.value + "/#", properties.qos));
      if ok {
        outcome := Subscribed;
      } else {
        outcome := IllegalStateException(SUBSCRIBE_FAILURE + busTopic.value);
      }
    }

    /**
     * `messageArrived`: the primary path, then the fallback on any
     * `Exception`; every delivery runs with the guard set and clears it
     * afterwards, and no `Exception` escapes to the caller. `now` is the clock
     * reading the listeners see during delivery.
     */
    method MessageArrived(topic: string, text: string, now: Millis)
      requires Valid()
      modifies context, publisher, client
      ensures publisher.delivered ==
        old(publisher.delivered) + Marked(InboundDeliveries(rt, properties.clientId, publisher.listenerFails, text))
      ensures context.value ==
        if InboundDeliveries(rt, properties.clientId, publisher.listenerFails, text) == [] then old(context.value) else None
      ensures client.published == old(client.published) +
        ListenerPublications(rt, publisher.outbound.properties, publisher.outbound.busTopic, publisher.outbound.busId,
                             client.accepts, Marked(InboundDeliveries(rt, properties.clientId, publisher.listenerFails, text)), now)
      ensures client.published == old(client.published)
      ensures client.subscriptions == old(client.subscriptions) && client.callback == old(client.callback)
    {
      ghost var deliveries := Marked(InboundDeliveries(rt, properties.clientId, publisher.listenerFails, text));
      NothingRepublishedWhileMarked(rt, publisher.outbound.properties, publisher.outbound.busTopic, publisher.outbound.busId,
                                    client.accepts, deliveries, now);
      var fallback := false;
      var envelope := rt.readEnvelope(text);
      if envelope.None? {
        fallback := true;
      } else if envelope.value.senderId == Some(properties.clientId) {
        // our own publication coming back
        return;
      } else if envelope.value.typeName.None? || !rt.classExists(envelope.value.typeName.value) {
        fallback := true;
      } else if envelope.value.payload.None? {
        fallback := true;
      } else {
        var event := rt.readEvent(envelope.value.payload.value, envelope.value.typeName.value);
        if event.None? {
          fallback := true;
        } else {
          context.MarkInbound();
          var threw := publisher.PublishEvent(event.value, now);
          context.ClearInbound();
          fallback := threw;
        }
      }
      if fallback && rt.classExists(REMOTE_EVENT_CLASS) {
        var event := rt.readEvent(text, REMOTE_EVENT_CLASS);
        if event.Some? {
          context.MarkInbound();
          var _ := publisher.PublishEvent(event.value, now);
          context.ClearInbound();
        }
      }
    }
  }
}
