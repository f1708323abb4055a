/**
 * `EmqxBusBridge`: the `BusBridge` that Spring Cloud Bus calls directly to
 * send one event. It builds the same envelope as the outbound relay but
 * applies none of its filters.
 */
module BusBridge {
  import opened Options
  import opened BusTypes
  import opened Mqtt
  import opened EnvelopeCodec

  /** The message `send` hands to the client (None = nothing, because the event is null or building throws). */
  function DirectPublication(rt: Runtime, props: Properties, busTopic: string,
                             event: Option<Event>, now: Millis): (r: Option<Message>)
    ensures event.None? ==> r.None?
    ensures event.Some? ==> r == Publication(rt, props, busTopic, event.value, now)
    ensures r.Some? ==> r.value.topic == busTopic && r.value.qos == props.qos
    ensures Faithful(rt) && r.Some? ==>
      && rt.writeEvent(event.value).Some?
      && rt.readEnvelope(r.value.text) == Some(EnvelopeOf(event.value, rt.writeEvent(event.value).value, props.clientId, now))
  {
    match event
    case None => None
    case Some(e) => Publication(rt, props, busTopic, e, now)
  }

  class EmqxBusBridge {
    const client: MqttClient
    const properties: Properties
    const rt: Runtime
    const environment: Environment
    const busTopic: string
    /** Derived as in the outbound bridge, but `send` never reads it. */
    const busId: string

    constructor (client: MqttClient, properties: Properties, rt: Runtime, environment: Environment)
      ensures this.client == client && this.properties == properties && this.rt == rt
      ensures this.environment == environment
      ensures busTopic == BusTopic(properties, environment) && busId == BusId(environment)
    {
      this.client := client;
      this.properties := properties;
      this.rt := rt;
      this.environment := environment;
      var destination := EnvironmentProperty(environment, DESTINATION_KEY, DEFAULT_DESTINATION);
      busTopic := properties.topicPrefix + "/" + destination;
      busId := EnvironmentProperty(environment, APPLICATION_NAME_KEY, DEFAULT_APPLICATION_NAME);
    }

    /**
     * `send(event)`: a null event is ignored; otherwise the envelope is
     * built field by field and published, and every `Exception` is swallowed.
     */
    method Send(event: Option<Event>, now: Millis)
      modifies client
      ensures client.published == old(client.published) + Accepted(client.accepts, DirectPublication(rt, properties, busTopic, event, now))
      ensures client.subscriptions == old(client.subscriptions) && client.callback == old(client.callback)
    {
      if event.None? {
        return;
      }
      var e := event.value;
      var payload := rt.writeEvent(e);
      if payload.None? {
        return;
      }
      var envelope := EmptyEnvelope();
      envelope := envelope.(typeName := Some(e.className));
      envelope := envelope.(payload := payload);
      envelope := envelope.(originService := e.originService);
      envelope := envelope.(destinationService := e.destinationService);
      envelope := envelope.(senderId := Some(properties.clientId));
      envelope := envelope.(timestamp := now);
      var msg := rt.writeEnvelope(envelope);
      if msg.None? || !ValidQos(properties.qos) {
        return;
      }
      var _ := client.Publish(Message(busTopic, msg.value, properties.qos));
    }
  }
}
