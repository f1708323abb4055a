/**
 * `EmqxOutboundBridge`: the listener that sees every local application
 * event and publishes the locally originated remote events to the bus.
 */
module OutboundBridge {
  import opened Options
  import opened BusTypes
  import opened Mqtt
  import opened EnvelopeCodec
  import opened LoopGuard

  /**
   * `isRemoteApplicationEvent`: the base class must be loadable and the
   * event an instance of it; a missing class means "no".
   */
  predicate IsRemoteApplicationEvent(rt: Runtime, e: Event)
    ensures !rt.classExists(REMOTE_EVENT_CLASS) ==> !IsRemoteApplicationEvent(rt, e)
    ensures IsRemoteApplicationEvent(rt, e) <==> rt.classExists(REMOTE_EVENT_CLASS) && e.remote
  {
    rt.classExists(REMOTE_EVENT_CLASS) && e.remote
  }

  /**
   * `getProperty(event, name)`: the value of the getter `get<Name>()`, or
   * null when the call fails; events have getters for exactly the two
   * properties the bridge asks for.
   */
  function GetProperty(e: Event, name: string): (v: Option<string>)
    ensures name == "originService" ==> v == e.originService
    ensures name == "destinationService" ==> v == e.destinationService
    ensures name != "originService" && name != "destinationService" ==> v.None?
  {
    if name == "originService" then e.originService
    else if name == "destinationService" then e.destinationService
    else None
  }

  /** The origin test: present and starting with the local service name, a literal prefix test. */
  predicate OriginIsLocal(busId: string, origin: Option<string>)
    ensures OriginIsLocal(busId, origin) <==>
      origin.Some? && |busId| <= |origin.value| && origin.value[..|busId|] == busId
    ensures origin == Some(busId) ==> OriginIsLocal(busId, origin)
  {
    origin.Some? && busId <= origin.value
  }

  /**
   * The message `onApplicationEvent` hands to the client for `e`, when the
   * guard reads `inbound`; None when a filter drops the event or building
   * the message throws.
   */
  function OutboundPublication(rt: Runtime, props: Properties, busTopic: string, busId: string,
                               inbound: bool, e: Event, now: Millis): (r: Option<Message>)
    ensures !IsRemoteApplicationEvent(rt, e) ==> r.None?
    ensures inbound ==> r.None?
    ensures !OriginIsLocal(busId, e.originService) ==> r.None?
    ensures IsRemoteApplicationEvent(rt, e) && !inbound && OriginIsLocal(busId, e.originService) ==>
      r == Publication(rt, props, busTopic, e, now)
    ensures r.Some? ==> r.value.topic == busTopic && r.value.qos == props.qos
    ensures Faithful(rt) && r.Some? ==>
      && rt.writeEvent(e).Some?
      && rt.readEnvelope(r.value.text) == Some(EnvelopeOf(e, rt.writeEvent(e).value, props.clientId, now))
  {
    if !IsRemoteApplicationEvent(rt, e) then None
    else if inbound then None
    else if !OriginIsLocal(busId, GetProperty(e, "originService")) then None
    else Publication(rt, props, busTopic, e, now)
  }

  class EmqxOutboundBridge {
    const client: MqttClient
    const properties: Properties
    const rt: Runtime
    const environment: Environment
    /** The static loop guard shared with the inbound bridge. */
    const context: InboundContext
    const busTopic: string
    const busId: string

    constructor (client: MqttClient, properties: Properties, rt: Runtime,
                 environment: Environment, context: InboundContext)
      ensures this.client == client && this.properties == properties && this.rt == rt
      ensures this.environment == environment && this.context == context
      ensures busTopic == BusTopic(properties, environment) && busId == BusId(environment)
    {
      this.client := client;
      this.properties := properties;
      this.rt := rt;
      this.environment := environment;
      this.context := context;
      var destination := EnvironmentProperty(environment, DESTINATION_KEY, DEFAULT_DESTINATION);
      busTopic := properties.topicPrefix + "/" + destination;
      busId := EnvironmentProperty(environment, APPLICATION_NAME_KEY, DEFAULT_APPLICATION_NAME);
    }

    /**
     * `onApplicationEvent`: the three filters, then the envelope built
     * field by field and published; every `Exception` is swallowed, so the
     * only effect is at most one message on the broker log.
     */
    method OnApplicationEvent(e: Event, now: Millis)
      modifies client
      ensures client.published ==
        old(client.published) + Accepted(client.accepts, OutboundPublication(rt, properties, busTopic, busId, context.IsInbound(), e, now))
      ensures client.subscriptions == old(client.subscriptions) && client.callback == old(client.callback)
    {
      if !IsRemoteApplicationEvent(rt, e) {
        return;
      }
      if context.IsInbound() {
        return;
      }
      var originService := GetProperty(e, "originService");
      if originService.None? || !(busId <= originService.value) {
        return;
      }
      var payload := rt.writeEvent(e);
      if payload.None? {
        return;
      }
      var envelope := EmptyEnvelope();
      envelope := envelope.(typeName := Some(e.className));
      envelope := envelope.(payload := payload);
      envelope := envelope.(originService := originService);
      envelope := envelope.(destinationService := GetProperty(e, "destinationService"));
      envelope := envelope.(senderId := Some(properties.clientId));
      envelope := envelope.(timestamp := now);
      var msg := rt.writeEnvelope(envelope);
      if msg.None? || !ValidQos(properties.qos) {
        return;
      }
      var _ := client.Publish(Message(busTopic, msg.value, properties.qos));
    }
  }
}
