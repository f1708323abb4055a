/**
 * What both sending paths do once they have decided to send an event:
 * encode the event, wrap it in a `BusEnvelope`, encode the envelope, build
 * the `MqttMessage` at the configured quality of service. Any exception on
 * the way means nothing is handed to the client.
 */
module EnvelopeCodec {
  import opened Options
  import opened BusTypes
  import opened Mqtt

  /** The message a sending path hands to `client.publish` for `e`, or None if building it throws. */
  function Publication(rt: Runtime, props: Properties, topic: string, e: Event, now: Millis): (r: Option<Message>)
    ensures r.Some? ==> r.value.topic == topic && r.value.qos == props.qos && ValidQos(props.qos)
    ensures r.Some? <==>
      && ValidQos(props.qos)
      && rt.writeEvent(e).Some?
      && rt.writeEnvelope(EnvelopeOf(e, rt.writeEvent(e).value, props.clientId, now)).Some?
    ensures Faithful(rt) && r.Some? ==>
      rt.readEnvelope(r.value.text) == Some(EnvelopeOf(e, rt.writeEvent(e).value, props.clientId, now))
  {
    match rt.writeEvent(e)
    case None => None
    case Some(payload) =>
      match rt.writeEnvelope(EnvelopeOf(e, payload, props.clientId, now))
      case None => None
      case Some(text) => if ValidQos(props.qos) then Some(Message(topic, text, props.qos)) else None
  }
}
