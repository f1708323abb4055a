/**
 * Spring's `ApplicationEventPublisher`, the local notification mechanism the
 * inbound bridge delivers to. `publishEvent` calls the listeners
 * synchronously on the caller's thread; the outbound bridge is one of them,
 * so it observes every delivery while the loop guard still holds its value.
 */
module EventPublisher {
  import opened BusTypes
  import opened Mqtt
  import opened OutboundBridge

  /** One local delivery and whether the loop guard was set while it ran. */
  datatype Delivery = Delivery(event: Event, inboundMarked: bool)

  /**
   * What the outbound listener publishes while observing deliveries `ds`,
   * each with the guard value recorded for it.
   */
  function ListenerPublications(rt: Runtime, props: Properties, busTopic: string, busId: string,
                                accepts: Message -> bool, ds: seq<Delivery>, now: Millis): (r: seq<Message>)
    ensures |r| <= |ds|
    ensures forall i :: 0 <= i < |r| ==> r[i].topic == busTopic && r[i].qos == props.qos
  {
    if ds == [] then []
    else Accepted(accepts, OutboundPublication(rt, props, busTopic, busId, ds[0].inboundMarked, ds[0].event, now))
         + ListenerPublications(rt, props, busTopic, busId, accepts, ds[1..], now)
  }

  /** The outbound listener publishes nothing for deliveries made while the guard was set. */
  lemma {:induction false} NothingRepublishedWhileMarked(rt: Runtime, props: Properties, busTopic: string, busId: string,
                                                         accepts: Message -> bool, ds: seq<Delivery>, now: Millis)
    requires forall i :: 0 <= i < |ds| ==> ds[i].inboundMarked
    ensures ListenerPublications(rt, props, busTopic, busId, accepts, ds, now) == []
  {
    if ds != [] {
      NothingRepublishedWhileMarked(rt, props, busTopic, busId, accepts, ds[1..], now);
    }
  }

  class EventPublisher {
    /** Every event published locally, in order. */
    var delivered: seq<Delivery>
    /** The outbound bridge, registered as a listener. */
    const outbound: EmqxOutboundBridge
    /** Whether some other listener throws an `Exception` for an event (it reaches the caller). */
    const listenerFails: Event -> bool

    constructor (outbound: EmqxOutboundBridge, listenerFails: Event -> bool)
      ensures delivered == [] && this.outbound == outbound && this.listenerFails == listenerFails
    {
      delivered := [];
      this.outbound := outbound;
      this.listenerFails := listenerFails;
    }

    /**
     * `publishEvent(event)`: records the delivery, runs the outbound
     * listener and reports whether a listener threw.
     */
    method PublishEvent(e: Event, now: Millis) returns (threw: bool)
      modifies this, outbound.client
      ensures delivered == old(delivered) + [Delivery(e, outbound.context.IsInbound())]
      ensures outbound.client.published == old(outbound.client.published) +
        Accepted(outbound.client.accepts,
                 OutboundPublication(outbound.rt, outbound.properties, outbound.busTopic, outbound.busId,
                                     outbound.context.IsInbound(), e, now))
      ensures outbound.client.subscriptions == old(outbound.client.subscriptions)
      ensures outbound.client.callback == old(outbound.client.callback)
      ensures threw == listenerFails(e)
    {
      delivered := delivered + [Delivery(e, outbound.context.IsInbound())];
      outbound.OnApplicationEvent(e, now);
      threw := listenerFails(e);
    }
  }
}
