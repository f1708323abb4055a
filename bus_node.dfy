/**
 * One bus instance as the auto-configuration wires it: a single MQTT
 * client, the shared loop guard, the local event publisher with the
 * outbound bridge as listener, the inbound bridge and the direct-send
 * bridge, all over the same properties, environment and mapper. Work
 * reaches the instance one stimulus at a time.
 */
module BusNode {
  import opened Options
  import opened BusTypes
  import opened Mqtt
  import opened LoopGuard
  import opened OutboundBridge
  import opened EventPublisher
  import opened InboundBridge
  import opened BusBridge
  import opened Relay

  lemma AppendAssociative<T>(a: seq<T>, b: seq<T>, c: seq<T>)
    ensures (a + b) + c == a + (b + c)
  {
  }

  lemma AppendThenDrop<T>(a: seq<T>, b: seq<T>)
    ensures (a + b)[|a|..] == b
  {
  }

  class EmqxBus {
    const client: MqttClient
    const context: InboundContext
    const properties: Properties
    const environment: Environment
    const rt: Runtime
    const outbound: EmqxOutboundBridge
    const publisher: EventPublisher
    const inbound: EmqxInboundBridge
    const busBridge: EmqxBusBridge
    /** How the inbound bridge's `@PostConstruct init` ended. */
    const initOutcome: InitOutcome

    /** Every bridge shares the client, the guard and the configuration. */
    ghost predicate Valid()
    {
      && outbound.client == client && outbound.context == context
      && outbound.properties == properties && outbound.rt == rt
      && outbound.busTopic == BusTopic(properties, environment) && outbound.busId == BusId(environment)
      && publisher.outbound == outbound
      && inbound.client == client && inbound.context == context && inbound.publisher == publisher
      && inbound.properties == properties && inbound.rt == rt
      && busBridge.client == client && busBridge.properties == properties && busBridge.rt == rt
      && busBridge.busTopic == BusTopic(properties, environment) && busBridge.busId == BusId(environment)
      && inst == Instance(properties, environment, client.accepts, publisher.listenerFails)
    }

    /** The instance's configuration and collaborators, as the run functions take them. */
    ghost const inst: Instance

    constructor (client: MqttClient, properties: Properties, rt: Runtime, environment: Environment,
                 listenerFails: Event -> bool)
      modifies client
      ensures Valid() && fresh(context) && context.value == None
      ensures this.client == client && this.properties == properties && this.environment == environment
      ensures publisher.listenerFails == listenerFails && publisher.delivered == []
      ensures inbound.busTopic == Some(BusTopic(properties, environment))
      ensures client.callback == inbound
      ensures var s := Subscription(SubscriptionFilter(BusTopic(properties, environment)), properties.qos);
        && (initOutcome == Subscribed <==> client.acceptsSubscription(s))
        && client.subscriptions == old(client.subscriptions) + (if initOutcome == Subscribed then [s] else [])
      ensures client.published == old(client.published)
    {
      this.client := client;
      this.properties := properties;
      this.environment := environment;
      this.rt := rt;
      var guard := new InboundContext();
      var ob := new EmqxOutboundBridge(client, properties, rt, environment, guard);
      var pub := new EventPublisher(ob, listenerFails);
      context := guard;
      outbound := ob;
      publisher := pub;
      var ib := new EmqxInboundBridge(client, properties, rt, environment, pub, guard);
      var outcome := ib.Init();
      initOutcome := outcome;
      inbound := ib;
      busBridge := new EmqxBusBridge(client, properties, rt, environment);
      inst := Instance(properties, environment, client.accepts, listenerFails);
    }

    /**
     * One stimulus: a local `publishEvent`, an MQTT `messageArrived`, or a
     * `BusBridge.send`. The broker log and the guard move exactly as the
     * run functions say.
     */
    method Handle(s: Stimulus)
      requires Valid()
      modifies client, context, publisher
      ensures client.published == old(client.published) + StepPublished(rt, inst, old(context.value), s)
      ensures context.value == StepGuard(rt, inst, old(context.value), s)
      ensures publisher.delivered == old(publisher.delivered) + StepDelivered(rt, inst, old(context.value), s)
      ensures client.subscriptions == old(client.subscriptions) && client.callback == old(client.callback)
    {
      match s
      case Raise(e, now) =>
        var _ := publisher.PublishEvent(e, now);
      case Arrive(topic, text, now) =>
        inbound.MessageArrived(topic, text, now);
      case DirectSend(ev, now) =>
        busBridge.Send(ev, now);
    }

    /**
     * Stimuli handled one after another, as the client's dispatch thread
     * does. Starting from an unset guard, what reaches the broker is
     * exactly what the run's local stimuli alone would produce.
     */
    method Run(run: seq<Stimulus>)
      requires Valid()
      modifies client, context, publisher
      ensures client.published == old(client.published) + Published(rt, inst, old(context.value), run)
      ensures context.value == GuardAfter(rt, inst, old(context.value), run)
      ensures publisher.delivered == old(publisher.delivered) + Delivered(rt, inst, old(context.value), run)
      ensures client.subscriptions == old(client.subscriptions) && client.callback == old(client.callback)
      ensures old(context.value) == None ==>
        client.published == old(client.published) + Published(rt, inst, None, LocalOnly(run))
      ensures old(context.value) == None ==>
        Unmarked(publisher.delivered[|old(publisher.delivered)|..]) == Delivered(rt, inst, None, LocalOnly(run))
    {
      var i := 0;
      while i < |run|
        invariant 0 <= i <= |run|
        invariant client.published + Published(rt, inst, context.value, run[i..])
                  == old(client.published) + Published(rt, inst, old(context.value), run)
        invariant GuardAfter(rt, inst, context.value, run[i..]) == GuardAfter(rt, inst, old(context.value), run)
        invariant publisher.delivered + Delivered(rt, inst, context.value, run[i..])
                  == old(publisher.delivered) + Delivered(rt, inst, old(context.value), run)
        invariant client.subscriptions == old(client.subscriptions) && client.callback == old(client.callback)
      {
        ghost var before, recorded, guard := client.published, publisher.delivered, context.value;
        ghost var step := StepPublished(rt, inst, guard, run[i]);
        ghost var rest := Published(rt, inst, StepGuard(rt, inst, guard, run[i]), run[i + 1..]);
        ghost var stepDelivered := StepDelivered(rt, inst, guard, run[i]);
        ghost var restDelivered := Delivered(rt, inst, StepGuard(rt, inst, guard, run[i]), run[i + 1..]);
        RunFrom(rt, inst, guard, run, i);
        Handle(run[i]);
        AppendAssociative(before, step, rest);
        AppendAssociative(recorded, stepDelivered, restDelivered);
        i := i + 1;
      }
      if old(context.value) == None {
        InboundNeverRepublished(rt, inst, run);
        LocalDeliveriesUnmarked(rt, inst, run);
        AppendThenDrop(old(publisher.delivered), Delivered(rt, inst, None, run));
      }
    }
  }
}
