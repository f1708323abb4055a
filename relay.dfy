/**
 * One bus instance over a whole run: the three ways work reaches it (a
 * locally raised event, a message from the broker, a direct `send`), what
 * it publishes in response, and the relay properties that hold for every
 * run — no relay loop, no self-echo, only local origins relayed — and
 * between two instances sharing a bus.
 */
module Relay {
  import opened Options
  import opened BusTypes
  import opened Mqtt
  import opened EnvelopeCodec
  import opened OutboundBridge
  import opened InboundBridge
  import opened BusBridge
  import opened EventPublisher

  /** What one instance is given: its configuration and its collaborators' behaviour. */
  datatype Instance = Instance(
    props: Properties,
    env: Environment,
    accepts: Message -> bool,
    listenerFails: Event -> bool)

  /** One unit of work, processed sequentially. */
  datatype Stimulus =
    | Raise(event: Event, now: Millis)                  // `publisher.publishEvent` by the application
    | Arrive(topic: string, text: string, now: Millis)  // `messageArrived` from the broker
    | DirectSend(sent: Option<Event>, now: Millis)      // `BusBridge.send`

  /** The message text is an envelope this instance sent itself. */
  predicate IsOwnEcho(rt: Runtime, clientId: string, text: string)
  {
    rt.readEnvelope(text).Some? && rt.readEnvelope(text).value.senderId == Some(clientId)
  }

  /** What the broker log gains from one stimulus, given the guard's value beforehand. */
  function StepPublished(rt: Runtime, inst: Instance, guard: Option<bool>, s: Stimulus): (r: seq<Message>)
    ensures forall i :: 0 <= i < |r| ==>
      r[i].topic == BusTopic(inst.props, inst.env) && r[i].qos == inst.props.qos
    ensures Faithful(rt) ==> forall i :: 0 <= i < |r| ==> IsOwnEcho(rt, inst.props.clientId, r[i].text)
  {
    match s
    case Raise(e, now) =>
      Accepted(inst.accepts, OutboundPublication(rt, inst.props, BusTopic(inst.props, inst.env), BusId(inst.env),
                                                 guard == Some(true), e, now))
    case Arrive(_, text, now) =>
      var ds := Marked(InboundDeliveries(rt, inst.props.clientId, inst.listenerFails, text));
      NothingRepublishedWhileMarked(rt, inst.props, BusTopic(inst.props, inst.env), BusId(inst.env), inst.accepts, ds, now);
      ListenerPublications(rt, inst.props, BusTopic(inst.props, inst.env), BusId(inst.env), inst.accepts, ds, now)
    case DirectSend(ev, now) =>
      Accepted(inst.accepts, DirectPublication(rt, inst.props, BusTopic(inst.props, inst.env), ev, now))
  }

  /** The guard's value after one stimulus: cleared by any inbound delivery, untouched otherwise. */
  function StepGuard(rt: Runtime, inst: Instance, guard: Option<bool>, s: Stimulus): (g: Option<bool>)
    ensures guard.None? ==> g.None?
    ensures s.Arrive? && InboundDeliveries(rt, inst.props.clientId, inst.listenerFails, s.text) != [] ==> g.None?
  {
    match s
    case Arrive(_, text, _) =>
      if InboundDeliveries(rt, inst.props.clientId, inst.listenerFails, text) == [] then guard else None
    case _ => guard
  }

  /**
   * What the local publisher records from one stimulus, given the guard's
   * value beforehand: a raised event once, with the guard as it stood; an
   * inbound message's deliveries, all with the guard set; nothing for a
   * direct send.
   */
  function StepDelivered(rt: Runtime, inst: Instance, guard: Option<bool>, s: Stimulus): (ds: seq<Delivery>)
    ensures |ds| <= 2
    ensures s.Raise? ==> |ds| == 1 && ds[0].event == s.event && (ds[0].inboundMarked <==> guard == Some(true))
    ensures s.Arrive? ==> forall i :: 0 <= i < |ds| ==> ds[i].inboundMarked
    ensures s.Arrive? && IsOwnEcho(rt, inst.props.clientId, s.text) ==> ds == []
    ensures s.DirectSend? ==> ds == []
  {
    match s
    case Raise(e, _) => [Delivery(e, guard == Some(true))]
    case Arrive(_, text, _) => Marked(InboundDeliveries(rt, inst.props.clientId, inst.listenerFails, text))
    case DirectSend(_, _) => []
  }

  /** The guard's value after a whole run. */
  function GuardAfter(rt: Runtime, inst: Instance, guard: Option<bool>, run: seq<Stimulus>): (g: Option<bool>)
    ensures guard.None? ==> g.None?
    decreases |run|
  {
    if run == [] then guard else GuardAfter(rt, inst, StepGuard(rt, inst, guard, run[0]), run[1..])
  }

  /** What the local publisher records over a run, starting from guard value `guard`. */
  function Delivered(rt: Runtime, inst: Instance, guard: Option<bool>, run: seq<Stimulus>): (r: seq<Delivery>)
    ensures |r| <= 2 * |run|
    ensures (forall i :: 0 <= i < |run| ==> run[i].Arrive?) ==> forall i :: 0 <= i < |r| ==> r[i].inboundMarked
    decreases |run|
  {
    if run == [] then []
    else StepDelivered(rt, inst, guard, run[0]) + Delivered(rt, inst, StepGuard(rt, inst, guard, run[0]), run[1..])
  }

  /** The broker log an instance produces over a run, starting from guard value `guard`. */
  function Published(rt: Runtime, inst: Instance, guard: Option<bool>, run: seq<Stimulus>): (r: seq<Message>)
    ensures forall i :: 0 <= i < |r| ==>
      r[i].topic == BusTopic(inst.props, inst.env) && r[i].qos == inst.props.qos
    ensures Faithful(rt) ==> forall i :: 0 <= i < |r| ==> IsOwnEcho(rt, inst.props.clientId, r[i].text)
    decreases |run|
  {
    if run == [] then []
    else StepPublished(rt, inst, guard, run[0]) + Published(rt, inst, StepGuard(rt, inst, guard, run[0]), run[1..])
  }

  /** A run from position `i` is its `i`-th stimulus followed by the run from `i + 1`. */
  lemma RunFrom(rt: Runtime, inst: Instance, guard: Option<bool>, run: seq<Stimulus>, i: nat)
    requires i < |run|
    ensures Published(rt, inst, guard, run[i..]) ==
      StepPublished(rt, inst, guard, run[i]) + Published(rt, inst, StepGuard(rt, inst, guard, run[i]), run[i + 1..])
    ensures Delivered(rt, inst, guard, run[i..]) ==
      StepDelivered(rt, inst, guard, run[i]) + Delivered(rt, inst, StepGuard(rt, inst, guard, run[i]), run[i + 1..])
    ensures GuardAfter(rt, inst, guard, run[i..]) == GuardAfter(rt, inst, StepGuard(rt, inst, guard, run[i]), run[i + 1..])
  {
    assert run[i..][0] == run[i] && run[i..][1..] == run[i + 1..];
  }

  /** The run without its inbound messages. */
  function LocalOnly(run: seq<Stimulus>): (r: seq<Stimulus>)
    ensures |r| <= |run|
    ensures forall i :: 0 <= i < |r| ==> !r[i].Arrive? && r[i] in run
    ensures forall s :: s in run && !s.Arrive? ==> s in r
  {
    if run == [] then []
    else if run[0].Arrive? then LocalOnly(run[1..])
    else [run[0]] + LocalOnly(run[1..])
  }

  /**
   * No relay loop: starting with the guard unset (a fresh thread), removing
   * every inbound message from a run leaves the broker log unchanged, so
   * nothing that arrived from the network is ever published again.
   */
  lemma {:induction false} InboundNeverRepublished(rt: Runtime, inst: Instance, run: seq<Stimulus>)
    ensures Published(rt, inst, None, run) == Published(rt, inst, None, LocalOnly(run))
  {
    if run != [] {
      InboundNeverRepublished(rt, inst, run[1..]);
      if run[0].Arrive? {
        NothingRepublishedWhileMarked(rt, inst.props, BusTopic(inst.props, inst.env), BusId(inst.env), inst.accepts,
          Marked(InboundDeliveries(rt, inst.props.clientId, inst.listenerFails, run[0].text)), run[0].now);
      } else {
        assert LocalOnly(run) == [run[0]] + LocalOnly(run[1..]);
        assert ([run[0]] + LocalOnly(run[1..]))[1..] == LocalOnly(run[1..]);
      }
    }
  }

  /** The deliveries made with the guard unset, in order: the ones the outbound relay judges on its filters. */
  function Unmarked(ds: seq<Delivery>): (r: seq<Delivery>)
    ensures |r| <= |ds|
    ensures forall d :: d in r <==> d in ds && !d.inboundMarked
  {
    if ds == [] then []
    else if ds[0].inboundMarked then Unmarked(ds[1..])
    else [ds[0]] + Unmarked(ds[1..])
  }

  lemma {:induction false} UnmarkedAppend(a: seq<Delivery>, b: seq<Delivery>)
    ensures Unmarked(a + b) == Unmarked(a) + Unmarked(b)
  {
    if a != [] {
      assert (a + b)[1..] == a[1..] + b;
      UnmarkedAppend(a[1..], b);
    } else {
      assert a + b == b;
    }
  }

  lemma {:induction false} UnmarkedOfMarked(ds: seq<Delivery>)
    requires forall i :: 0 <= i < |ds| ==> ds[i].inboundMarked
    ensures Unmarked(ds) == []
  {
    if ds != [] {
      UnmarkedOfMarked(ds[1..]);
    }
  }

  /**
   * Starting with the guard unset, the guard is cleared after every inbound
   * delivery, so every locally raised event, including one that follows an
   * inbound message, reaches the listeners with the guard unset: the
   * unmarked deliveries of a run are exactly those of its local stimuli,
   * and those are all unmarked.
   */
  lemma {:induction false} LocalDeliveriesUnmarked(rt: Runtime, inst: Instance, run: seq<Stimulus>)
    ensures Unmarked(Delivered(rt, inst, None, run)) == Delivered(rt, inst, None, LocalOnly(run))
    ensures forall i :: 0 <= i < |Delivered(rt, inst, None, LocalOnly(run))| ==>
      !Delivered(rt, inst, None, LocalOnly(run))[i].inboundMarked
    decreases |run|
  {
    if run != [] {
      LocalDeliveriesUnmarked(rt, inst, run[1..]);
      var step := StepDelivered(rt, inst, None, run[0]);
      var rest := Delivered(rt, inst, None, run[1..]);
      assert StepGuard(rt, inst, None, run[0]) == None;
      assert Delivered(rt, inst, None, run) == step + rest;
      UnmarkedAppend(step, rest);
      if run[0].Arrive? {
        UnmarkedOfMarked(step);
        assert LocalOnly(run) == LocalOnly(run[1..]);
      } else {
        assert LocalOnly(run) == [run[0]] + LocalOnly(run[1..]);
        assert ([run[0]] + LocalOnly(run[1..]))[1..] == LocalOnly(run[1..]);
        assert Unmarked(step) == step by {
          if run[0].Raise? {
            assert step == [Delivery(run[0].event, false)];
            assert step[1..] == [];
          }
        }
      }
    }
  }

  /**
   * No self-echo: every message an instance published, when the broker
   * hands it back to the same instance, is dropped without any delivery.
   */
  lemma OwnPublicationsNotRedelivered(rt: Runtime, inst: Instance, guard: Option<bool>, run: seq<Stimulus>, i: nat)
    requires Faithful(rt)
    requires i < |Published(rt, inst, guard, run)|
    ensures InboundDeliveries(rt, inst.props.clientId, inst.listenerFails, Published(rt, inst, guard, run)[i].text) == []
  {
  }

  /** The run has no direct `send` in it: events only reach the bus through the outbound relay. */
  predicate RelayOnly(run: seq<Stimulus>)
  {
    forall i :: 0 <= i < |run| ==> !run[i].DirectSend?
  }

  /** The envelope in `text` names an origin that starts with `busId`. */
  predicate OriginStartsWith(rt: Runtime, busId: string, text: string)
  {
    && rt.readEnvelope(text).Some?
    && rt.readEnvelope(text).value.originService.Some?
    && busId <= rt.readEnvelope(text).value.originService.value
  }

  /**
   * Origin filtering over a run: without direct sends, every envelope on
   * the broker log carries an origin that starts with the local service
   * name, whatever the guard did.
   */
  lemma {:induction false} RelayedOriginsAreLocal(rt: Runtime, inst: Instance, guard: Option<bool>, run: seq<Stimulus>)
    requires Faithful(rt)
    requires RelayOnly(run)
    ensures forall i :: 0 <= i < |Published(rt, inst, guard, run)| ==>
      OriginStartsWith(rt, BusId(inst.env), Published(rt, inst, guard, run)[i].text)
    decreases |run|
  {
    if run != [] {
      var head := StepPublished(rt, inst, guard, run[0]);
      var tail := Published(rt, inst, StepGuard(rt, inst, guard, run[0]), run[1..]);
      assert RelayOnly(run[1..]) by {
        forall i | 0 <= i < |run[1..]| ensures !run[1..][i].DirectSend? {
          assert run[1..][i] == run[i + 1];
        }
      }
      RelayedOriginsAreLocal(rt, inst, StepGuard(rt, inst, guard, run[0]), run[1..]);
      if run[0].Arrive? {
        NothingRepublishedWhileMarked(rt, inst.props, BusTopic(inst.props, inst.env), BusId(inst.env), inst.accepts,
          Marked(InboundDeliveries(rt, inst.props.clientId, inst.listenerFails, run[0].text)), run[0].now);
      }
      forall i | 0 <= i < |head| ensures OriginStartsWith(rt, BusId(inst.env), head[i].text) {
        assert run[0].Raise?;
      }
      assert Published(rt, inst, guard, run) == head + tail;
    }
  }

  /**
   * Round trip between two instances: an event that one instance relays
   * is delivered exactly once, unchanged, by a peer with another client id.
   */
  lemma PeerDeliversRelayedEvent(rt: Runtime, sender: Instance, peer: Instance, e: Event, now: Millis)
    requires Faithful(rt) && EventFaithful(rt, e) && rt.classExists(e.className)
    requires sender.props.clientId != peer.props.clientId
    requires !peer.listenerFails(e)
    requires StepPublished(rt, sender, None, Raise(e, now)) != []
    ensures InboundDeliveries(rt, peer.props.clientId, peer.listenerFails,
                              StepPublished(rt, sender, None, Raise(e, now))[0].text) == [e]
  {
  }

  /**
   * Unknown-type fallback: an envelope from someone else whose type does
   * not resolve is delivered through the base-class decode of the raw text.
   */
  lemma UnknownTypeFallsBack(rt: Runtime, clientId: string, listenerFails: Event -> bool, text: string, f: Event)
    requires rt.readEnvelope(text).Some? && rt.readEnvelope(text).value.senderId != Some(clientId)
    requires rt.readEnvelope(text).value.typeName.None? || !rt.classExists(rt.readEnvelope(text).value.typeName.value)
    requires rt.classExists(REMOTE_EVENT_CLASS) && rt.readEvent(text, REMOTE_EVENT_CLASS) == Some(f)
    ensures InboundDeliveries(rt, clientId, listenerFails, text) == [f]
  {
  }

  /** Malformed input: text that is neither an envelope nor a base event delivers nothing. */
  lemma MalformedInputIgnored(rt: Runtime, clientId: string, listenerFails: Event -> bool, text: string)
    requires rt.readEnvelope(text).None?
    requires !rt.classExists(REMOTE_EVENT_CLASS) || rt.readEvent(text, REMOTE_EVENT_CLASS).None?
    ensures InboundDeliveries(rt, clientId, listenerFails, text) == []
  {
  }

  /** With the declared defaults, the bridges publish to and subscribe below `spring/bus/springCloudBus`. */
  lemma DefaultTopics(clientId: string, env: Environment)
    requires DESTINATION_KEY !in env
    ensures BusTopic(DefaultProperties(clientId), env) == "spring/bus/springCloudBus"
    ensures SubscriptionFilter(BusTopic(DefaultProperties(clientId), env)) == "spring/bus/springCloudBus/#"
  {
  }

  /**
   * Two instances of service `svc` with client ids `a1` and `b1`: a refresh
   * event raised on the first is published once to the default topic, the
   * second delivers it unchanged, and the first drops its own echo.
   */
  lemma RefreshScenario(rt: Runtime, now: Millis, acceptsA: Message -> bool, failsA: Event -> bool,
                        acceptsB: Message -> bool, failsB: Event -> bool)
    requires Faithful(rt)
    requires rt.classExists(REMOTE_EVENT_CLASS)
    requires EventFaithful(rt, RefreshEvent()) && rt.classExists(RefreshEvent().className)
    requires rt.writeEvent(RefreshEvent()).Some?
    requires rt.writeEnvelope(EnvelopeOf(RefreshEvent(), rt.writeEvent(RefreshEvent()).value, "a1", now)).Some?
    requires forall m :: acceptsA(m)
    requires !failsB(RefreshEvent())
    ensures var a := Instance(DefaultProperties("a1"), map[APPLICATION_NAME_KEY := "svc"], acceptsA, failsA);
            var log := Published(rt, a, None, [Raise(RefreshEvent(), now)]);
            && |log| == 1
            && log[0].topic == "spring/bus/springCloudBus" && log[0].qos == 1
            && InboundDeliveries(rt, "b1", failsB, log[0].text) == [RefreshEvent()]
            && InboundDeliveries(rt, "a1", failsA, log[0].text) == []
  {
    var env := map[APPLICATION_NAME_KEY := "svc"];
    var run := [Raise(RefreshEvent(), now)];
    assert run[1..] == [];
    DefaultTopics("a1", env);
    assert BusId(env) == "svc";
  }

  /** The refresh event of the scenario: from `svc`, addressed to everyone. */
  function RefreshEvent(): (e: Event)
    ensures e.remote && e.originService == Some("svc")
  {
    Event("org.springframework.cloud.bus.event.RefreshRemoteApplicationEvent", true, Some("svc"), Some(""))
  }
}
