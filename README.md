# Spring Cloud Bus over MQTT (EMQX): the relay and loop-prevention protocol

This project models the core of a bridge that carries Spring Cloud Bus
events between service instances over an MQTT broker (EMQX). It covers
four parts, and the model proves what keeps them from looping:

- **The loop guard** (`EmqxInboundContext`). This is one thread-local
  flag. The inbound side sets it around a local delivery and removes it
  afterwards.
- **The outbound relay** (`EmqxOutboundBridge.onApplicationEvent`). It sees
  every local application event and applies three filters in order: the
  event is a `RemoteApplicationEvent`; the guard is not set; the origin
  service starts with the local service name. An event that passes is
  wrapped in a `BusEnvelope` and published to `<topicPrefix>/<destination>`.
- **The inbound relay** (`EmqxInboundBridge`). `init` subscribes to
  `<topicPrefix>/<destination>/#`. `messageArrived` parses the envelope and
  drops the instance's own echo (same `senderId` as its client id). It then
  decodes the payload under the declared type. On any `Exception` it
  falls back to decoding the raw message as the base
  `RemoteApplicationEvent`. An `Error` is not caught and skips the
  fallback.
  Every delivery runs with the guard set and clears it afterwards.
- **The direct send path** (`EmqxBusBridge.send`). It builds the same
  envelope with no filtering.

Modules, one per source file or collaborator:

| file | module | models |
|---|---|---|
| `options.dfy` | `Options` | Java `null` as `None` |
| `bus_types.dfy` | `BusTypes` | events, `BusEnvelope`, properties and environment, topic derivation, and the JSON mapper and class loader as partial functions |
| `inbound_context.dfy` | `LoopGuard` | `EmqxInboundContext` |
| `mqtt_client.dfy` | `Mqtt` | the MQTT client's `publish`/`subscribe`/`setCallback`, as logs plus acceptance oracles |
| `envelope_codec.dfy` | `EnvelopeCodec` | the envelope build and encode shared by both sending paths |
| `outbound_bridge.dfy` | `OutboundBridge` | `EmqxOutboundBridge` |
| `event_publisher.dfy` | `EventPublisher` | Spring's `ApplicationEventPublisher`: records each delivery and the guard value, and calls the outbound listener synchronously |
| `inbound_bridge.dfy` | `InboundBridge` | `EmqxInboundBridge` |
| `bus_bridge.dfy` | `BusBridge` | `EmqxBusBridge` |
| `relay.dfy` | `Relay` | whole runs of one instance, two-instance round trips, and the relay properties |
| `bus_node.dfy` | `BusNode` | one instance as `EmqxBusAutoConfiguration` wires it, taking stimuli one at a time; its methods are proved against the run functions of `Relay` |

Foreign code becomes parameters, as follows:
- Jackson's `ObjectMapper` and `Class.forName` are the function fields of
  `BusTypes.Runtime`. Their `Option` results use `None` for an exception.
- That Jackson reads back what it wrote is an explicit hypothesis:
  `Faithful` for envelopes and `EventFaithful` for one event.
- Whether the broker accepts a publish or a subscription is a constant
  oracle of the client.
- Whether another local listener throws is a constant oracle of the
  publisher.
- The clock reading (`System.currentTimeMillis`) is a parameter `now`.

## Behaviour of the code worth knowing

- A message whose envelope fails to parse is not dropped
  (`EmqxInboundBridge.java:63-67`). The `catch` sends it to the fallback,
  which decodes the whole raw message text, not `envelope.payload`, as the
  base event class. The fallback makes no sender-id check.
- The same `catch` also runs when the primary delivery itself throws
  (`EmqxInboundBridge.java:58-63`). So one message can be delivered twice:
  first the decoded event, then the fallback decode. `InboundDeliveries`
  states this.
- The origin test is a literal prefix test, `startsWith`
  (`EmqxOutboundBridge.java:44-45`). A service named `svc` therefore also
  relays events whose origin is `svc-other`. `OriginIsLocal` uses Dafny's
  sequence prefix `<=`.

## Model

| member | source | states |
|---|---|---|
| `LoopGuard.InboundContext.constructor` | src/main/java/org/springframework/cloud/bus/emqx/EmqxInboundContext.java:5-13 | before any mark, the flag holds no value and `IsInbound` is false |
| `LoopGuard.InboundContext.MarkInbound` | src/main/java/org/springframework/cloud/bus/emqx/EmqxInboundContext.java:7-13 | after marking, the stored value is `TRUE` and `IsInbound` holds, from any prior state |
| `LoopGuard.InboundContext.ClearInbound` | src/main/java/org/springframework/cloud/bus/emqx/EmqxInboundContext.java:11-17 | after clearing, no value is stored and `IsInbound` is false, from any prior state |
| `LoopGuard.InboundContext.IsInbound` | src/main/java/org/springframework/cloud/bus/emqx/EmqxInboundContext.java:11-13 | the guard counts as set only for a stored `TRUE`: no stored value and a stored `FALSE` both read as unset |
| `LoopGuard.MarkAndClearIdempotent` | src/main/java/org/springframework/cloud/bus/emqx/EmqxInboundContext.java:7-17 | marking twice gives the same state as marking once, and clearing twice the same as clearing once, from any starting value |
| `BusTypes.EmptyEnvelope` | src/main/java/org/springframework/cloud/bus/emqx/BusEnvelope.java:6-20 | a new envelope has every field null (type, payload, origin, destination, sender) and timestamp 0 |
| `BusTypes.EnvelopeOf` | src/main/java/org/springframework/cloud/bus/emqx/EmqxOutboundBridge.java:50-58 | the envelope carries the class name, the encoded event, the event's origin and destination, the client id and the clock reading |
| `BusTypes.DefaultProperties` | src/main/java/org/springframework/cloud/bus/emqx/BusEmqxProperties.java:36-41 | the declared defaults are topic prefix `spring/bus` and qos 1, with the given client id |
| `BusTypes.BusTopic` | src/main/java/org/springframework/cloud/bus/emqx/EmqxOutboundBridge.java:29-30 | the base topic is `<topicPrefix>/<destination>`: the configured `spring.cloud.bus.destination` when present, `springCloudBus` otherwise (the lookup is `EnvironmentProperty`) |
| `BusTypes.BusId` | src/main/java/org/springframework/cloud/bus/emqx/EmqxOutboundBridge.java:31 | the bus id is the configured `spring.application.name` when present, `application` otherwise |
| `Mqtt.ValidQos` | src/main/java/org/springframework/cloud/bus/emqx/BusEmqxProperties.java:38-41 | a qos is valid iff it is one of the MQTT levels 0, 1 and 2 |
| `Mqtt.Accepted` | src/main/java/org/springframework/cloud/bus/emqx/EmqxOutboundBridge.java:63-66 | one publish attempt adds at most one message, exactly the attempted one, and only when the client accepts it |
| `Mqtt.MqttClient.Publish` | src/main/java/org/springframework/cloud/bus/emqx/EmqxOutboundBridge.java:63 | a publish appends the message when accepted; otherwise it reports failure and the logs are unchanged |
| `Mqtt.MqttClient.Subscribe` | src/main/java/org/springframework/cloud/bus/emqx/EmqxInboundBridge.java:34 | a subscribe appends the subscription when accepted; otherwise it reports failure and the logs are unchanged |
| `Mqtt.MqttClient.SetCallback` | src/main/java/org/springframework/cloud/bus/emqx/EmqxInboundBridge.java:33 | the callback becomes the given object and the logs are unchanged |
| `EnvelopeCodec.Publication` | src/main/java/org/springframework/cloud/bus/emqx/EmqxOutboundBridge.java:49-66 | a message exists iff qos is 0-2 and both encodings succeed; it goes to the given topic at the configured qos, and a faithful mapper reads back exactly `EnvelopeOf` the event |
| `OutboundBridge.OriginIsLocal` | src/main/java/org/springframework/cloud/bus/emqx/EmqxOutboundBridge.java:44-45 | the origin passes iff it is non-null and its first characters are the local service name, so an exact match passes too |
| `OutboundBridge.OutboundPublication` | src/main/java/org/springframework/cloud/bus/emqx/EmqxOutboundBridge.java:34-76 | nothing is published for a non-remote event or a missing base class (the reflective class check, `IsRemoteApplicationEvent`), while the guard is set, or when the origin read through the reflective getter (`GetProperty`) is null or lacks the local prefix. Otherwise the result is the one `Publication` to the base topic at the configured qos, carrying the checked origin and the client id as sender |
| `OutboundBridge.EmqxOutboundBridge.constructor` | src/main/java/org/springframework/cloud/bus/emqx/EmqxOutboundBridge.java:24-32 | the bridge's topic is `BusTopic` and its bus id is the application name, default `application` |
| `OutboundBridge.EmqxOutboundBridge.OnApplicationEvent` | src/main/java/org/springframework/cloud/bus/emqx/EmqxOutboundBridge.java:34-67 | the broker log gains exactly what `OutboundPublication` gives for the current guard value; subscriptions and callback are unchanged; no `Exception` escapes |
| `EventPublisher.EventPublisher.PublishEvent` | src/main/java/org/springframework/cloud/bus/emqx/EmqxInboundBridge.java:59 | a local publish records the event with the guard value at that moment and runs the outbound listener synchronously |
| `InboundBridge.SubscriptionFilter` | src/main/java/org/springframework/cloud/bus/emqx/EmqxInboundBridge.java:34 | the filter is the base topic followed by `/#` |
| `InboundBridge.PrimaryDecode` | src/main/java/org/springframework/cloud/bus/emqx/EmqxInboundBridge.java:49-55 | the message is the own echo iff the parsed sender equals the client id. A decoded event is what the payload decodes to under the declared, loadable type, and it is always found when it exists. A parse failure is a failure |
| `InboundBridge.FallbackDecode` | src/main/java/org/springframework/cloud/bus/emqx/EmqxInboundBridge.java:64-67 | the fallback succeeds iff the base class loads and the raw message text decodes as it |
| `InboundBridge.FallbackDeliveries` | src/main/java/org/springframework/cloud/bus/emqx/EmqxInboundBridge.java:63-76 | the fallback delivers at most one event, the fallback decode, and nothing when it fails |
| `InboundBridge.InboundDeliveries` | src/main/java/org/springframework/cloud/bus/emqx/EmqxInboundBridge.java:46-78 | at most two deliveries. None for the own echo. Only the fallback's when parsing or decoding fails. The decoded event first, followed by the fallback's only when that delivery threw |
| `InboundBridge.Marked` | src/main/java/org/springframework/cloud/bus/emqx/EmqxInboundBridge.java:56-62 | every inbound delivery is recorded with the guard set |
| `InboundBridge.EmqxInboundBridge.constructor` | src/main/java/org/springframework/cloud/bus/emqx/EmqxInboundBridge.java:20-26 | the bridge keeps its collaborators and has no topic before `init` |
| `InboundBridge.EmqxInboundBridge.Init` | src/main/java/org/springframework/cloud/bus/emqx/EmqxInboundBridge.java:28-38 | the topic is `BusTopic` and the bridge is the client's callback. The outcome is normal iff the subscription to `<topic>/#` at the configured qos is accepted, and only then is it added. Otherwise `IllegalStateException` names the topic |
| `InboundBridge.EmqxInboundBridge.MessageArrived` | src/main/java/org/springframework/cloud/bus/emqx/EmqxInboundBridge.java:45-78 | the deliveries are exactly `InboundDeliveries`, each made with the guard set. What the outbound listener adds to the broker log is exactly `ListenerPublications` of those deliveries, which is nothing. The guard is left cleared after any delivery and untouched otherwise. No `Exception` escapes |
| `BusBridge.DirectPublication` | src/main/java/org/springframework/cloud/bus/emqx/EmqxBusBridge.java:43-63 | nothing for a null event. Otherwise the unfiltered `Publication` to the base topic at the configured qos, whose envelope has the event's own origin and destination and the client id |
| `BusBridge.EmqxBusBridge.constructor` | src/main/java/org/springframework/cloud/bus/emqx/EmqxBusBridge.java:28-40 | the topic is `BusTopic` and the bus id is the application name |
| `BusBridge.EmqxBusBridge.Send` | src/main/java/org/springframework/cloud/bus/emqx/EmqxBusBridge.java:42-63 | the broker log gains exactly what `DirectPublication` gives, and nothing else changes; no `Exception` escapes |
| `EventPublisher.ListenerPublications` | src/main/java/org/springframework/cloud/bus/emqx/EmqxOutboundBridge.java:34-67 | what the outbound listener publishes for a sequence of local deliveries: at most one message per delivery, each to the base topic at the configured qos |
| `EventPublisher.NothingRepublishedWhileMarked` | src/main/java/org/springframework/cloud/bus/emqx/EmqxOutboundBridge.java:40-43 | while the guard is set, the outbound listener publishes nothing for any sequence of delivered events |
| `Relay.StepPublished` | src/main/java/org/springframework/cloud/bus/emqx/EmqxBusBridge.java:53-59 | every message one stimulus produces goes to the base topic at the configured qos. Under a faithful mapper it carries the instance's own client id as sender. The three stimuli are `onApplicationEvent` (EmqxOutboundBridge.java:34-67), `messageArrived` (EmqxInboundBridge.java:45-78) and `send` (EmqxBusBridge.java:42-63); `BusNode.EmqxBus.Handle` ties each to the code's own method |
| `Relay.StepGuard` | src/main/java/org/springframework/cloud/bus/emqx/EmqxInboundBridge.java:56-62 | an unset guard stays unset, and any inbound delivery leaves it unset |
| `Relay.GuardAfter` | src/main/java/org/springframework/cloud/bus/emqx/EmqxInboundContext.java:7-17 | over a whole run, a guard that starts unset stays unset |
| `Relay.StepDelivered` | src/main/java/org/springframework/cloud/bus/emqx/EmqxInboundBridge.java:56-73 | a raised event is recorded once, marked iff the guard was set; every delivery of an inbound message is marked, and there are none for the own echo; a direct send records nothing; at most two per stimulus |
| `Relay.Delivered` | src/main/java/org/springframework/cloud/bus/emqx/EmqxInboundBridge.java:56-73 | over a run, at most two deliveries per stimulus, and a run of inbound messages only records marked deliveries |
| `Relay.Published` | src/main/java/org/springframework/cloud/bus/emqx/EmqxOutboundBridge.java:57-63 | over a whole run, every published message goes to the base topic at the configured qos and (faithful mapper) names this instance as sender |
| `Relay.InboundNeverRepublished` | src/main/java/org/springframework/cloud/bus/emqx/EmqxInboundBridge.java:56-62 | no relay loop: removing every inbound message from a run leaves the broker log unchanged |
| `Relay.Unmarked` | src/main/java/org/springframework/cloud/bus/emqx/EmqxOutboundBridge.java:40-43 | the deliveries the outbound guard check lets through: exactly those of the input made with the guard unset, none marked, at most as many as the input |
| `Relay.LocalDeliveriesUnmarked` | src/main/java/org/springframework/cloud/bus/emqx/EmqxInboundBridge.java:56-73 | from an unset guard, the unmarked deliveries of the whole run, inbound messages included, are exactly the deliveries of its local stimuli, and every one of those is unmarked: because the guard is cleared after each inbound delivery, a local event raised after an inbound message still reaches the listeners unmarked |
| `Relay.OwnPublicationsNotRedelivered` | src/main/java/org/springframework/cloud/bus/emqx/EmqxInboundBridge.java:50-53 | no self-echo: any message the instance published delivers nothing when it comes back to that instance |
| `Relay.RelayedOriginsAreLocal` | src/main/java/org/springframework/cloud/bus/emqx/EmqxOutboundBridge.java:44-48 | in a run without direct sends, every published envelope's origin starts with the local service name, whatever the guard did |
| `Relay.PeerDeliversRelayedEvent` | src/main/java/org/springframework/cloud/bus/emqx/EmqxInboundBridge.java:54-59 | round trip: a peer with another client id whose listeners do not throw for the event delivers the relayed event exactly once and unchanged (a throwing listener would add the fallback delivery) |
| `Relay.UnknownTypeFallsBack` | src/main/java/org/springframework/cloud/bus/emqx/EmqxInboundBridge.java:63-73 | a foreign envelope whose type does not resolve is delivered through the base-class decode of the raw text |
| `Relay.MalformedInputIgnored` | src/main/java/org/springframework/cloud/bus/emqx/EmqxInboundBridge.java:74-76 | text that is neither an envelope nor a base event delivers nothing |
| `Relay.DefaultTopics` | src/main/java/org/springframework/cloud/bus/emqx/EmqxInboundBridge.java:30-34 | with default settings, the topic is `spring/bus/springCloudBus` and the filter `spring/bus/springCloudBus/#` |
| `BusNode.EmqxBus.constructor` | src/main/java/org/springframework/cloud/bus/emqx/EmqxBusAutoConfiguration.java:53-74 | all bridges share one client, one guard, the properties and the mapper; the outbound and direct bridges share the base topic and the bus id. The inbound bridge's `@PostConstruct init` runs: its topic is the base topic, it is the client's callback, and the `<topic>/#` subscription is added iff the client accepts it, `initOutcome` recording which. Nothing is published, no event is delivered and the guard starts unset |
| `BusNode.EmqxBus.Handle` | src/main/java/org/springframework/cloud/bus/emqx/EmqxInboundBridge.java:45-78 | one stimulus, dispatched to `publishEvent`, `messageArrived` or `send`, moves the broker log, the delivered log and the guard exactly as `StepPublished`, `StepDelivered` and `StepGuard` say; subscriptions and callback are unchanged |
| `BusNode.EmqxBus.Run` | src/main/java/org/springframework/cloud/bus/emqx/EmqxInboundBridge.java:56-62 | a sequence of stimuli moves the broker log, the delivered log and the guard exactly as `Published`, `Delivered` and `GuardAfter` say; subscriptions and callback are unchanged. From an unset guard, the broker log is what the run's local stimuli alone would produce, so inbound messages are never relayed. From an unset guard, the unmarked part of what the run delivered is exactly what its local stimuli alone deliver |
| `Relay.RefreshScenario` | src/main/java/org/springframework/cloud/bus/emqx/EmqxOutboundBridge.java:44-63 | instance `a1` of `svc` publishes one refresh event to the default topic; instance `b1` delivers it unchanged and `a1` drops its own echo |

## Left out

- JSON encoding and decoding (Jackson) and `Class.forName` are foreign libraries. They are partial functions given as parameters, and the wire format is not specified.
- Connecting, reconnecting, `connectionLost` and `deliveryComplete` are left out. So is the random client-id default. `BusNode.EmqxBus` wires every bridge at once; the `@ConditionalOnMissingBean` and `@DependsOn` conditions of `EmqxBusAutoConfiguration` and the `ObjectMapper` provider are not modelled. The client id is a given string, never null, so the null-pointer path a null client id would open is not modelled.
- The conversions between message text and UTF-8 bytes are left out. A message carries its text, and decoding the bytes of an encoded string is taken to give the string back.
- The thread-local storage is one cell, because inbound dispatch is sequential. Concurrent deliveries on other threads are not modelled.
- An application event raised by a listener during an inbound delivery is not modelled.
- Logging is left out. The clock is the parameter `now`.
- Spring's listener order is simplified. The outbound listener runs before any other listener that throws, and wrapping non-`ApplicationEvent` objects in `PayloadApplicationEvent` is not modelled.
- The event getters never throw. `OutboundBridge.GetProperty` gives the getter's value, and `BusBridge.EmqxBusBridge.Send` calls the getters directly.
- `InboundBridge.EmqxInboundBridge.Init`: a subscription the client refuses for any other reason than `MqttException` (an invalid qos raises `IllegalArgumentException`, which `init` does not catch) is treated as an accepted-or-refused oracle outcome and always reported as `IllegalStateException`.
- `InboundBridge.EmqxInboundBridge.MessageArrived`: `listenerFails` and `classExists` stand for `Exception`s only. A `java.lang.Error` thrown by a listener during `publishEvent` or by `Class.forName` (an `ExceptionInInitializerError` or `LinkageError`) is not caught at EmqxInboundBridge.java:63 or 74: after the `finally` clears the guard it skips the fallback and escapes `messageArrived`, which makes the client drop the connection. That path is not modelled; likewise an `Error` escaping `onApplicationEvent` or `send` past their `catch (Exception …)`.
- MQTT topic-filter matching is not modelled. The subscription filter and the publish topic are related only by their shapes.
