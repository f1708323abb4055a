/**
 * The values the bus bridges work on: application events, the `BusEnvelope`
 * wire record, the configuration they read, and the foreign libraries
 * (Jackson's ObjectMapper and reflective class loading) they call.
 */
module BusTypes {
  import opened Options

  /** Java `long`: the envelope's timestamp in milliseconds. */
  newtype Millis = x: int | -0x8000_0000_0000_0000 <= x < 0x8000_0000_0000_0000

  /**
   * An application event as the bridges observe it: its runtime class name,
   * whether it is a `RemoteApplicationEvent`, and what its two getters
   * `getOriginService()` / `getDestinationService()` return (None = null).
   */
  datatype Event = Event(
    className: string,
    remote: bool,
    originService: Option<string>,
    destinationService: Option<string>)

  /** `BusEnvelope`: every String field may be null; `timestamp` is a `long`. */
  datatype Envelope = Envelope(
    typeName: Option<string>,
    payload: Option<string>,
    originService: Option<string>,
    destinationService: Option<string>,
    senderId: Option<string>,
    timestamp: Millis)

  /** A freshly constructed `BusEnvelope`: all references null, timestamp 0. */
  function EmptyEnvelope(): (env: Envelope)
    ensures env.typeName.None? && env.payload.None? && env.senderId.None?
    ensures env.originService.None? && env.destinationService.None? && env.timestamp == 0
  {
    Envelope(None, None, None, None, None, 0)
  }

  /**
   * The `BusEnvelope` the two sending paths build for `e`: the event's class
   * name, its encoded form, its origin and destination, the sender's client
   * id and the clock reading.
   */
  function EnvelopeOf(e: Event, payload: string, clientId: string, now: Millis): (env: Envelope)
    ensures env.typeName == Some(e.className) && env.payload == Some(payload)
    ensures env.originService == e.originService && env.destinationService == e.destinationService
    ensures env.senderId == Some(clientId) && env.timestamp == now
  {
    EmptyEnvelope().(typeName := Some(e.className), payload := Some(payload),
                     originService := e.originService, destinationService := e.destinationService,
                     senderId := Some(clientId), timestamp := now)
  }

  /** The part of `BusEmqxProperties` the bridges read. */
  datatype Properties = Properties(topicPrefix: string, clientId: string, qos: int)

  const DEFAULT_TOPIC_PREFIX: string := "spring/bus"
  const DEFAULT_QOS: int := 1

  /** `BusEmqxProperties` with its declared defaults and a given client id. */
  function DefaultProperties(clientId: string): (p: Properties)
    ensures p.clientId == clientId && p.topicPrefix == "spring/bus" && p.qos == 1
  {
    Properties(DEFAULT_TOPIC_PREFIX, clientId, DEFAULT_QOS)
  }

  /** Spring's `Environment`: resolved property values by key. */
  type Environment = map<string, string>

  const DESTINATION_KEY: string := "spring.cloud.bus.destination"
  const DEFAULT_DESTINATION: string := "springCloudBus"
  const APPLICATION_NAME_KEY: string := "spring.application.name"
  const DEFAULT_APPLICATION_NAME: string := "application"

  /** `environment.getProperty(key, defaultValue)`. */
  function EnvironmentProperty(env: Environment, key: string, default: string): (v: string)
    ensures key !in env ==> v == default
    ensures key in env ==> v == env[key]
  {
    if key in env then env[key] else default
  }

  /** The base topic every bridge derives: `<topicPrefix>/<destination>`. */
  function BusTopic(props: Properties, env: Environment): (topic: string)
    ensures DESTINATION_KEY !in env ==> topic == props.topicPrefix + "/" + DEFAULT_DESTINATION
    ensures DESTINATION_KEY in env ==> topic == props.topicPrefix + "/" + env[DESTINATION_KEY]
  {
    props.topicPrefix + "/" + EnvironmentProperty(env, DESTINATION_KEY, DEFAULT_DESTINATION)
  }

  /** The local service name the outbound relay compares origins against. */
  function BusId(env: Environment): (id: string)
    ensures APPLICATION_NAME_KEY !in env ==> id == DEFAULT_APPLICATION_NAME
    ensures APPLICATION_NAME_KEY in env ==> id == env[APPLICATION_NAME_KEY]
  {
    EnvironmentProperty(env, APPLICATION_NAME_KEY, DEFAULT_APPLICATION_NAME)
  }

  const REMOTE_EVENT_CLASS: string := "org.springframework.cloud.bus.event.RemoteApplicationEvent"

  /**
   * The foreign libraries, as partial functions (None = an `Exception`):
   * `classExists` is `Class.forName` succeeding, `writeEvent`/`writeEnvelope`
   * are `mapper.writeValueAsString`, `readEnvelope` is
   * `mapper.readValue(text, BusEnvelope.class)`, and `readEvent(text, c)` is
   * `mapper.readValue(text, mapper.constructType(Class.forName(c)))`.
   */
  datatype Runtime = Runtime(
    classExists: string -> bool,
    writeEvent: Event -> Option<string>,
    writeEnvelope: Envelope -> Option<string>,
    readEnvelope: string -> Option<Envelope>,
    readEvent: (string, string) -> Option<Event>)

  /** Jackson reads back every envelope it wrote. */
  ghost predicate Faithful(rt: Runtime)
  {
    forall env: Envelope :: rt.writeEnvelope(env).Some? ==> rt.readEnvelope(rt.writeEnvelope(env).value) == Some(env)
  }

  /** Jackson reads back event `e`, under its own class, from the text it wrote. */
  ghost predicate EventFaithful(rt: Runtime, e: Event)
  {
    rt.writeEvent(e).Some? ==> rt.readEvent(rt.writeEvent(e).value, e.className) == Some(e)
  }
}
