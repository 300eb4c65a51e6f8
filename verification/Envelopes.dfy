/**
 * Message envelopes: what a producer writes and what a consumer accepts. JSON keeps the
 * fields as they are, but drops an undefined payload and turns NaN into null.
 */
module Envelopes {
  import opened Basics

  /** Payload None is JavaScript's undefined. */
  datatype Message<+P> = Message(id: string, payload: Option<P>, headers: map<string, string>)

  /** A decoded JSON value; None is a field that is absent or of another type. */
  datatype Wire<+P> =
    | NotObject
    | Fields(
        messageId: Option<string>,
        eventType: Option<string>,
        timestamp: Option<string>,
        source: Option<string>,
        schemaVersion: Option<real>,
        payload: Option<P>)

  datatype Envelope<+P> = Envelope(
    messageId: string,
    eventType: string,
    timestamp: string,
    source: string,
    schemaVersion: int,
    payload: P)

  /** `Number` on text (None is NaN), `Date.parse` on text, and `String` on a number. */
  datatype Env = Env(number: string -> Option<real>, isDate: string -> bool, text: int -> string)

  const DEAD_LETTER := "deadletter."

  function Header(headers: map<string, string>, name: string, otherwise: string): string {
    if name in headers then headers[name] else otherwise
  }

  /** `createEnvelope`, as it arrives on the wire. */
  function CreateEnvelope<P>(env: Env, topic: string, message: Message<P>, source: string, now: string): Wire<P> {
    Fields(Some(message.id),
           Some(Header(message.headers, "eventType", topic)),
           Some(Header(message.headers, "timestamp", now)),
           Some(Header(message.headers, "source", source)),
           if "schemaVersion" in message.headers then env.number(message.headers["schemaVersion"]) else Some(1.0),
           message.payload)
  }

  predicate IsSafeInteger(n: real) {
    n == n.Floor as real && -9007199254740991 <= n.Floor <= 9007199254740991
  }

  predicate NonEmpty(text: Option<string>) {
    text.Some? && text.value != []
  }

  function ParseEnvelope<P>(env: Env, wire: Wire<P>): Result<Envelope<P>> {
    if wire.NotObject? then Err("Message envelope must be an object")
    else if !NonEmpty(wire.messageId) || !NonEmpty(wire.eventType)
      || wire.timestamp.None? || !env.isDate(wire.timestamp.value)
      || !NonEmpty(wire.source)
      || wire.schemaVersion.None? || !IsSafeInteger(wire.schemaVersion.value) || wire.schemaVersion.value < 1.0
      || wire.payload.None?
    then Err("Invalid message envelope")
    else if wire.schemaVersion.value != 1.0 then Err("Unsupported schema version")
    else Ok(Envelope(wire.messageId.value, wire.eventType.value, wire.timestamp.value, wire.source.value,
                     wire.schemaVersion.value.Floor, wire.payload.value))
  }

  /** What the handler is given. */
  function Handed<P>(env: Env, envelope: Envelope<P>, attempt: nat,
                     failure: Option<string>, origin: Option<string>): Message<P>
  {
    var headers := map[
      "eventType" := envelope.eventType,
      "timestamp" := envelope.timestamp,
      "source" := envelope.source,
      "schemaVersion" := env.text(envelope.schemaVersion),
      "deliveryAttempt" := env.text(attempt)];
    var headers := if NonEmpty(failure) then headers["failureReason" := failure.value] else headers;
    var headers := if NonEmpty(origin) then headers["originalTopic" := origin.value] else headers;
    Message(envelope.messageId, Some(envelope.payload), headers)
  }

  predicate IsDeadLetterTopic(topic: string) {
    DEAD_LETTER <= topic
  }

  /** `handle` up to the call of the handler: the message passed to it, or an error. */
  function Handle<P>(env: Env, topic: string, wire: Wire<P>, attempt: nat,
                     failure: Option<string>, origin: Option<string>): Result<Message<P>>
  {
    match ParseEnvelope(env, wire)
    case Err(e) => Err(e)
    case Ok(envelope) =>
      if !IsDeadLetterTopic(topic) && envelope.eventType != topic
      then Err("Envelope eventType does not match topic")
      else Ok(Handed(env, envelope, attempt, failure, origin))
  }

  /** What a producer has to supply for its message to be well formed. */
  predicate ParsesBack<P>(env: Env, topic: string, message: Message<P>, source: string, now: string) {
    && message.id != [] && message.payload.Some?
    && Header(message.headers, "eventType", topic) != []
    && env.isDate(Header(message.headers, "timestamp", now))
    && Header(message.headers, "source", source) != []
    && ("schemaVersion" in message.headers ==> env.number(message.headers["schemaVersion"]) == Some(1.0))
  }

  /** And for it to reach a handler of the topic. */
  predicate Deliverable<P>(env: Env, topic: string, message: Message<P>, source: string, now: string) {
    && ParsesBack(env, topic, message, source, now)
    && (IsDeadLetterTopic(topic) || Header(message.headers, "eventType", topic) == topic)
  }

  /** The header as it was given, or else the default. */
  predicate HeaderIs(headers: map<string, string>, name: string, otherwise: string, value: string) {
    (name in headers ==> value == headers[name]) && (name !in headers ==> value == otherwise)
  }

  /** All that is asked of an envelope but for its version. */
  predicate WellShaped<P>(env: Env, wire: Wire<P>) {
    && wire.Fields? && wire.messageId.Some? && wire.messageId.value != []
    && wire.eventType.Some? && wire.eventType.value != []
    && wire.timestamp.Some? && env.isDate(wire.timestamp.value)
    && wire.source.Some? && wire.source.value != [] && wire.payload.Some?
  }

  predicate LaterVersion(version: Option<real>) {
    version.Some? && 2.0 <= version.value <= 9007199254740991.0 && version.value == version.value.Floor as real
  }

  /** Exactly which values are accepted as envelopes, unchanged, and what is said of the others. */
  lemma ParseMeaning<P>(env: Env, wire: Wire<P>)
    ensures var r := ParseEnvelope(env, wire);
            && (r.Ok? <==> WellShaped(env, wire) && wire.schemaVersion == Some(1.0))
            && (r.Ok? ==>
                  && Some(r.value.messageId) == wire.messageId && Some(r.value.eventType) == wire.eventType
                  && Some(r.value.timestamp) == wire.timestamp && Some(r.value.source) == wire.source
                  && Some(r.value.payload) == wire.payload && r.value.schemaVersion == 1)
            && (r == Err("Message envelope must be an object") <==> wire.NotObject?)
            && (r == Err("Unsupported schema version") <==>
                  WellShaped(env, wire) && LaterVersion(wire.schemaVersion))
            && (r.Err? && wire.Fields? && !(WellShaped(env, wire) && LaterVersion(wire.schemaVersion)) ==>
                  r == Err("Invalid message envelope"))
  {
  }

  predicate HasIf<P>(m: Message<P>, name: string, text: Option<string>) {
    (name in m.headers <==> text.Some? && text.value != []) && (name in m.headers ==> Some(m.headers[name]) == text)
  }

  /** Exactly which envelopes reach the handler of a topic, and as which message. */
  lemma HandleMeaning<P>(env: Env, topic: string, wire: Wire<P>, attempt: nat,
                         failure: Option<string>, origin: Option<string>)
    ensures var r := Handle(env, topic, wire, attempt, failure, origin);
            && (r.Ok? <==>
                  && ParseEnvelope(env, wire).Ok?
                  && ((|topic| >= 11 && topic[..11] == "deadletter.") || wire.eventType == Some(topic)))
            && (r.Err? && ParseEnvelope(env, wire).Ok? ==> r == Err("Envelope eventType does not match topic"))
            && (r.Err? && ParseEnvelope(env, wire).Err? ==> r.message == ParseEnvelope(env, wire).message)
            && (r.Ok? ==>
                  && Some(r.value.id) == wire.messageId && r.value.payload == wire.payload
                  && CarriesSome(r.value, "eventType", wire.eventType)
                  && CarriesSome(r.value, "timestamp", wire.timestamp)
                  && CarriesSome(r.value, "source", wire.source)
                  && Carries(r.value, "schemaVersion", env.text(1))
                  && Carries(r.value, "deliveryAttempt", env.text(attempt))
                  && HasIf(r.value, "failureReason", failure) && HasIf(r.value, "originalTopic", origin))
  {
    ParseMeaning(env, wire);
    if ParseEnvelope(env, wire).Ok? {
      HandedMeaning(env, ParseEnvelope(env, wire).value, attempt, failure, origin);
    }
    hide ParseEnvelope, Handed, WellShaped, Carries, HasIf;
    assert |DEAD_LETTER| == 11;
  }

  lemma HandedMeaning<P>(env: Env, envelope: Envelope<P>, attempt: nat, failure: Option<string>, origin: Option<string>)
    ensures var m := Handed(env, envelope, attempt, failure, origin);
            && m.id == envelope.messageId && m.payload == Some(envelope.payload)
            && Carries(m, "eventType", envelope.eventType) && Carries(m, "timestamp", envelope.timestamp)
            && Carries(m, "source", envelope.source) && Carries(m, "schemaVersion", env.text(envelope.schemaVersion))
            && Carries(m, "deliveryAttempt", env.text(attempt))
            && HasIf(m, "failureReason", failure) && HasIf(m, "originalTopic", origin)
  {
  }

  predicate CarriesSome<P>(m: Message<P>, name: string, value: Option<string>) {
    value.Some? && Carries(m, name, value.value)
  }

  lemma PublishedIsParsed<P>(env: Env, topic: string, message: Message<P>, source: string, now: string)
    ensures var r := ParseEnvelope(env, CreateEnvelope(env, topic, message, source, now));
            && (r.Ok? <==> ParsesBack(env, topic, message, source, now))
            && (r.Ok? ==> message.payload == Some(r.value.payload)
                          && r.value == Restored(env, topic, message, source, now, r.value.payload))
  {
    hide Header;
  }

  /** The envelope of a well-formed message, with its defaults filled in. */
  function Restored<P>(env: Env, topic: string, message: Message<P>, source: string, now: string,
                       payload: P): Envelope<P>
  {
    Envelope(message.id, Header(message.headers, "eventType", topic), Header(message.headers, "timestamp", now),
             Header(message.headers, "source", source), 1, payload)
  }

  lemma WireOfPublished<P>(env: Env, topic: string, message: Message<P>, source: string, now: string)
    ensures var wire := CreateEnvelope(env, topic, message, source, now);
            wire.Fields? && wire.messageId == Some(message.id) && wire.payload == message.payload
  {
    hide Header;
  }

  /**
   * A published message reaches the handler exactly when it is deliverable, and then with
   * its own id and payload; its headers come back, completed with the defaults.
   */
  lemma PublishedIsHandled<P>(env: Env, topic: string, message: Message<P>, source: string, now: string,
                              attempt: nat, failure: Option<string>, origin: Option<string>)
    ensures var wire := CreateEnvelope(env, topic, message, source, now);
            var r := Handle(env, topic, wire, attempt, failure, origin);
            && (r.Ok? <==> Deliverable(env, topic, message, source, now))
            && (r.Ok? ==> ComesBack(env, topic, message, source, now, attempt, r.value))
  {
    hide CreateEnvelope, ParseEnvelope, ParsesBack;
    PublishedIsParsed(env, topic, message, source, now);
  }

  predicate Carries<P>(m: Message<P>, name: string, value: string) {
    name in m.headers && m.headers[name] == value
  }

  predicate ComesBack<P(==)>(env: Env, topic: string, message: Message<P>, source: string, now: string,
                             attempt: nat, handed: Message<P>)
  {
    && handed.id == message.id && handed.payload == message.payload
    && "eventType" in handed.headers && "timestamp" in handed.headers && "source" in handed.headers
    && HeaderIs(message.headers, "eventType", topic, handed.headers["eventType"])
    && HeaderIs(message.headers, "timestamp", now, handed.headers["timestamp"])
    && HeaderIs(message.headers, "source", source, handed.headers["source"])
    && Carries(handed, "schemaVersion", env.text(1)) && Carries(handed, "deliveryAttempt", env.text(attempt))
  }

  /** A dead letter can be read back exactly when it was well formed, whatever topic it names. */
  lemma DeadLetterIsReadable<P>(env: Env, topic: string, wire: Wire<P>, attempt: nat,
                                failure: Option<string>, origin: Option<string>)
    ensures var r := Handle(env, DEAD_LETTER + topic, wire, attempt, failure, origin);
            && (r.Ok? <==> ParseEnvelope(env, wire).Ok?)
            && (r.Ok? ==> wire.Fields? && Some(r.value.id) == wire.messageId && r.value.payload == wire.payload)
            && (r.Ok? && NonEmpty(origin) ==> Carries(r.value, "originalTopic", origin.value))
  {
  }
}
