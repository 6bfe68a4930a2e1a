/** Events on the stream.  Instants are microseconds; a JSON object is a map from key to rendered
    value, so "carries an input" is "the map is not empty".  */
module Events {
  import opened Ids
  import opened Wrappers

  datatype EventType = TraceStart | TraceEnd | SpanStart | SpanEnd
  datatype SpanKind = Agent | Chain | Llm | Tool | Retriever | Guardrail | Other
  datatype SpanStatus = Running | Ok | Error
  datatype Usage = Usage(prompt: nat, completion: nat, total: nat)

  type Payload = map<string, string>

  datatype Event = Event(
    emittedAt: int, tenant: string, trace: Id, span: Option<Id>, parent: Option<Id>,
    etype: EventType, kind: SpanKind, name: string, status: SpanStatus,
    startedAt: Option<int>, endedAt: Option<int>, latencyMs: Option<int>,
    input: Payload, output: Payload, error: Option<string>, usage: Option<Usage>,
    model: Option<string>, attributes: Payload, sessionId: Option<string>, userRef: Option<string>,
    environment: string, service: string, schemaVersion: int)
  {
    predicate IsEnvelope()
    {
      etype.TraceStart? || etype.TraceEnd?
    }
  }

  /** Truthiness of an optional string. */
  predicate Present(s: Option<string>)
  {
    s.Some? && s.value != ""
  }

  function Clip(s: string, limit: nat): string
  {
    if |s| <= limit then s else s[..limit]
  }

  /** Milliseconds between two instants, never negative. */
  function ElapsedMs(start: int, end: int): int
  {
    if end <= start then 0 else (end - start) / 1000
  }

  /** The configuration and the foreign code the writers call: the price table and the sampling hash. */
  datatype Settings = Settings(costMicros: (Option<string>, nat, nat) -> nat, shouldSample: Id -> bool)
}
