/** The requests and frames that cross one Controller-Agent connection. */
module Protocol {
  import opened Domain
  import opened Sequences
  import opened RuntimeOutbox

  /** Request ids made by the Controller and frame ids made by the Agent's stream are of different forms. */
  datatype RequestId = FromController(serial: nat) | FromAgent(serial: nat)

  datatype Action =
    | SubscribeEvents(after: Option<Id>, limit: nat)
    | AckEvents(ids: seq<Id>)
    | OpenEventStream(start: Option<Id>, scope: Option<Scope>, maxInFlight: nat)

  datatype Request = Request(requestId: RequestId, action: Action)

  datatype Payload =
    | EventStreamPage(events: seq<Event>, next: Option<Id>, heartbeat: bool)
    | RuntimeEventPage(page: seq<Event>, cursor: Option<Id>)
    | EventsAcked(removed: nat)
    | EventStreamOpened(window: nat)
    | Refused

  /** One line read from the Agent; `compatible` says that it decodes and has the expected protocol version. */
  datatype Envelope<+P> = Envelope(requestId: RequestId, compatible: bool, payload: P)

  type Frame = Envelope<Payload>
}
