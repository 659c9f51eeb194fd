/**
  The Google Chat webhook handler registered for `POST /gchat-bot`.

  The handler reads the event type from the request body, dispatches on it in
  a fixed order (MESSAGE, ADDED_TO_SPACE, REMOVED_FROM_SPACE, anything else)
  and answers with exactly one response. Express's `res` calls become the
  returned `Response` value; logging is not modelled.
*/
module GchatBot {
  import opened Wrappers

  /** The `message` object of a Google Chat event; only its `text` is read. */
  datatype Message = Message(text: Option<string>)

  /** A parsed request body. `eventType` holds the JSON field `type`. */
  datatype Body = Body(eventType: Option<string>, message: Option<Message>)

  /**
    What the handler sends back: `res.status(s).json({ text: t })` is
    `Json(s, t)`, and `res.sendStatus(s)` is `StatusOnly(s)`.
  */
  datatype Response = Json(status: nat, text: string) | StatusOnly(status: nat)

  const Ok: nat := 200

  const MessageEvent := "MESSAGE"
  const AddedEvent := "ADDED_TO_SPACE"
  const RemovedEvent := "REMOVED_FROM_SPACE"
  const UnknownEvent := "UNKNOWN"

  const NoMessage := "No message"
  const EchoPrefix := "You said: \""
  const EchoSuffix := "\""
  const AddedReply := "Thanks for adding me to this space!"
  const FallbackPrefix := "Event received: "

  // ---------------------------------------------------------------------------
  // JavaScript's `x || d` on an optional string
  // ---------------------------------------------------------------------------

  /** An optional string is truthy in JavaScript when present and non-empty. */
  predicate Truthy(v: Option<string>) {
    v.Some? && v.value != ""
  }

  /** `v || d`: the value itself when it is truthy, otherwise the default. */
  function OrElse(v: Option<string>, d: string): (r: string) {
    if Truthy(v) then v.value else d
  }

  // ---------------------------------------------------------------------------
  // The handler
  // ---------------------------------------------------------------------------

  /**
    `req.body?.type || 'UNKNOWN'`: the body may itself be missing, and an
    absent or empty `type` both become "UNKNOWN".
  */
  function EventTypeOf(body: Option<Body>): (r: string)
    ensures r != ""
    ensures body.Some? && Truthy(body.value.eventType) ==> r == body.value.eventType.value
    ensures !(body.Some? && Truthy(body.value.eventType)) ==> r == UnknownEvent
  {
    match body
    case None => UnknownEvent
    case Some(b) => OrElse(b.eventType, UnknownEvent)
  }

  /**
    `req.body.message?.text || 'No message'`: an absent `message`, an absent
    `text` and an empty `text` all become "No message".
  */
  function MessageTextOf(body: Body): (r: string)
    ensures r != ""
    ensures body.message.Some? && Truthy(body.message.value.text) ==> r == body.message.value.text.value
    ensures !(body.message.Some? && Truthy(body.message.value.text)) ==> r == NoMessage
  {
    match body.message
    case None => NoMessage
    case Some(m) => OrElse(m.text, NoMessage)
  }

  /** The reply to a MESSAGE event: the user's text, quoted. */
  function EchoReply(userMessage: string): (t: string) {
    EchoPrefix + userMessage + EchoSuffix
  }

  /** The reply to an event type the handler does not know. */
  function FallbackReply(eventType: string): (t: string) {
    FallbackPrefix + eventType
  }

  /**
    The handler: one response for every body, the first matching branch
    deciding it, and never a status other than 200.
  */
  function Handle(body: Option<Body>): (r: Response)
    ensures r.status == Ok
    ensures r.StatusOnly? <==> EventTypeOf(body) == RemovedEvent
  {
    var eventType := EventTypeOf(body);
    if eventType == MessageEvent then
      Json(Ok, EchoReply(MessageTextOf(body.value)))
    else if eventType == AddedEvent then
      Json(Ok, AddedReply)
    else if eventType == RemovedEvent then
      StatusOnly(Ok)
    else
      Json(Ok, FallbackReply(eventType))
  }

  // ---------------------------------------------------------------------------
  // Reading a response back
  // ---------------------------------------------------------------------------

  /** The four replies the handler can give, and anything else. */
  datatype Reply =
    | Echo(userMessage: string)
    | Thanks
    | Acknowledged
    | EventReceived(eventType: string)
    | Unrecognised

  /**
    The reply each body calls for, by its event type: the handler's dispatch
    table stated on replies rather than on response text.
  */
  function ExpectedReply(body: Option<Body>): (d: Reply) {
    var eventType := EventTypeOf(body);
    match eventType
    case "MESSAGE" => Echo(MessageTextOf(body.value))
    case "ADDED_TO_SPACE" => Thanks
    case "REMOVED_FROM_SPACE" => Acknowledged
    case _ => EventReceived(eventType)
  }

  /** Whether `t` is the echo reply: the echo prefix, some text, the closing quote. */
  predicate IsEcho(t: string) {
    |EchoPrefix| + |EchoSuffix| <= |t| && EchoPrefix <= t && t[|t| - |EchoSuffix|..] == EchoSuffix
  }

  /**
    Reads a response back by its shape and its exact text. It is independent
    of Handle: it never looks at a body.
  */
  function Decode(r: Response): (d: Reply) {
    match r
    case StatusOnly(_) => Acknowledged
    case Json(_, t) =>
      if IsEcho(t) then Echo(t[|EchoPrefix| .. |t| - |EchoSuffix|])
      else if t == AddedReply then Thanks
      else if FallbackPrefix <= t then EventReceived(t[|FallbackPrefix|..])
      else Unrecognised
  }

  // ---------------------------------------------------------------------------
  // Properties of the handler
  // ---------------------------------------------------------------------------

  /** An empty `type` is handled exactly as an absent one, and as a missing body. */
  lemma EmptyTypeIsAbsent(m: Option<Message>)
    ensures Handle(Some(Body(Some(""), m))) == Handle(Some(Body(None, m)))
    ensures Handle(Some(Body(None, m))) == Handle(None)
    ensures Handle(None) == Json(200, "Event received: UNKNOWN")
  {
  }

  /** A MESSAGE event is answered with status 200 and the user's text quoted. */
  lemma MessageBranch(b: Body, userMessage: string)
    requires b.eventType == Some("MESSAGE")
    requires b.message == Some(Message(Some(userMessage))) && userMessage != ""
    ensures Handle(Some(b)) == Json(200, "You said: \"" + userMessage + "\"")
  {
  }

  /** A MESSAGE event without text, or with empty text, echoes "No message". */
  lemma MessageWithoutText(b: Body)
    requires b.eventType == Some("MESSAGE")
    requires b.message.None? || !Truthy(b.message.value.text)
    ensures Handle(Some(b)) == Json(200, "You said: \"No message\"")
  {
  }

  /** ADDED_TO_SPACE gets the fixed thanks, whatever else the body holds. */
  lemma AddedBranch(b: Body)
    requires b.eventType == Some("ADDED_TO_SPACE")
    ensures Handle(Some(b)) == Json(200, "Thanks for adding me to this space!")
  {
  }

  /** REMOVED_FROM_SPACE gets a bare 200 without a JSON body. */
  lemma RemovedBranch(b: Body)
    requires b.eventType == Some("REMOVED_FROM_SPACE")
    ensures Handle(Some(b)) == StatusOnly(200)
  {
  }

  /** Any other event type, the defaulted "UNKNOWN" included, is echoed back. */
  lemma FallbackBranch(body: Option<Body>)
    requires EventTypeOf(body) !in {"MESSAGE", "ADDED_TO_SPACE", "REMOVED_FROM_SPACE"}
    ensures Handle(body) == Json(200, "Event received: " + EventTypeOf(body))
  {
  }

  /** The echo reply decodes to the quoted text, whatever that text is. */
  lemma DecodeEcho(status: nat, userMessage: string)
    ensures Decode(Json(status, EchoReply(userMessage))) == Echo(userMessage)
  {
  }

  /**
    The fallback reply decodes to its event type, even when that type is one
    of the handled ones: its text is never read as an echo or as the thanks.
  */
  lemma DecodeFallback(status: nat, eventType: string)
    ensures Decode(Json(status, FallbackReply(eventType))) == EventReceived(eventType)
  {
    var t := FallbackReply(eventType);
    assert !(EchoPrefix <= t) by { assert t[0] != EchoPrefix[0]; }
    assert t != AddedReply by { assert t[0] != AddedReply[0]; }
  }

  /**
    Decoding is exact: a response that decodes to a reply is that reply's
    response, character for character, so no two different texts decode alike.
  */
  lemma DecodeExact(r: Response)
    ensures Decode(r).Echo? ==> r == Json(r.status, EchoReply(Decode(r).userMessage))
    ensures Decode(r).Thanks? ==> r == Json(r.status, AddedReply)
    ensures Decode(r).Acknowledged? ==> r.StatusOnly?
    ensures Decode(r).EventReceived? ==> r == Json(r.status, FallbackReply(Decode(r).eventType))
  {
  }

  /**
    Every body gets the reply its event type calls for. With DecodeExact this
    fixes the response of every body; in particular the branches are tested
    in order, a MESSAGE body is echoed (never given the fallback text), and an
    ADDED_TO_SPACE body is thanked.
  */
  lemma ResponseMatchesEventType(body: Option<Body>)
    ensures Decode(Handle(body)) == ExpectedReply(body)
  {
    var eventType := EventTypeOf(body);
    if eventType == AddedEvent {
      assert !(EchoPrefix <= AddedReply) by { assert AddedReply[0] != EchoPrefix[0]; }
    } else if eventType != MessageEvent && eventType != RemovedEvent {
      DecodeFallback(Ok, eventType);
    }
  }
}
