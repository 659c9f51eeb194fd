# gchat-bot webhook handler, modelled in Dafny

This project models the handler behind `POST /gchat-bot` in `index.js`.
Google Chat delivers an event as a JSON body; the handler takes the event type
from `body.type` (an absent or empty type, or a missing body, becomes
`"UNKNOWN"`), then tests it in a fixed order:

- `MESSAGE`: status 200, JSON `{ text: 'You said: "<text>"' }`, where `<text>`
  is `body.message.text`, or `"No message"` when that is absent or empty;
- `ADDED_TO_SPACE`: status 200, JSON `{ text: "Thanks for adding me to this space!" }`;
- `REMOVED_FROM_SPACE`: a bare status 200 (`res.sendStatus(200)`);
- anything else: status 200, JSON `{ text: "Event received: <type>" }`.

`wrappers.dfy` holds the `Option` type for absent fields. `gchat_bot.dfy`
(module `GchatBot`) holds the body (`Body`, `Message`, all fields optional
strings), the response (`Json(status, text)` or `StatusOnly(status)`), the
JavaScript `x || d` default for optional strings (`Truthy`, `OrElse`), the
handler `Handle` as a pure function, and the lemmas about it. The partner of
`Handle` is `Decode`, an independent reading of a response by its shape and
its exact text, into one of the replies `Echo(text)`, `Thanks`,
`Acknowledged`, `EventReceived(type)` or `Unrecognised`. `DecodeExact` proves
that decoding is exact: a decoded response is, character for character, the
response of that reply. `ResponseMatchesEventType` proves that every body's
response decodes to the reply its event type calls for (`ExpectedReply`).
Together they fix the response of every body and show that the branches are
tested in order: a MESSAGE body is always echoed and never gets the fallback
text, and an ADDED_TO_SPACE body is always thanked.

## Model

| member | source | states |
|---|---|---|
| `GchatBot.EventTypeOf` | index.js:4 | the event type is `body.type` when the body is present and its type is a non-empty string, otherwise exactly `"UNKNOWN"`; it is never empty |
| `GchatBot.MessageTextOf` | index.js:8 | the user text is `message.text` when `message` is present and its text is non-empty, otherwise exactly `"No message"`; it is never empty |
| `GchatBot.Handle` | index.js:1-27 | every body gets exactly one response, its status is always 200, and it is a bare status (no JSON) exactly when the event type is `REMOVED_FROM_SPACE` |
| `GchatBot.EmptyTypeIsAbsent` | index.js:4 | a body with `type: ""`, a body without `type` and a missing body all get the same response, `Event received: UNKNOWN` |
| `GchatBot.MessageBranch` | index.js:7-11 | a MESSAGE body with non-empty text gets status 200 and exactly `You said: "` + text + `"` |
| `GchatBot.MessageWithoutText` | index.js:8-11 | a MESSAGE body without `message`, without `text` or with empty text gets `You said: "No message"` |
| `GchatBot.AddedBranch` | index.js:15-17 | an ADDED_TO_SPACE body gets status 200 and the fixed thanks, whatever else it holds |
| `GchatBot.RemovedBranch` | index.js:20-22 | a REMOVED_FROM_SPACE body gets status 200 with no JSON body |
| `GchatBot.FallbackBranch` | index.js:25-26 | any other event type, the defaulted `UNKNOWN` included, gets status 200 and `Event received: ` + the event type |
| `GchatBot.DecodeEcho` | index.js:9 | the echo reply `You said: "` + text + `"` decodes back to exactly that text, for every text |
| `GchatBot.DecodeFallback` | index.js:26 | the fallback reply `Event received: ` + type decodes back to that type, even when the type is one of the handled ones; its text never reads as an echo or as the thanks |
| `GchatBot.DecodeExact` | index.js:9-26 | a response that decodes to a reply is exactly that reply's response: the echo text with its prefix and closing quote, the fixed thanks, a bare status, or the fallback text |
| `GchatBot.ResponseMatchesEventType` | index.js:4-26 | every body's response decodes to the reply its event type calls for: MESSAGE is echoed with the defaulted text, ADDED_TO_SPACE is thanked, REMOVED_FROM_SPACE is acknowledged, and any other type gets the fallback; with `DecodeExact` this shows the branches are tested in order and a MESSAGE body never gets the fallback text |

## Left out

- Express routing and the `app.post` registration: the model is the handler's result, not the HTTP exchange. `res.status(200).json(...)` is `Json(200, text)` and `res.sendStatus(200)` is `StatusOnly(200)`; the plain-text `OK` body Express attaches to `sendStatus` is not modelled.
- The `console.log` calls, including the `JSON.stringify` dump of the raw body: logging has no effect on the response.
- JSON values other than strings in `type` and `message.text` (numbers, booleans, objects and their JavaScript truthiness and template-string conversion): the model takes both fields as optional strings, where falsy means absent or `""`.
- Behaviour of the repository's other handler variants, none of which is in `index.js`: sender allowlists, keyword replies, time-zone timestamps, card and add-on response envelopes, normalising events nested under `chat.messagePayload` or `chat.type`, and error replies with status 400 or 500. `index.js` reads only the top-level `type` and `message.text` and always answers 200.
