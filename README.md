# Penny's pawn shop: verified model of the session store and the reply signals

This project is a Dafny model of the two pieces of logic inside the pawn-shop
negotiation demo. Everything around them (HTTP routes, the language-model call,
speech recognition and speech synthesis, rendering) is glue and is not modelled.

- **The server's conversation store** (`backend/server.js`). The store maps a
  session id to the ordered `{ role, content }` messages of that session.
  - A negotiate turn fetches the session's history, creating it when the id is
    new, and appends the user's message.
  - It then sends the system prompt followed by the whole history to the
    chat-completion service.
  - Only when that call succeeds does it append the reply and keep the last 20
    messages.
  - A reset deletes the session.
  - A missing session id means `"default"`.
  
  `SessionStore.Server` is a class whose `conversations` map field its methods
  update. The pure functions `GetOrCreate`, `AfterTurn` and `Apply` specify it,
  and the lemmas prove these properties about them:
  - session isolation;
  - idempotent reset;
  - the stored history is the most recent part of everything appended: all of
    it or at least 20 messages, and exactly the last 20 (or all, when fewer)
    right after a successful turn.
  
  The chat-completion service is an opaque function argument that answers with
  either a reply or a failure.
- **The client's reply signals and chat state** (`frontend/src/App.jsx`).
  - The offer amount is what `/\$(\d+)/` captures: the first `$` followed by a
    digit, then the digits taken greedily, read in base 10.
  - Deal detection lower-cases the reply and checks whether it contains any of
    five keywords.
  - The transcript is the concatenation of the first alternative of every
    recognition result.
  - The trim guards decide what is sent.
  - The welcome-screen tagline rotates modulo 3.
  
  `ChatClient.App` is a class whose fields are the component's state variables.
  Its methods are specified by the functions `TurnEntries`, `AmountAfter`,
  `DealAfter`, `Submission` and `JoinFirstAlternatives`.
- **JavaScript's string built-ins** (`JsText`). This module models `trim`
  (ECMAScript WhiteSpace and LineTerminator characters), `toLowerCase` on ASCII
  letters, and `includes`.
- **Worked examples** (`Scenarios`). These lemmas prove concrete cases:
  - the replies "I can do $45 for that, deal!", "Let's say $30, maybe $50
    later" and "I'm interested but let's talk";
  - a first turn "I have a guitar" answered with "I can offer $20 for that
    guitar, take it or leave it.", which stores two messages, shows 20 and
    reaches no deal.

Points of the code's behaviour that the model makes explicit:
- **The 20-message bound holds only after a successful reply.** A failed
  completion leaves the user's message appended with no truncation, so repeated
  failures grow a history past 20 (`FailuresBreakTheBound`).
- **The prompt is built before truncation.** The list sent to the service is
  the stored history plus the new message, so it can hold 21 messages besides
  the system prompt (`PromptAfterSuccess`).
- **The server never rejects an empty message.** The only guards against empty
  or whitespace-only input are in the client (`Submission`,
  `App.HandleTranscript`).
- **Signals are extracted by the client.** The offer and deal checks run in the
  client on the reply text. The model defines them in module `Signals`, and
  `ChatClient.App.ReadSignals` applies them to each reply.

## Model

| member | source | states |
|---|---|---|
| SessionStore.ResolveSessionId | backend/server.js:51 | an absent session id becomes `"default"`; any id that is given, even the empty string, is kept as it is |
| SessionStore.GetOrCreate | backend/server.js:54-57 | an unknown id gets an empty history and is the only key added; a known id leaves the store unchanged; no other session is touched |
| SessionStore.KeepRecent | backend/server.js:79-81 | the result is a suffix of the history, as long as the history or 20, whichever is smaller: the last 20 messages in their original order, or everything when there are at most 20 |
| SessionStore.Prompt | backend/server.js:65-68 | the message list sent has the system prompt first, then exactly the history in order |
| SessionStore.AfterTurn | backend/server.js:60-86 | on success the history is at most 20 long and is a suffix of the old history plus the user and assistant messages; it is exactly that when it fits and exactly 20 long otherwise; on failure only the user message is appended and nothing is cut |
| SessionStore.ResponseFor | backend/server.js:83-86 | a reply answers `{ response }` with the reply text; a failure answers with the error, and only then |
| SessionStore.RunOps | backend/server.js:49-139 | a sequence of requests applied in order; `SessionsIsolated` and `OtherSessionsUntouched` characterise it session by session |
| SessionStore.Apply | backend/server.js:49-139 | one request changes no session but its own; a negotiate turn sets that session to `AfterTurn` of its old (or empty) history; a reset removes exactly that key |
| SessionStore.ApplyNegotiate | backend/server.js:54-81 | a negotiate turn on any store is the single map update of its session's entry |
| SessionStore.SessionsIsolated | backend/server.js:49-88 | after any sequence of requests, a session's history equals the one computed from the requests naming that session alone |
| SessionStore.OtherSessionsUntouched | backend/server.js:49-139 | requests that never name a session leave its presence and its history exactly as they were |
| SessionStore.ResetIdempotent | backend/server.js:136-139 | resetting twice equals resetting once; resetting an absent session leaves the store unchanged |
| SessionStore.ResetThenTurnStartsFresh | backend/server.js:136-139 | the first turn after a reset starts from an empty history |
| SessionStore.Replay | backend/server.js:60-81 | one session's history after a sequence of its own turns, each applied with `AfterTurn`; `SessionHistoryIsReplay` ties it to the store and `ReplayKeepsMostRecent` characterises it |
| SessionStore.AfterTurnKeepsRecent | backend/server.js:60-81 | one turn keeps the stored history a suffix of everything appended that is all of it or at least 20 long, and after a success makes it exactly the last 20 (or all) messages |
| SessionStore.ReplayKeepsMostRecent | backend/server.js:60-81 | for any mix of successful and failed turns, the stored history is a suffix of the old history plus every message ever appended, in order; it is all of that or at least 20 messages long; and right after a successful turn it is exactly the last 20 of them, or all when there are at most 20 |
| SessionStore.SessionHistoryIsReplay | backend/server.js:49-88 | when no reset names a session, its history computed from the requests naming it equals the replay of its negotiate turns in order |
| SessionStore.StoreKeepsMostRecent | backend/server.js:49-139 | in the whole store, after any requests none of which resets the session, its history is the replay of its own turns and a suffix of its old history plus everything those turns appended |
| SessionStore.FailuresAccumulate | backend/server.js:60-63 | failed turns only add their user messages: nothing is cut, and the length grows by one per turn |
| SessionStore.FailuresBreakTheBound | backend/server.js:84-86 | twenty-one failed turns on a new session leave more than 20 stored messages |
| SessionStore.PromptAfterSuccess | backend/server.js:65-68 | after a successful turn, the next prompt has at most 22 messages, and exactly 22 when the history before that turn held at least 18 messages |
| SessionStore.Server.constructor | backend/server.js:29 | the store starts empty |
| SessionStore.Server.Negotiate | backend/server.js:49-88 | the service receives the system prompt plus the old history and the new user message; the new map is the old one with this session set to `AfterTurn` of the service's answer; the response is `ResponseFor` that answer |
| SessionStore.Server.GetOrCreateHistory | backend/server.js:54-57 | the map becomes `GetOrCreate` of the old map, and the history returned is the session's old history or empty |
| SessionStore.Server.Reset | backend/server.js:136-139 | the map becomes `Apply` of a reset on the old map |
| JsText.Trim | frontend/src/App.jsx:158-160 | the result has no whitespace at either end, is empty exactly when the input is all whitespace, and is no longer than the input |
| JsText.TrimIsInnerSlice | frontend/src/App.jsx:158-160 | the trimmed text is a contiguous piece of the input with only whitespace before and after it |
| JsText.TrimIdempotent | frontend/src/App.jsx:171 | trimming an already trimmed text changes nothing |
| JsText.LowerAscii | frontend/src/App.jsx:206 | every character is lowered in place and the length is kept |
| JsText.Includes | frontend/src/App.jsx:206 | `includes` as a left-to-right scan of start positions; `IncludesMeans` characterises it as "the key occurs at some position" |
| JsText.IncludesMeans | frontend/src/App.jsx:206 | `includes` holds exactly when the key occurs at some position |
| JsText.IncludesPiece | frontend/src/App.jsx:206 | an occurrence of a text carries an occurrence of each piece of it |
| JsText.IncludesLowered | frontend/src/App.jsx:206 | lowering both sides keeps an occurrence |
| JsText.MissingCharNotIncluded | frontend/src/App.jsx:206 | a key holding a character the text lacks does not occur in it |
| Signals.LeadingDigits | frontend/src/App.jsx:199 | `\d+` is greedy: the result is the longest run of ASCII digits at the front |
| Signals.FirstDollar | frontend/src/App.jsx:199 | the result is the leftmost position where a `$` is followed by a digit, or none when there is no such position |
| Signals.OfferAmount | frontend/src/App.jsx:199-201 | an amount is found exactly when some `$` is followed by a digit |
| Signals.DecimalValue | frontend/src/App.jsx:201 | `parseInt` of a digit run in base 10; `DecimalRoundTrip` shows it inverts writing a number in decimal |
| Signals.DecimalRoundTrip | frontend/src/App.jsx:201 | reading a number's decimal numeral gives the number back |
| Signals.OfferAmountAt | frontend/src/App.jsx:199-201 | the amount is the value of the digit run after the leftmost match |
| Signals.OfferAfterPlainText | frontend/src/App.jsx:199-201 | after text with no match, the first `$` followed by a digit is the match and its digits give the amount |
| Signals.OfferRoundTrip | frontend/src/App.jsx:199-201 | writing `$n` after text with no match and before text that does not continue the numeral is read back as exactly `n` |
| Signals.FirstMatchKept | frontend/src/App.jsx:199-201 | text appended after the first match never moves the match |
| Signals.LaterFiguresIgnored | frontend/src/App.jsx:199-201 | when a reply already has an amount, appending text that does not start with a digit leaves the amount unchanged, even when that text holds other dollar figures |
| Signals.AnyIncluded | frontend/src/App.jsx:205-206 | `keywords.some(k => s.includes(k))`; `AnyIncludedMeans` characterises it as "some listed keyword occurs" |
| Signals.IsDeal | frontend/src/App.jsx:205-206 | the deal check on the lower-cased reply; `IsDealMeans`, `DealKeywordsReduce` and `DealInAnyCase` characterise it |
| Signals.AnyIncludedMeans | frontend/src/App.jsx:205-206 | `some(includes)` holds exactly when some keyword of the list occurs |
| Signals.IsDealMeans | frontend/src/App.jsx:205-206 | a deal is detected exactly when one of the keywords is a substring of the lower-cased reply |
| Signals.DealKeywordsReduce | frontend/src/App.jsx:205-206 | because "we have a deal" contains "deal", the check equals testing the first four keywords |
| Signals.DealInAnyCase | frontend/src/App.jsx:205-206 | any reply containing "deal" in any mix of cases counts as a deal |
| ChatClient.NextTagline | frontend/src/App.jsx:30 | the next index stays below 3, advances by one, and wraps from 2 to 0 |
| ChatClient.TaglineCycles | frontend/src/App.jsx:27-34 | after `n` ticks from 0, the index is `n % 3` |
| ChatClient.JoinFirstAlternatives | frontend/src/App.jsx:60-65 | the in-order join of every result's first alternative; `JoinAppend` and `JoinContainsEach` characterise it |
| ChatClient.JoinAppend | frontend/src/App.jsx:63-65 | joining the results of two batches is joining each batch and concatenating |
| ChatClient.JoinContainsEach | frontend/src/App.jsx:63-65 | every result's first alternative appears whole in the joined transcript |
| ChatClient.CollectTranscript | frontend/src/App.jsx:59-65 | the loop builds the in-order concatenation of every result's first alternative |
| ChatClient.IsBlank | frontend/src/App.jsx:171 | the guard `userText.trim().length === 0`; `Trim` characterises it as "all whitespace" and `SubmissionIsNotBlank` shows sent text passes it |
| ChatClient.Submission | frontend/src/App.jsx:158-163 | nothing is sent exactly when the transcript is all whitespace; otherwise the trimmed, non-empty transcript is sent |
| ChatClient.SubmissionIsNotBlank | frontend/src/App.jsx:158-174 | what `stopRecording` sends always passes the guard of `handleTranscript` |
| ChatClient.ReplyFromServer | frontend/src/App.jsx:187-192 | the client reads a body for every server answer, and `response` is present exactly when the server answered with a reply text |
| ChatClient.TurnEntries | frontend/src/App.jsx:182-196 | a turn adds the user's entry and then the assistant's, whose content is undefined when the body has no `response`; a failed fetch adds only the user's entry |
| ChatClient.AmountAfter | frontend/src/App.jsx:198-202 | the amount is replaced by the offer found in the reply text and kept when there is none or no text arrived |
| ChatClient.DealAfter | frontend/src/App.jsx:204-209 | the flag is never lowered; it is raised exactly when reply text arrived and names a deal |
| ChatClient.App.constructor | frontend/src/App.jsx:12-24 | the initial state: welcome screen, no messages, amount 0, tagline 0, empty transcript, no recording and no deal |
| ChatClient.App.RotateTagline | frontend/src/App.jsx:26-34 | on the welcome screen one tick advances the index with `NextTagline`; the index stays below 3 |
| ChatClient.App.OnResult | frontend/src/App.jsx:59-69 | the transcript becomes the join of all results so far |
| ChatClient.App.StartRecording | frontend/src/App.jsx:93-113 | without recognition nothing changes; the first press only leaves the welcome screen; later presses clear the transcript and start recording |
| ChatClient.App.HandleTranscript | frontend/src/App.jsx:170-233 | blank text changes nothing; otherwise the messages grow by `TurnEntries`, the amount and the deal flag follow `AmountAfter` and `DealAfter`, and thinking ends |
| ChatClient.App.ProcessTurn | frontend/src/App.jsx:176-233 | the messages grow by `TurnEntries` of the reply; the amount and the deal flag follow `AmountAfter` and `DealAfter`; thinking ends on every path |
| ChatClient.App.ReadSignals | frontend/src/App.jsx:198-209 | the amount and the deal flag are updated from one reply text as `AmountAfter` and `DealAfter` say |
| ChatClient.App.StopRecording | frontend/src/App.jsx:149-168 | only while recording: recording stops and the transcript is cleared; a blank transcript sends nothing, and any other is processed trimmed |
| Scenarios.OfferAndDealSignals | frontend/src/App.jsx:199-207 | "I can do $45 for that, deal!" offers 45 and reaches a deal |
| Scenarios.RefusalCountsAsDeal | frontend/src/App.jsx:205-206 | "No deal today." is read as a deal, because the check matches substrings, not meaning |
| Scenarios.FirstFigureWins | frontend/src/App.jsx:199-201 | "Let's say $30, maybe $50 later" offers 30 |
| Scenarios.UndecidedAmount | frontend/src/App.jsx:199-201 | "I'm interested but let's talk" offers nothing |
| Scenarios.UndecidedNoDeal | frontend/src/App.jsx:205-206 | "I'm interested but let's talk" reaches no deal |
| Scenarios.GuitarAmount | frontend/src/App.jsx:199-201 | the guitar reply offers 20 |
| Scenarios.GuitarNoDeal | frontend/src/App.jsx:205-206 | the guitar reply reaches no deal |
| Scenarios.FirstTurn | backend/server.js:49-88 | a first successful turn on an empty store stores exactly the user's message and the reply; the client shows both and takes the amount and the deal from the reply |
| Scenarios.GuitarTurn | backend/server.js:49-88 | "I have a guitar" answered with the guitar offer stores two messages; the client shows 20 and no deal |

## Left out

- HTTP plumbing is not modelled: Express routing, JSON parsing, status codes, CORS, `app.listen` and the `{ success: true }` body of the reset endpoint. A session id is either absent or a string: the default `'default'` (backend/server.js:51, 137) applies only to an absent field, so a JSON `null` or a number would become a map key of its own, which `Option<string>` cannot express.
- A request body without `userMessage` is not modelled: the server would store an undefined content. The model takes the message as a string, and the server accepts any string, including the empty one.
- The OpenAI call and its parameters are not modelled. The model, temperature and token limit are replaced by an opaque function from the message list to a reply or a failure.
- The system prompt text is not modelled: the server takes it as a constructor parameter. Its persona rules are advisory and the code does not enforce them.
- The ElevenLabs speech endpoint, audio playback, auto-scroll and rendering are not modelled; they are I/O and user interface. A failure of the speech call happens after the amount and the deal flag are set, and only ends thinking, which every path does anyway.
- Concurrent turns on one session interleaving across the `await` are not modelled. Turns are atomic sequential steps.
- The speech-recognition lifecycle, the `setTimeout` restarts and the error alerts are not modelled. Recognition results arrive as `OnResult` calls, and `speechSupported` stands for whether a recogniser exists.
- ChatClient.App.OnResult: requires every result to carry at least one alternative, and so does ChatClient.JoinFirstAlternatives. For a result with none, reading `event.results[i][0].transcript` (frontend/src/App.jsx:64) would throw a TypeError, which the model does not capture.
- The 3-second timer that clears the deal flag is not modelled. `DealAfter` never lowers the flag.
- `Math.random` session id generation is not modelled. The client takes the id as a parameter.
- ChatClient.App.HandleTranscript: the `!userText` guard is not modelled separately. The model takes a string, and an empty string is blank anyway.
- JsText.LowerAscii: lowers ASCII letters only, not Unicode `toLowerCase`. Every keyword is ASCII, but a non-ASCII capital in a reply is left as it is.
- ChatClient.App.StartRecording: does not model `recognition.start()` throwing; its `catch` sets `isRecording` back to false (frontend/src/App.jsx:130-132), and so do the recogniser's `onerror` branches (frontend/src/App.jsx:77, 80). The contract says a later press always leaves recording on, because the recogniser is not modelled.
- ChatClient.App.StopRecording: the "No speech detected" alert (frontend/src/App.jsx:163) is not modelled, and neither is the error alert of a failed turn in ChatClient.App.HandleTranscript (frontend/src/App.jsx:232); they are user-interface output.
- SessionStore.Completion: a reply is always a string. The service may give `null` content (backend/server.js:73), which the server would store as an assistant message and send as `{ response: null }`; the model does not capture that case.
- Signals.OfferAmount: the amount is an unbounded natural number, so `parseInt` losing precision on very long digit runs is not modelled.
- The health endpoint is not modelled.
