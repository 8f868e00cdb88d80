# Chat room server core, modelled in Dafny

This project models the real-time core of a small Flask/Socket.IO chat server (`app.py`).
The server keeps two pieces of shared state:

- the presence registry `online_users`, which maps a display name to the Socket.IO session
  holding it;
- the scrollback `chat_history`, which holds at most 100 chat events.

Each Socket.IO handler (`connect`, `join`, `send_message`, `leave`, `disconnect`) is a pure
function. It takes the state and the inbound payload and returns the new state with the list
of emissions it made. Each emission has a recipient (the sender, one session id, everyone,
everyone but the sender, or the room `chat_room`).

The `check_username` endpoint is a pure function too, but it only reads: it takes the registry
and the request's `username` value and returns the availability answer (taken, free, or the
500 response). It changes no state and emits nothing.

Modules:

- `Text` (text.dfy) models Python's `strip()`, prefix and substring tests and
  `split(' ', 1)`. It also has the display-name clean-up (strip, keep 30 characters, filter
  the characters) and the 500-character message cap.
- `History` (history.dfy) models the bounded append: push, then drop the head once if the
  log holds more than 100 events.
- `Registry` (registry.dfy) models the registry as an ordered list of sessions, not as a
  map. A Python dict keeps its keys in first-insertion order, and rebinding a present key
  keeps its position. The `users` list sent to clients follows that order, and so does the
  disconnect scan, which stops at the first session whose id matches.
- `Responder` (responder.dfy) is the assistant's keyword chain. The reply texts are opaque
  constructors.
- `Protocol` (protocol.dfy) holds the events, emissions, payload shapes and notice texts.
- `Handlers` (handlers.dfy) holds the handlers.
- `Trace` (trace.dfy) runs inbound events one at a time and holds the properties that span
  several calls.
- `Scenarios` (scenarios.dfy) holds concrete runs that show edge behaviours.

Some behaviours of the code are easy to misread. The model follows the code:

- A name that the filter empties is registered as `""`. It is not rejected (app.py:142-163).
- The filter's allowed extras are the literal five-character string `' _一-龥'`. It
  is not a range of ideographs.
- Disconnect removes only the first session held by the connection. It removes nothing when
  that session's name is `""`, because the code tests the found name for truthiness
  (app.py:115).
- `check_username` strips its input but does not apply the join clean-up.
- An assistant question stores the reply before the question. A failure notice goes to the
  asker alone and is not stored.
- `leave` removes whichever name the payload gives. The `user_left` notice skips the
  requesting connection, which need not be the one that held the name.
- `new_message` goes to the room `chat_room`. `user_joined` goes to every connection.
  `user_left` goes to every connection except the one whose event caused it
  (`include_self=False`, app.py:123 and app.py:383).

## Model

| member | source | states |
|---|---|---|
| Text.Strip | app.py:148 | `strip()` yields the infix left after removing whitespace at both ends. Everything removed is whitespace. The result's ends are not whitespace. It is empty exactly when the input is all whitespace |
| Text.StripClean | app.py:148 | a string that neither starts nor ends with whitespace is unchanged by `strip()` |
| Text.StripIdempotent | app.py:234 | stripping an already stripped string changes nothing |
| Text.ContainsAt | app.py:277 | a keyword found at some position of the question makes `keyword in question` true |
| Text.ContainsWitness | app.py:277 | conversely, `keyword in question` is true only where the keyword occurs at some position |
| Text.SplitAtFirstSpace | app.py:252-253 | `split(' ', 1)` has a second part exactly when the text has a space. Then the text is head + `' '` + tail, with no space in the head |
| Text.SplitUnique | app.py:265-266 | the split is determined by the text: any space-free head followed by a space is the split's head |
| Text.KeepNameChars | app.py:149 | the character filter returns a subsequence of its input made only of allowed characters. Its length is the number of allowed characters in the input. It is the identity on already clean input |
| Text.KeepNameCharsAppend | app.py:149 | the filter works character by character, so it distributes over concatenation |
| Text.KeepNameCharsKeeps | app.py:149 | every allowed character of the input survives the filter |
| Text.SubsequenceCount | app.py:149 | no subsequence made only of allowed characters is longer than the number of allowed characters in the input |
| Text.KeepNameCharsUnique | app.py:149 | the filter's contract determines it: an allowed-only subsequence with as many characters as the input allows is the filter's result |
| Text.NameExtrasAreLiteral | app.py:149 | the extras are five literal characters: space, `_`, U+4E00, `-` and U+9FA5. The hyphen is allowed and `!` is not |
| Text.NormaliseName | app.py:148-149 | the cleaned name has at most 30 characters, all of them allowed. It is a subsequence of the first 30 characters of the stripped input, as long as the number of allowed characters among them. A 30-character cut that is already clean is kept unchanged |
| Text.Truncate | app.py:239-240 | a message over 500 characters becomes its first 500 followed by `...`. A shorter one is kept. The result never exceeds 503 characters |
| Text.TruncateIdempotent | app.py:239-240 | capping an already capped message changes nothing |
| History.Append | app.py:181-185 | the appended event is last. From a log of at most 100, the result has at most 100 events and equals the latest 100 of old log + event. Below capacity nothing is dropped. At capacity only the head is dropped |
| History.AppendAllKeepsLatest | app.py:346-350 | after any number of appends to a log of at most 100, the log is exactly the latest (at most 100) events, in append order |
| Registry.Lookup | app.py:152-157 | the registry has a session id for a name exactly when the name is a key, and that id is the one stored for the name |
| Registry.Bind | app.py:163-166 | binding sets the name's session id and leaves every other name's binding unchanged. A present name keeps its place, a new name goes last. One binding per name is preserved |
| Registry.Unbind | app.py:374-375 | removing a present name cuts out exactly the session at its first position, so the others keep their order and the list shrinks by one. An absent name leaves the registry unchanged. Other names' bindings are unchanged. With one binding per name, the name is gone afterwards |
| Registry.FirstWithSid | app.py:109-113 | the disconnect scan finds the first session, in registry order, held by the session id, or reports that none is |
| Responder.Respond | app.py:271-305 | the fallback reply is chosen exactly when no keyword of any group occurs in the stripped question, and it quotes the unstripped question |
| Responder.FirstMatch | app.py:276-304 | a first-match table lookup returns the reply of the earliest rule with a keyword in the question, and nothing when no rule matches |
| Responder.RespondIsFirstMatch | app.py:276-305 | the keyword chain equals the first-match table in source order, with the address rule (`地址`, `在哪里`) ahead of the general school rule |
| Handlers.HandleConnect | app.py:93-100 | connecting changes no shared state and sends one acknowledgement to the connecting session only |
| Handlers.CheckUsername | app.py:71-91 | a name is reported taken exactly when its stripped text is a registry key. A missing value counts as `""`. A non-string value gives the error response |
| Handlers.CheckAgreesWithJoin | app.py:81-82 | on a name whose stripped form is already at most 30 allowed characters, the check reports `taken` exactly when join would find the cleaned name registered |
| Handlers.HandleJoin | app.py:129-149 | a payload that is not an object with `username` sends only the bad-request error. A blank or non-string name sends only the empty-name error. Neither changes any state. Any other name is admitted under its cleaned form, and the invariant is kept |
| Handlers.JoinName | app.py:133-145 | a join payload passes the checks exactly when it is an object with a `username` string whose stripped form is not empty. The name passed on is the raw string |
| Handlers.Admit | app.py:151-198 | the cleaned name is bound to the caller's session and no other binding changes. Exactly one `kicked`, with its fixed notice text, goes to a different previous holder, and none when the caller already held the name. One welcome is stored. The stored history, ending with the welcome, is replayed to the sender. `user_joined` with the updated names goes to everyone. The invariant is kept |
| Protocol.Welcome | app.py:174-178 | the welcome is an authorless `system` event with no `special_data`. Its text is `欢迎 `, the name and ` 加入聊天室！`, so the name can be read back from it |
| Handlers.WithScheme | app.py:254-258 | the fixed-up URL always has an `http://` or `https://` scheme. A URL that had one is unchanged, and any other gets `http://` in front |
| Handlers.Classify | app.py:245-267 | `@电影` comes before `@川小农`. Each becomes a movie share or a question exactly when the text has a space, and falls back to the usage text otherwise. The movie URL is the stripped part after the first space, given a scheme. The question is everything after the first space |
| Handlers.MovieCommand | app.py:249-258 | `@电影 <arg>` is a movie share whose URL is the stripped `arg` given a scheme |
| Handlers.AskCommand | app.py:262-267 | `@川小农 <arg>` is an assistant question whose question is `arg` as typed |
| Handlers.CommandEvent | app.py:245-343 | the posted event carries the sender as author and the message time stamp. It is `movie` exactly for a movie share, with its URL. It is `ai_chat` exactly for a question, with the raw question. The two usage cases store the usage notice as plain text with `special_data` null. A plain message stores its text |
| Handlers.AssistantReply | app.py:307-312 | the reply is an `ai_reply` event authored by the assistant, with its own time stamp and no `special_data`. Its reply is that of the first keyword group matching the stripped question, or the fallback quoting the question |
| Handlers.AssistantDown | app.py:326-330 | the failure notice is an authorless `system` event with the fixed notice text and the message's time stamp |
| Handlers.AcceptBody | app.py:230-240 | a body is accepted exactly when it is a string that is not all whitespace. The accepted text is stripped and capped, so it has 1 to 503 characters |
| Handlers.Post | app.py:242-356 | the registry is untouched. A plain message or command stores its event and sends it to the room. An answered question stores and sends the reply, then the question. A failed assistant sends a notice to the asker only and stores just the question. The log bound is kept |
| Handlers.HandleMessage | app.py:210-363 | a malformed payload does nothing. A sender that is not a registry key gets one private error, and the state is unchanged. A non-string or blank body does nothing. An accepted body is posted. The registry never changes and the invariant is kept |
| Handlers.HandleLeave | app.py:365-387 | removing a present name cuts exactly one session holding it out of the registry, so the rest keep their order. It tells everyone but the sender, with the remaining names in that order. Any other payload changes and sends nothing. The history is untouched |
| Handlers.HandleDisconnect | app.py:102-127 | at most one session is removed: the first one held by the closing session id, unless its name is `""`. With one session per name, the registry is exactly the old one with that position cut out, so the rest keep their order. Only then are the others told. The history is untouched |
| Trace.RunKeepsValid | app.py:102-387 | over any sequence of inbound events, each name keeps at most one session and the log never exceeds 100 events |
| Trace.StepAppends | app.py:180-185 | a step changes the log only by appending: the welcome on join, the reply and question, or the posted event |
| Trace.RunHistoryIsLatest | app.py:346-350 | after any run, the log is exactly the latest (at most 100) of its previous contents followed by everything the run stored, in order |
| Trace.AssistantReplyStoredFirst | app.py:307-350 | an answered question grows the log by two, up to the bound. The assistant-authored `ai_reply` is second to last and the asker's `ai_chat` is last |
| Trace.AssistantFailureStoresQuestionOnly | app.py:323-354 | when the assistant fails, only the question is stored. Exactly two messages are sent: first the failure notice to the asker alone, then the question to the room |
| Trace.LeaveTwice | app.py:373-375 | a second leave for the same name changes and sends nothing |
| Trace.LeaveDisconnectRace | app.py:108-116 | when the connection holds exactly one name and both its leave and its disconnect arrive, a leave first makes the disconnect do nothing. A disconnect first makes the leave do nothing, provided the name is not `""`. A `""` session survives the disconnect (see `Scenarios.EmptyNameOutlivesDisconnect`), and a connection holding two names loses the other one to its disconnect |
| Scenarios.EmptyNameIsRegistered | app.py:142-163 | `!!` passes the blank check, cleans to `""`, and `""` is registered |
| Scenarios.EmptyNameOutlivesDisconnect | app.py:115-116 | a session named `""` survives the disconnect of its connection |
| Scenarios.DisconnectRemovesFirstOnly | app.py:109-116 | a connection that holds two names loses only the first on disconnect |
| Scenarios.CheckIgnoresCleanUp | app.py:81-82 | `a!b` is reported available while `ab` is taken, yet joining as `a!b` kicks the holder of `ab` |
| Scenarios.RejoinFromSameConnection | app.py:152-166 | joining as `a!b` from the connection that holds `ab` cleans to `ab` and rebinds it in place: the keys stay `["ab"]`, `ab` stays with that connection, and nobody is kicked |
| Scenarios.MovieLinkGetsScheme | app.py:256-257 | `@电影 vid.example/x` shares `http://vid.example/x` |
| Scenarios.MovieLinkKeepsScheme | app.py:256 | `@电影 https://v.example` shares the link unchanged |
| Scenarios.IntroductionBeatsSchool | app.py:277-285 | a question naming both the assistant and the school gets the introduction: the first group wins |

## Left out

- Page routes, template rendering, redirects and the error handlers (app.py:44-69, app.py:400-407) are HTTP plumbing. The chat page's name clean-up (app.py:63-64) is the same as the join clean-up, `Text.NormaliseName`.
- Configuration loading (app.py:31-42) is file I/O.
- Logging has no behaviour.
- `socketio.lock` is not modelled. Every handler is one atomic step, and interleavings are modelled as orderings of whole steps.
- `join_room`, `leave_room` and the transport are not modelled. Room membership is not tracked, and an emission to `chat_room` is recorded as such.
- Emit failures and the `try/except` blocks that only guard them are not modelled. An emission is a recorded outbound record. In particular, a failing broadcast of the assistant reply at app.py:322, after the reply is stored, is not modelled.
- Whether the assistant block fails is an input to the model (`assistantFails`). It stands for a fault raised before the reply is stored.
- Clock readings (`datetime.now()`) are opaque timestamp strings passed in.
- Text.IsAlnum covers ASCII letters and digits and the CJK ideograph blocks U+3400-4DBF and U+4E00-9FFF. Python's `isalnum` covers all Unicode letters and digits.
- The seven reply texts are opaque `Reply` constructors. The fallback carries the question it quotes.
- The health endpoint (app.py:390-397) and process start-up (app.py:409-419) are read-only reporting and start-up.
- A `check_username` POST whose JSON body is not an object is not modelled. It makes `data.get` fail with the 500 response. The model takes the extracted value.
- Handlers.HandleConnect: the contract states the kind and recipient of the acknowledgement, not its text.
- Handlers.HandleMessage: the contract states that a non-member sender gets one private error notice, not which of the two texts it is. The text is `请先加入聊天室` for a hashable sender value and `发送消息失败` for an unhashable one.
- Responder.Respond: its own contract only characterises the fallback. The full first-match behaviour is stated by `Responder.RespondIsFirstMatch`.
