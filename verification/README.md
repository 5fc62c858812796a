# Authenticated chat backend — Dafny model

This project models the core of a small chat backend in Dafny. Users register and log in. Login returns a signed bearer token whose `id` claim authorises chat requests. Each chat request sends the language model a bounded context: a fixed system message, the newest stored turns of that chat replayed as user/assistant pairs, then the new message. The request then records the new turn. A history request returns the caller's turns grouped into one transcript per chat.

Modules:

- `Outcomes` (outcomes.dfy): HTTP failures (status code and detail), `Result` and `Option`.
- `Seqs` (seqs.dfy): reversal, `LIMIT`-style prefix and last-`n` suffix, each characterised element by element.
- `ChatLog` (chatlog.dfy): the turn table, modelled as an append-only sequence in ascending id order. It also holds the `WHERE` filters (`Selector`), the recent-turn window and row insertion.
- `Context` (context.dfy): the model context and the chat handler.
- `Transcript` (transcript.dfy): the history handler, written as a loop. It is proved equal to a reference grouping, `Grouped`.
- `Tokens` (tokens.dfy): access-token claims, expiry, decoding and the authorisation gate.
- `Accounts` (accounts.dfy): the user table, registration and login.

Collaborators the model cannot see are passed in as parameters:

- The language model is `generate: seq<Message> -> string`.
- Whether the database accepted the write is `committed: bool`.
- Password hashing is `hash`, and password verification is `verify`.
- JWT signing and signature checking are a `Signer`. The `Sound(signer)` hypothesis says that checking a signed payload gives back that payload.
- The current time is `now`, in seconds.

## Model

| member | source | states |
|---|---|---|
| Seqs.Reverse | backend/app/routes/chat.py:55 | the reversed list has the same length, and element i is element n-1-i of the input |
| Seqs.Take | backend/app/routes/chat.py:50 | `LIMIT n` keeps min(n, len) rows: the first ones, unchanged |
| Seqs.ReverseTakeReverse | backend/app/routes/chat.py:49-55 | newest-first order, limited to n and reversed back, is exactly the last n rows in chronological order |
| ChatLog.Select | backend/app/routes/chat.py:48 | a `WHERE` query returns at most as many rows as the table holds; which rows it returns is stated by `SelectMembers` |
| ChatLog.SelectMembers | backend/app/routes/chat.py:48 | a turn is in the query result iff it is in the table and satisfies the filter |
| ChatLog.SelectWellOrdered | backend/app/routes/chat.py:49 | filtering a table in ascending id order yields rows in ascending id order |
| ChatLog.RecentTurns | backend/app/routes/chat.py:46-55 | the history window is the last min(n, 10) of the session's n turns, in storage order |
| ChatLog.RecentTurnsFromSession | backend/app/routes/chat.py:47-48 | every turn of the window is a stored turn of the requested chat and user |
| ChatLog.RecentTurnsAreNewest | backend/app/routes/chat.py:46-55 | the window is the tail of the session's turns, ids ascending, and every omitted session turn is older than every kept one |
| ChatLog.NextTurnId | backend/app/routes/chat.py:69-76 | a newly inserted row gets an id larger than every stored id |
| ChatLog.Insert | backend/app/routes/chat.py:69-76 | inserting adds exactly one row carrying the given chat, user, message and response; existing rows are untouched; id order is kept |
| Context.Replay | backend/app/routes/chat.py:59-61 | each turn becomes two entries: its message as "user" at 2k, then its response as "assistant" at 2k+1 |
| Context.BuildContext | backend/app/routes/chat.py:58-62 | the context has 2 + 2·len(window) entries: first the fixed system message, last the new user message, and the pairs in between in window order |
| Context.ChatContext | backend/app/routes/chat.py:46-62 | the context sent to the model has two entries per window turn plus two: the system message first and the new user message last |
| Context.ChatContextShape | backend/app/routes/chat.py:46-62 | the context length is 2 + 2·min(n, 10); it opens with the system message and closes with the new message; every other entry comes from a turn of the same chat and user |
| Context.ReplayedTurnIndex | backend/app/routes/chat.py:59-61 | every inner context entry is the message or the response of some window turn |
| Context.ChatMessage | backend/app/routes/chat.py:36-82 | success iff the write commits; on commit, exactly one turn (chat, user, message, model reply) is appended and the reply is returned; on failure, the log is unchanged and the result is 500 "Database error" |
| Context.ChatMessageSlidesWindow | backend/app/routes/chat.py:46-76 | after a committed request, that session's next window is the old window plus the new turn, trimmed to 10; every other session's window is unchanged |
| Context.NewConversation | backend/app/routes/chat.py:46-82 | with no prior turns, the context is [system, first]; after the first turn commits, the next context is [system, first, reply, second] |
| Transcript.Lines | backend/app/routes/chat.py:93-94 | each turn contributes a user line with its message, then a bot line with its response, in turn order |
| Transcript.ChatOrderMembers | backend/app/routes/chat.py:91-96 | the group keys are exactly the chat ids that occur, each once |
| Transcript.ChatOrderIsFirstEncounter | backend/app/routes/chat.py:91-96 | groups follow first-encounter order: the chat order after any prefix of the scan is a prefix of the final order, so chats are never reordered and new ones are only added at the end |
| Transcript.IndexOfChat | backend/app/routes/chat.py:93 | the `setdefault` lookup finds the group with that chat id, or reports that no group has it |
| Transcript.GroupedSnoc | backend/app/routes/chat.py:92-94 | scanning one more turn appends its two lines to its own chat's group, or opens a new group last when the chat is new |
| Transcript.HistoryChatsDistinct | backend/app/routes/chat.py:91-96 | no chat id has two groups in the history |
| Transcript.GetHistory | backend/app/routes/chat.py:85-96 | the loop's result equals the reference grouping; chat ids are distinct; every chat of the caller has a group; each group is the transcript of that (chat, caller) session |
| Transcript.SelectTwice | backend/app/routes/chat.py:90 | narrowing the caller's turns to one chat gives exactly that chat-and-user session |
| Transcript.HistoryCoversUser | backend/app/routes/chat.py:90-96 | every turn the caller owns has its chat among the groups |
| Transcript.HistoryIsSessionTranscripts | backend/app/routes/chat.py:90-96 | a group contains only the caller's turns of that chat: 2× their count, in storage order |
| Transcript.ChatMessageExtendsHistory | backend/app/routes/chat.py:68-96 | a committed chat request appends the turn's two lines to the end of the sender's transcript for that chat; other users' histories are unchanged |
| Tokens.AccessTokenClaims | backend/app/routes/auth.py:43-47 | the token claims are the caller's claims plus `exp` = issuance + 60 minutes; every other claim is unchanged, and the caller's dictionary is left as it was |
| Tokens.CreateAccessToken | backend/app/routes/auth.py:43-48 | under a sound signer, the issued token carries exactly those claims |
| Tokens.AccessTokenLifetime | backend/app/routes/auth.py:43-48 | a token decodes to its claims up to and including its expiry instant, and fails to decode after it |
| Tokens.Decode | backend/app/routes/chat.py:27 | decoding succeeds iff the signature checks out and the `exp` claim, when present, is a number not before the current time; it then yields exactly the signed payload |
| Tokens.GetCurrentUserId | backend/app/routes/chat.py:25-33 | returns the `id` claim iff the token decodes and the claim is present and non-null; a signed token with a null `exp` escapes as 500; every other failure is 401 "Invalid token" |
| Tokens.NullExpiryEscapesGate | backend/app/routes/chat.py:26-33 | a correctly signed token whose `exp` is null is answered with 500, not 401, because the decoder's `TypeError` is not the `JWTError` the gate catches |
| Tokens.IssuedTokenAuthorizes | backend/app/routes/chat.py:25-33 | a token issued with an `id` authorises that id until expiry and gets 401 afterwards |
| Accounts.FindByUsername | backend/app/routes/auth.py:56 | returns the first user with that username, or nothing iff no user has it |
| Accounts.NextUserId | backend/app/routes/auth.py:62-64 | on a well-formed table, the id given to a new user is larger than every stored id |
| Accounts.Register | backend/app/routes/auth.py:53-65 | success iff the username is free and the insert commits; a taken username gives 400 and leaves the table unchanged; a failed commit gives 500 and stores nothing; otherwise exactly one user is appended with the given username and email, password = hash(password) and a fresh id; table well-formedness is kept |
| Accounts.LoginClaims | backend/app/routes/auth.py:75 | the login token is issued for exactly two claims: `sub`, the username, and `id`, the user's id |
| Accounts.Login | backend/app/routes/auth.py:68-81 | an unknown username gives 401; any failure is 401 "Invalid credentials"; success returns a bearer token for {sub, id} of a user whose password verifies, plus that user's username and id |
| Accounts.LoginSucceedsIff | backend/app/routes/auth.py:71-73 | on a well-formed table, login succeeds iff a user has the username and the password verifies against that user's hash |
| Accounts.RegisterThenLogin | backend/app/routes/auth.py:53-81 | after a fresh registration, login with the same password returns a bearer token for the new user; that token authorises the user's id for one hour |
| Accounts.RegisterTwice | backend/app/routes/auth.py:56-57 | registering the same username twice: once the first attempt commits, the second gives 400 and leaves the table as the first left it |

Error behaviour the model reproduces:

- A failed write of a chat turn discards the generated reply and answers 500 "Database error".
- A failed write of a new user is not caught by the handler, so it answers 500 and stores no user.
- A duplicate username answers 400.
- A missing or null `id` claim answers 401, and so does a token that fails to decode.
- A correctly signed token with a null `exp` answers 500: the decoder raises an error the gate does not catch.

## Left out

- Database sessions, `get_db`, commit/refresh/rollback mechanics: the database is an in-memory sequence. Whether a commit succeeds is the `committed` parameter of `Context.ChatMessage` and `Accounts.Register`. An uncaught exception is modelled as status 500 with the framework's "Internal Server Error" text as its detail.
- Concurrency: requests are modelled one at a time. Two simultaneous registrations of one name could both pass the existence check. The model does not represent that race.
- `generate_llama_response`: an external network call, represented by the `generate` parameter.
- bcrypt hashing and verification: represented by the `hash` and `verify` parameters.
- python-jose signing and signature checking: represented by a `Signer`.
- Environment loading of the secret and algorithm, and the debug print of the secret: configuration I/O.
- The server-side `print` of a database error: logging.
- FastAPI routing, dependency injection and `response_model` filtering: framework plumbing. The chat and history handlers take the already authorised user id. `Tokens.GetCurrentUserId` models the gate on its own.
- The React `MessageBubble` component: display only.
- Tokens.Decode: only the expiry rule of the python-jose decoder is modelled: reject when `exp` < now, with zero leeway. This accepts a token at the instant `now == exp`. Section 4.1.4 of RFC 7519 would reject it on or after `exp`, so the two differ at that one instant. A non-numeric string `exp` is rejected (401). A `null` `exp` makes the library raise `TypeError`, which the gate does not catch; the model answers 500 for it in `Tokens.GetCurrentUserId`. The library's coercion of numeric strings and its other registered-claim checks (`nbf`, `iat`, `aud`, the type of `sub`) are not modelled.
- Tokens.GetCurrentUserId: returns the `id` claim as a JSON value. Turning a non-integer id into a database filter value is not modelled.
- ChatLog.RecentTurns: models `ORDER BY id DESC` as reversal of storage order. This matches the SQL only when the table is in ascending id order (`WellOrdered`). Every operation here preserves that invariant, and the lemmas about the window assume it.
- Transcript.GetHistory: the history query has no `ORDER BY`, so it is modelled as returning storage order.
- ChatLog.NextTurnId, Accounts.NextUserId: the exact id an auto-increment column assigns is not modelled. The model uses the last id plus one; only "larger than every stored id" is relied upon.
