# chat-ai-api: the request handlers, modelled in Dafny

The service is a small HTTP back end for an AI chat application. It has three
POST endpoints, all in `src/server.ts`:

- `/register-user` takes `name` and `email`. It derives a user id from the
  email. It then makes sure the user exists in the chat provider's user
  directory and in the `users` table, creating whichever record is missing.
- `/chat` takes `message` and `userId`. It checks that the user exists in both
  stores. It then asks the language model (`gemini-2.0-flash`) for a reply and
  stores `(userId, message, reply)` in the `chats` table. Finally it creates the
  user's channel `chat-<userId>` and posts the reply there as `ai_bot`.
- `/get-messages` takes `userId` and returns that user's rows of the `chats`
  table.

The model keeps the state of the external systems as the fields of a class
`Server.Server`:

- the directory, a map from id to user record;
- the `users` table and the `chats` table, as sequences in storage order;
- the channels, a map from channel id to channel;
- a trace of every remote call issued, in order.

Each handler is a method. Each remote call may throw. The parameter `failAt`
gives the position, among the calls the request makes, of the first call that
throws. A call that throws changes nothing. The model's text output is a
parameter too (`inference`, the `text` of the response, possibly absent).

Modules:

- `Request` holds `Option` and JavaScript truthiness of a body field.
- `Sequences` holds prefixes and order-preserving subsequences.
- `Identity` holds JavaScript `split`/`join` and the user id derivation.
- `ChatLog` holds the `chats` table and the per-user query.
- `Channels` holds channel creation, posting, and the relation between what
  channels show and what was logged.
- `Server` holds the handlers, their call plans, and the store invariant.

Two behaviours of the code that are easy to misread:

- **User id.** `email.split('@')[1]` is the piece between the first and the
  second '@', not everything after the '@'. An email without any '@' leaves
  `firstSplit[1]` undefined, so calling `.split` on it throws. The handler then
  answers 500, before any remote call.
- **Errors in `/chat` and `/get-messages`.** Both handlers catch every error and
  only log it, so the client gets no response (`NoResponse`).

## Model

| member | source | states |
|---|---|---|
| Identity.Split | src/server.ts:30 | `split` on one character gives one more piece than there are separators, and no piece contains the separator |
| Identity.JoinSplit | src/server.ts:31 | joining the pieces of `s.split(c)` with `c` gives back `s` |
| Identity.SplitJoin | src/server.ts:31 | splitting pieces joined with `c` (none containing `c`, at least one) gives back the pieces |
| Identity.JoinSplitRemove | src/server.ts:31 | `s.split('.').join('')` is `s` with every dot deleted |
| Identity.Normalize | src/server.ts:30-31 | an id is derived exactly when the email contains '@', and the id never contains '@' |
| Identity.NormalizeSpec | src/server.ts:30-31 | the id is the text before the first '@' followed by `split('@')[1]` without its dots; with no '@' the derivation fails |
| Identity.NormalizeAddress | src/server.ts:30-31 | for `local@domain` with a single '@', the id is `local` followed by `domain` without dots |
| Identity.DomainDotsIgnored | src/server.ts:31 | two addresses with the same local part whose domains differ only in dots get the same id |
| Identity.NormalizeCollides | src/server.ts:30-31 | the distinct addresses `ab@c.d` and `a@bc.d` both get the id `abcd`, so the derivation is not injective |
| Identity.NormalizeIgnoresDomainDot | src/server.ts:31 | `a@b.c` and `a@bc` both get the id `abc` |
| Identity.NormalizeShiftCollides | src/server.ts:30-31 | moving a dot-free piece from the end of the local part to the front of the domain never changes the id |
| ChatLog.History | src/server.ts:105-108 | the rows selected for a user all carry that user's id and are no more than the table (HistoryMembers, HistoryCount and HistoryInOrder fix which rows, how often, and in what order) |
| ChatLog.HistoryCount | src/server.ts:105-108 | the selection holds each row of the user as many times as the table does, and no row of another user |
| ChatLog.HistoryAppend | src/server.ts:85 | storing a row extends only that user's history, by that row |
| ChatLog.HistoryMembers | src/server.ts:105-108 | a row is selected for a user if and only if it is stored and belongs to that user |
| ChatLog.HistoryInOrder | src/server.ts:105-108 | the selected rows keep their storage order |
| Channels.Owner | src/server.ts:90 | a channel id `chat-` + u names the user u back |
| Channels.OwnerOfChannelId | src/server.ts:90 | every user's channel id is a chat channel id whose owner is that user |
| Channels.ChannelIdInjective | src/server.ts:90 | distinct users get distinct channels |
| Channels.Create | src/server.ts:86-91 | creation adds a `messaging` channel named `AI Chat`, created by `ai_bot` and empty, when absent; an existing channel and every other channel are left unchanged |
| Channels.Send | src/server.ts:92 | posting appends one message `(text, ai_bot)` to that channel and changes no other channel |
| Channels.DeliveredWasLogged | src/server.ts:85-92 | in consistent stores every channel message is the reply of a stored row of the channel's owner |
| Channels.PersistKeepsDelivered | src/server.ts:85 | storing a row keeps every channel a subsequence of its owner's logged replies |
| Channels.CreateKeepsDelivered | src/server.ts:90-91 | creating a user's channel keeps that relation |
| Channels.SendKeepsDelivered | src/server.ts:85-92 | posting the reply of the row just stored keeps that relation |
| Server.ReplyFor | src/server.ts:79-84 | the reply stored and sent is never empty |
| Server.FallbackSubstitution | src/server.ts:79-84 | a non-empty model text is relayed unchanged; the reply is `No response from AI` exactly when the text is absent or empty, or is that sentinel itself |
| Server.ChatCallsMade | src/server.ts:59-78 | a conversation makes 1 to 6 calls, and more than the two existence checks only for a user of both stores |
| Server.ChatPlanOrder | src/server.ts:63-92 | in every prefix of the `/chat` calls the log write precedes channel creation and delivery, and a prefix that stops at an existence check holds only queries |
| Server.RegisterKeepsConsistent | src/server.ts:39-48 | upserting a missing directory user and inserting a missing row, in any combination, keeps the stores consistent: one row per user, directory entries under their id, logged rows belong to known users, channels show only logged replies |
| Server.ChatKeepsConsistent | src/server.ts:85-92 | for a user of both stores, the stores stay consistent after the log write, after channel creation and after delivery |
| Server.Server.Register | src/server.ts:24-53 | a missing name or email gives 400 with no call. An email without '@' gives 500 with no call. Otherwise the calls made are a prefix of query, upsert if absent, select, insert if absent; the answer is 500 if one throws, else 200 with `{userId, name, email}`. The stores then hold exactly the writes that completed. Registering a user already in both stores writes nothing. Success means the user is in both stores. Existing records are never updated and no write is rolled back. Consistency is preserved |
| Server.Server.Provision | src/server.ts:32-50 | for a derived id: the exact calls, answer, directory and `users` table after the two checks and conditional writes; success means the user is in both stores |
| Server.Server.EnsureInDirectory | src/server.ts:32-41 | the directory query, then the upsert of `{id, name, email, role: 'user'}` only when the id is absent; the entry is added exactly when the upsert completes, and the step succeeds exactly when none of its calls throws |
| Server.Server.EnsureInTable | src/server.ts:43-48 | the `users` select, then the insert of `{userId, name, email}` only when no row has the id; the row is appended exactly when the insert completes, and on success the table has a row for the id |
| Server.Server.Chat | src/server.ts:57-97 | a missing field gives 400 with no call. An unknown user gets 404 after at most the two queries, with no inference, no log row and no channel change. Otherwise the calls follow the plan up to the first throw, which leaves no response. The row is stored before the channel is created and posted to. Success answers the stored reply. Channels change only together with one new log row. Consistency is preserved |
| Server.Server.Answer | src/server.ts:62-96 | for a non-empty message and user id (what the 400 check lets through): the calls follow the plan and stop at a failed existence check (404) or the first throw (no response); the log and channels change exactly as far as the conversation got; consistency is preserved |
| Server.Server.Converse | src/server.ts:74-96 | inference, log write, channel creation and delivery, each effective only if every earlier call succeeded; the answer is 200 with the reply only when all four succeed |
| Server.Server.Record | src/server.ts:85-93 | the row is stored first, then the channel is created, then the reply is posted, each only if the earlier calls succeeded; for a user of both stores consistency is preserved |
| Server.Server.Publish | src/server.ts:90-92 | the user's channel is created, and then the reply is posted by the bot; each takes effect only if its call and the calls before it succeed |
| Server.Server.CreateChannelIfAbsent | src/server.ts:90-91 | the channels become `Create` of the old channels |
| Server.Server.PostToChannel | src/server.ts:92 | the channels become `Send` of the old channels |
| Server.Server.GetMessages | src/server.ts:99-115 | the `chats` select is issued, with the key `{}` when `userId` is missing or empty; the 400 branch is never taken. A failing select gives no response. Otherwise the answer is 200 with the user's history: each of the user's stored rows as many times as it is stored, no other row, in storage order. The key `{}` gets an empty list |
| Server.RegisterTwice | src/server.ts:24-53 | registration is idempotent: after a successful registration, the same request again writes nothing and gives the same answer unless one of its two queries throws |
| Server.ChatTwice | src/server.ts:62-96 | two requests of a user of both stores, with a non-empty user id and messages and no call throwing, give two answers, two log rows in order, and one channel whose last two messages are the two replies; the first answer is 200 exactly for a user of both stores |

## Left out

- The second `res.status(200).json({message: 'Win !'})` after the `try` block of `/register-user` (line 54) is not modelled. Express refuses a second response on a finished request, and the model records only the first response.
- Express, `cors`, `dotenv`, body parsing and the listening port (lines 1-22, 117-121) are framework set-up with no logic of the service's own.
- `src/config/database.js` and `src/db/schema.js` are not part of this model. The two tables are modelled as sequences of rows in storage order. `select ... where userId = ?` has no ORDER BY, so storage order is the model's choice.
- The internals of the chat provider SDK and of the model SDK are not modelled. `queryUsers` is exact membership in the directory. `channel.create()` is get-or-create, so an existing channel is kept as it is. The model's answer is a parameter.
- A remote call that throws is modelled as having no effect. A partial effect inside the SDK is not modelled.
- Concurrency is not modelled: requests run one after another. Two concurrent registrations of one user both finding them missing are outside the model.
- Body fields are modelled as absent or as strings. Numbers, objects and other JSON values are not modelled. For `/get-messages`, a request without any body, where `req.body.userId` would itself throw, is not modelled.
- The object `{}` used as the key when `userId` is missing is modelled as matching no stored row.
- Console logging and the error text of the 400, 404 and 500 bodies are not modelled.
- Server.Server.Record: its consistency postcondition holds only for a user of both stores, since the step is reached only after both existence checks.
