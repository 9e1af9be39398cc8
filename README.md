# Chat backend and login front end, modelled in Dafny

This project models the rules behind a chat assistant ("Ava") with a web front end.

**Backend.** The FastAPI backend keeps three tables:
- users;
- one conversation per user;
- messages.

Each message row carries:
- an integer id;
- its conversation;
- its text;
- an author flag (`is_user_message`);
- `created_at` and `updated_at` times;
- an `is_deleted` tombstone.

The endpoints work on these tables:
- **Send a message.** The user's row is stored and committed. Then the whole conversation goes to the language model, tombstoned rows included (that query has no deleted filter), and the model's reply is stored.
- **List.** Returns the conversation's rows that are not deleted, oldest first.
- **Greeting.** Appends an assistant greeting to the user's conversation, which is created when missing.
- **Edit a user message.** Regenerates one assistant reply that follows the message.
- **Soft-delete a user message.**
- **Reset.** Clears the conversation and starts a new one with a greeting.
- Registration, password login and bearer tokens are in `backend/main.py`.

**Front end.** Two React components:
- a route guard that checks the stored token once on mount, then shows the page or redirects;
- a login form that checks its fields, posts the credentials, and stores the token it gets back.

**Modules.**
- `Messages`, `Table`: the message row, and the database as a class. It has a field per table, the queries the endpoints run, and the row-level invariants: ids in order, every row in a known conversation, one conversation per user, unique usernames.
- `ChatApi`: the endpoints of `backend/app/api/chat.py` as methods on the database. `backend/main.py` repeats the same six chat endpoints with the same table rules; they are modelled once, here. Its `update_message` returns a different body; see Findings.
- `MainApp`: user lookup, registration, login, token expiry and the current-user check of `backend/main.py`, plus the response validation behind its edit endpoint.
- `Browser`, `SessionGate`, `LoginForm`: localStorage, `src/ProtectedRoute.tsx` and `frontend/src/Login.tsx`.

**Inputs the model takes as parameters.** The model is given these instead of computing them:
- **Model calls.** The hosted model is a parameter `llm` that maps the turns sent to it to a completion text or a failure.
- **Clock.** Each clock reading is an integer parameter, in seconds.
- **Hashing.** bcrypt is the pair of parameters `hash` and `verify`.
- **Tokens.** A JWT is represented by what decoding it yields: the claims of a token the server signed, or nothing for any other string.
- **Fetch outcomes.** The outcome of each front-end request is an input event.

## Model

| member | source | states |
|---|---|---|
| Table.IdsAreUnique | backend/app/models/message.py:10 | rows kept in primary-key order never share an id |
| Table.NextId | backend/app/models/message.py:10 | the id an insert receives is larger than every id in the table |
| Table.IndexOfId | backend/app/api/chat.py:115 | the lookup by id finds a row with that id, and finds none exactly when no row has it |
| Table.Where | backend/app/api/chat.py:44 | a filtered query never selects more rows than the table holds |
| Table.WhereMembers | backend/app/api/chat.py:44 | a filtered query selects exactly the rows that meet its criterion |
| Table.WhereKeepsIdOrder | backend/app/api/chat.py:131-134 | a filtered query is no longer than the table and keeps rows in id order |
| Table.WhereNone | backend/app/api/chat.py:180 | a query that no row meets selects nothing |
| Table.WhereAppend | backend/app/api/chat.py:44 | filtering a table with a row appended is filtering the old rows, then the new row |
| Table.NextIdAfterAppend | backend/app/models/message.py:10 | after one insert the next id is one above the inserted row's id |
| Table.InsertAddsRow | backend/app/api/chat.py:44 | placing a row into an ordered list adds exactly that row |
| Table.InsertKeepsCreatedOrder | backend/app/api/chat.py:44 | placing a row keeps the list in created_at order |
| Table.OrderByCreatedAtSorts | backend/app/api/chat.py:44 | `order_by(created_at)` returns the selected rows in created_at order, each exactly as often as selected |
| Table.OrderByCreatedAt | backend/app/api/chat.py:44 | one order `order_by(created_at)` may return: as many rows as were selected |
| Table.FreshConversationRows | backend/app/api/chat.py:178-205 | after the bulk delete and one insert into a new conversation, that conversation holds exactly the inserted row |
| Table.KeysKeepRowsValid | backend/app/models/message.py:10-14 | an update that keeps ids and conversations keeps the id order, the conversation bound, and every row's conversation held by a user |
| Table.NextUserId | backend/app/models/user.py:9 | a new user's id is larger than every existing id |
| Table.Database.constructor | backend/app/models/message.py:7-16 | an empty database satisfies every table invariant |
| Table.Database.GetOrCreateConversation | backend/app/api/chat.py:32-37 | the user's existing conversation is reused; otherwise a new one is created and recorded; no message refers to a new one; no message changes |
| Table.Database.AddMessage | backend/app/api/chat.py:39-42 | an insert appends exactly one row with the next id, created_at = updated_at = now and is_deleted false, and keeps the invariants |
| Messages.Serialise | backend/main.py:177-182 | a row list goes out as MessageResponse one-for-one, in order, without updated_at and is_deleted |
| Messages.RoleOf | backend/app/api/chat.py:48 | the author flag alone decides the role: "user" when set, "assistant" otherwise, never "system" |
| ChatApi.Context | backend/app/api/chat.py:46-49 | the turns sent are one more than the messages, and the first is the system prompt |
| ChatApi.ContextAt | backend/app/api/chat.py:46-49 | the context is the system prompt followed by one turn per message with its role and content; its length is 1 + the number of messages |
| ChatApi.BuildContext | backend/app/api/chat.py:46-49 | the loop that fills `openai_messages` produces that context |
| ChatApi.Target | backend/app/api/chat.py:115-119 | 404 exactly when no row with the id lies in the caller's conversation; 400 exactly when it does but is an assistant message; otherwise the row's index |
| ChatApi.Chat | backend/app/api/chat.py:30-65 | conversation reused or created; the user's row is committed before the model call and stays on a 500; the model sees the conversation's rows in some created_at order; on success the reply follows the user's row and only the reply is returned; users and other rows unchanged |
| ChatApi.SendAndReply | backend/app/api/chat.py:39-65 | within a known conversation, the stored rows and the result are as Chat states |
| ChatApi.ChatAppendsRows | backend/app/api/chat.py:39-65 | a chat adds two rows on success (the user's one with the smaller id, then the returned assistant reply) and only the user's one on failure; older rows untouched |
| ChatApi.OrderedContextCoversRows | backend/app/api/chat.py:44-49 | whichever created_at order the query returns, every row it selected reaches the model under its author's role, after the system prompt |
| ChatApi.ChatContextHoldsConversation | backend/app/api/chat.py:39-49 | the context of a chat holds the message just sent and every earlier row of that conversation, tombstoned ones included |
| ChatApi.GetMessages | backend/app/api/chat.py:69-75 | [] without a conversation; otherwise exactly the conversation's rows that are not deleted, in created_at order |
| ChatApi.GetInitialMessage | backend/app/api/chat.py:79-104 | conversation reused or created; on success one assistant row is appended and returned; on failure a 500 and no row |
| ChatApi.EditedRows | backend/app/api/chat.py:158 | an edit returns the edited message, followed by the reply only when there is one |
| ChatApi.UpdateMessage | backend/app/api/chat.py:108-158 | guard failures return 404/400 and change nothing. Otherwise the message's content and updated_at change, and one assistant reply with a larger id in the same conversation, if any, is regenerated from the rows up to it. A failed regeneration rolls everything back. No other row, id or created_at changes |
| ChatApi.EditAndRegenerate | backend/app/api/chat.py:121-158 | the part of the edit after the guards, with the same outcome and frame |
| ChatApi.Tombstone | backend/app/api/chat.py:169 | a deleted row is flagged; updated_at is refreshed unless it was already flagged; nothing else in the row changes |
| ChatApi.TombstoneIdempotent | backend/app/api/chat.py:169 | deleting an already deleted message changes nothing |
| ChatApi.DeleteMessage | backend/app/api/chat.py:162-171 | same 404/400 guards; on success exactly that row is tombstoned, the row count stays, and no other row changes |
| ChatApi.RowsAfterReset | backend/app/api/chat.py:178-182 | the bulk delete keeps exactly the rows outside the user's conversation, in id order |
| ChatApi.ResetConversation | backend/app/api/chat.py:175-207 | the old conversation's rows go and a new conversation is recorded, both committed before the model call. On success the new conversation holds exactly the returned assistant greeting; on failure it is empty |
| MainApp.GetUser | backend/main.py:66-67 | finds a user with the username, and finds none exactly when there is none |
| MainApp.GetUserFindsEachUser | backend/app/models/user.py:10 | with unique usernames the lookup returns each user for its own name |
| MainApp.RegisterUser | backend/main.py:79-84 | a taken username gives 400 and adds nothing; otherwise exactly one user with that name and the hashed password is appended; usernames stay unique |
| MainApp.AuthenticateUser | backend/main.py:86-90 | a returned user has that username and a hash the password verifies against |
| MainApp.AuthenticateUserExactly | backend/main.py:86-90 | for a stored username, login yields that user exactly when the password verifies |
| MainApp.AuthenticateUnknownUser | backend/main.py:88-89 | an unknown username never authenticates |
| MainApp.ExpiresAt | backend/main.py:94 | exp is now + the given delta, or now + 15 minutes when none (or a zero one) is given |
| MainApp.CreateAccessToken | backend/main.py:92-96 | the token carries the subject and that expiry |
| MainApp.Decode | backend/main.py:111 | decoding yields claims exactly for a server-signed token whose exp the clock has not passed, and then its own claims |
| MainApp.DecodeCreated | backend/main.py:111 | a token the server created decodes to its claims until its expiry, and not after |
| MainApp.GetCurrentUser | backend/main.py:108-120 | 401 exactly when the token is missing, does not decode, has no "sub" or names no user; otherwise that user |
| MainApp.LoginForAccessToken | backend/main.py:100-106 | 401 exactly when authentication fails; otherwise a "bearer" token for the username with the 15-minute default expiry |
| MainApp.LoginTokenIdentifiesUser | backend/main.py:64 | a login token identifies the logged-in user for exactly 15 minutes, not the 30 of the unused constant |
| MainApp.VerifyToken | backend/main.py:124-126 | fails exactly as the current-user check fails; otherwise "Token is valid" and the username |
| MainApp.ValidateResponseList | backend/main.py:221 | a list body passes `List[MessageResponse]` exactly when no element is None; otherwise 500 |
| MainApp.UpdateBodyAsWritten | backend/main.py:282-295 | the edit body as written has two elements: the edited message, then the reply's response, or None exactly when there is no reply |
| MainApp.RepliedEditAsWrittenValidates | backend/main.py:282-295 | with a regenerated reply the body as written validates to the same serialised rows as the chat router's edit |
| MainApp.UpdateBody | backend/app/api/chat.py:158 | the intended edit body: the edited message, then the reply only when there is one; no None element |
| MainApp.UnrepliedEditAsWrittenFails | backend/main.py:282-295 | the edit body as written fails validation when there is no reply |
| MainApp.UpdateBodyValidates | backend/app/api/chat.py:158 | the intended edit body always validates, to the serialised rows the chat router returns |
| Browser.LocalStorage.constructor | src/ProtectedRoute.tsx:15 | storage starts with the given items |
| Browser.LocalStorage.GetItem | src/ProtectedRoute.tsx:15 | getItem yields the stored value, and null exactly for a missing key |
| Browser.LocalStorage.SetItem | frontend/src/Login.tsx:65 | setItem stores the value under the key and changes nothing else |
| Browser.LocalStorage.RemoveItem | src/ProtectedRoute.tsx:35 | removeItem drops exactly that key |
| SessionGate.Render | src/ProtectedRoute.tsx:43-58 | Loading exactly while pending; the children exactly when the state equals `isProtected`; otherwise a redirect to "/" (protected) or "/home" |
| SessionGate.SettledRenderRoutes | src/ProtectedRoute.tsx:48-58 | the full routing table once the check has settled |
| SessionGate.Settle | src/ProtectedRoute.tsx:14-38 | the guard authenticates exactly when a truthy token got an ok response |
| SessionGate.ProtectedRoute.constructor | src/ProtectedRoute.tsx:10 | the state starts pending |
| SessionGate.ProtectedRoute.VerifyToken | src/ProtectedRoute.tsx:13-41 | the pending state is settled once. With no token: false and no request. Otherwise a GET with `Authorization: Bearer <token>`; an ok keeps the token and sets true; anything else removes it and sets false |
| SessionGate.MountAndRender | src/ProtectedRoute.tsx:13-58 | after mount and the check the guard never shows Loading, and a kept session keeps its token |
| LoginForm.TrimStart | frontend/src/Login.tsx:37 | drops exactly the leading whitespace |
| LoginForm.TrimEnd | frontend/src/Login.tsx:37 | drops exactly the trailing whitespace |
| LoginForm.TrimEmptyIffBlank | frontend/src/Login.tsx:37 | a field trims to "" exactly when all its characters are whitespace |
| LoginForm.FailureMessage | frontend/src/Login.tsx:68-74 | the message shown is the server's detail, else 'Authentication failed', else an Error's message, else the generic text |
| LoginForm.MountRedirect | frontend/src/Login.tsx:29-34 | on mount, navigation to "/home" exactly when a truthy token is stored |
| LoginForm.Login.constructor | frontend/src/Login.tsx:22-25 | empty fields, no error, not loading |
| LoginForm.Login.SetUsername | frontend/src/Login.tsx:90 | the username field takes the input's value |
| LoginForm.Login.SetPassword | frontend/src/Login.tsx:100 | the password field takes the input's value |
| LoginForm.Login.ValidateForm | frontend/src/Login.tsx:36-43 | invalid exactly when a trimmed field is empty, with the required-fields message; otherwise the error is cleared |
| LoginForm.Login.HandleSubmit | frontend/src/Login.tsx:45-78 | An invalid form sends nothing and leaves loading alone. A valid form posts the credentials. On ok the token is stored and the form goes to "/home". Otherwise the failure message is shown and nothing is stored. Loading ends false |
| LoginForm.Login.Post | frontend/src/Login.tsx:54-74 | after the POST settles: an ok stores the token and goes to "/home" with no error; anything else shows its failure message, stores nothing and stays |
| LoginForm.RejectedIffBlankField | frontend/src/Login.tsx:36-47 | a submit is rejected exactly when a field is all whitespace |

## Left out

- The hosted model, bcrypt and JWT signing are foreign code. They are parameters (`llm`, `hash`, `verify`) or an abstract token.
- The HS256 signature and the secret key are not modelled. A token is either one this server signed, whose claims decoding returns, or anything else, which fails to decode.
- Conversation ids come from a counter, whereas SQLite hands out max rowid + 1 and can reuse the id of a conversation that reset just deleted. Reset deletes that conversation's messages with it, so no stored row can tell the two apart.
- Commit, refresh and session close are not steps of their own. A method's final state is the committed state. The failed edit's rollback restores the table.
- The clock is an integer parameter, in seconds; datetime precision is not modelled.
- `order_by(Message.created_at)` leaves the order of rows with equal created_at to the database. The contracts of the chat and of the message list admit any such order. The model's bodies compute one of them, a stable sort that keeps equal rows in id order. The edit orders by id, which is the table order.
- Concurrency is not modelled: overlapping requests, a registration race on the unique username, async interleaving in the browser.
- The root `main.py` OpenAI proxy, app wiring, configuration, styling and routing-only components are not part of this model. `backend/app/api/user.py` and `auth.py` repeat `backend/main.py` or call code that is not available.
- `src/Login.tsx` is the same logic as `frontend/src/Login.tsx` with another URL. It is covered by the same model.
- Form-encoding of the credentials and the JSON bodies are not modelled. A request records its URL, method and headers; a response is an outcome value.
- LoginForm.Login.HandleSubmit: the model does not require `loading` to be false on entry. The disabled submit button guarantees that in the page.
- A non-string `detail` (FastAPI's 422 list) is not modelled. A body's detail is a string or absent.

## Findings

| source | as written | input that shows it | evidently intended | confidence | as-written member | corrected member |
|---|---|---|---|---|---|---|
| backend/main.py:282-295 | the edit endpoint always returns two elements, the second `None` when no assistant reply exists, against `response_model=List[MessageResponse]` | edit a user message that has no later assistant reply: the edit is committed, then response validation fails and the client receives 500 | return only the edited message when there is no reply, as backend/app/api/chat.py:158 does | not executed | MainApp.UpdateBodyAsWritten (MainApp.UnrepliedEditAsWrittenFails) | MainApp.UpdateBody (MainApp.UpdateBodyValidates), used through ChatApi.EditedRows |
