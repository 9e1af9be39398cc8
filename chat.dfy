/**
 * The chat router: sending a message, listing, seeding, editing, soft
 * deleting and resetting a user's conversation. The hosted model behind
 * `openai.chat.completions.create` is the parameter `llm`: it maps the turns
 * sent to it to a completion or to the exception it raised.
 */
module ChatApi {
  import opened Wrappers
  import opened Http
  import opened Messages
  import opened Table

  /** One entry of the `messages` list of a completion request. */
  datatype Turn = Turn(role: Role, content: string)

  /** What a completion request gives back: the first choice's text, or the
      text of the exception it raised. */
  datatype Completion = Completed(text: string) | Failed(detail: string)

  const SystemPrompt: string := "You are a helpful assistant named Ava."
  const GreetingPrompt: string :=
    "You are a helpful assistant named Ava. Greet the user and ask how you can help them today."

  /** The single turn sent to generate a greeting. */
  const GreetingRequest: seq<Turn> := [Turn(SystemRole, GreetingPrompt)]

  const EditDetail: string := "Can only edit user messages"
  const DeleteDetail: string := "Can only delete user messages"

  /** The turns sent for a history: the system prompt, then one turn per
      stored message in the given order. */
  function Context(history: seq<Message>): (t: seq<Turn>)
    ensures |t| == 1 + |history|
    ensures t[0] == Turn(SystemRole, SystemPrompt)
  {
    if history == [] then [Turn(SystemRole, SystemPrompt)]
    else
      var last := history[|history| - 1];
      Context(history[..|history| - 1]) + [Turn(RoleOf(last), last.content)]
  }

  lemma {:induction false} ContextAt(history: seq<Message>)
    ensures |Context(history)| == 1 + |history|
    ensures Context(history)[0] == Turn(SystemRole, SystemPrompt)
    ensures forall i :: 0 <= i < |history| ==>
              Context(history)[i + 1] == Turn(RoleOf(history[i]), history[i].content)
  {
    if history != [] {
      ContextAt(history[..|history| - 1]);
    }
  }

  /** The loop that fills `openai_messages`. */
  method BuildContext(history: seq<Message>) returns (turns: seq<Turn>)
    ensures turns == Context(history)
  {
    turns := [Turn(SystemRole, SystemPrompt)];
    for i := 0 to |history|
      invariant turns == Context(history[..i])
    {
      var role := if history[i].isUserMessage then UserRole else AssistantRole;
      turns := turns + [Turn(role, history[i].content)];
      assert history[..i + 1][..i] == history[..i];
    }
    assert history[..|history|] == history;
  }

  /** The two guards shared by edit and delete: the row must exist and lie in
      the caller's conversation (else 404), and must be a user message (else
      400 with `roleDetail`). On success, the index of the row. */
  function Target(messages: seq<Message>, conversationOf: map<int, int>, userId: int,
                  messageId: int, roleDetail: string): (r: Result<nat, HttpError>)
    requires IdsIncreasing(messages)
    ensures r.Success? ==>
              && r.value < |messages| && messages[r.value].id == messageId
              && Owns(conversationOf, userId, messages[r.value])
              && messages[r.value].isUserMessage
    ensures r == Failure(NotFound) <==>
              forall k :: 0 <= k < |messages| && messages[k].id == messageId ==>
                !Owns(conversationOf, userId, messages[k])
    ensures r == Failure(HttpError(400, roleDetail)) <==>
              exists k :: 0 <= k < |messages| && messages[k].id == messageId
                && Owns(conversationOf, userId, messages[k]) && !messages[k].isUserMessage
    ensures r.Success? || r == Failure(NotFound) || r == Failure(HttpError(400, roleDetail))
  {
    match IndexOfId(messages, messageId)
    case None => Failure(NotFound)
    case Some(i) =>
      if !Owns(conversationOf, userId, messages[i]) then Failure(NotFound)
      else if !messages[i].isUserMessage then Failure(HttpError(400, roleDetail))
      else Success(i)
  }

  /** Row `j` is an assistant message after row `i` in the same conversation:
      a reply `update_message` may regenerate. */
  predicate IsReplyTo(messages: seq<Message>, j: int, i: int)
    requires 0 <= i < |messages|
  {
    && 0 <= j < |messages|
    && messages[j].conversationId == messages[i].conversationId
    && messages[j].id > messages[i].id
    && !messages[j].isUserMessage
  }

  /** POST /chat: the user's message is stored and committed, then the whole
      conversation (tombstoned rows included) ordered by created_at goes to the
      model; on success the reply is stored and only the reply is returned. */
  method Chat(db: Database, user: User, content: string, sentAt: int, repliedAt: int,
              llm: seq<Turn> -> Completion)
    returns (r: Result<Message, HttpError>)
    requires db.Valid()
    modifies db
    ensures db.Valid()
    ensures user.id in old(db.conversationOf) ==>
              db.conversationOf == old(db.conversationOf)
              && db.nextConversationId == old(db.nextConversationId)
    ensures user.id !in old(db.conversationOf) ==>
              db.conversationOf == old(db.conversationOf)[user.id := old(db.nextConversationId)]
              && db.nextConversationId == old(db.nextConversationId) + 1
    ensures db.users == old(db.users)
    ensures user.id in db.conversationOf
    ensures ChatOutcome(old(db.messages), db.conversationOf[user.id], content, sentAt,
                        repliedAt, llm, r, db.messages)
  {
    var c := db.GetOrCreateConversation(user.id);
    assert HeldConversation(db.conversationOf, c) by {
      assert db.conversationOf[user.id] == c;
    }
    r := SendAndReply(db, c, content, sentAt, repliedAt, llm);
  }

  /** The table and result after a chat message in conversation `c`: the
      user's row `sent` is committed whatever the model does; the model sees
      every row of `c`, the new one included, in some order by created_at
      (rows created at the same instant may come in either order). */
  ghost predicate ChatOutcome(before: seq<Message>, c: int, content: string, sentAt: int,
                              repliedAt: int, llm: seq<Turn> -> Completion,
                              r: Result<Message, HttpError>, after: seq<Message>)
    requires IdsIncreasing(before)
  {
    var sent := Message(NextId(before), c, content, true, sentAt, sentAt, false);
    exists history :: CreatedOrderOf(history, Where(before + [sent], InConversation(c)))
                      && ChatSettled(before, sent, repliedAt, llm(Context(history)), r, after)
  }

  /** What follows the model's answer `answer` to a chat whose user row is
      `sent`: a failure is a 500 carrying the model's detail with only `sent`
      stored; a completion is stored as the assistant's row and returned. */
  ghost predicate ChatSettled(before: seq<Message>, sent: Message, repliedAt: int,
                              answer: Completion, r: Result<Message, HttpError>,
                              after: seq<Message>)
  {
    match answer
    case Failed(detail) =>
      r == Failure(HttpError(500, detail)) && after == before + [sent]
    case Completed(text) =>
      && r == Success(Message(sent.id + 1, sent.conversationId, text, false,
                              repliedAt, repliedAt, false))
      && after == before + [sent] + [r.value]
  }

  /** A chat stores the user's row and then the reply: two new rows on
      success, the user's one alone on failure, and the user's row has the
      smaller id. Only the reply is returned. */
  lemma ChatAppendsRows(before: seq<Message>, c: int, content: string, sentAt: int,
                        repliedAt: int, llm: seq<Turn> -> Completion,
                        r: Result<Message, HttpError>, after: seq<Message>)
    requires IdsIncreasing(before)
    requires ChatOutcome(before, c, content, sentAt, repliedAt, llm, r, after)
    ensures |after| == |before| + (if r.Success? then 2 else 1)
    ensures after[..|before|] == before
    ensures after[|before|] == Message(NextId(before), c, content, true, sentAt, sentAt, false)
    ensures r.Failure? ==> r.error.status == 500
    ensures r.Success? ==>
              && after[|before| + 1] == r.value
              && !r.value.isUserMessage && !r.value.isDeleted && r.value.conversationId == c
              && after[|before|].id < r.value.id
  {
    var sent := Message(NextId(before), c, content, true, sentAt, sentAt, false);
    var history :| CreatedOrderOf(history, Where(before + [sent], InConversation(c)))
                   && ChatSettled(before, sent, repliedAt, llm(Context(history)), r, after);
    if r.Success? {
      assert after == before + [sent] + [r.value];
    } else {
      assert after == before + [sent];
    }
  }

  /** The turns sent for any created_at order of the rows a query selected:
      the system prompt first, then one turn per row, so every selected row
      reaches the model under its author's role. */
  lemma OrderedContextCoversRows(history: seq<Message>, rows: seq<Message>)
    requires CreatedOrderOf(history, rows)
    ensures |Context(history)| == 1 + |rows|
    ensures Context(history)[0] == Turn(SystemRole, SystemPrompt)
    ensures forall m :: m in rows ==> Turn(RoleOf(m), m.content) in Context(history)
  {
    assert |history| == |rows| by {
      assert |multiset(history)| == |multiset(rows)|;
    }
    ContextAt(history);
    forall m | m in rows
      ensures Turn(RoleOf(m), m.content) in Context(history)
    {
      assert m in multiset(history);
      var k :| 0 <= k < |history| && history[k] == m;
      assert Context(history)[k + 1] == Turn(RoleOf(m), m.content);
    }
  }

  /** The context of a chat holds the message just sent, as a user turn,
      and every other row of the conversation, whichever created_at order
      the query returned. */
  lemma ChatContextHoldsConversation(before: seq<Message>, sent: Message, history: seq<Message>)
    requires sent.isUserMessage
    requires CreatedOrderOf(history, Where(before + [sent], InConversation(sent.conversationId)))
    ensures Turn(UserRole, sent.content) in Context(history)
    ensures forall m :: m in before && m.conversationId == sent.conversationId ==>
              Turn(RoleOf(m), m.content) in Context(history)
  {
    var rows := Where(before + [sent], InConversation(sent.conversationId));
    WhereMembers(before + [sent], InConversation(sent.conversationId));
    OrderedContextCoversRows(history, rows);
    assert sent in rows;
  }

  /** The part of POST /chat after the conversation is known. */
  method SendAndReply(db: Database, c: int, content: string, sentAt: int, repliedAt: int,
                      llm: seq<Turn> -> Completion)
    returns (r: Result<Message, HttpError>)
    requires db.Valid()
    requires HeldConversation(db.conversationOf, c)
    modifies db`messages
    ensures db.Valid()
    ensures ChatOutcome(old(db.messages), c, content, sentAt, repliedAt, llm, r, db.messages)
  {
    var before := db.messages;
    var sent := db.AddMessage(c, content, true, sentAt);
    var history := OrderByCreatedAt(Where(db.messages, InConversation(c)));
    OrderByCreatedAtSorts(Where(db.messages, InConversation(c)));
    var turns := BuildContext(history);
    match llm(turns)
    case Failed(detail) =>
      r := Failure(HttpError(500, detail));
    case Completed(text) =>
      NextIdAfterAppend(before, sent);
      var reply := db.AddMessage(c, text, false, repliedAt);
      r := Success(reply);
    assert ChatSettled(before, sent, repliedAt, llm(Context(history)), r, db.messages);
  }

  /** GET /messages: nothing when the user has no conversation; otherwise the
      conversation's rows that are not tombstoned, oldest first. The response
      body is `Serialise(r)`. */
  method GetMessages(db: Database, user: User) returns (r: seq<Message>)
    ensures user.id !in db.conversationOf ==> r == []
    ensures user.id in db.conversationOf ==>
              var c := db.conversationOf[user.id];
              && CreatedOrdered(r)
              && multiset(r) == multiset(Where(db.messages, LiveInConversation(c)))
              && forall m :: m in r <==> m in db.messages && m.conversationId == c && !m.isDeleted
  {
    if user.id !in db.conversationOf {
      return [];
    }
    var c := db.conversationOf[user.id];
    var rows := Where(db.messages, LiveInConversation(c));
    r := OrderByCreatedAt(rows);
    OrderByCreatedAtSorts(rows);
    WhereMembers(db.messages, LiveInConversation(c));
    assert forall m :: m in r <==> m in multiset(r);
  }

  /** GET /initial-message: a greeting generated from the fixed greeting prompt
      is appended to the user's conversation (created when missing). */
  method GetInitialMessage(db: Database, user: User, now: int, llm: seq<Turn> -> Completion)
    returns (r: Result<Message, HttpError>)
    requires db.Valid()
    modifies db
    ensures db.Valid()
    ensures user.id in old(db.conversationOf) ==>
              db.conversationOf == old(db.conversationOf)
              && db.nextConversationId == old(db.nextConversationId)
    ensures user.id !in old(db.conversationOf) ==>
              db.conversationOf == old(db.conversationOf)[user.id := old(db.nextConversationId)]
              && db.nextConversationId == old(db.nextConversationId) + 1
    ensures db.users == old(db.users)
    ensures user.id in db.conversationOf
    ensures
      match llm(GreetingRequest)
      case Failed(detail) =>
        r == Failure(HttpError(500, detail)) && db.messages == old(db.messages)
      case Completed(text) =>
        && r == Success(Message(NextId(old(db.messages)), db.conversationOf[user.id], text,
                                false, now, now, false))
        && db.messages == old(db.messages) + [r.value]
  {
    var c := db.GetOrCreateConversation(user.id);
    match llm(GreetingRequest)
    case Failed(detail) =>
      r := Failure(HttpError(500, detail));
    case Completed(text) =>
      assert db.conversationOf[user.id] == c;
      var greeting := db.AddMessage(c, text, false, now);
      r := Success(greeting);
  }

  /** The rows an edit returns: the edited message, then the regenerated
      reply when there is one. */
  function EditedRows(edited: Message, reply: Option<Message>): (rows: seq<Message>)
    ensures |rows| == if reply.Some? then 2 else 1
    ensures rows[0] == edited
    ensures reply.Some? ==> rows[1] == reply.value
  {
    if reply.Some? then [edited, reply.value] else [edited]
  }

  /** The state and result after the guards of an edit passed for row `i`:
      the row takes the new content and editedAt; when an assistant reply
      follows it in the conversation, one such reply (any: the query has no
      ordering) is regenerated from the conversation up to and including that
      reply, ordered by id. A failed regeneration raises 500 and the session
      closes without commit, so the table is as before the request. */
  ghost predicate EditOutcome(before: seq<Message>, i: nat, content: string, editedAt: int,
                              repliedAt: int, llm: seq<Turn> -> Completion,
                              r: Result<seq<Message>, HttpError>, after: seq<Message>)
    requires i < |before|
  {
    var edited := before[i].(content := content, updatedAt := editedAt);
    var afterEdit := before[i := edited];
    if forall j :: !IsReplyTo(afterEdit, j, i) then
      r == Success(EditedRows(edited, None)) && after == afterEdit
    else
      exists j :: IsReplyTo(afterEdit, j, i) &&
        var history := Where(afterEdit, InConversationUpTo(edited.conversationId, afterEdit[j].id));
        match llm(Context(history))
        case Failed(detail) =>
          r == Failure(HttpError(500, detail)) && after == before
        case Completed(text) =>
          var reply := afterEdit[j].(content := text, updatedAt := repliedAt);
          r == Success(EditedRows(edited, Some(reply))) && after == afterEdit[j := reply]
  }

  /** PUT /messages/{id}. */
  method UpdateMessage(db: Database, user: User, messageId: int, content: string,
                       editedAt: int, repliedAt: int, llm: seq<Turn> -> Completion)
    returns (r: Result<seq<Message>, HttpError>)
    requires db.Valid()
    modifies db
    ensures db.Valid()
    ensures db.conversationOf == old(db.conversationOf) && db.users == old(db.users)
    ensures db.nextConversationId == old(db.nextConversationId)
    ensures KeysAndCreationUnchanged(old(db.messages), db.messages)
    ensures
      var t := Target(old(db.messages), old(db.conversationOf), user.id, messageId, EditDetail);
      && (t.Failure? ==> r == Failure(t.error) && db.messages == old(db.messages))
      && (t.Success? ==>
            EditOutcome(old(db.messages), t.value, content, editedAt, repliedAt, llm, r, db.messages))
  {
    var t := Target(db.messages, db.conversationOf, user.id, messageId, EditDetail);
    if t.Failure? {
      return Failure(t.error);
    }
    r := EditAndRegenerate(db, t.value, content, editedAt, repliedAt, llm);
  }

  /** The part of PUT /messages/{id} after the guards passed for row `i`. */
  method EditAndRegenerate(db: Database, i: nat, content: string, editedAt: int, repliedAt: int,
                           llm: seq<Turn> -> Completion)
    returns (r: Result<seq<Message>, HttpError>)
    requires db.Valid()
    requires i < |db.messages|
    modifies db`messages
    ensures db.Valid()
    ensures KeysAndCreationUnchanged(old(db.messages), db.messages)
    ensures EditOutcome(old(db.messages), i, content, editedAt, repliedAt, llm, r, db.messages)
  {
    var before := db.messages;
    var edited := db.messages[i].(content := content, updatedAt := editedAt);
    db.messages := db.messages[i := edited];
    KeysKeepRowsValid(before, db.messages, db.nextConversationId, db.conversationOf);
    if forall j :: 0 <= j < |db.messages| ==> !IsReplyTo(db.messages, j, i) {
      return Success(EditedRows(edited, None));
    }
    var j :| 0 <= j < |db.messages| && IsReplyTo(db.messages, j, i);
    var history := Where(db.messages, InConversationUpTo(edited.conversationId, db.messages[j].id));
    var turns := BuildContext(history);
    match llm(turns)
    case Failed(detail) =>
      db.messages := before;
      r := Failure(HttpError(500, detail));
    case Completed(text) =>
      var afterEdit := db.messages;
      var reply := db.messages[j].(content := text, updatedAt := repliedAt);
      db.messages := db.messages[j := reply];
      KeysKeepRowsValid(before, db.messages, db.nextConversationId, db.conversationOf);
      r := Success(EditedRows(edited, Some(reply)));
  }

  /** A row after `is_deleted = True` is flushed at clock `now`: flagged, and
      updated_at refreshed by its on-update default unless the flag was
      already set (then no UPDATE is issued). Nothing else in the row moves. */
  function Tombstone(row: Message, now: int): (t: Message)
    ensures t.isDeleted
    ensures t.updatedAt == if row.isDeleted then row.updatedAt else now
    ensures t.(isDeleted := row.isDeleted, updatedAt := row.updatedAt) == row
  {
    if row.isDeleted then row else row.(isDeleted := true, updatedAt := now)
  }

  /** Deleting a deleted message changes nothing. */
  lemma TombstoneIdempotent(row: Message, first: int, second: int)
    ensures Tombstone(Tombstone(row, first), second) == Tombstone(row, first)
  {
  }

  /** DELETE /messages/{id}: the same guards, then the row's tombstone flag
      is set; the row stays. updated_at is refreshed by its on-update default
      whenever the flag actually changes. */
  method DeleteMessage(db: Database, user: User, messageId: int, now: int)
    returns (r: Result<string, HttpError>)
    requires db.Valid()
    modifies db
    ensures db.Valid()
    ensures db.conversationOf == old(db.conversationOf) && db.users == old(db.users)
    ensures db.nextConversationId == old(db.nextConversationId)
    ensures KeysAndCreationUnchanged(old(db.messages), db.messages)
    ensures
      var t := Target(old(db.messages), old(db.conversationOf), user.id, messageId, DeleteDetail);
      && (t.Failure? ==> r == Failure(t.error) && db.messages == old(db.messages))
      && (t.Success? ==>
            && r == Success("Message deleted")
            && db.messages == old(db.messages)[t.value := Tombstone(old(db.messages)[t.value], now)])
  {
    var t := Target(db.messages, db.conversationOf, user.id, messageId, DeleteDetail);
    if t.Failure? {
      return Failure(t.error);
    }
    var i := t.value;
    var before := db.messages;
    db.messages := db.messages[i := Tombstone(db.messages[i], now)];
    KeysKeepRowsValid(before, db.messages, db.nextConversationId, db.conversationOf);
    r := Success("Message deleted");
  }

  /** The rows left by reset's bulk delete: every row of the user's
      conversation goes, when there is one; tombstoned rows go too. */
  function RowsAfterReset(messages: seq<Message>, conversationOf: map<int, int>, userId: int)
    : (kept: seq<Message>)
    requires IdsIncreasing(messages)
    ensures IdsIncreasing(kept)
    ensures forall m :: m in kept <==> m in messages && !Owns(conversationOf, userId, m)
  {
    if userId in conversationOf then
      var f := OutsideConversation(conversationOf[userId]);
      WhereMembers(messages, f);
      WhereKeepsIdOrder(messages, f);
      Where(messages, f)
    else messages
  }

  /** POST /reset-conversation: the user's rows and conversation are deleted
      and a new conversation is created, both committed before a greeting is
      generated; on success the greeting is the new conversation's only row. */
  method ResetConversation(db: Database, user: User, now: int, llm: seq<Turn> -> Completion)
    returns (r: Result<Message, HttpError>)
    requires db.Valid()
    modifies db
    ensures db.Valid()
    ensures db.users == old(db.users)
    ensures db.conversationOf == old(db.conversationOf)[user.id := old(db.nextConversationId)]
    ensures db.nextConversationId == old(db.nextConversationId) + 1
    ensures
      var kept := RowsAfterReset(old(db.messages), old(db.conversationOf), user.id);
      match llm(GreetingRequest)
      case Failed(detail) =>
        r == Failure(HttpError(500, detail)) && db.messages == kept
      case Completed(text) =>
        && r == Success(Message(NextId(kept), old(db.nextConversationId), text, false, now, now, false))
        && db.messages == kept + [r.value]
    ensures Where(db.messages, InConversation(db.conversationOf[user.id])) ==
              if r.Success? then [r.value] else []
  {
    var kept := RowsAfterReset(db.messages, db.conversationOf, user.id);
    var held := db.conversationOf;
    var renewed := held[user.id := db.nextConversationId];
    forall k | 0 <= k < |kept|
      ensures kept[k].conversationId < db.nextConversationId
      ensures HeldConversation(renewed, kept[k].conversationId)
    {
      assert kept[k] in db.messages;
      var j :| 0 <= j < |db.messages| && db.messages[j] == kept[k];
      assert HeldConversation(held, db.messages[j].conversationId);
      var u :| u in held && held[u] == kept[k].conversationId;
      assert u != user.id;
      assert renewed[u] == held[u];
    }
    db.messages := kept;
    db.conversationOf := renewed;
    var c := db.nextConversationId;
    db.nextConversationId := c + 1;
    match llm(GreetingRequest)
    case Failed(detail) =>
      WhereNone(kept, InConversation(c));
      r := Failure(HttpError(500, detail));
    case Completed(text) =>
      assert db.conversationOf[user.id] == c;
      var greeting := db.AddMessage(c, text, false, now);
      FreshConversationRows(kept, greeting);
      r := Success(greeting);
  }
}
