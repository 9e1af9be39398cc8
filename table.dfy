/**
 * The chat database: the `messages` table kept in primary-key order, the
 * user-to-conversation relation, and the `users` table, with the queries
 * the endpoints run against them.
 */
module Table {
  import opened Wrappers
  import opened Messages

  /** A row of the `users` table. */
  datatype User = User(id: int, username: string, hashedPassword: string, createdAt: int)

  /** Rows in strictly increasing id order: the primary key is unique and rows
      sit in the order the database hands out ids. */
  predicate IdsIncreasing(s: seq<Message>)
  {
    forall i, j :: 0 <= i < j < |s| ==> s[i].id < s[j].id
  }

  /** Rows in id order never share an id. */
  lemma IdsAreUnique(s: seq<Message>, i: int, j: int)
    requires IdsIncreasing(s)
    requires 0 <= i < |s| && 0 <= j < |s| && i != j
    ensures s[i].id != s[j].id
  {
    if j < i {
      assert s[j].id < s[i].id;
    }
  }

  /** The id the database gives the next inserted row: one more than the
      largest id in the table, 1 for an empty table. */
  function NextId(s: seq<Message>): (id: int)
    requires IdsIncreasing(s)
    ensures forall m :: m in s ==> m.id < id
  {
    if s == [] then 1 else s[|s| - 1].id + 1
  }

  /** The index of the row whose primary key is `id` (`filter(Message.id == id).first()`). */
  function IndexOfId(s: seq<Message>, id: int): (r: Option<nat>)
    ensures r.Some? ==> r.value < |s| && s[r.value].id == id
    ensures r.None? <==> forall k :: 0 <= k < |s| ==> s[k].id != id
  {
    if s == [] then None
    else if s[0].id == id then Some(0)
    else match IndexOfId(s[1..], id)
      case None => None
      case Some(k) => Some(k + 1)
  }

  /** The filter clauses the endpoints put on `db.query(Message)`. */
  datatype Criterion =
    | InConversation(conversationId: int)
    | LiveInConversation(conversationId: int)
    | OutsideConversation(conversationId: int)
    | InConversationUpTo(conversationId: int, maxId: int)

  predicate Matches(f: Criterion, m: Message)
  {
    match f
    case InConversation(c) => m.conversationId == c
    case LiveInConversation(c) => m.conversationId == c && !m.isDeleted
    case OutsideConversation(c) => m.conversationId != c
    case InConversationUpTo(c, maxId) => m.conversationId == c && m.id <= maxId
  }

  /** The rows a filtered query selects, in table (primary-key) order. */
  function Where(s: seq<Message>, f: Criterion): (r: seq<Message>)
    ensures |r| <= |s|
  {
    if s == [] then []
    else if Matches(f, s[0]) then [s[0]] + Where(s[1..], f)
    else Where(s[1..], f)
  }

  /** A query selects exactly the rows that meet its criterion. */
  lemma {:induction false} WhereMembers(s: seq<Message>, f: Criterion)
    ensures forall m :: m in Where(s, f) <==> m in s && Matches(f, m)
  {
    if s != [] {
      WhereMembers(s[1..], f);
      assert s == [s[0]] + s[1..];
    }
  }

  /** A query selects a subsequence: at most as many rows, kept in id order. */
  lemma {:induction false} WhereKeepsIdOrder(s: seq<Message>, f: Criterion)
    requires IdsIncreasing(s)
    ensures |Where(s, f)| <= |s|
    ensures IdsIncreasing(Where(s, f))
  {
    if s != [] {
      WhereKeepsIdOrder(s[1..], f);
      WhereMembers(s[1..], f);
      if Matches(f, s[0]) {
        var r := Where(s, f);
        var rest := Where(s[1..], f);
        forall i, j | 0 <= i < j < |r|
          ensures r[i].id < r[j].id
        {
          if i == 0 {
            assert r[j] == rest[j - 1];
            assert rest[j - 1] in rest;
            assert r[j] in s[1..];
          } else {
            assert r[i] == rest[i - 1] && r[j] == rest[j - 1];
          }
        }
      }
    }
  }

  /** A query whose criterion no row meets selects nothing. */
  lemma {:induction false} WhereNone(s: seq<Message>, f: Criterion)
    requires forall m :: m in s ==> !Matches(f, m)
    ensures Where(s, f) == []
  {
    if s != [] {
      WhereNone(s[1..], f);
    }
  }

  lemma {:induction false} WhereAppend(s: seq<Message>, t: seq<Message>, f: Criterion)
    ensures Where(s + t, f) == Where(s, f) + Where(t, f)
  {
    if s == [] {
      assert s + t == t;
    } else {
      assert (s + t)[1..] == s[1..] + t;
      WhereAppend(s[1..], t, f);
    }
  }

  /** The id after appending a row that took the next id. */
  lemma NextIdAfterAppend(s: seq<Message>, m: Message)
    requires IdsIncreasing(s + [m])
    ensures NextId(s + [m]) == m.id + 1
  {
  }

  /** Rows in non-decreasing created_at order. */
  predicate CreatedOrdered(s: seq<Message>)
  {
    forall i, j :: 0 <= i < j < |s| ==> s[i].createdAt <= s[j].createdAt
  }

  /** Places `m` in front of the first row that is not older than it. */
  function InsertByCreatedAt(m: Message, s: seq<Message>): (r: seq<Message>)
    ensures |r| == |s| + 1
  {
    if s == [] || m.createdAt <= s[0].createdAt then [m] + s
    else [s[0]] + InsertByCreatedAt(m, s[1..])
  }

  /** Inserting adds exactly `m` to the rows. */
  lemma {:induction false} InsertAddsRow(m: Message, s: seq<Message>)
    ensures multiset(InsertByCreatedAt(m, s)) == multiset(s) + multiset{m}
  {
    if !(s == [] || m.createdAt <= s[0].createdAt) {
      InsertAddsRow(m, s[1..]);
      assert s == [s[0]] + s[1..];
    }
  }

  /** Inserting into rows ordered by created_at keeps them ordered. */
  lemma {:induction false} InsertKeepsCreatedOrder(m: Message, s: seq<Message>)
    requires CreatedOrdered(s)
    ensures CreatedOrdered(InsertByCreatedAt(m, s))
  {
    if !(s == [] || m.createdAt <= s[0].createdAt) {
      var rest := InsertByCreatedAt(m, s[1..]);
      InsertKeepsCreatedOrder(m, s[1..]);
      InsertAddsRow(m, s[1..]);
      BoundCarriesOver(rest, s[1..], m, s[0].createdAt);
    }
  }

  /** A lower bound on the creation times of `t` and of `m` bounds every row of
      a permutation of `t` plus `m`. */
  lemma BoundCarriesOver(r: seq<Message>, t: seq<Message>, m: Message, b: int)
    requires multiset(r) == multiset(t) + multiset{m}
    requires forall x :: x in t ==> b <= x.createdAt
    requires b <= m.createdAt
    ensures forall j :: 0 <= j < |r| ==> b <= r[j].createdAt
  {
    forall j | 0 <= j < |r|
      ensures b <= r[j].createdAt
    {
      assert r[j] in multiset(r);
    }
  }

  /** An order `order_by(Message.created_at)` may return `rows` in: each
      selected row exactly as often as selected, oldest first. Rows with equal
      created_at may come in any order. */
  predicate CreatedOrderOf(history: seq<Message>, rows: seq<Message>)
  {
    CreatedOrdered(history) && multiset(history) == multiset(rows)
  }

  /** One such order: a stable insertion sort, which keeps rows with equal
      created_at in table order. */
  function OrderByCreatedAt(s: seq<Message>): (r: seq<Message>)
    ensures |r| == |s|
  {
    if s == [] then [] else InsertByCreatedAt(s[0], OrderByCreatedAt(s[1..]))
  }

  /** Ordering returns the selected rows ordered by created_at, each as often
      as it was selected. */
  lemma {:induction false} OrderByCreatedAtSorts(s: seq<Message>)
    ensures CreatedOrdered(OrderByCreatedAt(s))
    ensures multiset(OrderByCreatedAt(s)) == multiset(s)
    ensures CreatedOrderOf(OrderByCreatedAt(s), s)
  {
    if s != [] {
      OrderByCreatedAtSorts(s[1..]);
      InsertKeepsCreatedOrder(s[0], OrderByCreatedAt(s[1..]));
      InsertAddsRow(s[0], OrderByCreatedAt(s[1..]));
      assert s == [s[0]] + s[1..];
    }
  }

  /** The rows of conversation `c` after a bulk delete of another conversation's
      rows followed by one insert into `c`, when no older row referred to `c`. */
  lemma FreshConversationRows(kept: seq<Message>, seed: Message)
    requires forall m :: m in kept ==> m.conversationId != seed.conversationId
    ensures Where(kept + [seed], InConversation(seed.conversationId)) == [seed]
  {
    var c := seed.conversationId;
    WhereAppend(kept, [seed], InConversation(c));
    WhereNone(kept, InConversation(c));
    assert [seed][1..] == [];
  }

  /** The per-row facts no update touches: id, conversation, author and
      creation time. */
  ghost predicate KeysAndCreationUnchanged(before: seq<Message>, after: seq<Message>)
  {
    && |after| == |before|
    && forall k :: 0 <= k < |before| ==>
         && after[k].id == before[k].id
         && after[k].conversationId == before[k].conversationId
         && after[k].isUserMessage == before[k].isUserMessage
         && after[k].createdAt == before[k].createdAt
  }

  /** An update that keeps every row's key and conversation keeps the table in
      id order and every row in a known conversation. */
  lemma KeysKeepRowsValid(before: seq<Message>, after: seq<Message>, bound: int,
                          conversationOf: map<int, int>)
    requires KeysAndCreationUnchanged(before, after)
    requires IdsIncreasing(before)
    requires forall k :: 0 <= k < |before| ==> before[k].conversationId < bound
    requires forall k :: 0 <= k < |before| ==> HeldConversation(conversationOf, before[k].conversationId)
    ensures IdsIncreasing(after)
    ensures forall k :: 0 <= k < |after| ==> after[k].conversationId < bound
    ensures forall k :: 0 <= k < |after| ==> HeldConversation(conversationOf, after[k].conversationId)
  {
  }

  predicate UniqueUsernames(users: seq<User>)
  {
    forall i, j :: 0 <= i < j < |users| ==> users[i].username != users[j].username
  }

  predicate UserIdsIncreasing(users: seq<User>)
  {
    forall i, j :: 0 <= i < j < |users| ==> users[i].id < users[j].id
  }

  /** The id the database gives the next user row. */
  function NextUserId(users: seq<User>): (id: int)
    requires UserIdsIncreasing(users)
    ensures forall u :: u in users ==> u.id < id
  {
    if users == [] then 1 else users[|users| - 1].id + 1
  }

  /** Some user holds conversation `c`: it is in the range of the
      user-to-conversation relation. */
  predicate HeldConversation(conversationOf: map<int, int>, c: int)
  {
    exists u :: u in conversationOf && conversationOf[u] == c
  }

  /** The user owns message `m` when `m` is in the user's conversation. */
  predicate Owns(conversationOf: map<int, int>, userId: int, m: Message)
  {
    userId in conversationOf && conversationOf[userId] == m.conversationId
  }

  /** The database behind one request. Every field is a table the endpoints
      read and change; committing is not modelled separately. */
  class Database {
    var messages: seq<Message>
    var conversationOf: map<int, int>
    var nextConversationId: int
    var users: seq<User>

    ghost predicate Valid()
      reads this
    {
      && IdsIncreasing(messages)
      && (forall k :: 0 <= k < |messages| ==> messages[k].conversationId < nextConversationId)
      && (forall k :: 0 <= k < |messages| ==> HeldConversation(conversationOf, messages[k].conversationId))
      && (forall u :: u in conversationOf ==> conversationOf[u] < nextConversationId)
      && (forall u, v :: u in conversationOf && v in conversationOf && u != v ==>
            conversationOf[u] != conversationOf[v])
      && UserIdsIncreasing(users)
      && UniqueUsernames(users)
    }

    constructor ()
      ensures Valid()
      ensures messages == [] && conversationOf == map[] && users == []
    {
      messages := [];
      conversationOf := map[];
      nextConversationId := 1;
      users := [];
    }

    /** The user's conversation, created and committed when there is none. */
    method GetOrCreateConversation(userId: int) returns (c: int)
      requires Valid()
      modifies this
      ensures Valid()
      ensures userId in old(conversationOf) ==>
                c == old(conversationOf[userId]) && conversationOf == old(conversationOf)
                && nextConversationId == old(nextConversationId)
      ensures userId !in old(conversationOf) ==>
                c == old(nextConversationId) && conversationOf == old(conversationOf)[userId := c]
                && nextConversationId == c + 1
                && forall m :: m in messages ==> m.conversationId != c
      ensures userId in conversationOf && conversationOf[userId] == c
      ensures messages == old(messages) && users == old(users)
    {
      if userId in conversationOf {
        c := conversationOf[userId];
      } else {
        var before := conversationOf;
        c := nextConversationId;
        conversationOf := conversationOf[userId := c];
        nextConversationId := c + 1;
        forall k | 0 <= k < |messages|
          ensures HeldConversation(conversationOf, messages[k].conversationId)
        {
          assert HeldConversation(before, messages[k].conversationId);
          var u :| u in before && before[u] == messages[k].conversationId;
          assert conversationOf[u] == before[u];
        }
      }
    }

    /** `db.add(Message(...))` and commit at clock `now`: the row takes the next
        id, created_at and updated_at default to now, is_deleted to false. */
    method AddMessage(conversationId: int, content: string, isUserMessage: bool, now: int)
      returns (m: Message)
      requires Valid()
      requires HeldConversation(conversationOf, conversationId)
      modifies this`messages
      ensures Valid()
      ensures m == Message(NextId(old(messages)), conversationId, content, isUserMessage, now, now, false)
      ensures !m.isDeleted && m.createdAt == now && m.updatedAt == now
      ensures messages == old(messages) + [m]
    {
      var owner :| owner in conversationOf && conversationOf[owner] == conversationId;
      m := Message(NextId(messages), conversationId, content, isUserMessage, now, now, false);
      messages := messages + [m];
    }
  }
}
