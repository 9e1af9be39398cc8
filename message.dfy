/**
 * The `messages` table row and what the API returns of it.
 * Clock readings (`datetime.utcnow()`) are integers: whole seconds.
 */
module Messages {

  /** A row of the `messages` table. `isUserMessage` is the author flag:
      true for the end user, false for the assistant. */
  datatype Message = Message(
    id: int,
    conversationId: int,
    content: string,
    isUserMessage: bool,
    createdAt: int,
    updatedAt: int,
    isDeleted: bool)

  /** The fields of a message an endpoint sends back (`MessageResponse`). */
  datatype MessageResponse = MessageResponse(
    id: int,
    content: string,
    isUserMessage: bool,
    createdAt: int)

  /** Serialising a row through `MessageResponse` drops updated_at and is_deleted. */
  function ToResponse(m: Message): MessageResponse
  {
    MessageResponse(m.id, m.content, m.isUserMessage, m.createdAt)
  }

  /** A list of rows serialised through `List[MessageResponse]`, in order. */
  function Serialise(rows: seq<Message>): (r: seq<MessageResponse>)
    ensures |r| == |rows|
    ensures forall k :: 0 <= k < |rows| ==> r[k] == ToResponse(rows[k])
  {
    if rows == [] then [] else [ToResponse(rows[0])] + Serialise(rows[1..])
  }

  /** Author roles of a chat-completion turn. */
  datatype Role = SystemRole | UserRole | AssistantRole
  {
    /** The role string sent to the model. */
    function Name(): string
    {
      match this
      case SystemRole => "system"
      case UserRole => "user"
      case AssistantRole => "assistant"
    }
  }

  /** The role a stored message takes in a completion request. */
  function RoleOf(m: Message): (r: Role)
    ensures r != SystemRole
    ensures r == UserRole <==> m.isUserMessage
    ensures r.Name() == (if m.isUserMessage then "user" else "assistant")
  {
    if m.isUserMessage then UserRole else AssistantRole
  }
}
