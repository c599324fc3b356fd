/**
 * The records the agent exchanges: the conversation state a client sends back with
 * every turn, the request and response of a turn, and the search tool's request and
 * result. Java's nullable fields are `Option`s.
 */
module AgentDto {
  import opened Wrappers

  datatype ActionType = SEARCH | PENDING_RESERVATION

  /** What the client is expected to do next. The orchestrator builds one of the two
      shapes below. */
  datatype PendingAction = PendingAction(actionType: ActionType)

  /** The intents the classifier may name. */
  datatype AgentIntent = SearchIntent | ReserveIntent

  /** `PendingAction.searchOnly()`; also what the orchestrator's `search()` stands for. */
  function SearchOnly(): (p: PendingAction)
    ensures p.actionType == SEARCH
  {
    PendingAction(SEARCH)
  }

  /** What the orchestrator's `reservation()` stands for. */
  function Reservation(): (p: PendingAction)
    ensures p.actionType == PENDING_RESERVATION
  {
    PendingAction(PENDING_RESERVATION)
  }

  /** The state carried between turns. */
  datatype ConversationContext = ConversationContext(
    lastIntent: Option<AgentIntent>,
    lastRestaurantIds: Option<seq<int>>,
    pendingAction: Option<PendingAction>)

  /** `ConversationContext.empty()`: all three fields null. */
  function EmptyContext(): (c: ConversationContext)
    ensures c.lastIntent.None? && c.lastRestaurantIds.None? && c.pendingAction.None?
  {
    ConversationContext(None, None, None)
  }

  datatype AgentChatRequest = AgentChatRequest(
    message: Option<string>,
    context: Option<ConversationContext>)

  /** `AgentChatRequest.contextOrEmpty()`: the request's context, or the empty one
      when it is null. */
  function ContextOrEmpty(request: AgentChatRequest): (c: ConversationContext)
    ensures request.context.Some? ==> c == request.context.value
    ensures request.context.None? ==> c == EmptyContext()
  {
    match request.context
    case Some(context) => context
    case None => EmptyContext()
  }

  datatype AgentChatResponse = AgentChatResponse(
    reply: string,
    pendingAction: Option<PendingAction>,
    context: Option<ConversationContext>)

  /** The parameters the extraction model fills in; unset ones stay null. */
  datatype SearchToolRequest = SearchToolRequest(
    name: Option<string>,
    rating: Option<int>,
    distance: Option<int>,
    price: Option<int>,
    cuisine: Option<string>,
    limit: Option<int>)

  /** The text summary of a search and the ids of the restaurants it lists. */
  datatype SearchToolResult = SearchToolResult(summary: string, restaurantIds: seq<int>)
}
