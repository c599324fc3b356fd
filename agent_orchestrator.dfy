/**
 * `AgentOrchestrator.handle`: one turn of the assistant. A language model names the
 * user's intent; a search runs the search tool and remembers the ids it found; a
 * reservation request only moves the conversation to the pending-reservation step;
 * every failure gives an apology and hands the caller's context back unchanged.
 *
 * The two model calls are inputs: the classifier's outcome (its reply text, possibly
 * null, or the exception it threw) and the search tool's outcome (its result or the
 * exception it threw). The user's message only reaches those calls, so it does not
 * appear here. Java's `null` context is `None`.
 */
module AgentOrchestrator {
  import opened Wrappers
  import opened Strings
  import opened AgentDto
  import opened AgentResponseMapper

  /** The exceptions `handle` tells apart. */
  datatype Failure =
    | IllegalArgument
    | NonTransientAi(message: Option<string>)
    | OtherFailure

  /** What the intent classifier's model call produced. */
  datatype ClassifierOutcome =
    | Answered(text: Option<string>)
    | ClassifierThrew(failure: Failure)

  /** What `restaurantSearchTool.search(message)` produced. */
  datatype SearchOutcome =
    | Found(result: SearchToolResult)
    | SearchThrew(failure: Failure)

  const NotUnderstood: string := "Sorry, I could not understand your request. Please try again."
  const ReservationReply: string :=
    "Sure, I can help you book a reservation. " + "Let me find the best matching restaurant first."

  /** `classifyIntent` after the model call: a null text fails the non-null check,
      otherwise the text is trimmed and upper-cased and must then be exactly one of
      the two words. */
  function ClassifyIntent(outcome: ClassifierOutcome): Result<AgentIntent, Failure> {
    match outcome
    case ClassifierThrew(f) => Failure(f)
    case Answered(None) => Failure(OtherFailure)
    case Answered(Some(text)) =>
      var raw := ToUpper(JavaTrim(text));
      if raw == "SEARCH" then Success(SearchIntent)
      else if raw == "RESERVE" then Success(ReserveIntent)
      else Failure(IllegalArgument)
  }

  /** `handleSearchIntent`: the summary is the reply, the ids are remembered. */
  function HandleSearchIntent(search: SearchOutcome): Result<AgentChatResponse, Failure> {
    match search
    case SearchThrew(f) => Failure(f)
    case Found(result) =>
      var updated := ConversationContext(Some(SearchIntent), Some(result.restaurantIds), Some(SearchOnly()));
      Success(AgentChatResponse(result.summary, Some(SearchOnly()), Some(updated)))
  }

  /** `handleReservationIntent`: reading the ids of a null context throws. */
  function HandleReservationIntent(context: Option<ConversationContext>): Result<AgentChatResponse, Failure> {
    match context
    case None => Failure(OtherFailure)
    case Some(c) =>
      var updated := ConversationContext(Some(ReserveIntent), c.lastRestaurantIds, Some(Reservation()));
      Success(AgentChatResponse(ReservationReply, Some(Reservation()), Some(updated)))
  }

  /** The reply of each `catch` clause of `handle`. */
  function FailureReply(f: Failure, readTree: string -> Option<JsonRoot>): string {
    match f
    case IllegalArgument => NotUnderstood
    case NonTransientAi(message) => FormatAiExceptionMessage(message, readTree)
    case OtherFailure => DefaultError
  }

  /** `handle`. A response either carries a pending action that is also the new
      context's pending action, or carries none and returns the caller's context. */
  function Handle(classifier: ClassifierOutcome, search: SearchOutcome,
                  context: Option<ConversationContext>,
                  readTree: string -> Option<JsonRoot>): (r: AgentChatResponse)
    ensures r.pendingAction.None? ==> r.context == context
    ensures r.pendingAction.Some? ==>
      && r.context.Some? && r.context.value.pendingAction == r.pendingAction
      && r.context.value.lastIntent.Some?
  {
    var outcome :=
      match ClassifyIntent(classifier)
      case Failure(f) => Failure(f)
      case Success(SearchIntent) => HandleSearchIntent(search)
      case Success(ReserveIntent) => HandleReservationIntent(context);
    match outcome
    case Success(response) => response
    case Failure(f) => AgentChatResponse(FailureReply(f, readTree), None, context)
  }

  /** `AgentController.chat`: a request without context is handled with the empty one. */
  function Chat(request: AgentChatRequest, classifier: ClassifierOutcome, search: SearchOutcome,
                readTree: string -> Option<JsonRoot>): AgentChatResponse {
    Handle(classifier, search, Some(ContextOrEmpty(request)), readTree)
  }

  // ---------------------------------------------------------------------------
  // Classification
  // ---------------------------------------------------------------------------

  /** Only the two words, in any case and with any surrounding spaces or control
      characters, name an intent; every other text is not understood. */
  lemma ClassifyWords(text: string)
    ensures ClassifyIntent(Answered(Some(text))) == Success(SearchIntent) <==> ToUpper(JavaTrim(text)) == "SEARCH"
    ensures ClassifyIntent(Answered(Some(text))) == Success(ReserveIntent) <==> ToUpper(JavaTrim(text)) == "RESERVE"
    ensures ClassifyIntent(Answered(Some(text))).Failure? ==> ClassifyIntent(Answered(Some(text))).error == IllegalArgument
  {
  }

  /** Padding a label with Java whitespace does not change what it names. */
  lemma ClassifyPadded(lead: string, word: string, tail: string)
    requires word != [] && !IsJavaSpace(word[0]) && !IsJavaSpace(word[|word| - 1])
    requires forall k :: 0 <= k < |lead| ==> IsJavaSpace(lead[k])
    requires forall k :: 0 <= k < |tail| ==> IsJavaSpace(tail[k])
    ensures ClassifyIntent(Answered(Some(lead + (word + tail)))) == ClassifyIntent(Answered(Some(word)))
  {
    TrimSurrounded(lead, word, tail, IsJavaSpace);
    OwnTrim(word);
  }

  /** A label with no Java whitespace at either end is its own trim. */
  lemma OwnTrim(word: string)
    requires word != [] && !IsJavaSpace(word[0]) && !IsJavaSpace(word[|word| - 1])
    ensures JavaTrim(word) == word
  {
    TrimSurrounded([], word, [], IsJavaSpace);
    assert [] + (word + []) == word;
  }

  /** A label without surrounding whitespace is classified by its upper-case form. */
  lemma ClassifyClean(text: string)
    requires text != [] && !IsJavaSpace(text[0]) && !IsJavaSpace(text[|text| - 1])
    ensures ClassifyIntent(Answered(Some(text)))
         == if ToUpper(text) == "SEARCH" then Success(SearchIntent)
            else if ToUpper(text) == "RESERVE" then Success(ReserveIntent)
            else Failure(IllegalArgument)
  {
    OwnTrim(text);
  }

  lemma UpperIs(s: string, u: string)
    requires |s| == |u| && forall i :: 0 <= i < |s| ==> UpperChar(s[i]) == u[i]
    ensures ToUpper(s) == u
  {
  }

  lemma LowerCaseSearch()
    ensures ClassifyIntent(Answered(Some("search"))) == Success(SearchIntent)
  {
    ClassifyClean("search");
    UpperIs("search", "SEARCH");
  }

  lemma UpperCaseSearch()
    ensures ClassifyIntent(Answered(Some("SEARCH"))) == Success(SearchIntent)
  {
    ClassifyClean("SEARCH");
    UpperIs("SEARCH", "SEARCH");
  }

  lemma PaddedLowerCaseSearch()
    ensures ClassifyIntent(Answered(Some(" search\n"))) == Success(SearchIntent)
  {
    assert " " + ("search" + "\n") == " search\n";
    ClassifyPadded(" ", "search", "\n");
    LowerCaseSearch();
  }

  lemma MixedCaseReserve()
    ensures ClassifyIntent(Answered(Some("Reserve"))) == Success(ReserveIntent)
  {
    ClassifyClean("Reserve");
    UpperIs("Reserve", "RESERVE");
  }

  lemma OtherWordNotUnderstood()
    ensures ClassifyIntent(Answered(Some("BOOK"))) == Failure(IllegalArgument)
  {
    ClassifyClean("BOOK");
    UpperIs("BOOK", "BOOK");
  }

  // ---------------------------------------------------------------------------
  // The turn
  // ---------------------------------------------------------------------------

  /** A search replies with the tool's summary and moves to the search step, with
      the tool's ids, in order, as the remembered ones. */
  lemma SearchTransition(classifier: ClassifierOutcome, result: SearchToolResult,
                         context: Option<ConversationContext>, readTree: string -> Option<JsonRoot>)
    requires ClassifyIntent(classifier) == Success(SearchIntent)
    ensures var r := Handle(classifier, Found(result), context, readTree);
      && r.reply == result.summary
      && r.pendingAction == Some(PendingAction(SEARCH))
      && r.context == Some(ConversationContext(Some(SearchIntent), Some(result.restaurantIds), Some(PendingAction(SEARCH))))
  {
  }

  /** A reservation request gives the fixed reply, moves to the pending-reservation
      step and carries the previous ids over; the search tool's outcome plays no part. */
  lemma ReserveTransition(classifier: ClassifierOutcome, search: SearchOutcome,
                          c: ConversationContext, readTree: string -> Option<JsonRoot>)
    requires ClassifyIntent(classifier) == Success(ReserveIntent)
    ensures var r := Handle(classifier, search, Some(c), readTree);
      && r.reply == ReservationReply
      && r.pendingAction == Some(PendingAction(PENDING_RESERVATION))
      && r.context == Some(ConversationContext(Some(ReserveIntent), c.lastRestaurantIds, Some(PendingAction(PENDING_RESERVATION))))
  {
  }

  /** A reservation request without any context fails like any unexpected error. */
  lemma ReserveWithoutContext(classifier: ClassifierOutcome, search: SearchOutcome,
                              readTree: string -> Option<JsonRoot>)
    requires ClassifyIntent(classifier) == Success(ReserveIntent)
    ensures Handle(classifier, search, None, readTree) == AgentChatResponse(DefaultError, None, None)
  {
  }

  /** Every failure, of the classifier or of the search, replies with the text of
      its kind, sets no pending action and returns the caller's context. */
  lemma ClassifierFailure(classifier: ClassifierOutcome, search: SearchOutcome,
                          context: Option<ConversationContext>, readTree: string -> Option<JsonRoot>)
    requires ClassifyIntent(classifier).Failure?
    ensures Handle(classifier, search, context, readTree)
         == AgentChatResponse(FailureReply(ClassifyIntent(classifier).error, readTree), None, context)
  {
  }

  lemma SearchFailure(classifier: ClassifierOutcome, f: Failure,
                      context: Option<ConversationContext>, readTree: string -> Option<JsonRoot>)
    requires ClassifyIntent(classifier) == Success(SearchIntent)
    ensures Handle(classifier, SearchThrew(f), context, readTree)
         == AgentChatResponse(FailureReply(f, readTree), None, context)
  {
  }

  /** An unknown label, a null label and a model error each give their own reply. */
  lemma FailureReplies(text: string, message: Option<string>, search: SearchOutcome,
                       context: Option<ConversationContext>, readTree: string -> Option<JsonRoot>)
    requires ToUpper(JavaTrim(text)) != "SEARCH" && ToUpper(JavaTrim(text)) != "RESERVE"
    ensures Handle(Answered(Some(text)), search, context, readTree) == AgentChatResponse(NotUnderstood, None, context)
    ensures Handle(Answered(None), search, context, readTree) == AgentChatResponse(DefaultError, None, context)
    ensures Handle(ClassifierThrew(NonTransientAi(message)), search, context, readTree)
         == AgentChatResponse(FormatAiExceptionMessage(message, readTree), None, context)
  {
  }

  /** The previous intent and pending action are never read: two contexts with the
      same remembered ids give the same reply and pending action, and the same new
      context whenever the turn succeeds. */
  lemma PriorStepIgnored(classifier: ClassifierOutcome, search: SearchOutcome,
                         c1: ConversationContext, c2: ConversationContext,
                         readTree: string -> Option<JsonRoot>)
    requires c1.lastRestaurantIds == c2.lastRestaurantIds
    ensures var r1 := Handle(classifier, search, Some(c1), readTree);
      var r2 := Handle(classifier, search, Some(c2), readTree);
      && r1.reply == r2.reply && r1.pendingAction == r2.pendingAction
      && (r1.pendingAction.Some? ==> r1.context == r2.context)
  {
  }

  /** The search tool's outcome matters only for a search. */
  lemma SearchOnlyForSearch(classifier: ClassifierOutcome, s1: SearchOutcome, s2: SearchOutcome,
                            context: Option<ConversationContext>, readTree: string -> Option<JsonRoot>)
    requires ClassifyIntent(classifier) != Success(SearchIntent)
    ensures Handle(classifier, s1, context, readTree) == Handle(classifier, s2, context, readTree)
  {
  }

  /** Through the controller, a request without context behaves as one with the empty
      context: a failure hands the empty context back, and a reservation request
      remembers no ids. */
  lemma ChatWithoutContext(request: AgentChatRequest, classifier: ClassifierOutcome,
                           search: SearchOutcome, readTree: string -> Option<JsonRoot>)
    requires request.context.None?
    ensures var r := Chat(request, classifier, search, readTree);
      && (r.pendingAction.None? ==> r.context == Some(ConversationContext(None, None, None)))
      && (ClassifyIntent(classifier) == Success(ReserveIntent) ==>
            r.context == Some(ConversationContext(Some(ReserveIntent), None, Some(PendingAction(PENDING_RESERVATION)))))
  {
  }

  // ---------------------------------------------------------------------------
  // The orchestrator's unit tests
  // ---------------------------------------------------------------------------

  /** The classifier call is rejected with the service's 401 body and there is no
      context: the reply is the body's error text. */
  lemma RejectedKeyScenario(search: SearchOutcome, readTree: string -> Option<JsonRoot>)
    requires readTree(ApiKeyBody) == Some(JsonRoot(Some(ApiKeyText)))
    ensures Handle(ClassifierThrew(NonTransientAi(Some(ApiKeyRejection))), search, None, readTree).reply == ApiKeyText
  {
    ApiKeyScenario(readTree);
  }

  /** The classifier says "SEARCH" and the tool finds restaurants 1, 2 and 3. */
  lemma SearchScenario(readTree: string -> Option<JsonRoot>)
    ensures var r := Handle(Answered(Some("SEARCH")), Found(SearchToolResult("I found some restaurants", [1, 2, 3])),
                            Some(EmptyContext()), readTree);
      && r.reply == "I found some restaurants"
      && r.pendingAction.Some? && r.pendingAction.value.actionType == SEARCH
      && r.context.Some? && r.context.value.lastIntent == Some(SearchIntent)
      && r.context.value.lastRestaurantIds == Some([1, 2, 3])
  {
    UpperCaseSearch();
    SearchTransition(Answered(Some("SEARCH")), SearchToolResult("I found some restaurants", [1, 2, 3]),
                     Some(EmptyContext()), readTree);
  }
}
