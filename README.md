# Restaurant Search, modelled in Dafny

Restaurant Search keeps a catalog of restaurants read from two CSV files. It answers
ranked searches over the catalog: five optional filters, ranked by distance, then by
rating (highest first), then by price, at most `limit` results (5 by default). A
chat assistant sits on top. A language model names the intent of each message. A
search runs the search tool, which returns a text summary with one line per
restaurant, together with the ids of the hits. The web client reads those lines
back into restaurant cards. A reservation request moves the conversation to a
pending-reservation step. Failures of the language-model service become a
user-facing message. Reservations are saved only when their required fields are all
present.

The project models these pieces module by module:

- `Strings`: the Java and JavaScript string primitives the core uses.
- `Model`, `AgentDto`: the records.
- `RestaurantComparator`: the ranking.
- `RestaurantService`: the ranked search, as an imperative method over the queue.
- `RestaurantSearchTool`: the tool and its summary format.
- `ChatBox`: the client's `parseReply`, as a loop over the lines, proved against a
  grouping function; the regular expression is a matcher proved equal to the
  pattern's greedy match.
- `ReplyRoundTrip`: what the server writes, the client reads back.
- `AgentResponseMapper`: the error-text extraction.
- `AgentOrchestrator`: one chat turn.
- `CatalogCsv`: what a load of the two files produces.
- `CatalogLoader`: the loader class with its loops.
- `Reservations`: the reservation guard and the repository lookups.

Java's `null` is `Option.None`, and a thrown exception is `Result.Failure`. The two
language-model calls of a turn are inputs (their outcomes). JSON parsing is a
function parameter.

## Model

| member | source | states |
|---|---|---|
| Strings.DecimalString | server/src/main/java/org/galaxy/server/agent/tools/RestaurantSearchTool.java:79-80 | `%d` of a non-negative number is a non-empty run of digits; of a negative one, a minus sign followed by digits |
| Strings.ParseDecimalString | server/src/main/java/org/galaxy/server/loader/DataLoader.java:91-97 | `Integer.parseInt` of what `Integer.toString` printed gives back every 32-bit number and throws for every number outside that range |
| Strings.ParseInt | server/src/main/java/org/galaxy/server/loader/DataLoader.java:63 | a parse that succeeds yields a 32-bit value, from an optional sign followed by ASCII digits only |
| Strings.ParseIntValue | server/src/main/java/org/galaxy/server/loader/DataLoader.java:63 | an optional `+` or `-` followed by digits parses to the digits' value, negated after `-`, when that value fits in 32 bits, and throws otherwise |
| Strings.ParseIntAccepts | server/src/main/java/org/galaxy/server/loader/DataLoader.java:91 | "+7" and "007" parse to 7, and "-0" to 0 |
| Strings.ParseIntRejects | server/src/main/java/org/galaxy/server/loader/DataLoader.java:91-97 | the text of 2^31 and of a number below -2^31, a lone sign, the empty text and "1 2" throw |
| Strings.ToLower | server/src/main/java/org/galaxy/server/service/RestaurantService.java:33-34 | lower-casing keeps the length and maps each character on its own |
| Strings.ToUpper | server/src/main/java/org/galaxy/server/agent/AgentOrchestrator.java:95 | upper-casing keeps the length and maps each character on its own |
| Strings.IndexOf | server/src/main/java/org/galaxy/server/agent/AgentResponseMapper.java:19-20 | -1 exactly when the character is absent; otherwise its first position |
| Strings.Trim | server/src/main/java/org/galaxy/server/loader/DataLoader.java:58 | the trimmed text is a stretch of the input with only space characters before and after it, and it neither starts nor ends with one |
| Strings.DropLeading | server/src/main/java/org/galaxy/server/loader/DataLoader.java:64 | strips exactly the leading run of space characters |
| Strings.DropTrailing | server/src/main/java/org/galaxy/server/loader/DataLoader.java:64 | strips exactly the trailing run of space characters |
| Strings.TrimAppendedSpace | client/src/components/ChatBox.jsx:89-94 | the newline that accumulation appends after the last line is trimmed away |
| Strings.TrimAppendOneSpace | client/src/components/ChatBox.jsx:89 | appending one more space character does not change the trim |
| Strings.TrimSurrounded | server/src/main/java/org/galaxy/server/agent/AgentOrchestrator.java:93-95 | whitespace on both sides of a word trims away to the word |
| Strings.TrimIdempotent | server/src/main/java/org/galaxy/server/loader/DataLoader.java:58 | trimming twice is trimming once |
| Strings.SplitOn | client/src/components/ChatBox.jsx:65 | JavaScript's `split` gives at least one piece, and no piece holds the separator |
| Strings.JoinSplitOn | client/src/components/ChatBox.jsx:65 | joining the pieces of a split gives the text back |
| Strings.SplitOnJoin | server/src/main/java/org/galaxy/server/agent/tools/RestaurantSearchTool.java:78-81 | splitting text joined from separator-free pieces gives the pieces back |
| Strings.DropTrailingEmpty | server/src/main/java/org/galaxy/server/loader/DataLoader.java:83 | drops exactly the trailing run of empty pieces |
| Strings.JavaSplit | server/src/main/java/org/galaxy/server/loader/DataLoader.java:60 | Java's `split` returns the whole line when the separator is absent, and no piece holds the separator |
| Strings.JavaSplitJoin | server/src/main/java/org/galaxy/server/loader/DataLoader.java:83 | Java's `split` undoes joining when the last piece is not empty |
| RestaurantComparator.IntegerCompare | server/src/main/java/org/galaxy/server/model/RestaurantComparator.java:9-16 | `Integer.compare` is -1, 0 or 1, negative exactly when the first argument is smaller, zero exactly when they are equal |
| RestaurantComparator.CompareIsLexicographic | server/src/main/java/org/galaxy/server/model/RestaurantComparator.java:7-19 | the comparator is the lexicographic order on (distance, -rating, price), in both directions and for ties |
| RestaurantComparator.CloserFirst | server/src/main/java/org/galaxy/server/model/RestaurantComparator.java:9-10 | a smaller distance ranks first whatever the rating and the price |
| RestaurantComparator.HigherRatedFirst | server/src/main/java/org/galaxy/server/model/RestaurantComparator.java:12-13 | at equal distance, the higher rating ranks first |
| RestaurantComparator.CheaperFirst | server/src/main/java/org/galaxy/server/model/RestaurantComparator.java:15-16 | at equal distance and rating, the lower price ranks first |
| RestaurantComparator.CompareZeroIsTie | server/src/main/java/org/galaxy/server/model/RestaurantComparator.java:18 | 0 exactly when distance, rating and price all agree |
| RestaurantComparator.CompareAntisymmetric | server/src/main/java/org/galaxy/server/model/RestaurantComparator.java:7-19 | swapping the arguments negates the result |
| RestaurantComparator.LessEqTotal | server/src/main/java/org/galaxy/server/model/RestaurantComparator.java:7-19 | of any two restaurants, one may come first |
| RestaurantComparator.LessEqTransitive | server/src/main/java/org/galaxy/server/model/RestaurantComparator.java:7-19 | the ranking is transitive, and so is its strict part |
| RestaurantService.Limit | server/src/main/java/org/galaxy/server/service/RestaurantService.java:27 | the limit is 5 when none is given, otherwise the given one |
| RestaurantService.Survivors | server/src/main/java/org/galaxy/server/service/RestaurantService.java:29-35 | the filtered pool holds each matching restaurant as often as the catalog does, and nothing else |
| RestaurantService.Poll | server/src/main/java/org/galaxy/server/service/RestaurantService.java:39 | `poll` takes out one element that ranks no later than any element of the queue, and leaves the others |
| RestaurantService.AdvancedSearch | server/src/main/java/org/galaxy/server/service/RestaurantService.java:25-43 | the result is min(limit, matches) of the filtered catalog (none for a limit of 0 or less), in ranking order, and nothing left out ranks strictly before a returned one |
| RestaurantService.PollUpTo | server/src/main/java/org/galaxy/server/service/RestaurantService.java:37-41 | `limit` polls of the queue give a ranked top `limit` of its contents |
| RestaurantService.PolledStaysOrdered | server/src/main/java/org/galaxy/server/service/RestaurantService.java:38-40 | each poll keeps the result sorted and ahead of what stays queued |
| RestaurantService.PolledAll | server/src/main/java/org/galaxy/server/service/RestaurantService.java:38-41 | when the loop ends, the polled list is a ranked top `limit` of the pool |
| RestaurantService.ResultsSatisfyFilters | server/src/main/java/org/galaxy/server/service/RestaurantService.java:30-34 | every returned restaurant comes from the catalog and satisfies each filter that is set |
| RestaurantService.NoFiltersKeepAll | server/src/main/java/org/galaxy/server/service/RestaurantService.java:29-35 | with no filter set, the whole catalog reaches the queue, in catalog order |
| RestaurantService.NoneMatch | server/src/main/java/org/galaxy/server/service/RestaurantService.java:29-35 | when nothing passes the filters, the queue stays empty |
| RestaurantService.NoMatchNoResult | server/src/main/java/org/galaxy/server/service/RestaurantService.java:37-41 | when nothing passes the filters, the result is empty |
| RestaurantService.SortedArrangementUnique | server/src/main/java/org/galaxy/server/service/RestaurantService.java:38-40 | without full ties, only one sorted order of the polled restaurants exists, so the result is determined |
| RestaurantService.FixtureDefaultSearch | server/src/test/java/org/galaxy/server/service/RestaurantServiceTest.java:188-205 | the default search over the test catalog returns exactly the five expected restaurants, in the expected order |
| RestaurantService.FixtureLeavesOutFarthest | server/src/test/java/org/galaxy/server/service/RestaurantServiceTest.java:314-324 | a top five of the six test restaurants leaves out only the farthest one |
| RestaurantService.FixtureNoMatches | server/src/test/java/org/galaxy/server/service/RestaurantServiceTest.java:301-312 | filters that no test restaurant passes give an empty result, not an error |
| RestaurantSearchTool.Ids | server/src/main/java/org/galaxy/server/agent/tools/RestaurantSearchTool.java:44-46 | one id per restaurant, position by position |
| RestaurantSearchTool.OptionsOf | server/src/main/java/org/galaxy/server/agent/tools/RestaurantSearchTool.java:33-40 | each of the six request fields is copied unchanged into the search options |
| RestaurantSearchTool.Search | server/src/main/java/org/galaxy/server/agent/tools/RestaurantSearchTool.java:30-51 | the summary and the ids both describe one ranked top `limit` of the filtered catalog |
| RestaurantSearchTool.FormatEmpty | server/src/main/java/org/galaxy/server/agent/tools/RestaurantSearchTool.java:75-77 | an empty result gives the fixed no-results text and no ids |
| RestaurantSearchTool.RestaurantLineSingleLine | server/src/main/java/org/galaxy/server/agent/tools/RestaurantSearchTool.java:79-80 | a restaurant line holds no newline when the name and the cuisine hold none |
| RestaurantSearchTool.FormatSplit | server/src/main/java/org/galaxy/server/agent/tools/RestaurantSearchTool.java:78-81 | split at its newlines, the summary is the header followed by one line per restaurant, in order |
| RestaurantSearchTool.FormatLines | server/src/main/java/org/galaxy/server/agent/tools/RestaurantSearchTool.java:44-50 | there is one summary line per id, and line i+1 describes the restaurant whose id is the i-th id |
| ChatBox.MatchSound | client/src/components/ChatBox.jsx:69 | every line the matcher accepts is the pattern's line for the groups it returns, and those groups are ones the pattern can capture |
| ChatBox.MatchComplete | client/src/components/ChatBox.jsx:69 | every line the pattern matches is accepted, with a first group at least as long as any other way of matching it |
| ChatBox.MatchIsGreedy | client/src/components/ChatBox.jsx:69-72 | the matcher returns `f` exactly when `f` is the pattern's match with the longest first group, which is the one backtracking finds |
| ChatBox.MatchOfLine | client/src/components/ChatBox.jsx:69-72 | a line built from its groups is matched with those groups, when the cuisine holds no " (Rating: " |
| ChatBox.NoDashNoMatch | client/src/components/ChatBox.jsx:69 | a line that does not start with "- " is never a restaurant |
| ChatBox.MatchAll | client/src/components/ChatBox.jsx:71-72 | one match result per line, the match of that line |
| ChatBox.RunLength | client/src/components/ChatBox.jsx:88-90 | the run of non-matching lines at the front ends at the first matching line |
| ChatBox.ParseReply | client/src/components/ChatBox.jsx:64-98 | the loop builds the elements that the lines' grouping stands for: each matching line a restaurant element, each maximal run of other lines one trimmed text element |
| ChatBox.MatchLine | client/src/components/ChatBox.jsx:72 | the pattern's match on the i-th line is that line's entry in the line-by-line matches |
| ChatBox.VisitLine | client/src/components/ChatBox.jsx:71-91 | one call of the callback moves the elements and the accumulated text exactly as one step of the line visit does: a match flushes a non-empty text and adds the restaurant, another line is appended with a newline |
| ChatBox.RestaurantsAreMatchedLines | client/src/components/ChatBox.jsx:71-87 | the restaurant elements are the matching lines' groups, one per matching line, in line order |
| ChatBox.ParseNoAdjacentText | client/src/components/ChatBox.jsx:73-77 | no two text elements are next to each other |
| ChatBox.ParseEmptyReply | client/src/components/ChatBox.jsx:93-95 | an empty reply gives one empty text element |
| ReplyRoundTrip.LineRoundTrip | client/src/components/ChatBox.jsx:69-87 | the line the server writes for a displayable restaurant is matched with the restaurant's own name, numbers and cuisine |
| ReplyRoundTrip.HeaderIsText | server/src/main/java/org/galaxy/server/agent/tools/RestaurantSearchTool.java:78 | the summary header is no restaurant, has nothing to trim and holds no newline |
| ReplyRoundTrip.FormatRoundTrip | client/src/components/ChatBox.jsx:64-98 | the summary of a non-empty displayable list parses to the header as text, then one restaurant element per restaurant, in order, with its fields |
| ReplyRoundTrip.EmptyFormatRoundTrip | server/src/main/java/org/galaxy/server/agent/tools/RestaurantSearchTool.java:75-77 | the no-results summary parses to that text alone |
| ReplyRoundTrip.SummaryMatchesIds | server/src/main/java/org/galaxy/server/agent/tools/RestaurantSearchTool.java:44-50 | the i-th restaurant card the client shows is the restaurant whose id the server remembers at position i |
| AgentDto.SearchOnly | server/src/main/java/org/galaxy/server/agent/dto/PendingAction.java:9-11 | the search-only pending action has type SEARCH |
| AgentDto.Reservation | server/src/main/java/org/galaxy/server/agent/AgentOrchestrator.java:124 | the reservation pending action has type PENDING_RESERVATION |
| AgentDto.EmptyContext | server/src/main/java/org/galaxy/server/agent/dto/ConversationContext.java:13-15 | the empty context has all three fields null |
| AgentDto.ContextOrEmpty | server/src/main/java/org/galaxy/server/agent/dto/AgentChatRequest.java:10-12 | the request's context, or the empty context when it is null |
| AgentResponseMapper.JsonPart | server/src/main/java/org/galaxy/server/agent/AgentResponseMapper.java:19-21 | nothing when the message holds no `{`; otherwise the message from its first `{` on |
| AgentResponseMapper.NullOrEmptyIsDefault | server/src/main/java/org/galaxy/server/agent/AgentResponseMapper.java:13-15 | a null or empty message gives the apology |
| AgentResponseMapper.NoBraceIsDefault | server/src/main/java/org/galaxy/server/agent/AgentResponseMapper.java:19-20 | a message without `{` gives the apology, whatever the parser would do |
| AgentResponseMapper.ResultIsErrorTextOrDefault | server/src/main/java/org/galaxy/server/agent/AgentResponseMapper.java:12-32 | the result is the apology or the `error.message` text of the tree parsed from the first `{` on; nothing else |
| AgentResponseMapper.ErrorTextReturned | server/src/main/java/org/galaxy/server/agent/AgentResponseMapper.java:21-24 | a JSON body with `error.message`, after a prefix without `{`, gives exactly that text |
| AgentResponseMapper.UnusableBodyIsDefault | server/src/main/java/org/galaxy/server/agent/AgentResponseMapper.java:22-31 | a body that does not parse, or that lacks `error.message`, gives the apology |
| AgentResponseMapper.PrefixIrrelevant | server/src/main/java/org/galaxy/server/agent/AgentResponseMapper.java:19-21 | a prefix without `{` in front of the message changes nothing |
| AgentResponseMapper.ApiKeyScenario | server/src/test/java/org/galaxy/server/agent/AgentOrchestratorTest.java:29-42 | the test's rejected-key message maps to the key text of its body |
| AgentOrchestrator.Handle | server/src/main/java/org/galaxy/server/agent/AgentOrchestrator.java:40-68 | a response with a pending action has a new context with that action and an intent; one without hands the caller's context back |
| AgentOrchestrator.ClassifyWords | server/src/main/java/org/galaxy/server/agent/AgentOrchestrator.java:93-101 | a label names SEARCH or RESERVE exactly when its trimmed upper-case form is that word; any other label fails with the illegal-argument error |
| AgentOrchestrator.ClassifyPadded | server/src/main/java/org/galaxy/server/agent/AgentOrchestrator.java:94 | whitespace around a label does not change what it names |
| AgentOrchestrator.ClassifyClean | server/src/main/java/org/galaxy/server/agent/AgentOrchestrator.java:95-101 | a label without surrounding whitespace is classified by its upper-case form alone |
| AgentOrchestrator.LowerCaseSearch | server/src/main/java/org/galaxy/server/agent/AgentOrchestrator.java:95-98 | "search" names the search intent |
| AgentOrchestrator.UpperCaseSearch | server/src/main/java/org/galaxy/server/agent/AgentOrchestrator.java:97-98 | "SEARCH" names the search intent |
| AgentOrchestrator.PaddedLowerCaseSearch | server/src/main/java/org/galaxy/server/agent/AgentOrchestrator.java:94-98 | " search" followed by a newline names the search intent |
| AgentOrchestrator.MixedCaseReserve | server/src/main/java/org/galaxy/server/agent/AgentOrchestrator.java:95-99 | "Reserve" names the reservation intent |
| AgentOrchestrator.OtherWordNotUnderstood | server/src/main/java/org/galaxy/server/agent/AgentOrchestrator.java:100 | any other word, such as "BOOK", is an illegal argument |
| AgentOrchestrator.SearchTransition | server/src/main/java/org/galaxy/server/agent/AgentOrchestrator.java:104-118 | a search replies with the tool's summary, moves to the search step and remembers the tool's ids in order |
| AgentOrchestrator.ReserveTransition | server/src/main/java/org/galaxy/server/agent/AgentOrchestrator.java:120-132 | a reservation request gives the fixed reply, moves to the pending-reservation step and keeps the remembered ids; the search tool plays no part |
| AgentOrchestrator.ReserveWithoutContext | server/src/main/java/org/galaxy/server/agent/AgentOrchestrator.java:123 | a reservation request with a null context fails like any unexpected error |
| AgentOrchestrator.ClassifierFailure | server/src/main/java/org/galaxy/server/agent/AgentOrchestrator.java:49-67 | a classifier failure replies with the text for its kind, sets no pending action and hands the context back |
| AgentOrchestrator.SearchFailure | server/src/main/java/org/galaxy/server/agent/AgentOrchestrator.java:49-67 | a search tool failure replies with the text for its kind, sets no pending action and hands the context back |
| AgentOrchestrator.FailureReplies | server/src/main/java/org/galaxy/server/agent/AgentOrchestrator.java:49-67 | an unknown label, a null label and a model-service error each give their own reply |
| AgentOrchestrator.PriorStepIgnored | server/src/main/java/org/galaxy/server/agent/AgentOrchestrator.java:40-68 | the previous intent and pending action are never read |
| AgentOrchestrator.SearchOnlyForSearch | server/src/main/java/org/galaxy/server/agent/AgentOrchestrator.java:44-47 | the search tool's outcome matters only for a search |
| AgentOrchestrator.ChatWithoutContext | server/src/main/java/org/galaxy/server/controller/AgentController.java:25-29 | a request without a context is handled as one with the empty context |
| AgentOrchestrator.RejectedKeyScenario | server/src/test/java/org/galaxy/server/agent/AgentOrchestratorTest.java:23-43 | a rejected API key gives the service's error text as the reply |
| AgentOrchestrator.SearchScenario | server/src/test/java/org/galaxy/server/agent/AgentOrchestratorTest.java:45-80 | "SEARCH" with the tool's result gives its summary, the search step and ids 1, 2 and 3 |
| CatalogCsv.Body | server/src/main/java/org/galaxy/server/loader/DataLoader.java:56-57 | the header line is skipped, and an empty file has no rows |
| CatalogCsv.CuisineLines | server/src/main/java/org/galaxy/server/loader/DataLoader.java:57-67 | one effect per row of the cuisine file |
| CatalogCsv.CuisineLinesAt | server/src/main/java/org/galaxy/server/loader/DataLoader.java:57-67 | each row's effect is read from that row alone |
| CatalogCsv.Readings | server/src/main/java/org/galaxy/server/loader/DataLoader.java:80-111 | one reading per row of the restaurant file |
| CatalogCsv.ReadingsAt | server/src/main/java/org/galaxy/server/loader/DataLoader.java:80-111 | each row's reading comes from that row alone |
| CatalogCsv.HeaderIgnored | server/src/main/java/org/galaxy/server/loader/DataLoader.java:56 | the header's content never matters, for either file |
| CatalogCsv.BlankLineSkipped | server/src/main/java/org/galaxy/server/loader/DataLoader.java:58 | a whitespace-only line is skipped in both files |
| CatalogCsv.ShortRowSkipped | server/src/main/java/org/galaxy/server/loader/DataLoader.java:85 | a restaurant row with fewer than six fields is skipped |
| CatalogCsv.BadNumberSkipped | server/src/main/java/org/galaxy/server/loader/DataLoader.java:91-107 | a restaurant row whose id, rating, distance, price or cuisine id does not parse is skipped |
| CatalogCsv.TrailingEmptyFieldDropped | server/src/main/java/org/galaxy/server/loader/DataLoader.java:83-85 | five fields and a trailing comma are only five fields: the row is skipped |
| CatalogCsv.RowFields | server/src/main/java/org/galaxy/server/loader/DataLoader.java:90 | the columns of a row are id, name, rating, distance, price and cuisine id, then the rest |
| CatalogCsv.RowSplits | server/src/main/java/org/galaxy/server/loader/DataLoader.java:83 | splitting a written row gives back its fields, and the row is not blank |
| CatalogCsv.RowRoundTrip | server/src/main/java/org/galaxy/server/loader/DataLoader.java:83-104 | a row written from 32-bit values reads back as that restaurant, with the trimmed name and the mapped cuisine name, or "Unknown" |
| CatalogCsv.OutOfRangeSkipped | server/src/main/java/org/galaxy/server/loader/DataLoader.java:91-107 | a row with a number outside the 32-bit range in any numeric column makes `parseInt` throw, and the row is skipped |
| CatalogCsv.CuisineRowRoundTrip | server/src/main/java/org/galaxy/server/loader/DataLoader.java:60-65 | a cuisine row written from a 32-bit id, a name and any further columns reads back as that entry, with the trimmed name and the further columns ignored |
| CatalogCsv.NumberField | server/src/main/java/org/galaxy/server/loader/DataLoader.java:91 | a 32-bit number's text trims to itself and parses back |
| CatalogCsv.NonSpaceNotBlank | server/src/main/java/org/galaxy/server/loader/DataLoader.java:81 | a line starting with a non-space character is not skipped as blank |
| CatalogCsv.RestaurantsAppend | server/src/main/java/org/galaxy/server/loader/DataLoader.java:80-111 | loading two stretches of rows one after the other appends their restaurants |
| CatalogCsv.RestaurantsSnoc | server/src/main/java/org/galaxy/server/loader/DataLoader.java:104 | one more row adds its restaurant, if it has one, at the end |
| CatalogCsv.SkippedRowAddsNothing | server/src/main/java/org/galaxy/server/loader/DataLoader.java:105-110 | a skipped row leaves out only itself |
| CatalogCsv.AcceptedComeFromReadings | server/src/main/java/org/galaxy/server/loader/DataLoader.java:104 | every loaded restaurant is the reading of some row |
| CatalogCsv.LoadedComeFromRows | server/src/main/java/org/galaxy/server/loader/DataLoader.java:80-111 | every loaded restaurant is what some row of the file reads as |
| CatalogCsv.LoadedCuisineNames | server/src/main/java/org/galaxy/server/loader/DataLoader.java:101-102 | each loaded cuisine name is the map's name for the row's cuisine id, or "Unknown" when the map has none |
| CatalogCsv.FailureSticks | server/src/main/java/org/galaxy/server/loader/DataLoader.java:63 | once a cuisine id fails to parse, no later row brings the map back |
| CatalogCsv.BadCuisineIdAborts | server/src/main/java/org/galaxy/server/loader/DataLoader.java:63 | a cuisine id that does not parse ends the whole cuisine load, whatever follows |
| CatalogCsv.ApplyLastWins | server/src/main/java/org/galaxy/server/loader/DataLoader.java:65 | the last entry for an id is the one the map keeps |
| CatalogCsv.ApplyUnmapped | server/src/main/java/org/galaxy/server/loader/DataLoader.java:65 | an id no entry names is not in the map |
| CatalogCsv.CuisineLastWins | server/src/main/java/org/galaxy/server/loader/DataLoader.java:57-67 | among cuisine rows with one id, the last row's name wins |
| CatalogCsv.CuisineUnmapped | server/src/main/java/org/galaxy/server/loader/DataLoader.java:57-67 | an id no cuisine row names is not mapped |
| CatalogCsv.SpanishScenario | server/src/test/java/org/galaxy/server/loader/DataLoaderTest.java:13-37 | a cuisine file whose one row is 11,Spanish maps 11 to "Spanish" |
| CatalogCsv.OneRowFile | server/src/main/java/org/galaxy/server/loader/DataLoader.java:78-104 | a header and one readable row load exactly that restaurant |
| CatalogCsv.DeliciousgenixRow | server/src/test/java/org/galaxy/server/loader/DataLoaderTest.java:29-36 | a six-column row with an id and the test's values (Deliciousgenix, rating 4, cuisine 11) reads as that restaurant, with cuisine "Spanish" |
| CatalogCsv.CommentRowSkipped | server/src/test/java/org/galaxy/server/loader/DataLoaderTest.java:27 | the row as the test's comment writes it, five columns with no id, is skipped by the six-column check |
| CatalogCsv.FirstNamed | server/src/test/java/org/galaxy/server/loader/DataLoaderTest.java:29-32 | the first restaurant of the name, which is in the list and has that name; none exactly when no restaurant has it |
| CatalogCsv.FirstNamedAppend | server/src/test/java/org/galaxy/server/loader/DataLoaderTest.java:29-32 | on a concatenation, the first of the name is the first list's if it has one, else the second's |
| CatalogCsv.RowLoadedBetween | server/src/main/java/org/galaxy/server/loader/DataLoader.java:80-111 | a readable row anywhere in the file loads its restaurant between those of the rows before and after it |
| CatalogCsv.DeliciousgenixScenario | server/src/test/java/org/galaxy/server/loader/DataLoaderTest.java:13-37 | a restaurant file holding that six-column row anywhere, with 11 mapped to "Spanish", loads the row's restaurant between the rows around it, and the test's first-by-name lookup finds it, with rating 4, cuisine id 11 and cuisine "Spanish", when no earlier row loads that name |
| CatalogLoader.DataLoader.constructor | server/src/main/java/org/galaxy/server/loader/DataLoader.java:35 | a new loader holds no restaurants |
| CatalogLoader.DataLoader.LoadCuisines | server/src/main/java/org/galaxy/server/loader/DataLoader.java:50-71 | the loop computes the cuisine map of the file, or the escaping number-format error |
| CatalogLoader.ReadCuisineRow | server/src/main/java/org/galaxy/server/loader/DataLoader.java:58-66 | reading one line of the cuisine file gives that line's effect among the effects of all lines |
| CatalogLoader.DataLoader.LoadRestaurants | server/src/main/java/org/galaxy/server/loader/DataLoader.java:73-114 | the loop appends the restaurants of the file's accepted rows, in row order, to the list |
| CatalogLoader.DataLoader.LoadData | server/src/main/java/org/galaxy/server/loader/DataLoader.java:37-48 | the restaurants are loaded with the cuisine map exactly when the cuisine load succeeds; otherwise the list is unchanged |
| CatalogLoader.DataLoader.GetRestaurants | server/src/main/java/org/galaxy/server/loader/RestaurantDataLoader.java:23 | the loaded list itself |
| CatalogLoader.LoadTwice | server/src/main/java/org/galaxy/server/loader/RestaurantDataLoader.java:60-101 | a second load appends after the first: the list is never cleared |
| Reservations.Validate | server/src/main/java/org/galaxy/server/service/ReservationService.java:30-31 | accepted, unchanged, exactly when restaurant id, name, guest count, start and end are all present; otherwise the exception's message |
| Reservations.OfRestaurant | server/src/main/java/org/galaxy/server/repository/ReservationRepository.java:14-19 | exactly the stored reservations of that restaurant |
| Reservations.StartingBetween | server/src/main/java/org/galaxy/server/repository/ReservationRepository.java:14-19 | exactly the stored reservations of that restaurant whose start lies between the bounds, both included |
| Reservations.OfRestaurantAppend | server/src/main/java/org/galaxy/server/service/ReservationService.java:33 | in the abstract store's order, a reservation saved last comes last among its restaurant's |
| Reservations.BetweenWithinRestaurant | server/src/main/java/org/galaxy/server/service/ReservationService.java:20-26 | the window lookup is the restaurant lookup cut down to the window, both in the abstract store's order |
| Reservations.WindowAppend | server/src/main/java/org/galaxy/server/service/ReservationService.java:24-26 | cutting a list down to the window distributes over concatenation |
| Reservations.ReservationRepository.FindByRestaurantId | server/src/main/java/org/galaxy/server/repository/ReservationRepository.java:14-19 | a saved reservation is found exactly when it belongs to the restaurant |
| Reservations.ReservationRepository.FindByRestaurantIdAndStartTimeBetween | server/src/main/java/org/galaxy/server/repository/ReservationRepository.java:14-19 | a saved reservation is found exactly when it belongs to the restaurant and starts in the window |
| Reservations.ReservationRepository.Save | server/src/main/java/org/galaxy/server/service/ReservationService.java:33 | the entity is stored after the others and handed back |
| Reservations.ReservationService.GetReservationsByRestaurantId | server/src/main/java/org/galaxy/server/service/ReservationService.java:20-22 | the service returns exactly the restaurant's saved reservations |
| Reservations.ReservationService.GetReservationsByRestaurantIdAndTimeBetween | server/src/main/java/org/galaxy/server/service/ReservationService.java:24-26 | the service returns exactly the restaurant's saved reservations that start in the window |
| Reservations.ReservationService.CreateReservation | server/src/main/java/org/galaxy/server/service/ReservationService.java:28-34 | an incomplete reservation is refused with the message and nothing is saved; a complete one is saved once, unchanged, and returned |
| Reservations.ReservationService.CreateThenFind | server/src/main/java/org/galaxy/server/service/ReservationService.java:28-34 | a created reservation is found by its restaurant's lookup; in the abstract store's order it comes after the ones saved before it |
| Reservations.EachFieldRequired | server/src/main/java/org/galaxy/server/service/ReservationService.java:30-31 | any one missing required field is enough to refuse |
| Reservations.OnlyPresenceChecked | server/src/main/java/org/galaxy/server/service/ReservationService.java:30-31 | the id and the values of present fields play no part: a start after the end or a guest count below one passes |
| Reservations.EmptyReservationRefused | server/src/test/java/org/galaxy/server/controller/ReservationControllerTest.java:86-96 | the test's empty reservation is refused |
| Reservations.JohnDoeAccepted | server/src/test/java/org/galaxy/server/controller/ReservationControllerTest.java:71-84 | the test's complete reservation is accepted as it is |

## Left out

- The language-model calls are not modelled: the intent label of `classifyIntent` and the `SearchToolRequest` of `extractSearchRequest` are inputs, and so are the exceptions those calls throw.
- Jackson's `readTree` is a function parameter: it maps the text from the first `{` to the `error.message` it finds, or to nothing when parsing throws. JSON syntax is not modelled.
- File reading, `ClassPathResource`, `@PostConstruct` and the console logging of the loaders are left out; each CSV file is the sequence of lines its reader returns.
- `generateReservations` is left out: it is switched off in `loadData`, and it calls a random-number generator.
- `RestaurantService.basicSearch`, the confirmation intents and any other pending-action steps do not exist in these sources, so they are not modelled.
- The controllers, `ServerApplication` and `ApiKeyValidator` are only the web wiring around the modelled core; only `AgentController.chat` is modelled, as `Chat`.
- `DataLoader` and `RestaurantDataLoader` hold the same parser and are modelled once, as `CatalogLoader.DataLoader`.
- The priority queue is a sequence whose least element a linear scan finds. The heap layout is not modelled, and neither is the order among fully tied restaurants: `IsRankedTopK` allows any such order, as `PriorityQueue` does.
- RestaurantService.AdvancedSearch: the `for` loop counter is unbounded. Java's loop over an `int` limit has the same result for every 32-bit limit.
- Strings.ToLower, Strings.ToUpper: only ASCII letters change case. Java and JavaScript map other Unicode letters too.
- Strings.DecimalString, Strings.ToLower, Strings.ToUpper: `String.format` and Java's `toLowerCase()`/`toUpperCase()` follow the JVM's default locale. The model assumes a locale whose digits are the ASCII ones and that has no language-specific case rules. Under another locale `%d` may print digits that the client's `\d+` does not read, so ReplyRoundTrip.FormatRoundTrip does not hold there. Under a Turkish locale "INDIAN" lower-cases to a dotless "ındıan", and the name and cuisine filters then miss matches that the model finds.
- Strings.ParseInt: only ASCII digits are accepted. Java's `Integer.parseInt` also accepts other Unicode decimal digits.
- Strings are sequences of Unicode characters, not of UTF-16 code units. Surrogate pairs and supplementary characters are not modelled.
- ChatBox.MatchOfLine, ReplyRoundTrip.FormatRoundTrip: a restaurant line reads back unchanged when three conditions hold. Its numbers must be non-negative, since `\d+` has no minus sign. Its name and cuisine must hold no line terminator. Its cuisine, read with the space before it, must not contain " (Rating: ". A cuisine that breaks the last condition may still read back for some names; the lemmas do not cover that case.
- The repository is an abstract store, the list of what `save` appended. JPA's identifier generation and persistence are not modelled. The derived queries promise no order; the lookups return the store's order, and the order stated by Reservations.OfRestaurantAppend, Reservations.BetweenWithinRestaurant and Reservations.ReservationService.CreateThenFind is that order, not one the database promises. Membership, which their other clauses and the lookups' contracts state, holds in any order. `Between` is inclusive at both ends.
- A `LocalDateTime` is an integer that orders as the date-times do.
- The `Restaurant` class shown declares no `id` field, but the loader, the search tool and the service test all call `setId`/`getId`. The model gives `Restaurant` an integer `id`.
- The `Reservation` entity class is not part of this model. Its fields are taken from the builder calls in the tests and from the guard in `createReservation`.
- The orchestrator calls `PendingAction.search()` and `PendingAction.reservation()`, which the `PendingAction` record shown does not declare; they are modelled as the actions of type `SEARCH` and `PENDING_RESERVATION`.
- A few long string constants are written as concatenations of shorter literals; the value is the same.
- Concurrency and Spring's bean lifecycle are not modelled.
