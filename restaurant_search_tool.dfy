/**
 * `RestaurantSearchTool`: copy the extracted parameters into search options, run the
 * ranked search, and return the ids of the hits together with a text summary that
 * lists them one per line. The language-model call that extracts the parameters from
 * the user's message is not modelled: its output, a `SearchToolRequest`, is an input.
 */
module RestaurantSearchTool {
  import opened Wrappers
  import opened Strings
  import opened Model
  import opened AgentDto
  import opened RestaurantService

  const Header: string := "I found the following restaurants for you:"
  // Written in two pieces only so that the verifier can index into it.
  const NoResults: string := "I couldn't find any " + "restaurants matching your criteria."

  /** `String.format("- %s (Rating: %d, Distance: %d, Price: %d, Cuisine: %s)", ...)`. */
  function RestaurantLine(r: Restaurant): string {
    "- " + (r.name
      + (" (Rating: " + (DecimalString(r.rating)
      + (", Distance: " + (DecimalString(r.distance)
      + (", Price: " + (DecimalString(r.price)
      + (", Cuisine: " + (r.cuisine + ")")))))))))
  }

  /** One line per restaurant, in list order. */
  function Lines(rs: seq<Restaurant>): seq<string> {
    seq(|rs|, i requires 0 <= i < |rs| => RestaurantLine(rs[i]))
  }

  /** `format`: the fixed message for an empty list; otherwise the header, a newline,
      and the lines joined by newlines, with no newline at the end. */
  function Format(rs: seq<Restaurant>): string {
    if rs == [] then NoResults else Header + "\n" + Join(Lines(rs), '\n')
  }

  /** `restaurants.stream().map(Restaurant::getId).toList()`. */
  function Ids(rs: seq<Restaurant>): (ids: seq<int>)
    ensures |ids| == |rs|
    ensures forall i :: 0 <= i < |rs| ==> ids[i] == rs[i].id
  {
    if rs == [] then [] else [rs[0].id] + Ids(rs[1..])
  }

  /** The builder chain that copies the six request fields into search options. */
  function OptionsOf(request: SearchToolRequest): (options: RestaurantSearchOptions)
    ensures options.name == request.name && options.rating == request.rating
    ensures options.distance == request.distance && options.price == request.price
    ensures options.cuisine == request.cuisine && options.limit == request.limit
  {
    RestaurantSearchOptions(request.name, request.rating, request.distance,
                            request.price, request.cuisine, request.limit)
  }

  /** `search`, given the extracted request and the catalog. `found` is the list the
      ranked search returned; the summary and the ids are both computed from it. */
  method Search(request: SearchToolRequest, catalog: seq<Restaurant>)
    returns (result: SearchToolResult, ghost found: seq<Restaurant>)
    ensures IsRankedTopK(found, Survivors(catalog, OptionsOf(request)), Limit(OptionsOf(request)))
    ensures result.summary == Format(found) && result.restaurantIds == Ids(found)
  {
    var options := OptionsOf(request);
    var restaurants := AdvancedSearch(catalog, options);
    found := restaurants;
    var ids := Ids(restaurants);
    var summary := Format(restaurants);
    result := SearchToolResult(summary, ids);
  }

  // ---------------------------------------------------------------------------
  // The summary's shape
  // ---------------------------------------------------------------------------

  /** A restaurant whose free-text fields hold no newline. */
  predicate SingleLine(r: Restaurant) {
    '\n' !in r.name && '\n' !in r.cuisine
  }

  lemma DecimalStringSingleLine(n: int)
    ensures '\n' !in DecimalString(n)
  {
  }

  lemma RestaurantLineSingleLine(r: Restaurant)
    requires SingleLine(r)
    ensures '\n' !in RestaurantLine(r)
  {
    DecimalStringSingleLine(r.rating);
    DecimalStringSingleLine(r.distance);
    DecimalStringSingleLine(r.price);
    var s := r.cuisine + ")";
    NotInEither(r.cuisine, ")");
    NotInEither(", Cuisine: ", s);
    s := ", Cuisine: " + s;
    NotInEither(DecimalString(r.price), s);
    s := DecimalString(r.price) + s;
    NotInEither(", Price: ", s);
    s := ", Price: " + s;
    NotInEither(DecimalString(r.distance), s);
    s := DecimalString(r.distance) + s;
    NotInEither(", Distance: ", s);
    s := ", Distance: " + s;
    NotInEither(DecimalString(r.rating), s);
    s := DecimalString(r.rating) + s;
    NotInEither(" (Rating: ", s);
    s := " (Rating: " + s;
    NotInEither(r.name, s);
    s := r.name + s;
    NotInEither("- ", s);
  }

  lemma NotInEither(a: string, b: string)
    requires '\n' !in a && '\n' !in b
    ensures '\n' !in a + b
  {
  }

  lemma HeaderSingleLine()
    ensures '\n' !in Header
  {
  }

  lemma NoResultsSingleLine()
    ensures '\n' !in NoResults
  {
    assert '\n' !in "I couldn't find any ";
    assert '\n' !in "restaurants matching your criteria.";
  }

  /** An empty list gives exactly the no-results message and no ids. */
  lemma FormatEmpty()
    ensures Format([]) == NoResults && Ids([]) == []
  {
  }

  /** Split at its newlines, the summary of a non-empty list is the header followed by
      one line per restaurant, in list order. */
  lemma FormatSplit(rs: seq<Restaurant>)
    requires rs != []
    requires forall i :: 0 <= i < |rs| ==> SingleLine(rs[i])
    ensures SplitOn(Format(rs), '\n') == [Header] + Lines(rs)
  {
    var lines := Lines(rs);
    forall i | 0 <= i < |lines| ensures '\n' !in lines[i] {
      RestaurantLineSingleLine(rs[i]);
    }
    HeaderSingleLine();
    var parts := [Header] + lines;
    assert |parts| >= 2 && parts[0] == Header && parts[1..] == lines;
    assert Join(parts, '\n') == Format(rs);
    SplitOnJoin(parts, '\n');
  }

  /** So there are as many restaurant lines as ids, and the i-th line describes the
      restaurant whose id is the i-th id. */
  lemma FormatLines(rs: seq<Restaurant>)
    requires rs != []
    requires forall i :: 0 <= i < |rs| ==> SingleLine(rs[i])
    ensures SplitOn(Format(rs), '\n') == [Header] + Lines(rs)
    ensures |SplitOn(Format(rs), '\n')| == |Ids(rs)| + 1
    ensures forall i :: 0 <= i < |rs| ==>
              SplitOn(Format(rs), '\n')[i + 1] == RestaurantLine(rs[i]) && Ids(rs)[i] == rs[i].id
  {
    FormatSplit(rs);
  }
}
