/**
 * The server's search summary read back by the chat client: the lines that
 * `RestaurantSearchTool.format` writes are exactly the lines `parseReply` turns into
 * restaurant elements, with the restaurant's fields as the captured text.
 */
module ReplyRoundTrip {
  import opened Wrappers
  import opened Strings
  import opened Model
  import opened RestaurantSearchTool
  import opened ChatBox

  /** The groups the client should capture for a restaurant line. */
  function FieldsOf(r: Restaurant): Fields {
    Fields(r.name, DecimalString(r.rating), DecimalString(r.distance), DecimalString(r.price), r.cuisine)
  }

  /** What makes a restaurant's line read back unchanged: numbers without a minus
      sign, free text without line breaks, and no " (Rating: " in the cuisine (nor
      "(Rating: " at its start, where it would follow the label's space). */
  predicate Displayable(r: Restaurant) {
    && r.rating >= 0 && r.distance >= 0 && r.price >= 0
    && NoTerminator(r.name) && NoTerminator(r.cuisine)
    && !Contains(" " + r.cuisine, Marker)
  }

  /** The restaurant elements the client should show for a list, in list order. */
  function Cards(rs: seq<Restaurant>): seq<Element> {
    seq(|rs|, i requires 0 <= i < |rs| => RestaurantElement(FieldsOf(rs[i])))
  }

  lemma LineIsPatternLine(r: Restaurant)
    ensures RestaurantLine(r) == LineOf(FieldsOf(r))
  {
  }

  /** One restaurant line parses to that restaurant's fields. */
  lemma LineRoundTrip(r: Restaurant)
    requires Displayable(r)
    ensures Match(RestaurantLine(r)) == Some(FieldsOf(r))
  {
    LineIsPatternLine(r);
    MatchOfLine(FieldsOf(r));
  }

  lemma HeaderNoMatch()
    ensures Match(Header).None?
  {
    assert Header[0] == 'I';
    assert !StartsWith(Header, "- ") by { assert Header[..2][0] == 'I'; }
  }

  lemma HeaderTrimmed()
    ensures JsTrim(Header) == Header
  {
    assert Header[0] == 'I' && Header[|Header| - 1] == ':';
    TrimAppendedSpace(Header, [], IsJsSpace);
    assert Header + [] == Header;
  }

  /** The header is a line of plain text: no restaurant, nothing to trim, no break. */
  lemma HeaderIsText()
    ensures Match(Header).None? && JsTrim(Header) == Header && '\n' !in Header
  {
    HeaderNoMatch();
    HeaderTrimmed();
    HeaderSingleLine();
  }

  /** The summary of a non-empty displayable list, split into lines, is the header
      and one line per restaurant. */
  lemma DisplayableSplit(rs: seq<Restaurant>)
    requires rs != []
    requires forall i :: 0 <= i < |rs| ==> Displayable(rs[i])
    ensures SplitOn(Format(rs), '\n') == [Header] + Lines(rs)
  {
    forall i | 0 <= i < |rs| ensures SingleLine(rs[i]) {
      assert '\n' !in rs[i].name && '\n' !in rs[i].cuisine;
    }
    FormatSplit(rs);
  }

  /** A text line followed by a restaurant line: the text line alone is the first
      element. */
  lemma GroupOneText(lines: seq<string>, ms: seq<Option<Fields>>)
    requires |ms| == |lines| && |lines| >= 2 && ms[0].None? && ms[1].Some?
    ensures Group(lines, ms) == [TextElement(JsTrim(lines[0]))] + Group(lines[1..], ms[1..])
  {
    assert RunLength(ms[1..]) == 0;
    assert lines[..1] == [lines[0]];
    assert Join([lines[0]], '\n') == lines[0];
  }

  /** Lines that match with the restaurants' own fields group into their cards. */
  lemma {:induction false} GroupCards(lines: seq<string>, ms: seq<Option<Fields>>, rs: seq<Restaurant>)
    requires |ms| == |lines| == |rs|
    requires forall i :: 0 <= i < |rs| ==> ms[i] == Some(FieldsOf(rs[i]))
    ensures Group(lines, ms) == Cards(rs)
    decreases |rs|
  {
    if rs != [] {
      GroupRestaurantFirst(lines, ms);
      assert forall i :: 0 <= i < |rs| - 1 ==> ms[1..][i] == Some(FieldsOf(rs[1..][i]));
      GroupCards(lines[1..], ms[1..], rs[1..]);
      CardsCons(rs);
    }
  }

  lemma CardsCons(rs: seq<Restaurant>)
    requires rs != []
    ensures Cards(rs) == [RestaurantElement(FieldsOf(rs[0]))] + Cards(rs[1..])
  {
    assert forall i :: 1 <= i < |rs| ==> rs[i] == rs[1..][i - 1];
  }

  /** A text line, then lines that match with the restaurants' fields: the text
      line's element, then the restaurants' cards. */
  lemma GroupTextThenCards(lines: seq<string>, ms: seq<Option<Fields>>, rs: seq<Restaurant>)
    requires |ms| == |lines| == |rs| + 1 && rs != []
    requires ms[0].None? && forall i :: 0 <= i < |rs| ==> ms[i + 1] == Some(FieldsOf(rs[i]))
    ensures Group(lines, ms) == [TextElement(JsTrim(lines[0]))] + Cards(rs)
  {
    assert ms[0 + 1] == Some(FieldsOf(rs[0]));
    GroupOneText(lines, ms);
    assert forall i :: 0 <= i < |rs| ==> ms[1..][i] == Some(FieldsOf(rs[i]));
    GroupCards(lines[1..], ms[1..], rs);
  }

  lemma MatchOneLine(h: string, rs: seq<Restaurant>, i: int)
    requires 0 <= i < |rs| && Displayable(rs[i])
    ensures MatchAll([h] + Lines(rs))[i + 1] == Some(FieldsOf(rs[i]))
  {
    var lines := [h] + Lines(rs);
    assert lines[i + 1] == RestaurantLine(rs[i]);
    LineRoundTrip(rs[i]);
  }

  /** A line that is no restaurant, followed by the restaurant lines, matched line
      by line: the first fails, every other matches with its restaurant's fields. */
  lemma MatchTextThenLines(h: string, rs: seq<Restaurant>)
    requires Match(h).None?
    requires forall i :: 0 <= i < |rs| ==> Displayable(rs[i])
    ensures var ms := MatchAll([h] + Lines(rs));
      ms[0].None? && forall i :: 0 <= i < |rs| ==> ms[i + 1] == Some(FieldsOf(rs[i]))
  {
    assert ([h] + Lines(rs))[0] == h;
    forall i | 0 <= i < |rs| ensures MatchAll([h] + Lines(rs))[i + 1] == Some(FieldsOf(rs[i])) {
      MatchOneLine(h, rs, i);
    }
  }

  /** ... and so it parses to that line's text element and the restaurants' cards. */
  lemma ParseTextThenLines(h: string, rs: seq<Restaurant>)
    requires Match(h).None? && rs != []
    requires forall i :: 0 <= i < |rs| ==> Displayable(rs[i])
    ensures Parse([h] + Lines(rs)) == [TextElement(JsTrim(h))] + Cards(rs)
  {
    MatchTextThenLines(h, rs);
    GroupTextThenCards([h] + Lines(rs), MatchAll([h] + Lines(rs)), rs);
  }

  /** Round trip: the summary of a non-empty list of displayable restaurants parses
      to the header as one text element, then one restaurant element per restaurant,
      in list order, whose fields are the restaurant's name, rating, distance, price
      and cuisine. */
  lemma FormatRoundTrip(rs: seq<Restaurant>)
    requires rs != []
    requires forall i :: 0 <= i < |rs| ==> Displayable(rs[i])
    ensures Parse(SplitOn(Format(rs), '\n')) == [TextElement(Header)] + Cards(rs)
  {
    DisplayableSplit(rs);
    HeaderNoMatch();
    ParseTextThenLines(Header, rs);
    HeaderTrimmed();
  }

  lemma NoResultsNoMatch()
    ensures Match(NoResults).None?
  {
    assert NoResults[0] == 'I';
    assert !StartsWith(NoResults, "- ") by { assert NoResults[..2][0] == 'I'; }
  }

  lemma NoResultsTrimmed()
    ensures JsTrim(NoResults) == NoResults
  {
    assert NoResults[0] == 'I' && NoResults[|NoResults| - 1] == '.';
    TrimAppendedSpace(NoResults, [], IsJsSpace);
    assert NoResults + [] == NoResults;
  }

  /** The no-results message is a line of plain text too. */
  lemma NoResultsIsText()
    ensures Match(NoResults).None? && JsTrim(NoResults) == NoResults && '\n' !in NoResults
  {
    NoResultsNoMatch();
    NoResultsTrimmed();
    NoResultsSingleLine();
  }

  /** The empty-result message parses to a single text element and no restaurant. */
  lemma EmptyFormatRoundTrip()
    ensures Parse(SplitOn(Format([]), '\n')) == [TextElement(NoResults)]
  {
    NoResultsIsText();
    SplitOnPiece(NoResults, '\n');
    assert MatchAll([NoResults]) == [None];
    assert Join([NoResults], '\n') == NoResults;
  }

  /** What the client shows and what the server remembers agree: the i-th restaurant
      element is the restaurant whose id is the i-th of the result's ids. */
  lemma SummaryMatchesIds(rs: seq<Restaurant>)
    requires rs != []
    requires forall i :: 0 <= i < |rs| ==> Displayable(rs[i])
    ensures var es := Parse(SplitOn(Format(rs), '\n'));
      && |es| == |Ids(rs)| + 1
      && forall i :: 0 <= i < |rs| ==>
           es[i + 1] == RestaurantElement(FieldsOf(rs[i])) && Ids(rs)[i] == rs[i].id
  {
    FormatRoundTrip(rs);
  }
}
