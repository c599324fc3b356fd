/**
 * `parseReply` of the chat client: split the agent's reply at newlines, turn every
 * line that matches
 *
 *     /^- (.*) \(Rating: (\d+), Distance: (\d+), Price: (\d+), Cuisine: (.*)\)$/
 *
 * into a restaurant element holding the five captured groups, and gather each run of
 * other lines into one text element.
 *
 * The regular expression is replaced by a matcher written for this one pattern. Its
 * `.` does not match a line terminator, `\d` is an ASCII digit, and `^`/`$` anchor
 * the whole line. Backtracking tries the longest first group first; for a given
 * first group the rest of the line can match in at most one way, so the matcher
 * tries the split points from the right and takes the first that works.
 */
module ChatBox {
  import opened Wrappers
  import opened Strings

  /** The literal text that follows the first group. */
  const Marker: string := " (Rating: "

  /** The characters JavaScript's `.` does not match. */
  predicate IsLineTerminator(c: char) {
    c == '\n' || c == '\r' || c == '\U{2028}' || c == '\U{2029}'
  }

  predicate NoTerminator(s: string) {
    forall i :: 0 <= i < |s| ==> !IsLineTerminator(s[i])
  }

  /** A non-empty run of ASCII digits, what `(\d+)` captures. */
  predicate IsNumeral(s: string) {
    |s| > 0 && AllDigits(s)
  }

  /** The five capture groups, as the strings they captured. */
  datatype Fields = Fields(name: string, rating: string, distance: string, price: string, cuisine: string)

  /** What the groups after the first one can capture. */
  predicate TailGroups(f: Fields) {
    IsNumeral(f.rating) && IsNumeral(f.distance) && IsNumeral(f.price) && NoTerminator(f.cuisine)
  }

  /** What the five groups can capture. */
  predicate WellFormed(f: Fields) {
    NoTerminator(f.name) && TailGroups(f)
  }

  /** The part of a line that follows the first group. */
  function TailOf(f: Fields): string {
    Marker + (f.rating + (", Distance: " + (f.distance + (", Price: " + (f.price
      + (", Cuisine: " + (f.cuisine + ")")))))))
  }

  /** The line the pattern matches with these groups. */
  function LineOf(f: Fields): string {
    "- " + (f.name + TailOf(f))
  }

  // ---------------------------------------------------------------------------
  // The matcher
  // ---------------------------------------------------------------------------

  /** The length of the run of digits that `s` starts with. */
  function LeadingDigits(s: string): (n: nat)
    ensures n <= |s| && AllDigits(s[..n])
    ensures n < |s| ==> !IsDigit(s[n])
  {
    if s == [] || !IsDigit(s[0]) then 0
    else
      var m := LeadingDigits(s[1..]);
      assert s[..m + 1] == [s[0]] + s[1..][..m];
      m + 1
  }

  /** `t` with the literal prefix `lit` removed, if `t` starts with it. */
  function After(t: string, lit: string): Option<string> {
    if StartsWith(t, lit) then Some(t[|lit|..]) else None
  }

  /** `lit(\d+)` at the start of `t`: the digits and what follows them. Because the
      text after each number starts with a comma, `\d+` must take the whole run. */
  function NumberAfter(t: string, lit: string): Option<(string, string)> {
    match After(t, lit)
    case None => None
    case Some(u) =>
      var n := LeadingDigits(u);
      if n == 0 then None else Some((u[..n], u[n..]))
  }

  /** `, Cuisine: (.*)\)$` at the start of `t`: the last group. */
  function CuisineAfter(t: string): Option<string> {
    match After(t, ", Cuisine: ")
    case None => None
    case Some(v) =>
      if v == [] || v[|v| - 1] != ')' || !NoTerminator(v[..|v| - 1]) then None
      else Some(v[..|v| - 1])
  }

  lemma AfterSound(t: string, lit: string)
    ensures After(t, lit).Some? ==> t == lit + After(t, lit).value
  {
    if StartsWith(t, lit) {
      assert t == t[..|lit|] + t[|lit|..];
    }
  }

  lemma NumberAfterSound(t: string, lit: string)
    ensures NumberAfter(t, lit).Some? ==>
      var (d, rest) := NumberAfter(t, lit).value;
      && t == lit + (d + rest) && IsNumeral(d)
      && (rest == [] || !IsDigit(rest[0]))
  {
    AfterSound(t, lit);
    if After(t, lit).Some? {
      var u := After(t, lit).value;
      var n := LeadingDigits(u);
      assert u == u[..n] + u[n..];
    }
  }

  lemma CuisineAfterSound(t: string)
    ensures CuisineAfter(t).Some? ==>
      t == ", Cuisine: " + (CuisineAfter(t).value + ")") && NoTerminator(CuisineAfter(t).value)
  {
    AfterSound(t, ", Cuisine: ");
    if CuisineAfter(t).Some? {
      var v := After(t, ", Cuisine: ").value;
      assert v == v[..|v| - 1] + ")";
    }
  }

  /** Matches `t` against everything after the first group; the name is left empty. */
  function MatchTail(t: string): (r: Option<Fields>)
    ensures r.Some? ==> r.value.name == ""
  {
    match NumberAfter(t, Marker)
    case None => None
    case Some((rating, t1)) =>
      match NumberAfter(t1, ", Distance: ")
      case None => None
      case Some((distance, t2)) =>
        match NumberAfter(t2, ", Price: ")
        case None => None
        case Some((price, t3)) =>
          match CuisineAfter(t3)
          case None => None
          case Some(cuisine) => Some(Fields("", rating, distance, price, cuisine))
  }

  /** The first position at or after `from` that holds a line terminator, or `|L|`. */
  function FirstTerminator(L: string, from: nat): (r: nat)
    requires from <= |L|
    ensures from <= r <= |L|
    ensures forall k :: from <= k < r ==> !IsLineTerminator(L[k])
    ensures r < |L| ==> IsLineTerminator(L[r])
    decreases |L| - from
  {
    if from == |L| || IsLineTerminator(L[from]) then from else FirstTerminator(L, from + 1)
  }

  /** For every split point `p`, how the rest of the line `L[p..]` matches. */
  function Tails(L: string): (tails: seq<Option<Fields>>)
    ensures |tails| == |L| + 1
  {
    seq(|L| + 1, p requires 0 <= p <= |L| => MatchTail(L[p..]))
  }

  lemma TailsAt(L: string, k: nat)
    requires k <= |L|
    ensures Tails(L)[k] == MatchTail(L[k..])
  {
  }

  /** Tries the first group `L[2..p]`, then the shorter ones, using the tail matches
      of `tails`. */
  function MatchFrom(L: string, tails: seq<Option<Fields>>, p: nat): (r: Option<Fields>)
    requires 2 <= p <= |L| && |tails| == |L| + 1
    ensures r.Some? ==> 2 + |r.value.name| <= p
    decreases p
  {
    match tails[p]
    case Some(f) => Some(f.(name := L[2..p]))
    case None => if p == 2 then None else MatchFrom(L, tails, p - 1)
  }

  /** A first group `L[2..p]` followed by a matched tail makes up the whole line. */
  lemma NameThenTail(L: string, p: nat, f: Fields)
    requires StartsWith(L, "- ") && 2 <= p <= |L|
    requires forall k :: 2 <= k < p ==> !IsLineTerminator(L[k])
    requires TailGroups(f) && TailOf(f) == L[p..]
    ensures WellFormed(f.(name := L[2..p])) && LineOf(f.(name := L[2..p])) == L
  {
    var name := L[2..p];
    forall i | 0 <= i < |name| ensures !IsLineTerminator(name[i]) {
      assert name[i] == L[2 + i];
    }
    assert L == L[..2] + L[2..];
    assert L[2..] == name + L[p..];
  }

  /** `line.match(restaurantRegex)`: the groups of the match, or `None` for null. */
  function Match(L: string): Option<Fields> {
    if !StartsWith(L, "- ") then None else MatchFrom(L, Tails(L), FirstTerminator(L, 2))
  }

  /** What the tail matcher accepts is a tail of the pattern, with its groups. */
  lemma MatchTailSound(t: string)
    ensures MatchTail(t).Some? ==> TailGroups(MatchTail(t).value) && TailOf(MatchTail(t).value) == t
  {
    NumberAfterSound(t, Marker);
    if NumberAfter(t, Marker).Some? {
      var t1 := NumberAfter(t, Marker).value.1;
      NumberAfterSound(t1, ", Distance: ");
      if NumberAfter(t1, ", Distance: ").Some? {
        var t2 := NumberAfter(t1, ", Distance: ").value.1;
        NumberAfterSound(t2, ", Price: ");
        if NumberAfter(t2, ", Price: ").Some? {
          CuisineAfterSound(NumberAfter(t2, ", Price: ").value.1);
        }
      }
    }
  }

  lemma {:induction false} MatchFromSound(L: string, p: nat)
    requires StartsWith(L, "- ") && 2 <= p <= |L|
    requires forall k :: 2 <= k < p ==> !IsLineTerminator(L[k])
    ensures var r := MatchFrom(L, Tails(L), p);
      r.Some? ==> WellFormed(r.value) && LineOf(r.value) == L
    decreases p
  {
    var tails := Tails(L);
    TailsAt(L, p);
    MatchTailSound(L[p..]);
    if tails[p].Some? {
      NameThenTail(L, p, tails[p].value);
    } else if p > 2 {
      MatchFromSound(L, p - 1);
    }
  }

  /** Soundness: a line the matcher accepts is the pattern's line for the groups it
      returns, and those groups are what the pattern's groups can capture. */
  lemma MatchSound(L: string)
    ensures Match(L).Some? ==> WellFormed(Match(L).value) && LineOf(Match(L).value) == L
  {
    if StartsWith(L, "- ") {
      MatchFromSound(L, FirstTerminator(L, 2));
    }
  }

  // ---------------------------------------------------------------------------
  // What the matcher accepts
  // ---------------------------------------------------------------------------

  /** Leading digits stop at the first non-digit. */
  lemma {:induction false} LeadingDigitsOf(d: string, s: string)
    requires AllDigits(d)
    requires s != [] && !IsDigit(s[0])
    ensures LeadingDigits(d + s) == |d|
  {
    if d != [] {
      assert (d + s)[1..] == d[1..] + s;
      LeadingDigitsOf(d[1..], s);
    } else {
      assert d + s == s;
    }
  }

  lemma AfterOf(lit: string, r: string)
    ensures After(lit + r, lit) == Some(r)
  {
    assert (lit + r)[..|lit|] == lit;
    assert (lit + r)[|lit|..] == r;
  }

  lemma NumberAfterOf(lit: string, d: string, s: string)
    requires IsNumeral(d)
    requires s != [] && !IsDigit(s[0])
    ensures NumberAfter(lit + (d + s), lit) == Some((d, s))
  {
    AfterOf(lit, d + s);
    LeadingDigitsOf(d, s);
    assert (d + s)[..|d|] == d && (d + s)[|d|..] == s;
  }

  lemma CuisineAfterOf(c: string)
    requires NoTerminator(c)
    ensures CuisineAfter(", Cuisine: " + (c + ")")) == Some(c)
  {
    AfterOf(", Cuisine: ", c + ")");
    var v := c + ")";
    assert v[..|v| - 1] == c;
  }

  /** The tail of a line the pattern matches is matched with its own groups. */
  lemma MatchTailOf(f: Fields)
    requires TailGroups(f)
    ensures MatchTail(TailOf(f)) == Some(f.(name := ""))
  {
    var t3 := ", Cuisine: " + (f.cuisine + ")");
    var t2 := ", Price: " + (f.price + t3);
    var t1 := ", Distance: " + (f.distance + t2);
    NumberAfterOf(Marker, f.rating, t1);
    NumberAfterOf(", Distance: ", f.distance, t2);
    NumberAfterOf(", Price: ", f.price, t3);
    CuisineAfterOf(f.cuisine);
  }

  /** The position after the first group of a matched line is within the span the
      matcher starts from. */
  lemma NameBeforeTerminator(L: string, g: Fields)
    requires WellFormed(g) && LineOf(g) == L
    ensures StartsWith(L, "- ") && 2 + |g.name| <= FirstTerminator(L, 2)
    ensures L[2 + |g.name|..] == TailOf(g) && L[2..2 + |g.name|] == g.name
  {
    var n := |g.name|;
    assert L[..2] == "- ";
    assert L[2..] == g.name + TailOf(g);
    assert L[2..][..n] == g.name && L[2..][n..] == TailOf(g);
    forall k | 2 <= k < 2 + n ensures !IsLineTerminator(L[k]) {
      assert L[k] == g.name[k - 2];
    }
  }

  /** Scanning down from `p`, the matcher stops at a split point `q` whose tail
      matches, or earlier. */
  lemma {:induction false} MatchFromReaches(L: string, tails: seq<Option<Fields>>, p: nat, q: nat)
    requires 2 <= q <= p <= |L| && |tails| == |L| + 1
    requires tails[q].Some?
    ensures MatchFrom(L, tails, p).Some? && |MatchFrom(L, tails, p).value.name| >= q - 2
    decreases p
  {
    if tails[p].None? {
      MatchFromReaches(L, tails, p - 1, q);
    }
  }

  lemma TailMatches(L: string, g: Fields)
    requires WellFormed(g) && LineOf(g) == L && 2 + |g.name| <= |L|
    requires L[2 + |g.name|..] == TailOf(g)
    ensures Tails(L)[2 + |g.name|].Some?
  {
    MatchTailOf(g);
    TailsAt(L, 2 + |g.name|);
  }

  /** Completeness: every line the pattern matches is matched, and with a first group
      at least as long as any other way of matching it. */
  lemma MatchComplete(L: string, g: Fields)
    requires WellFormed(g) && LineOf(g) == L
    ensures Match(L).Some? && |Match(L).value.name| >= |g.name|
  {
    var q := 2 + |g.name|;
    var tails := Tails(L);
    NameBeforeTerminator(L, g);
    TailMatches(L, g);
    MatchFromReaches(L, tails, FirstTerminator(L, 2), q);
  }

  /** Two ways of matching a line that agree on the length of the first group agree
      on all five groups. */
  lemma MatchesWithEqualNames(g: Fields, h: Fields)
    requires WellFormed(g) && WellFormed(h) && LineOf(g) == LineOf(h)
    requires |g.name| == |h.name|
    ensures g == h
  {
    var L := LineOf(g);
    NameBeforeTerminator(L, g);
    NameBeforeTerminator(L, h);
    MatchTailOf(g);
    MatchTailOf(h);
  }

  /** `f` is the way of matching `L` with the longest first group. */
  ghost predicate LongestMatch(L: string, f: Fields) {
    && WellFormed(f) && LineOf(f) == L
    && forall g :: WellFormed(g) && LineOf(g) == L ==> |g.name| <= |f.name|
  }

  lemma MatchIsLongest(L: string)
    ensures Match(L).Some? ==> LongestMatch(L, Match(L).value)
  {
    MatchSound(L);
    if Match(L).Some? {
      var f := Match(L).value;
      forall g | WellFormed(g) && LineOf(g) == L ensures |g.name| <= |f.name| {
        MatchComplete(L, g);
      }
    }
  }

  lemma LongestIsMatch(L: string, f: Fields)
    requires LongestMatch(L, f)
    ensures Match(L) == Some(f)
  {
    MatchComplete(L, f);
    MatchSound(L);
    MatchesWithEqualNames(Match(L).value, f);
  }

  /** The matcher is the regular expression: it succeeds exactly on the lines the
      pattern matches, and its groups are those of the match with the longest first
      group, which is the one backtracking finds first. */
  lemma MatchIsGreedy(L: string, f: Fields)
    ensures Match(L) == Some(f) <==> LongestMatch(L, f)
  {
    MatchIsLongest(L);
    if LongestMatch(L, f) {
      LongestIsMatch(L, f);
    }
  }

  /** A line that does not start with "- " is never a restaurant line. */
  lemma NoDashNoMatch(L: string)
    requires !StartsWith(L, "- ")
    ensures Match(L).None?
  {
  }

  /** A line whose last group holds no " (Rating: " is matched with its own groups:
      no longer first group can be followed by the marker. */
  lemma MatchOfLine(g: Fields)
    requires WellFormed(g) && !Contains(" " + g.cuisine, Marker)
    ensures Match(LineOf(g)) == Some(g)
  {
    var L := LineOf(g);
    forall h | WellFormed(h) && LineOf(h) == L ensures |h.name| <= |g.name| {
      if |h.name| > |g.name| {
        NameBeforeTerminator(L, g);
        NameBeforeTerminator(L, h);
        var off := |h.name| - |g.name|;
        var X := TailOf(g);
        assert X == L[2 + |g.name|..];
        assert TailOf(h)[..10] == Marker;
        assert X[off..off + 10] == TailOf(h)[..10];
        NoLaterMarker(g, off);
      }
    }
    LongestIsMatch(L, g);
  }

  /** After its start, the tail of a line holds the marker only inside `" " + cuisine`. */
  lemma NoLaterMarker(g: Fields, off: nat)
    requires TailGroups(g) && !Contains(" " + g.cuisine, Marker)
    requires 0 < off && off + 10 <= |TailOf(g)|
    ensures TailOf(g)[off..off + 10] != Marker
  {
    var Q := g.rating + (", Distance: " + (g.distance + (", Price: " + (g.price + ", Cuisine:"))));
    var W := " " + g.cuisine;
    MarkerTailSplit(g.rating, g.distance, g.price, g.cuisine);
    assert '(' !in Q by {
      assert '(' !in g.rating && '(' !in g.distance && '(' !in g.price;
      NoParenEither(g.price, ", Cuisine:");
      NoParenEither(", Price: ", g.price + ", Cuisine:");
      NoParenEither(g.distance, ", Price: " + (g.price + ", Cuisine:"));
      NoParenEither(", Distance: ", g.distance + (", Price: " + (g.price + ", Cuisine:")));
      NoParenEither(g.rating, ", Distance: " + (g.distance + (", Price: " + (g.price + ", Cuisine:"))));
    }
    PrefixAndRest(Marker, Q);
    NoMarkerAfterStart(Marker + Q, W, off);
  }

  /** The tail of a line is the marker, then text without '(', then `" " + cuisine`
      and the closing parenthesis. */
  lemma MarkerTailSplit(r: string, d: string, p: string, c: string)
    ensures Marker + (r + (", Distance: " + (d + (", Price: " + (p + (", Cuisine: " + (c + ")")))))))
         == (Marker + (r + (", Distance: " + (d + (", Price: " + (p + ", Cuisine:")))))) + ((" " + c) + ")")
  {
    SpaceJoin(", Cuisine:", c);
    Regroup6(Marker, r, ", Distance: ", d, ", Price: ", p, ", Cuisine:", (" " + c) + ")");
  }

  lemma SpaceJoin(a: string, c: string)
    ensures (a + " ") + (c + ")") == a + ((" " + c) + ")")
  {
  }

  lemma Regroup6(a: string, b: string, c: string, d: string, e: string, f: string, h: string, z: string)
    ensures a + (b + (c + (d + (e + (f + (h + z)))))) == (a + (b + (c + (d + (e + (f + h)))))) + z
  {
    assert f + (h + z) == (f + h) + z;
    assert e + ((f + h) + z) == (e + (f + h)) + z;
    assert d + ((e + (f + h)) + z) == (d + (e + (f + h))) + z;
    assert c + ((d + (e + (f + h))) + z) == (c + (d + (e + (f + h)))) + z;
    assert b + ((c + (d + (e + (f + h)))) + z) == (b + (c + (d + (e + (f + h))))) + z;
  }

  lemma NoParenEither(a: string, b: string)
    requires '(' !in a && '(' !in b
    ensures '(' !in a + b
  {
  }

  lemma PrefixAndRest(a: string, b: string)
    ensures (a + b)[..|a|] == a && (a + b)[|a|..] == b
  {
  }

  /** In `P + (W + ")")`, where `P` is the marker followed by text without '(' and `W`
      starts with a space and holds no marker, no window after the start is the marker. */
  lemma NoMarkerAfterStart(P: string, W: string, off: nat)
    requires |P| >= 10 && P[..10] == Marker && '(' !in P[10..]
    requires |W| > 0 && W[0] == ' ' && !Contains(W, Marker)
    requires 0 < off && off + 10 <= |P + (W + ")")|
    ensures (P + (W + ")"))[off..off + 10] != Marker
  {
    var X := P + (W + ")");
    assert Marker[1] == '(';
    if off + 1 < |P| {
      MarkerOnlyOpensOnce(P, off + 1);
      assert X[off..off + 10][1] == P[off + 1];
    } else if off + 1 == |P| {
      assert X[off..off + 10][1] == W[0];
    } else {
      MarkerNotInLast(P, W, off);
    }
  }

  lemma MarkerOnlyOpensOnce(P: string, q: nat)
    requires |P| >= 10 && P[..10] == Marker && '(' !in P[10..]
    requires 2 <= q < |P|
    ensures P[q] != '('
  {
    if q < 10 {
      assert P[q] == Marker[q];
    } else {
      assert P[q] == P[10..][q - 10];
    }
  }

  /** A window that starts in `W + ")"` is the marker only if `W` holds it. */
  lemma MarkerNotInLast(P: string, W: string, off: nat)
    requires |P| <= off && off + 10 <= |P + (W + ")")|
    requires !Contains(W, Marker)
    ensures (P + (W + ")"))[off..off + 10] != Marker
  {
    var X := P + (W + ")");
    var j := off - |P|;
    if j + 10 <= |W| {
      assert X[off..off + 10] == W[j..j + 10];
      assert !OccursAt(W, Marker, j);
    } else {
      assert X[off..off + 10][9] == ')';
      assert Marker[9] == ' ';
    }
  }

  // ---------------------------------------------------------------------------
  // Splitting a reply into elements
  // ---------------------------------------------------------------------------

  /** `{ type: 'text', content }` or `{ type: 'restaurant', content: { ... } }`. */
  datatype Element = TextElement(content: string) | RestaurantElement(fields: Fields)

  /** `line.match(restaurantRegex)` for every line. */
  function MatchAll(lines: seq<string>): (ms: seq<Option<Fields>>)
    ensures |ms| == |lines|
    ensures forall i :: 0 <= i < |lines| ==> ms[i] == Match(lines[i])
  {
    seq(|lines|, i requires 0 <= i < |lines| => Match(lines[i]))
  }

  /** How many lines from the front failed to match. */
  function RunLength(ms: seq<Option<Fields>>): (n: nat)
    ensures n <= |ms|
    ensures forall k :: 0 <= k < n ==> ms[k].None?
    ensures n < |ms| ==> ms[n].Some?
  {
    if ms == [] || ms[0].Some? then 0 else 1 + RunLength(ms[1..])
  }

  /** The elements that lines with these match results stand for: a matching line
      is a restaurant element; a maximal run of other lines is one text element, the
      run joined by newlines and trimmed. */
  function Group(lines: seq<string>, ms: seq<Option<Fields>>): seq<Element>
    requires |ms| == |lines|
    decreases |lines|
  {
    if lines == [] then []
    else
      match ms[0]
      case Some(f) => [RestaurantElement(f)] + Group(lines[1..], ms[1..])
      case None =>
        var n := RunLength(ms);
        [TextElement(JsTrim(Join(lines[..n], '\n')))] + Group(lines[n..], ms[n..])
  }

  /** The elements a reply's lines stand for. */
  function Parse(lines: seq<string>): seq<Element> {
    Group(lines, MatchAll(lines))
  }

  /** What `currentText` holds after a run of lines: each line and a newline. */
  function Accumulated(lines: seq<string>): (acc: string)
    ensures |acc| >= |lines|
  {
    if lines == [] then "" else lines[0] + "\n" + Accumulated(lines[1..])
  }

  /** The text element pushed for what has accumulated, if anything has. */
  function Flush(acc: string): seq<Element> {
    if acc == "" then [] else [TextElement(JsTrim(acc))]
  }

  /** What `elements` and `currentText` hold between two calls of the callback. */
  datatype Progress = Progress(elements: seq<Element>, currentText: string)

  /** The callback on one line and its match: a matching line flushes the current
      text and adds its restaurant; any other line is added to the current text. */
  function Visit(p: Progress, line: string, m: Option<Fields>): Progress {
    match m
    case Some(f) => Progress(p.elements + Flush(p.currentText) + [RestaurantElement(f)], "")
    case None => Progress(p.elements, p.currentText + line + "\n")
  }

  /** `forEach` with that callback, given every line's match. */
  function VisitAll(p: Progress, lines: seq<string>, ms: seq<Option<Fields>>): Progress
    requires |ms| == |lines|
    decreases |lines|
  {
    if lines == [] then p else VisitAll(Visit(p, lines[0], ms[0]), lines[1..], ms[1..])
  }

  /** The final flush. */
  function Finish(p: Progress): seq<Element> {
    p.elements + Flush(p.currentText)
  }

  method ParseReply(text: string) returns (elements: seq<Element>)
    ensures elements == Parse(SplitOn(text, '\n'))
  {
    var lines := SplitOn(text, '\n');
    ghost var ms := MatchAll(lines);
    elements := [];
    var currentText := "";
    VisitAllFromStart(lines, ms);
    var i := 0;
    while i < |lines|
      invariant 0 <= i <= |lines|
      invariant Finish(VisitAll(Progress(elements, currentText), lines[i..], ms[i..])) == Group(lines, ms)
    {
      VisitAllAt(Progress(elements, currentText), lines, ms, i);
      var m := MatchLine(lines, i);
      elements, currentText := VisitLine(elements, currentText, lines[i], m);
      i := i + 1;
    }
    VisitAllAtEnd(Progress(elements, currentText), lines, ms);
    if currentText != "" {
      elements := elements + [TextElement(JsTrim(currentText))];
    } else {
      AppendNothing(elements);
    }
  }

  /** The pattern's `exec` on the i-th line. */
  method MatchLine(lines: seq<string>, i: int) returns (m: Option<Fields>)
    requires 0 <= i < |lines|
    ensures m == MatchAll(lines)[i]
  {
    m := Match(lines[i]);
  }

  /** The callback's body on one line: a matching line flushes the current text and
      adds its restaurant; any other line is added to the current text. */
  method VisitLine(elements: seq<Element>, currentText: string, line: string, m: Option<Fields>)
    returns (elements': seq<Element>, currentText': string)
    ensures Progress(elements', currentText') == Visit(Progress(elements, currentText), line, m)
  {
    elements', currentText' := elements, currentText;
    if m.Some? {
      VisitRestaurantLine(Progress(elements, currentText), line, m.value);
      if currentText' != "" {
        elements' := elements' + [TextElement(JsTrim(currentText'))];
        currentText' := "";
      }
      elements' := elements' + [RestaurantElement(m.value)];
    } else {
      currentText' := currentText' + line + "\n";
    }
  }

  lemma VisitRestaurantLine(p: Progress, line: string, f: Fields)
    ensures Visit(p, line, Some(f)).elements
         == (if p.currentText != "" then p.elements + [TextElement(JsTrim(p.currentText))] else p.elements)
            + [RestaurantElement(f)]
    ensures Visit(p, line, Some(f)).currentText == ""
  {
    if p.currentText == "" {
      AppendNothing(p.elements);
    }
  }

  lemma AppendNothing(es: seq<Element>)
    ensures es + [] == es
  {
  }

  lemma VisitAllFromStart(lines: seq<string>, ms: seq<Option<Fields>>)
    requires |ms| == |lines|
    ensures Finish(VisitAll(Progress([], ""), lines[0..], ms[0..])) == Group(lines, ms)
  {
    VisitAllGroups([], [], [], lines, ms);
    assert [] + lines == lines && [] + ms == ms;
    assert lines[0..] == lines && ms[0..] == ms;
  }

  lemma VisitAllAt(p: Progress, lines: seq<string>, ms: seq<Option<Fields>>, i: nat)
    requires |ms| == |lines| && i < |lines|
    ensures VisitAll(p, lines[i..], ms[i..]) == VisitAll(Visit(p, lines[i], ms[i]), lines[i + 1..], ms[i + 1..])
  {
    assert lines[i..][0] == lines[i] && lines[i..][1..] == lines[i + 1..];
    assert ms[i..][0] == ms[i] && ms[i..][1..] == ms[i + 1..];
  }

  lemma VisitAllAtEnd(p: Progress, lines: seq<string>, ms: seq<Option<Fields>>)
    requires |ms| == |lines|
    ensures VisitAll(p, lines[|lines|..], ms[|lines|..]) == p
  {
    assert lines[|lines|..] == [];
  }

  /** The callback run over the lines, started with the elements `es` and the text
      of a run of lines that did not match, ends with what grouping all those lines
      gives. */
  lemma VisitAllGroups(es: seq<Element>, run: seq<string>, rms: seq<Option<Fields>>,
                       lines: seq<string>, ms: seq<Option<Fields>>)
    requires |rms| == |run| && |ms| == |lines|
    requires forall k :: 0 <= k < |rms| ==> rms[k].None?
    ensures Finish(VisitAll(Progress(es, Accumulated(run)), lines, ms)) == es + Group(run + lines, rms + ms)
    decreases |lines|, 1
  {
    if lines == [] {
      assert run + lines == run && rms + ms == rms;
      RunAtEnd(run, rms);
    } else if ms[0].None? {
      VisitAllGroupsOther(es, run, rms, lines, ms);
    } else {
      VisitAllGroupsRestaurant(es, run, rms, lines, ms);
    }
  }

  lemma VisitAllGroupsOther(es: seq<Element>, run: seq<string>, rms: seq<Option<Fields>>,
                            lines: seq<string>, ms: seq<Option<Fields>>)
    requires |rms| == |run| && |ms| == |lines| && lines != [] && ms[0].None?
    requires forall k :: 0 <= k < |rms| ==> rms[k].None?
    ensures Finish(VisitAll(Progress(es, Accumulated(run)), lines, ms)) == es + Group(run + lines, rms + ms)
    decreases |lines|, 0
  {
    VisitOther(es, run, lines, ms);
    var rms' := rms + [ms[0]];
    assert forall k :: 0 <= k < |rms'| ==> rms'[k].None?;
    VisitAllGroups(es, run + [lines[0]], rms', lines[1..], ms[1..]);
    MoveFirst(run, lines);
    MoveFirst(rms, ms);
  }

  lemma VisitAllGroupsRestaurant(es: seq<Element>, run: seq<string>, rms: seq<Option<Fields>>,
                                 lines: seq<string>, ms: seq<Option<Fields>>)
    requires |rms| == |run| && |ms| == |lines| && lines != [] && ms[0].Some?
    requires forall k :: 0 <= k < |rms| ==> rms[k].None?
    ensures Finish(VisitAll(Progress(es, Accumulated(run)), lines, ms)) == es + Group(run + lines, rms + ms)
    decreases |lines|, 0
  {
    var f := ms[0].value;
    var flushed := Flush(Accumulated(run));
    VisitRestaurant(es, run, lines, ms);
    VisitAllGroups(es + flushed + [RestaurantElement(f)], [], [], lines[1..], ms[1..]);
    assert [] + lines[1..] == lines[1..] && [] + ms[1..] == ms[1..];
    GroupRunThenRestaurant(run, rms, lines, ms);
    ConcatAssoc(es, flushed, [RestaurantElement(f)], Group(lines[1..], ms[1..]));
  }

  lemma VisitOther(es: seq<Element>, run: seq<string>, lines: seq<string>, ms: seq<Option<Fields>>)
    requires |ms| == |lines| && lines != [] && ms[0].None?
    ensures VisitAll(Progress(es, Accumulated(run)), lines, ms)
         == VisitAll(Progress(es, Accumulated(run + [lines[0]])), lines[1..], ms[1..])
  {
    AccumulatedSnoc(run, lines[0]);
  }

  lemma VisitRestaurant(es: seq<Element>, run: seq<string>, lines: seq<string>, ms: seq<Option<Fields>>)
    requires |ms| == |lines| && lines != [] && ms[0].Some?
    ensures VisitAll(Progress(es, Accumulated(run)), lines, ms)
         == VisitAll(Progress(es + Flush(Accumulated(run)) + [RestaurantElement(ms[0].value)],
                              Accumulated([])), lines[1..], ms[1..])
  {
  }

  /** A run of other lines, then a matching line: the run's text element, the line's
      restaurant, then the rest. */
  lemma GroupRunThenRestaurant(run: seq<string>, rms: seq<Option<Fields>>,
                               lines: seq<string>, ms: seq<Option<Fields>>)
    requires |rms| == |run| && |ms| == |lines|
    requires forall k :: 0 <= k < |rms| ==> rms[k].None?
    requires lines != [] && ms[0].Some?
    ensures Group(run + lines, rms + ms)
         == Flush(Accumulated(run)) + [RestaurantElement(ms[0].value)] + Group(lines[1..], ms[1..])
  {
    RunPrefix(rms, ms);
    RunThenRestaurant(run + lines, rms + ms, |run|);
    Slices(run, lines);
    Slices(rms, ms);
  }

  lemma RunPrefix(rms: seq<Option<Fields>>, ms: seq<Option<Fields>>)
    requires forall k :: 0 <= k < |rms| ==> rms[k].None?
    requires ms != []
    ensures (rms + ms)[|rms|] == ms[0]
    ensures forall k :: 0 <= k < |rms| ==> (rms + ms)[k].None?
  {
  }

  lemma MoveFirst<T>(a: seq<T>, b: seq<T>)
    requires b != []
    ensures a + [b[0]] + b[1..] == a + b
  {
    assert [b[0]] + b[1..] == b;
  }

  lemma Slices<T>(a: seq<T>, b: seq<T>)
    requires b != []
    ensures (a + b)[..|a|] == a && (a + b)[|a| + 1..] == b[1..]
  {
  }

  lemma ConcatAssoc(a: seq<Element>, b: seq<Element>, c: seq<Element>, d: seq<Element>)
    ensures a + b + c + d == a + (b + c + d)
  {
  }

  lemma {:induction false} AccumulatedSnoc(lines: seq<string>, line: string)
    ensures Accumulated(lines + [line]) == Accumulated(lines) + line + "\n"
  {
    if lines == [] {
      assert [line][1..] == [];
    } else {
      assert (lines + [line])[1..] == lines[1..] + [line];
      AccumulatedSnoc(lines[1..], line);
    }
  }

  lemma {:induction false} AccumulatedJoin(lines: seq<string>)
    requires lines != []
    ensures Accumulated(lines) == Join(lines, '\n') + "\n"
  {
    if |lines| > 1 {
      AccumulatedJoin(lines[1..]);
    }
  }

  /** Trimming what has accumulated gives the trimmed run joined by newlines. */
  lemma FlushRun(lines: seq<string>)
    requires lines != []
    ensures Flush(Accumulated(lines)) == [TextElement(JsTrim(Join(lines, '\n')))]
  {
    AccumulatedJoin(lines);
    TrimAppendOneSpace(Join(lines, '\n'), '\n', IsJsSpace);
  }

  /** A matching line after `n` other lines ends a run of length `n`. */
  lemma RunLengthIs(ms: seq<Option<Fields>>, n: nat)
    requires n < |ms| && ms[n].Some?
    requires forall k :: 0 <= k < n ==> ms[k].None?
    ensures RunLength(ms) == n
  {
  }

  lemma GroupTextFirst(lines: seq<string>, ms: seq<Option<Fields>>)
    requires |ms| == |lines| && lines != [] && ms[0].None?
    ensures var n := RunLength(ms);
      Group(lines, ms) == [TextElement(JsTrim(Join(lines[..n], '\n')))] + Group(lines[n..], ms[n..])
  {
  }

  lemma GroupRestaurantFirst(lines: seq<string>, ms: seq<Option<Fields>>)
    requires |ms| == |lines| && lines != [] && ms[0].Some?
    ensures Group(lines, ms) == [RestaurantElement(ms[0].value)] + Group(lines[1..], ms[1..])
  {
  }

  lemma RunThenRestaurant(lines: seq<string>, ms: seq<Option<Fields>>, n: nat)
    requires |ms| == |lines| && n < |lines| && ms[n].Some?
    requires forall k :: 0 <= k < n ==> ms[k].None?
    ensures Group(lines, ms) ==
      Flush(Accumulated(lines[..n])) + [RestaurantElement(ms[n].value)] + Group(lines[n + 1..], ms[n + 1..])
  {
    if n == 0 {
      GroupRestaurantFirst(lines, ms);
      assert lines[..0] == [];
    } else {
      RunLengthIs(ms, n);
      GroupTextFirst(lines, ms);
      FlushRun(lines[..n]);
      var rest, mrest := lines[n..], ms[n..];
      assert mrest[0] == ms[n];
      GroupRestaurantFirst(rest, mrest);
      assert rest[1..] == lines[n + 1..];
      assert mrest[1..] == ms[n + 1..];
      var text := Flush(Accumulated(lines[..n]));
      var card := [RestaurantElement(ms[n].value)];
      var after := Group(lines[n + 1..], ms[n + 1..]);
      assert Group(lines, ms) == text + (card + after);
      assert text + (card + after) == text + card + after;
    }
  }

  lemma RunAtEnd(lines: seq<string>, ms: seq<Option<Fields>>)
    requires |ms| == |lines|
    requires forall k :: 0 <= k < |lines| ==> ms[k].None?
    ensures Group(lines, ms) == Flush(Accumulated(lines))
  {
    if lines != [] {
      FlushRun(lines);
      var n := RunLength(ms);
      assert n == |lines|;
      GroupTextFirst(lines, ms);
      assert lines[..n] == lines;
      assert lines[n..] == [] && ms[n..] == [];
    }
  }

  // ---------------------------------------------------------------------------
  // Properties of the split
  // ---------------------------------------------------------------------------

  /** The groups of the restaurant elements, in order. */
  function Restaurants(es: seq<Element>): seq<Fields> {
    if es == [] then []
    else (if es[0].RestaurantElement? then [es[0].fields] else []) + Restaurants(es[1..])
  }

  /** The groups of the matching lines, in order. */
  function MatchedLines(ms: seq<Option<Fields>>): seq<Fields> {
    if ms == [] then [] else (if ms[0].Some? then [ms[0].value] else []) + MatchedLines(ms[1..])
  }

  lemma {:induction false} RestaurantsAppend(a: seq<Element>, b: seq<Element>)
    ensures Restaurants(a + b) == Restaurants(a) + Restaurants(b)
  {
    if a != [] {
      assert (a + b)[1..] == a[1..] + b;
      RestaurantsAppend(a[1..], b);
    } else {
      assert a + b == b;
    }
  }

  lemma {:induction false} MatchedSkip(ms: seq<Option<Fields>>, n: nat)
    requires n <= |ms|
    requires forall k :: 0 <= k < n ==> ms[k].None?
    ensures MatchedLines(ms) == MatchedLines(ms[n..])
  {
    if n > 0 {
      MatchedSkip(ms[1..], n - 1);
      assert ms[1..][n - 1..] == ms[n..];
    }
  }

  lemma {:induction false} GroupRestaurants(lines: seq<string>, ms: seq<Option<Fields>>)
    requires |ms| == |lines|
    ensures Restaurants(Group(lines, ms)) == MatchedLines(ms)
    decreases |lines|
  {
    if lines != [] {
      match ms[0]
      case Some(f) =>
        RestaurantsAppend([RestaurantElement(f)], Group(lines[1..], ms[1..]));
        GroupRestaurants(lines[1..], ms[1..]);
      case None =>
        var n := RunLength(ms);
        var text := TextElement(JsTrim(Join(lines[..n], '\n')));
        RestaurantsAppend([text], Group(lines[n..], ms[n..]));
        GroupRestaurants(lines[n..], ms[n..]);
        MatchedSkip(ms, n);
    }
  }

  /** The restaurant elements are the matching lines' groups, one per matching line
      and in line order. */
  lemma RestaurantsAreMatchedLines(lines: seq<string>)
    ensures Restaurants(Parse(lines)) == MatchedLines(MatchAll(lines))
    ensures |Restaurants(Parse(lines))| == |MatchedLines(MatchAll(lines))|
  {
    GroupRestaurants(lines, MatchAll(lines));
  }

  /** No two text elements are next to each other: every run is maximal. */
  predicate NoAdjacentText(es: seq<Element>) {
    forall i :: 0 <= i < |es| - 1 ==> !(es[i].TextElement? && es[i + 1].TextElement?)
  }

  /** An element in front of a list without adjacent text elements keeps it so, if
      a text element is followed by a restaurant or nothing. */
  lemma NoAdjacentCons(e: Element, rest: seq<Element>)
    requires NoAdjacentText(rest)
    requires e.TextElement? && rest != [] ==> rest[0].RestaurantElement?
    ensures NoAdjacentText([e] + rest)
  {
    var es := [e] + rest;
    forall i | 0 <= i < |es| - 1 ensures !(es[i].TextElement? && es[i + 1].TextElement?) {
      if i > 0 {
        assert es[i] == rest[i - 1] && es[i + 1] == rest[i];
      }
    }
  }

  /** After a run of other lines, grouping starts with a restaurant or is empty. */
  lemma GroupAfterRun(lines: seq<string>, ms: seq<Option<Fields>>)
    requires |ms| == |lines| && lines != [] && ms[0].None?
    ensures var n := RunLength(ms);
      var rest := Group(lines[n..], ms[n..]);
      rest != [] ==> rest[0].RestaurantElement?
  {
    var n := RunLength(ms);
    if n < |ms| {
      GroupRestaurantFirst(lines[n..], ms[n..]);
    }
  }

  lemma {:induction false} GroupNoAdjacentText(lines: seq<string>, ms: seq<Option<Fields>>)
    requires |ms| == |lines|
    ensures NoAdjacentText(Group(lines, ms))
    decreases |lines|
  {
    if lines != [] {
      if ms[0].Some? {
        GroupRestaurantFirst(lines, ms);
        GroupNoAdjacentText(lines[1..], ms[1..]);
        NoAdjacentCons(RestaurantElement(ms[0].value), Group(lines[1..], ms[1..]));
      } else {
        var n := RunLength(ms);
        GroupTextFirst(lines, ms);
        GroupAfterRun(lines, ms);
        GroupNoAdjacentText(lines[n..], ms[n..]);
        NoAdjacentCons(TextElement(JsTrim(Join(lines[..n], '\n'))), Group(lines[n..], ms[n..]));
      }
    }
  }

  lemma ParseNoAdjacentText(lines: seq<string>)
    ensures NoAdjacentText(Parse(lines))
  {
    GroupNoAdjacentText(lines, MatchAll(lines));
  }

  /** An empty reply is one empty text element. */
  lemma ParseEmptyReply()
    ensures Parse(SplitOn("", '\n')) == [TextElement("")]
  {
    assert SplitOn("", '\n') == [""];
    assert Match("").None?;
    assert MatchAll([""]) == [None];
    assert Join([""], '\n') == "";
  }
}
