/**
 * The CSV catalog as the loaders read it, line by line: the cuisine file gives a map
 * from cuisine id to name, the restaurant file a list of restaurants whose cuisine
 * name is looked up in that map. A file is the sequence of the lines `readLine`
 * returns; its first line is a header and is never looked at.
 *
 * These functions say what a load produces; `CatalogLoader` holds the loops.
 */
module CatalogCsv {
  import opened Wrappers
  import opened Strings
  import opened Model

  const UnknownCuisine: string := "Unknown"

  /** The lines after the header; a file without lines has no header either. */
  function Body(file: seq<string>): (rows: seq<string>)
    ensures file != [] ==> rows == file[1..]
    ensures file == [] ==> rows == []
  {
    if file == [] then [] else file[1..]
  }

  /** A line that trims to nothing. */
  predicate Blank(line: string) {
    JavaTrim(line) == ""
  }

  // ---------------------------------------------------------------------------
  // The cuisine file
  // ---------------------------------------------------------------------------

  /** What one line of the cuisine file does: nothing, a map entry, or a
      `NumberFormatException` that nobody catches. */
  datatype CuisineLine = SkipLine | Entry(id: int, name: string) | BadCuisineId

  function CuisineRow(line: string): CuisineLine {
    if Blank(line) then SkipLine
    else
      var parts := JavaSplit(line, ',');
      if |parts| >= 2 then
        match ParseInt(JavaTrim(parts[0]))
        case None => BadCuisineId
        case Some(id) => Entry(id, JavaTrim(parts[1]))
      else SkipLine
  }

  /** What each row of the cuisine file does, in row order. */
  function CuisineLines(rows: seq<string>): (ls: seq<CuisineLine>)
    ensures |ls| == |rows|
  {
    if rows == [] then [] else [CuisineRow(rows[0])] + CuisineLines(rows[1..])
  }

  lemma {:induction false} CuisineLineAt(rows: seq<string>, i: int)
    requires 0 <= i < |rows|
    ensures CuisineLines(rows)[i] == CuisineRow(rows[i])
  {
    var ls := CuisineLines(rows);
    assert ls == [CuisineRow(rows[0])] + CuisineLines(rows[1..]);
    if i > 0 {
      CuisineLineAt(rows[1..], i - 1);
      assert rows[1..][i - 1] == rows[i];
      assert ls[i] == CuisineLines(rows[1..])[i - 1];
    }
  }

  lemma CuisineLinesAt(rows: seq<string>)
    ensures forall i :: 0 <= i < |rows| ==> CuisineLines(rows)[i] == CuisineRow(rows[i])
  {
    forall i | 0 <= i < |rows| ensures CuisineLines(rows)[i] == CuisineRow(rows[i]) {
      CuisineLineAt(rows, i);
    }
  }

  /** The map after applying the rows' effects in order: each entry is put into the
      map, replacing an earlier name for its id; after a bad id there is no map. */
  function Apply(ls: seq<CuisineLine>): Option<map<int, string>> {
    if ls == [] then Some(map[]) else Step(Apply(ls[..|ls| - 1]), ls[|ls| - 1])
  }

  /** The effect of one row on the map read so far. */
  function Step(acc: Option<map<int, string>>, l: CuisineLine): Option<map<int, string>> {
    match acc
    case None => None
    case Some(m) =>
      match l
      case SkipLine => Some(m)
      case Entry(id, name) => Some(m[id := name])
      case BadCuisineId => None
  }

  /** The map after reading the given rows in order, or `None` once a row's id fails
      to parse. */
  function CuisinesOf(rows: seq<string>): Option<map<int, string>> {
    Apply(CuisineLines(rows))
  }

  /** `loadCuisines` on a whole file. */
  function CuisinesFromFile(file: seq<string>): Option<map<int, string>> {
    CuisinesOf(Body(file))
  }

  // ---------------------------------------------------------------------------
  // The restaurant file
  // ---------------------------------------------------------------------------

  /** The restaurant a line of the restaurant file describes, or `None` when the line
      is skipped: blank, fewer than six fields, or one of the five numeric fields not
      a 32-bit decimal. */
  function RestaurantRow(line: string, cuisines: map<int, string>): Option<Restaurant> {
    if Blank(line) then None
    else
      var parts := JavaSplit(line, ',');
      if |parts| < 6 then None
      else
        var id := ParseInt(JavaTrim(parts[0]));
        var rating := ParseInt(JavaTrim(parts[2]));
        var distance := ParseInt(JavaTrim(parts[3]));
        var price := ParseInt(JavaTrim(parts[4]));
        var cuisineId := ParseInt(JavaTrim(parts[5]));
        if id.None? || rating.None? || distance.None? || price.None? || cuisineId.None? then None
        else
          var cuisine := if cuisineId.value in cuisines then cuisines[cuisineId.value] else UnknownCuisine;
          Some(Restaurant(id.value, JavaTrim(parts[1]), rating.value, distance.value, price.value,
                          cuisineId.value, cuisine))
  }

  /** What each row of the restaurant file reads as, in row order. */
  function Readings(rows: seq<string>, cuisines: map<int, string>): (os: seq<Option<Restaurant>>)
    ensures |os| == |rows|
  {
    if rows == [] then [] else [RestaurantRow(rows[0], cuisines)] + Readings(rows[1..], cuisines)
  }

  lemma {:induction false} ReadingAt(rows: seq<string>, cuisines: map<int, string>, i: int)
    requires 0 <= i < |rows|
    ensures Readings(rows, cuisines)[i] == RestaurantRow(rows[i], cuisines)
  {
    var os := Readings(rows, cuisines);
    assert os == [RestaurantRow(rows[0], cuisines)] + Readings(rows[1..], cuisines);
    if i > 0 {
      ReadingAt(rows[1..], cuisines, i - 1);
      assert rows[1..][i - 1] == rows[i];
      assert os[i] == Readings(rows[1..], cuisines)[i - 1];
    }
  }

  lemma ReadingsAt(rows: seq<string>, cuisines: map<int, string>)
    ensures forall i :: 0 <= i < |rows| ==> Readings(rows, cuisines)[i] == RestaurantRow(rows[i], cuisines)
  {
    forall i | 0 <= i < |rows| ensures Readings(rows, cuisines)[i] == RestaurantRow(rows[i], cuisines) {
      ReadingAt(rows, cuisines, i);
    }
  }

  /** What one reading adds to the list. */
  function Emit(o: Option<Restaurant>): seq<Restaurant> {
    match o
    case None => []
    case Some(r) => [r]
  }

  /** The restaurants of the accepted rows, in row order. */
  function Accepted(os: seq<Option<Restaurant>>): seq<Restaurant> {
    if os == [] then [] else Accepted(os[..|os| - 1]) + Emit(os[|os| - 1])
  }

  /** The restaurants the given rows add, in row order. */
  function RestaurantsOf(rows: seq<string>, cuisines: map<int, string>): seq<Restaurant> {
    Accepted(Readings(rows, cuisines))
  }

  /** `loadRestaurants` on a whole file: what it appends to the list. */
  function RestaurantsFromFile(file: seq<string>, cuisines: map<int, string>): seq<Restaurant> {
    RestaurantsOf(Body(file), cuisines)
  }

  // ---------------------------------------------------------------------------
  // Skip rules
  // ---------------------------------------------------------------------------

  /** The header is never read: any two headers give the same load. */
  lemma HeaderIgnored(h1: string, h2: string, rows: seq<string>, cuisines: map<int, string>)
    ensures RestaurantsFromFile([h1] + rows, cuisines) == RestaurantsFromFile([h2] + rows, cuisines)
    ensures CuisinesFromFile([h1] + rows) == CuisinesFromFile([h2] + rows)
  {
    assert ([h1] + rows)[1..] == rows;
    assert ([h2] + rows)[1..] == rows;
  }

  /** A whitespace-only line is skipped in both files. */
  lemma BlankLineSkipped(line: string, cuisines: map<int, string>)
    requires forall k :: 0 <= k < |line| ==> IsJavaSpace(line[k])
    ensures RestaurantRow(line, cuisines).None? && CuisineRow(line) == SkipLine
  {
    DropLeadingSpace(line, [], IsJavaSpace);
    assert line + [] == line;
  }

  /** A restaurant line with fewer than six fields, counted after Java drops the
      trailing empty ones, is skipped. */
  lemma ShortRowSkipped(line: string, cuisines: map<int, string>)
    requires |JavaSplit(line, ',')| < 6
    ensures RestaurantRow(line, cuisines).None?
  {
  }

  /** A restaurant line whose id, rating, distance, price or cuisine id does not
      parse is skipped. */
  lemma BadNumberSkipped(line: string, cuisines: map<int, string>, column: nat)
    requires column in {0, 2, 3, 4, 5}
    requires |JavaSplit(line, ',')| > column
    requires ParseInt(JavaTrim(JavaSplit(line, ',')[column])).None?
    ensures RestaurantRow(line, cuisines).None?
  {
  }

  /** Trailing commas do not make up missing fields: a row of five values followed by
      an empty sixth field is short. */
  lemma TrailingEmptyFieldDropped(a: string, b: string, c: string, d: string, e: string,
                                  cuisines: map<int, string>)
    requires ',' !in a && ',' !in b && ',' !in c && ',' !in d && ',' !in e && e != ""
    ensures RestaurantRow(a + "," + b + "," + c + "," + d + "," + e + ",", cuisines).None?
  {
    var line := a + "," + b + "," + c + "," + d + "," + e + ",";
    var parts := [a, b, c, d, e, ""];
    assert Join(parts, ',') == line by {
      assert Join(parts[5..], ',') == "";
      assert Join(parts[4..], ',') == e + "," + "";
      assert Join(parts[3..], ',') == d + "," + (e + "," + "");
      assert Join(parts[2..], ',') == c + "," + (d + "," + (e + "," + ""));
      assert Join(parts[1..], ',') == b + "," + (c + "," + (d + "," + (e + "," + "")));
    }
    assert |JavaSplit(line, ',')| == 5 by {
      SplitOnJoin(parts, ',');
      assert ',' in line by { assert line[|line| - 1] == ','; }
      var kept := parts[..5];
      assert kept[4] == e;
      assert DropTrailingEmpty(parts) == DropTrailingEmpty(kept);
    }
  }

  // ---------------------------------------------------------------------------
  // Accepted rows
  // ---------------------------------------------------------------------------

  /** Every field of a row, each free of commas; `extra` are the columns after the
      sixth. */
  function RowText(id: int, name: string, rating: int, distance: int, price: int, cuisineId: int,
                   extra: seq<string>): string {
    Join(RowFields(id, name, rating, distance, price, cuisineId, extra), ',')
  }

  /** The fields of a row, in column order. */
  function RowFields(id: int, name: string, rating: int, distance: int, price: int, cuisineId: int,
                     extra: seq<string>): (f: seq<string>)
    ensures |f| == 6 + |extra| && f[6..] == extra
    ensures f[0] == DecimalString(id) && f[1] == name && f[2] == DecimalString(rating)
    ensures f[3] == DecimalString(distance) && f[4] == DecimalString(price) && f[5] == DecimalString(cuisineId)
  {
    [DecimalString(id), name, DecimalString(rating), DecimalString(distance),
     DecimalString(price), DecimalString(cuisineId)] + extra
  }

  /** Java's split gives the written fields back, and the row is not blank. */
  lemma RowSplits(id: int, name: string, rating: int, distance: int, price: int, cuisineId: int,
                  extra: seq<string>)
    requires ',' !in name
    requires forall i :: 0 <= i < |extra| ==> ',' !in extra[i]
    requires extra != [] ==> extra[|extra| - 1] != ""
    ensures var line := RowText(id, name, rating, distance, price, cuisineId, extra);
      JavaSplit(line, ',') == RowFields(id, name, rating, distance, price, cuisineId, extra) && !Blank(line)
  {
    var parts := RowFields(id, name, rating, distance, price, cuisineId, extra);
    var line := Join(parts, ',');
    assert line == RowText(id, name, rating, distance, price, cuisineId, extra);
    forall i | 0 <= i < |parts| ensures ',' !in parts[i] {
      if i != 1 && i < 6 {
        NoCommaInDecimal(parts[i]);
      }
    }
    assert parts[|parts| - 1] != "";
    JavaSplitJoin(parts, ',');
    JoinStartsWithFirst(parts, ',');
    NonSpaceNotBlank(line);
  }

  /** A row written from 32-bit values reads back as the restaurant with those values,
      its name trimmed, the columns after the sixth ignored, and the cuisine name
      looked up in the map or "Unknown" when the id is not in it. */
  lemma RowRoundTrip(id: int, name: string, rating: int, distance: int, price: int, cuisineId: int,
                     extra: seq<string>, cuisines: map<int, string>)
    requires IsInt32(id) && IsInt32(rating) && IsInt32(distance) && IsInt32(price) && IsInt32(cuisineId)
    requires ',' !in name
    requires forall i :: 0 <= i < |extra| ==> ',' !in extra[i]
    requires extra != [] ==> extra[|extra| - 1] != ""
    ensures RestaurantRow(RowText(id, name, rating, distance, price, cuisineId, extra), cuisines)
         == Some(Restaurant(id, JavaTrim(name), rating, distance, price, cuisineId,
                            if cuisineId in cuisines then cuisines[cuisineId] else UnknownCuisine))
  {
    var line := RowText(id, name, rating, distance, price, cuisineId, extra);
    RowSplits(id, name, rating, distance, price, cuisineId, extra);
    NumberField(id);
    NumberField(rating);
    NumberField(distance);
    NumberField(price);
    NumberField(cuisineId);
  }

  /** A row written with a number outside the 32-bit range in one of its numeric
      columns makes `parseInt` throw, and the row is skipped: the text of 2^31 as a
      rating loads nothing. */
  lemma OutOfRangeSkipped(id: int, name: string, rating: int, distance: int, price: int, cuisineId: int,
                          extra: seq<string>, cuisines: map<int, string>)
    requires !(IsInt32(id) && IsInt32(rating) && IsInt32(distance) && IsInt32(price) && IsInt32(cuisineId))
    requires ',' !in name
    requires forall i :: 0 <= i < |extra| ==> ',' !in extra[i]
    requires extra != [] ==> extra[|extra| - 1] != ""
    ensures RestaurantRow(RowText(id, name, rating, distance, price, cuisineId, extra), cuisines).None?
  {
    RowSplits(id, name, rating, distance, price, cuisineId, extra);
    if !IsInt32(id) {
      NumberOutOfRange(id);
    } else if !IsInt32(rating) {
      NumberOutOfRange(rating);
    } else if !IsInt32(distance) {
      NumberOutOfRange(distance);
    } else if !IsInt32(price) {
      NumberOutOfRange(price);
    } else {
      NumberOutOfRange(cuisineId);
    }
  }

  /** The decimal text of a number outside the 32-bit range does not parse. */
  lemma NumberOutOfRange(n: int)
    requires !IsInt32(n)
    ensures ParseInt(JavaTrim(DecimalString(n))).None?
  {
    var s := DecimalString(n);
    TrimSurrounded([], s, [], IsJavaSpace);
    assert [] + (s + []) == s;
    ParseDecimalString(n);
  }

  /** A row of the cuisine file: the id, the name, and any further columns. */
  function CuisineText(id: int, name: string, extra: seq<string>): string {
    Join([DecimalString(id), name] + extra, ',')
  }

  /** A cuisine row written from a 32-bit id and a name reads back as that entry,
      its name trimmed, the columns after the second ignored. */
  lemma CuisineRowRoundTrip(id: int, name: string, extra: seq<string>)
    requires IsInt32(id) && ',' !in name
    requires forall i :: 0 <= i < |extra| ==> ',' !in extra[i]
    requires if extra == [] then name != "" else extra[|extra| - 1] != ""
    ensures CuisineRow(CuisineText(id, name, extra)) == Entry(id, JavaTrim(name))
  {
    var parts := [DecimalString(id), name] + extra;
    var line := CuisineText(id, name, extra);
    NoCommaInDecimal(parts[0]);
    assert forall i :: 0 <= i < |parts| ==> ',' !in parts[i] by {
      forall i | 2 <= i < |parts| ensures ',' !in parts[i] {
        assert parts[i] == extra[i - 2];
      }
    }
    assert parts[|parts| - 1] != "" by {
      if extra != [] {
        assert parts[|parts| - 1] == extra[|extra| - 1];
      }
    }
    JavaSplitJoin(parts, ',');
    JoinStartsWithFirst(parts, ',');
    NonSpaceNotBlank(line);
    NumberField(id);
  }

  lemma NoCommaInDecimal(s: string)
    requires exists n :: s == DecimalString(n)
    ensures ',' !in s
  {
  }

  /** A 32-bit number's decimal text trims to itself and parses back. */
  lemma NumberField(n: int)
    requires IsInt32(n)
    ensures JavaTrim(DecimalString(n)) == DecimalString(n)
    ensures ParseInt(JavaTrim(DecimalString(n))) == Some(n)
  {
    var s := DecimalString(n);
    TrimSurrounded([], s, [], IsJavaSpace);
    assert [] + (s + []) == s;
    ParseDecimalString(n);
  }

  lemma JoinStartsWithFirst(parts: seq<string>, sep: char)
    requires |parts| >= 2 && parts[0] != ""
    ensures Join(parts, sep) != [] && Join(parts, sep)[0] == parts[0][0]
  {
  }

  /** A line whose first character is not space is not blank. */
  lemma NonSpaceNotBlank(line: string)
    requires line != [] && !IsJavaSpace(line[0])
    ensures !Blank(line)
  {
    assert DropLeading(line, IsJavaSpace) == line;
  }

  // ---------------------------------------------------------------------------
  // Order and accumulation
  // ---------------------------------------------------------------------------

  lemma {:induction false} ReadingsAppend(a: seq<string>, b: seq<string>, cuisines: map<int, string>)
    ensures Readings(a + b, cuisines) == Readings(a, cuisines) + Readings(b, cuisines)
  {
    if a == [] {
      assert a + b == b;
    } else {
      assert (a + b)[0] == a[0];
      assert (a + b)[1..] == a[1..] + b;
      ReadingsAppend(a[1..], b, cuisines);
    }
  }

  lemma {:induction false} AcceptedAppend(x: seq<Option<Restaurant>>, y: seq<Option<Restaurant>>)
    ensures Accepted(x + y) == Accepted(x) + Accepted(y)
    decreases |y|
  {
    if y == [] {
      assert x + y == x;
    } else {
      var y' := y[..|y| - 1];
      assert (x + y)[..|x + y| - 1] == x + y';
      assert (x + y)[|x + y| - 1] == y[|y| - 1];
      AcceptedAppend(x, y');
    }
  }

  /** Loading two stretches of rows one after the other appends their restaurants:
      restaurants come out in file order. */
  lemma RestaurantsAppend(a: seq<string>, b: seq<string>, cuisines: map<int, string>)
    ensures RestaurantsOf(a + b, cuisines) == RestaurantsOf(a, cuisines) + RestaurantsOf(b, cuisines)
  {
    ReadingsAppend(a, b, cuisines);
    AcceptedAppend(Readings(a, cuisines), Readings(b, cuisines));
  }

  lemma AcceptedSnoc(x: seq<Option<Restaurant>>, o: Option<Restaurant>)
    ensures Accepted(x + [o]) == Accepted(x) + Emit(o)
  {
    assert (x + [o])[..|x|] == x;
  }

  /** One more row adds that row's restaurant, if it has one, at the end. */
  lemma RestaurantsSnoc(rows: seq<string>, line: string, cuisines: map<int, string>)
    ensures RestaurantsOf(rows + [line], cuisines) == RestaurantsOf(rows, cuisines) + Emit(RestaurantRow(line, cuisines))
  {
    ReadingsAppend(rows, [line], cuisines);
    AcceptedSnoc(Readings(rows, cuisines), Readings([line], cuisines)[0]);
    assert Readings([line], cuisines) == [Readings([line], cuisines)[0]];
  }

  /** A skipped row leaves out only itself. */
  lemma SkippedRowAddsNothing(a: seq<string>, line: string, b: seq<string>, cuisines: map<int, string>)
    requires RestaurantRow(line, cuisines).None?
    ensures RestaurantsOf(a + [line] + b, cuisines) == RestaurantsOf(a + b, cuisines)
  {
    var x := Readings(a, cuisines);
    var y := Readings(b, cuisines);
    ReadingsAppend(a + [line], b, cuisines);
    ReadingsAppend(a, [line], cuisines);
    ReadingsAppend(a, b, cuisines);
    assert Readings([line], cuisines) == [None];
    AcceptedSkip(x, y);
  }

  lemma AcceptedSkip(x: seq<Option<Restaurant>>, y: seq<Option<Restaurant>>)
    ensures Accepted(x + [None] + y) == Accepted(x + y)
  {
    var none: seq<Option<Restaurant>> := [None];
    assert Accepted(none) == [] by { assert none[..|none| - 1] == []; }
    AcceptedAppend(x, none);
    AcceptedAppend(x + none, y);
    AcceptedAppend(x, y);
    assert Accepted(x) + [] == Accepted(x);
  }

  /** A loaded restaurant is exactly one accepted row: the list never holds anything
      that is not the reading of some row. */
  lemma {:induction false} AcceptedComeFromReadings(os: seq<Option<Restaurant>>, k: int)
    requires 0 <= k < |Accepted(os)|
    ensures exists i :: 0 <= i < |os| && os[i] == Some(Accepted(os)[k])
  {
    var init := os[..|os| - 1];
    var n := |Accepted(init)|;
    if k < n {
      AcceptedComeFromReadings(init, k);
      var i :| 0 <= i < |init| && init[i] == Some(Accepted(init)[k]);
      assert os[i] == init[i];
    } else {
      assert os[|os| - 1] == Some(Accepted(os)[k]);
    }
  }

  lemma LoadedComeFromRows(rows: seq<string>, cuisines: map<int, string>, k: int)
    requires 0 <= k < |RestaurantsOf(rows, cuisines)|
    ensures exists i :: 0 <= i < |rows| && RestaurantRow(rows[i], cuisines) == Some(RestaurantsOf(rows, cuisines)[k])
  {
    ReadingsAt(rows, cuisines);
    AcceptedComeFromReadings(Readings(rows, cuisines), k);
  }

  /** Every cuisine name the loader sets is the map's name for the row's cuisine id,
      or "Unknown". */
  lemma LoadedCuisineNames(rows: seq<string>, cuisines: map<int, string>, k: int)
    requires 0 <= k < |RestaurantsOf(rows, cuisines)|
    ensures var r := RestaurantsOf(rows, cuisines)[k];
      r.cuisine == if r.cuisineId in cuisines then cuisines[r.cuisineId] else UnknownCuisine
  {
    LoadedComeFromRows(rows, cuisines, k);
  }

  // ---------------------------------------------------------------------------
  // The cuisine map
  // ---------------------------------------------------------------------------

  lemma {:induction false} FailureSticks(x: seq<CuisineLine>, y: seq<CuisineLine>)
    requires Apply(x).None?
    ensures Apply(x + y).None?
    decreases |y|
  {
    if y == [] {
      assert x + y == x;
    } else {
      assert (x + y)[..|x + y| - 1] == x + y[..|y| - 1];
      FailureSticks(x, y[..|y| - 1]);
    }
  }

  /** A bad id ends the load: no map comes out, whatever follows. */
  lemma ApplyStopsAtBad(effects: seq<CuisineLine>, i: int)
    requires 0 <= i < |effects| && effects[i] == BadCuisineId
    ensures Apply(effects).None?
  {
    assert effects[..i + 1][..i] == effects[..i];
    FailureSticks(effects[..i + 1], effects[i + 1..]);
    assert effects[..i + 1] + effects[i + 1..] == effects;
  }

  /** Once an id fails to parse, the whole cuisine load fails, whatever follows. */
  lemma BadCuisineIdAborts(a: seq<string>, line: string, b: seq<string>)
    requires CuisineRow(line) == BadCuisineId
    ensures CuisinesOf(a + [line] + b).None?
  {
    var rows := a + [line] + b;
    assert rows[|a|] == line;
    CuisineLineAt(rows, |a|);
    ApplyStopsAtBad(CuisineLines(rows), |a|);
  }

  lemma {:induction false} ApplyLastWins(ls: seq<CuisineLine>, i: int, id: int, name: string)
    requires Apply(ls).Some?
    requires 0 <= i < |ls| && ls[i] == Entry(id, name)
    requires forall j :: i < j < |ls| ==> !(ls[j].Entry? && ls[j].id == id)
    ensures id in Apply(ls).value && Apply(ls).value[id] == name
  {
    var init := ls[..|ls| - 1];
    if i < |ls| - 1 {
      assert init[i] == ls[i];
      ApplyLastWins(init, i, id, name);
    }
  }

  lemma {:induction false} ApplyUnmapped(ls: seq<CuisineLine>, id: int)
    requires Apply(ls).Some?
    requires forall j :: 0 <= j < |ls| ==> !(ls[j].Entry? && ls[j].id == id)
    ensures id !in Apply(ls).value
  {
    if ls != [] {
      var init := ls[..|ls| - 1];
      assert forall j :: 0 <= j < |init| ==> init[j] == ls[j];
      ApplyUnmapped(init, id);
    }
  }

  /** In a completed load, a duplicate id keeps the name of its last row. */
  lemma CuisineLastWins(rows: seq<string>, i: int, id: int, name: string)
    requires CuisinesOf(rows).Some?
    requires 0 <= i < |rows| && CuisineRow(rows[i]) == Entry(id, name)
    requires forall j :: i < j < |rows| ==> !(CuisineRow(rows[j]).Entry? && CuisineRow(rows[j]).id == id)
    ensures id in CuisinesOf(rows).value && CuisinesOf(rows).value[id] == name
  {
    CuisineLinesAt(rows);
    ApplyLastWins(CuisineLines(rows), i, id, name);
  }

  /** In a completed load, an id no row names is not mapped. */
  lemma CuisineUnmapped(rows: seq<string>, id: int)
    requires CuisinesOf(rows).Some?
    requires forall j :: 0 <= j < |rows| ==> !(CuisineRow(rows[j]).Entry? && CuisineRow(rows[j]).id == id)
    ensures id !in CuisinesOf(rows).value
  {
    CuisineLinesAt(rows);
    ApplyUnmapped(CuisineLines(rows), id);
  }

  // ---------------------------------------------------------------------------
  // The loader's integration test
  // ---------------------------------------------------------------------------

  /** A cuisine file whose one row gives cuisine 11 the name "Spanish". */
  const CuisineFile: seq<string> := ["id,name", CuisineText(11, "Spanish", [])]

  /** The cuisine file maps 11 to "Spanish". */
  lemma SpanishScenario()
    ensures CuisinesFromFile(CuisineFile) == Some(map[11 := "Spanish"])
  {
    CuisineRowRoundTrip(11, "Spanish", []);
    TrimSurrounded([], "Spanish", [], IsJavaSpace);
    assert [] + ("Spanish" + []) == "Spanish";
    var line := CuisineText(11, "Spanish", []);
    assert Body(CuisineFile) == [line];
    var ls := CuisineLines([line]);
    assert ls == [Entry(11, "Spanish")];
    assert ls[..0] == [];
    assert Apply(ls[..0]) == Some(map[]);
    assert Apply(ls) == Some(map[][11 := "Spanish"]);
    assert map[][11 := "Spanish"] == map[11 := "Spanish"];
    assert CuisinesFromFile(CuisineFile) == Apply(ls);
  }

  /** A file of a header and one row that reads as `r` loads exactly `r`. */
  lemma OneRowFile(header: string, row: string, cuisines: map<int, string>, r: Restaurant)
    requires RestaurantRow(row, cuisines) == Some(r)
    ensures RestaurantsFromFile([header, row], cuisines) == [r]
  {
    assert Body([header, row]) == [row];
    var os := Readings([row], cuisines);
    assert os == [RestaurantRow(row, cuisines)] + Readings([], cuisines);
    assert os[..|os| - 1] == [] && os[|os| - 1] == Some(r);
    assert Accepted(os) == Accepted([]) + Emit(Some(r));
  }

  lemma DeliciousgenixTrimmed()
    ensures JavaTrim("Deliciousgenix") == "Deliciousgenix"
  {
    TrimSurrounded([], "Deliciousgenix", [], IsJavaSpace);
    assert [] + ("Deliciousgenix" + []) == "Deliciousgenix";
  }

  /** A six-column row with an id and the values the test checks reads as the test's
      restaurant, given a map that names cuisine 11 "Spanish". */
  lemma DeliciousgenixRow(id: int, cuisines: map<int, string>)
    requires IsInt32(id)
    requires 11 in cuisines && cuisines[11] == "Spanish"
    ensures RestaurantRow(RowText(id, "Deliciousgenix", 4, 1, 10, 11, []), cuisines)
         == Some(Restaurant(id, "Deliciousgenix", 4, 1, 10, 11, "Spanish"))
  {
    RowRoundTrip(id, "Deliciousgenix", 4, 1, 10, 11, [], cuisines);
    DeliciousgenixTrimmed();
  }

  /** The row as the test's comment writes it has five columns and no id, and
      `loadRestaurants` skips it as too short. */
  lemma CommentRowSkipped(cuisines: map<int, string>)
    ensures RestaurantRow("Deliciousgenix,4,1,10,11", cuisines).None?
  {
    var parts := ["Deliciousgenix", "4", "1", "10", "11"];
    assert Join(parts, ',') == "Deliciousgenix,4,1,10,11" by {
      assert Join(parts[4..], ',') == "11";
      assert Join(parts[3..], ',') == "10,11";
      assert Join(parts[2..], ',') == "1,10,11";
      assert Join(parts[1..], ',') == "4,1,10,11";
    }
    JavaSplitJoin(parts, ',');
    ShortRowSkipped("Deliciousgenix,4,1,10,11", cuisines);
  }

  /** The test's `filter(name).findFirst()`: the first restaurant of that name. */
  function FirstNamed(rs: seq<Restaurant>, name: string): (o: Option<Restaurant>)
    ensures o.Some? ==> o.value in rs && o.value.name == name
    ensures o.None? <==> forall r :: r in rs ==> r.name != name
  {
    if rs == [] then None
    else if rs[0].name == name then Some(rs[0])
    else FirstNamed(rs[1..], name)
  }

  lemma {:induction false} FirstNamedAppend(x: seq<Restaurant>, y: seq<Restaurant>, name: string)
    ensures FirstNamed(x + y, name) == if FirstNamed(x, name).Some? then FirstNamed(x, name) else FirstNamed(y, name)
  {
    if x == [] {
      assert x + y == y;
    } else {
      assert (x + y)[0] == x[0];
      assert (x + y)[1..] == x[1..] + y;
      FirstNamedAppend(x[1..], y, name);
    }
  }

  /** A row that reads as `r`, anywhere in a file, loads `r` between the restaurants of
      the rows around it; when the rows before it load nothing of `r`'s name, `r` is the
      first restaurant of that name. */
  lemma RowLoadedBetween(header: string, a: seq<string>, row: string, b: seq<string>,
                         cuisines: map<int, string>, r: Restaurant)
    requires RestaurantRow(row, cuisines) == Some(r)
    ensures var loaded := RestaurantsFromFile([header] + (a + [row] + b), cuisines);
      && loaded == RestaurantsOf(a, cuisines) + [r] + RestaurantsOf(b, cuisines)
      && (FirstNamed(RestaurantsOf(a, cuisines), r.name).None? ==> FirstNamed(loaded, r.name) == Some(r))
  {
    var rows := a + [row] + b;
    assert ([header] + rows)[1..] == rows;
    RestaurantsAppend(a + [row], b, cuisines);
    RestaurantsSnoc(a, row, cuisines);
    var before, after := RestaurantsOf(a, cuisines), RestaurantsOf(b, cuisines);
    FirstNamedAppend(before + [r], after, r.name);
    FirstNamedAppend(before, [r], r.name);
  }

  /** The integration test: in a restaurant file that holds the six-column Deliciousgenix
      row anywhere, with cuisine 11 named "Spanish", the row's restaurant is loaded
      between the restaurants of the rows around it and, when no earlier row loads a
      restaurant of that name, it is the one the test finds: rating 4, cuisine id 11,
      cuisine "Spanish". */
  lemma DeliciousgenixScenario(id: int, header: string, a: seq<string>, b: seq<string>,
                               cuisines: map<int, string>)
    requires IsInt32(id)
    requires 11 in cuisines && cuisines[11] == "Spanish"
    ensures var r := Restaurant(id, "Deliciousgenix", 4, 1, 10, 11, "Spanish");
      var loaded := RestaurantsFromFile([header] + (a + [RowText(id, "Deliciousgenix", 4, 1, 10, 11, [])] + b), cuisines);
      && loaded == RestaurantsOf(a, cuisines) + [r] + RestaurantsOf(b, cuisines)
      && (FirstNamed(RestaurantsOf(a, cuisines), "Deliciousgenix").None? ==> FirstNamed(loaded, "Deliciousgenix") == Some(r))
  {
    DeliciousgenixRow(id, cuisines);
    RowLoadedBetween(header, a, RowText(id, "Deliciousgenix", 4, 1, 10, 11, []), b, cuisines,
                     Restaurant(id, "Deliciousgenix", 4, 1, 10, 11, "Spanish"));
  }
}
