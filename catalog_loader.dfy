/**
 * The catalog loader: `DataLoader` and `RestaurantDataLoader`, which hold the same
 * parser. The loader keeps the restaurant list as a field that loading appends to
 * and never clears. Reading the two resource files is not modelled: each file is
 * given as the sequence of lines its reader returns.
 */
module CatalogLoader {
  import opened Wrappers
  import opened Strings
  import opened Model
  import opened CatalogCsv

  class DataLoader {
    /** The `restaurants` list behind `getRestaurants()`. */
    var restaurants: seq<Restaurant>

    constructor ()
      ensures restaurants == []
    {
      restaurants := [];
    }

    /** `loadCuisines`: skip the header, then read the rows in order; an id that does
        not parse ends the load with the uncaught `NumberFormatException` (`None`). */
    method LoadCuisines(file: seq<string>) returns (cuisines: Option<map<int, string>>)
      ensures cuisines == CuisinesFromFile(file)
    {
      if file == [] {
        return Some(map[]);
      }
      var rows := file[1..];
      ghost var effects := CuisineLines(rows);
      var m: map<int, string> := map[];
      var i := 0;
      while i < |rows|
        invariant 0 <= i <= |rows|
        invariant Apply(effects[..i]) == Some(m)
      {
        var effect := ReadCuisineRow(rows, i);
        match effect {
          case BadCuisineId =>
            ApplyStopsAtBad(effects, i);
            return None;
          case Entry(id, name) =>
            ApplyEntry(effects, i, m, id, name);
            m := m[id := name];
          case SkipLine =>
            ApplySkip(effects, i, m);
        }
        i := i + 1;
      }
      assert effects[..i] == effects;
      cuisines := Some(m);
    }

    /** `loadRestaurants`: skip the header, then append the restaurant of every
        accepted row, in file order. */
    method LoadRestaurants(file: seq<string>, cuisines: map<int, string>)
      modifies this
      ensures restaurants == old(restaurants) + RestaurantsFromFile(file, cuisines)
    {
      if file == [] {
        assert restaurants == restaurants + [];
        return;
      }
      var rows := file[1..];
      ghost var readings := Readings(rows, cuisines);
      var i := 0;
      while i < |rows|
        invariant 0 <= i <= |rows|
        invariant restaurants == old(restaurants) + Accepted(readings[..i])
      {
        var restaurant := RestaurantRow(rows[i], cuisines);
        assert Accepted(readings[..i + 1]) == Accepted(readings[..i]) + Emit(restaurant) by {
          ReadingAt(rows, cuisines, i);
          AcceptedOneMore(readings, i);
        }
        ghost var before := restaurants;
        if restaurant.Some? {
          restaurants := restaurants + [restaurant.value];
        }
        assert restaurants == before + Emit(restaurant);
        ConcatAssoc(old(restaurants), Accepted(readings[..i]), Emit(restaurant));
        i := i + 1;
      }
      assert readings[..i] == readings;
      assert Accepted(readings) == RestaurantsFromFile(file, cuisines);
    }

    /** `loadData`: the cuisines, then the restaurants. A bad cuisine id escapes, as
        `loadData` catches only `IOException`; it leaves the list as it was. */
    method LoadData(cuisineFile: seq<string>, restaurantFile: seq<string>) returns (completed: bool)
      modifies this
      ensures completed <==> CuisinesFromFile(cuisineFile).Some?
      ensures completed ==>
        restaurants == old(restaurants) + RestaurantsFromFile(restaurantFile, CuisinesFromFile(cuisineFile).value)
      ensures !completed ==> restaurants == old(restaurants)
    {
      var cuisineMap := LoadCuisines(cuisineFile);
      if cuisineMap.None? {
        return false;
      }
      LoadRestaurants(restaurantFile, cuisineMap.value);
      completed := true;
    }

    /** `getRestaurants()`. */
    function GetRestaurants(): (rs: seq<Restaurant>)
      reads this
      ensures rs == restaurants
    {
      restaurants
    }
  }

  lemma ConcatAssoc<T>(a: seq<T>, b: seq<T>, c: seq<T>)
    ensures (a + b) + c == a + (b + c)
  {
  }

  /** Reads row `i` of the cuisine file: trim, split, parse the id. The contract
      names the row's effect by its position, so that the loop reading the rows does
      not reason about the parse itself. */
  method ReadCuisineRow(rows: seq<string>, i: int) returns (effect: CuisineLine)
    requires 0 <= i < |rows|
    ensures effect == CuisineLines(rows)[i]
  {
    CuisineLineAt(rows, i);
    effect := CuisineRow(rows[i]);
  }

  /** A row that puts an entry adds it to the map read so far. */
  lemma ApplyEntry(effects: seq<CuisineLine>, i: int, m: map<int, string>, id: int, name: string)
    requires 0 <= i < |effects| && Apply(effects[..i]) == Some(m) && effects[i] == Entry(id, name)
    ensures Apply(effects[..i + 1]) == Some(m[id := name])
  {
    assert effects[..i + 1][..i] == effects[..i];
  }

  /** A skipped row leaves the map read so far as it is. */
  lemma ApplySkip(effects: seq<CuisineLine>, i: int, m: map<int, string>)
    requires 0 <= i < |effects| && Apply(effects[..i]) == Some(m) && effects[i] == SkipLine
    ensures Apply(effects[..i + 1]) == Some(m)
  {
    assert effects[..i + 1][..i] == effects[..i];
  }

  lemma AcceptedOneMore(readings: seq<Option<Restaurant>>, i: int)
    requires 0 <= i < |readings|
    ensures Accepted(readings[..i + 1]) == Accepted(readings[..i]) + Emit(readings[i])
  {
    assert readings[..i + 1][..i] == readings[..i];
  }

  /** Loading twice appends the second file's restaurants after the first's: the
      list is never cleared. */
  method LoadTwice(first: seq<string>, second: seq<string>, cuisines: map<int, string>)
    returns (rs: seq<Restaurant>)
    ensures rs == RestaurantsFromFile(first, cuisines) + RestaurantsFromFile(second, cuisines)
  {
    var loader := new DataLoader();
    loader.LoadRestaurants(first, cuisines);
    assert loader.restaurants == RestaurantsFromFile(first, cuisines);
    loader.LoadRestaurants(second, cuisines);
    rs := loader.GetRestaurants();
  }
}
