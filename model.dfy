/**
 * The catalog entities. Java's `Integer` fields of `Restaurant` are never null once the
 * catalog loader has filled them, so they are plain integers here; the search options
 * keep Java's nullable fields as `Option`.
 */
module Model {
  import opened Wrappers

  /** A catalog entry (model/Restaurant.java together with the `id` that the loader and
      the tests set). */
  datatype Restaurant = Restaurant(
    id: int,
    name: string,
    rating: int,
    distance: int,
    price: int,
    cuisineId: int,
    cuisine: string)

  /** The filters of a ranked search; `None` stands for a field left unset (null). */
  datatype RestaurantSearchOptions = RestaurantSearchOptions(
    name: Option<string>,
    rating: Option<int>,
    distance: Option<int>,
    price: Option<int>,
    cuisine: Option<string>,
    limit: Option<int>)

  /** `RestaurantSearchOptions.builder().build()`: every field unset. */
  function NoOptions(): RestaurantSearchOptions {
    RestaurantSearchOptions(None, None, None, None, None, None)
  }
}
