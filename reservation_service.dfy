/**
 * `ReservationService`: a reservation is saved only when its five required fields are
 * present; the two lookups hand back what the repository finds.
 *
 * The repository is an abstract store: a list of the saved reservations that `save`
 * appends to. Its lookups return the store's order; JPA's derived queries promise
 * none. A `LocalDateTime` is represented by its position on the time line, an
 * integer that orders as the date-times do. Java's nullable fields are `Option`s.
 */
module Reservations {
  import opened Wrappers

  /** A `LocalDateTime`, by its position on the time line. */
  type DateTime = int

  /** The reservation entity as the builder fills it; every field may be null. */
  datatype Reservation = Reservation(
    id: Option<int>,
    restaurantId: Option<int>,
    reservationName: Option<string>,
    guestCount: Option<int>,
    startTime: Option<DateTime>,
    endTime: Option<DateTime>)

  /** The message of the `IllegalArgumentException`. */
  const MissingFields: string := "Reservation must have all required fields"

  /** The guard of `createReservation`: only presence is checked. */
  predicate HasRequiredFields(r: Reservation) {
    && r.restaurantId.Some? && r.reservationName.Some? && r.guestCount.Some?
    && r.startTime.Some? && r.endTime.Some?
  }

  /** The guard's outcome: the reservation itself, or the exception's message. */
  function Validate(r: Reservation): (res: Result<Reservation, string>)
    ensures res.Success? <==> HasRequiredFields(r)
    ensures res.Success? ==> res.value == r
    ensures res.Failure? ==> res.error == MissingFields
  {
    if r.restaurantId.None? || r.reservationName.None? || r.guestCount.None?
       || r.startTime.None? || r.endTime.None?
    then Failure(MissingFields)
    else Success(r)
  }

  /** The stored reservations of one restaurant, in storage order. */
  function OfRestaurant(store: seq<Reservation>, restaurantId: int): (rs: seq<Reservation>)
    ensures forall x :: x in rs <==> x in store && x.restaurantId == Some(restaurantId)
    ensures |rs| <= |store|
  {
    if store == [] then []
    else
      (if store[0].restaurantId == Some(restaurantId) then [store[0]] else [])
      + OfRestaurant(store[1..], restaurantId)
  }

  /** Those of them whose start lies between the two bounds, both included. */
  function StartingBetween(store: seq<Reservation>, restaurantId: int, from: DateTime, to: DateTime)
    : (rs: seq<Reservation>)
    ensures forall x :: x in rs <==>
      && x in store && x.restaurantId == Some(restaurantId)
      && x.startTime.Some? && from <= x.startTime.value <= to
    ensures |rs| <= |store|
  {
    if store == [] then []
    else
      var x := store[0];
      (if x.restaurantId == Some(restaurantId) && x.startTime.Some? && from <= x.startTime.value <= to
       then [x] else [])
      + StartingBetween(store[1..], restaurantId, from, to)
  }

  /** In the store's order, a reservation saved after the others comes last among its
      restaurant's. */
  lemma {:induction false} OfRestaurantAppend(store: seq<Reservation>, r: Reservation, restaurantId: int)
    ensures OfRestaurant(store + [r], restaurantId)
         == OfRestaurant(store, restaurantId) + (if r.restaurantId == Some(restaurantId) then [r] else [])
  {
    if store == [] {
      assert store + [r] == [r];
      assert [r][1..] == [];
    } else {
      assert (store + [r])[0] == store[0];
      assert (store + [r])[1..] == store[1..] + [r];
      OfRestaurantAppend(store[1..], r, restaurantId);
    }
  }

  /** The window lookup is the restaurant lookup cut down to the window, both in the
      store's order. */
  lemma {:induction false} BetweenWithinRestaurant(store: seq<Reservation>, restaurantId: int,
                                                   from: DateTime, to: DateTime)
    ensures StartingBetween(store, restaurantId, from, to)
         == Window(OfRestaurant(store, restaurantId), from, to)
  {
    if store != [] {
      BetweenWithinRestaurant(store[1..], restaurantId, from, to);
      var head := if store[0].restaurantId == Some(restaurantId) then [store[0]] else [];
      WindowAppend(head, OfRestaurant(store[1..], restaurantId), from, to);
      if head != [] {
        assert head[1..] == [];
      }
    }
  }

  /** The reservations whose start lies between the bounds, in order. */
  function Window(rs: seq<Reservation>, from: DateTime, to: DateTime): seq<Reservation> {
    if rs == [] then []
    else
      (if rs[0].startTime.Some? && from <= rs[0].startTime.value <= to then [rs[0]] else [])
      + Window(rs[1..], from, to)
  }

  lemma {:induction false} WindowAppend(a: seq<Reservation>, b: seq<Reservation>, from: DateTime, to: DateTime)
    ensures Window(a + b, from, to) == Window(a, from, to) + Window(b, from, to)
  {
    if a == [] {
      assert a + b == b;
    } else {
      assert (a + b)[0] == a[0];
      assert (a + b)[1..] == a[1..] + b;
      WindowAppend(a[1..], b, from, to);
    }
  }

  /** `ReservationRepository`, as a list of what `save` stored. */
  class ReservationRepository {
    var saved: seq<Reservation>

    constructor ()
      ensures saved == []
    {
      saved := [];
    }

    /** `save`: stores the entity and returns it. */
    method Save(r: Reservation) returns (stored: Reservation)
      modifies this
      ensures saved == old(saved) + [r]
      ensures stored == r
    {
      saved := saved + [r];
      stored := r;
    }

    /** `findByRestaurantId`. */
    function FindByRestaurantId(restaurantId: int): (rs: seq<Reservation>)
      reads this
      ensures forall x :: x in rs <==> x in saved && x.restaurantId == Some(restaurantId)
    {
      OfRestaurant(saved, restaurantId)
    }

    /** `findByRestaurantIdAndStartTimeBetween`. */
    function FindByRestaurantIdAndStartTimeBetween(restaurantId: int, from: DateTime, to: DateTime)
      : (rs: seq<Reservation>)
      reads this
      ensures forall x :: x in rs <==>
        && x in saved && x.restaurantId == Some(restaurantId)
        && x.startTime.Some? && from <= x.startTime.value <= to
    {
      StartingBetween(saved, restaurantId, from, to)
    }
  }

  class ReservationService {
    const repository: ReservationRepository

    constructor (repository: ReservationRepository)
      ensures this.repository == repository
    {
      this.repository := repository;
    }

    /** `getReservationsByRestaurantId`: the repository's answer, unchanged. */
    function GetReservationsByRestaurantId(restaurantId: int): (rs: seq<Reservation>)
      reads this, repository
      ensures forall x :: x in rs <==> x in repository.saved && x.restaurantId == Some(restaurantId)
    {
      repository.FindByRestaurantId(restaurantId)
    }

    /** `getReservationsByRestaurantIdAndTimeBetween`: the repository's answer, unchanged. */
    function GetReservationsByRestaurantIdAndTimeBetween(restaurantId: int, from: DateTime, to: DateTime)
      : (rs: seq<Reservation>)
      reads this, repository
      ensures forall x :: x in rs <==>
        && x in repository.saved && x.restaurantId == Some(restaurantId)
        && x.startTime.Some? && from <= x.startTime.value <= to
    {
      repository.FindByRestaurantIdAndStartTimeBetween(restaurantId, from, to)
    }

    /** `createReservation`: a reservation missing a required field is refused with
        the exception's message and nothing is saved; any other is saved unchanged
        and what `save` returned is returned. */
    method CreateReservation(r: Reservation) returns (result: Result<Reservation, string>)
      modifies repository
      ensures result == Validate(r)
      ensures result.Failure? ==> repository.saved == old(repository.saved)
      ensures result.Success? ==> repository.saved == old(repository.saved) + [r]
    {
      var checked := Validate(r);
      if checked.Failure? {
        return checked;
      }
      var stored := repository.Save(r);
      result := Success(stored);
    }

    /** A created reservation is found by its restaurant's lookup, after the ones saved
        before it in the store's order (the derived query itself promises no order). */
    method CreateThenFind(r: Reservation) returns (found: seq<Reservation>)
      requires HasRequiredFields(r)
      modifies repository
      ensures found == old(GetReservationsByRestaurantId(r.restaurantId.value)) + [r]
      ensures repository.saved == old(repository.saved) + [r]
    {
      var before := GetReservationsByRestaurantId(r.restaurantId.value);
      OfRestaurantAppend(repository.saved, r, r.restaurantId.value);
      var result := CreateReservation(r);
      found := GetReservationsByRestaurantId(r.restaurantId.value);
      assert found == before + [r];
    }
  }

  // ---------------------------------------------------------------------------
  // The guard
  // ---------------------------------------------------------------------------

  /** Any one missing field is enough to refuse the reservation. */
  lemma EachFieldRequired(r: Reservation)
    ensures r.restaurantId.None? ==> Validate(r) == Failure(MissingFields)
    ensures r.reservationName.None? ==> Validate(r) == Failure(MissingFields)
    ensures r.guestCount.None? ==> Validate(r) == Failure(MissingFields)
    ensures r.startTime.None? ==> Validate(r) == Failure(MissingFields)
    ensures r.endTime.None? ==> Validate(r) == Failure(MissingFields)
  {
  }

  /** The id plays no part, and neither do the values of the present fields: a
      start after the end or a guest count below one passes. */
  lemma OnlyPresenceChecked(r: Reservation, id: Option<int>, guests: int, start: DateTime, end: DateTime)
    requires HasRequiredFields(r)
    ensures Validate(r.(id := id, guestCount := Some(guests), startTime := Some(start), endTime := Some(end))).Success?
  {
  }

  /** The controller test's empty reservation is refused. */
  lemma EmptyReservationRefused()
    ensures Validate(Reservation(None, None, None, None, None, None)) == Failure(MissingFields)
  {
  }

  /** The controller test's complete reservation is accepted as it is. */
  lemma JohnDoeAccepted(start: DateTime, end: DateTime)
    ensures var r := Reservation(None, Some(3), Some("John Doe"), Some(2), Some(start), Some(end));
      Validate(r) == Success(r)
  {
  }
}
