// The decision and arithmetic logic of the reservation service's REST resource, in both
// copies: services/reservation-service/.../rest/ReservationResource.java and the
// high-correlation variant under services_with_correlation/high_correlation/.
//
// Dates are `LocalDate`s counted as epoch days; "today" is a parameter. `Reservation.isReserved`
// lives in an entity class that is not part of this model, so it is a parameter too.

module Reservations {
  import opened Wrappers

  /** The inventory's car record; only its id matters to the resource. */
  datatype Car = Car(id: int, model: string)

  /** The reservation entity. `make` overwrites the user id; the other fields are read only. */
  class Reservation {
    const id: int
    const carId: int
    var userId: string
    const startDay: int
    const endDay: int

    constructor(id: int, carId: int, userId: string, startDay: int, endDay: int)
      ensures this.id == id && this.carId == carId && this.userId == userId
      ensures this.startDay == startDay && this.endDay == endDay
    {
      this.id := id;
      this.carId := carId;
      this.userId := userId;
      this.startDay := startDay;
      this.endDay := endDay;
    }
  }

  // ---------------------------------------------------------------------------
  // Price rule
  // ---------------------------------------------------------------------------

  /** `STANDARD_RATE_PER_DAY`. */
  const StandardRatePerDay: real := 19.99

  /** `computePrice`: both ends of the reservation count as rented days. */
  function ComputePrice(startDay: int, endDay: int): (price: real)
    ensures endDay >= startDay ==> price >= StandardRatePerDay
    ensures endDay == startDay ==> price == StandardRatePerDay
    ensures endDay < startDay ==> price <= 0.0
  {
    ((endDay - startDay) + 1) as real * StandardRatePerDay
  }

  /** Each further day adds exactly one day's rate. */
  lemma PricePerExtraDay(startDay: int, endDay: int)
    ensures ComputePrice(startDay, endDay + 1) == ComputePrice(startDay, endDay) + StandardRatePerDay
  {
  }

  /** The price depends only on the length of the reservation, not on when it starts. */
  lemma PriceShiftInvariant(startDay: int, endDay: int, shift: int)
    ensures ComputePrice(startDay + shift, endDay + shift) == ComputePrice(startDay, endDay)
  {
  }

  // ---------------------------------------------------------------------------
  // make
  // ---------------------------------------------------------------------------

  /** `rentalClient.start(userId, reservationId)`. */
  datatype RentalStart = RentalStart(userId: string, reservationId: int)

  /** What `make` of the plain service sends out besides persisting the reservation. */
  datatype MakeEffects = MakeEffects(invoicePrice: real, rental: Option<RentalStart>)

  /** The user id `make` stores, whoever sent the request. */
  const GuestUser: string := "guest"

  /**
   * `make` of services/reservation-service: the reservation is stored as the guest's, an
   * invoice is sent with its price, and a rental is started only when it begins today.
   */
  method Make(reservation: Reservation, today: int) returns (effects: MakeEffects)
    modifies reservation
    ensures reservation.userId == GuestUser
    ensures effects.invoicePrice == ComputePrice(reservation.startDay, reservation.endDay)
    ensures effects.rental.Some? <==> reservation.startDay == today
    ensures effects.rental.Some? ==> effects.rental.value == RentalStart(GuestUser, reservation.id)
  {
    reservation.userId := GuestUser;
    var price := ComputePrice(reservation.startDay, reservation.endDay);
    var rental: Option<RentalStart> := None;
    if reservation.startDay == today {
      rental := Some(RentalStart(reservation.userId, reservation.id));
    }
    effects := MakeEffects(price, rental);
  }

  /** The busy-wait target of the high-correlation `make`, in milliseconds. */
  function BusyWaitMs(choice: bool): (ms: real)
    ensures ms > 0.0
  {
    if choice then 5.0 else 15.0
  }

  /** `(long) (busywaitTime * 1.0E+6)`: the cast truncates toward zero. */
  function BusyWaitNs(choice: bool): (ns: int)
    ensures ns == if choice then 5_000_000 else 15_000_000
  {
    (BusyWaitMs(choice) * 1_000_000.0).Floor
  }

  /** The `choice == false` branch spins three times as long as the `choice == true` one. */
  lemma BusyWaitRatio()
    ensures BusyWaitNs(false) == 3 * BusyWaitNs(true)
  {
  }

  /** What the high-correlation `make` does besides persisting: a spin, then maybe a rental. */
  datatype SpinEffects = SpinEffects(busyWaitNs: int, rental: Option<RentalStart>)

  /**
   * `make` of the high-correlation variant: no invoice, a busy wait chosen by `choice`, and the
   * same guest user and rental rule as the plain service.
   */
  method MakeWithBusyWait(reservation: Reservation, choice: bool, today: int) returns (effects: SpinEffects)
    modifies reservation
    ensures reservation.userId == GuestUser
    ensures effects.busyWaitNs == BusyWaitNs(choice)
    ensures effects.rental.Some? <==> reservation.startDay == today
    ensures effects.rental.Some? ==> effects.rental.value == RentalStart(GuestUser, reservation.id)
  {
    reservation.userId := GuestUser;
    var busyWaitTimeNs := BusyWaitNs(choice);
    var rental: Option<RentalStart> := None;
    if reservation.startDay == today {
      rental := Some(RentalStart(reservation.userId, reservation.id));
    }
    effects := SpinEffects(busyWaitTimeNs, rental);
  }

  // ---------------------------------------------------------------------------
  // availability
  // ---------------------------------------------------------------------------

  /** `carsById` after the first loop: each `put` overwrites an earlier car with the same id. */
  function CarsById(cars: seq<Car>): (m: map<int, Car>)
    ensures forall id | id in m :: m[id].id == id && m[id] in cars
  {
    if cars == [] then map[]
    else
      var car := cars[|cars| - 1];
      var m := CarsById(cars[..|cars| - 1]);
      assert forall c | c in cars[..|cars| - 1] :: c in cars;
      m[car.id := car]
  }

  /** The car ids of the reservations that `isReserved` reports for the requested window. */
  function ReservedCarIds(reservations: seq<Reservation>, startDate: int, endDate: int,
                          isReserved: (Reservation, int, int) -> bool): (ids: set<int>)
    ensures forall r | r in reservations && isReserved(r, startDate, endDate) :: r.carId in ids
    ensures forall id | id in ids :: exists r | r in reservations :: isReserved(r, startDate, endDate) && r.carId == id
  {
    set r | r in reservations && isReserved(r, startDate, endDate) :: r.carId
  }

  /** The collection `availability` returns, keyed by car id. */
  function AvailableCars(cars: seq<Car>, reservations: seq<Reservation>, startDate: int, endDate: int,
                         isReserved: (Reservation, int, int) -> bool): map<int, Car>
  {
    CarsById(cars) - ReservedCarIds(reservations, startDate, endDate, isReserved)
  }

  /** The first loop of the availability combiner. */
  method IndexCars(availableCars: seq<Car>) returns (carsById: map<int, Car>)
    ensures carsById == CarsById(availableCars)
  {
    carsById := map[];
    for i := 0 to |availableCars|
      invariant carsById == CarsById(availableCars[..i])
    {
      assert availableCars[..i + 1][..i] == availableCars[..i];
      var car := availableCars[i];
      carsById := carsById[car.id := car];
    }
    assert availableCars[..|availableCars|] == availableCars;
  }

  /**
   * The availability combiner: index the inventory by id, then remove the car of every
   * reservation that `isReserved` reports for the window.
   */
  method Availability(startDate: int, endDate: int, availableCars: seq<Car>, reservations: seq<Reservation>,
                      isReserved: (Reservation, int, int) -> bool)
    returns (carsById: map<int, Car>)
    ensures carsById == AvailableCars(availableCars, reservations, startDate, endDate, isReserved)
  {
    carsById := IndexCars(availableCars);
    for j := 0 to |reservations|
      invariant carsById == CarsById(availableCars) - ReservedCarIds(reservations[..j], startDate, endDate, isReserved)
    {
      var reservation := reservations[j];
      assert reservations[..j + 1] == reservations[..j] + [reservation];
      if isReserved(reservation, startDate, endDate) {
        carsById := carsById - {reservation.carId};
      }
      assert ReservedCarIds(reservations[..j + 1], startDate, endDate, isReserved)
          == ReservedCarIds(reservations[..j], startDate, endDate, isReserved)
             + (if isReserved(reservation, startDate, endDate) then {reservation.carId} else {});
    }
    assert reservations[..|reservations|] == reservations;
  }

  /** `availabilityFallback`: once the retries are spent, no car is offered. */
  function AvailabilityFallback(startDate: int, endDate: int): (cars: map<int, Car>)
    ensures |cars| == 0
  {
    map[]
  }

  /** Every car offered is an inventory car, filed under its own id. */
  lemma OnlyInventoryCars(cars: seq<Car>, reservations: seq<Reservation>, startDate: int, endDate: int,
                          isReserved: (Reservation, int, int) -> bool)
    ensures var available := AvailableCars(cars, reservations, startDate, endDate, isReserved);
            forall id | id in available :: available[id] in cars && available[id].id == id
  {
  }

  /** No car of a reservation that holds in the window is offered. */
  lemma ReservedCarsExcluded(cars: seq<Car>, reservations: seq<Reservation>, startDate: int, endDate: int,
                             isReserved: (Reservation, int, int) -> bool)
    ensures var available := AvailableCars(cars, reservations, startDate, endDate, isReserved);
            forall r | r in reservations && isReserved(r, startDate, endDate) :: r.carId !in available
  {
  }

  /**
   * Which car `CarsById` files under an id: the last inventory entry with that id, so a later
   * duplicate replaces an earlier one.
   */
  lemma {:induction false} LastDuplicateWins(cars: seq<Car>, i: int)
    requires 0 <= i < |cars|
    ensures cars[i].id in CarsById(cars)
    ensures exists j | i <= j < |cars| :: CarsById(cars)[cars[i].id] == cars[j]
              && forall k | j < k < |cars| :: cars[k].id != cars[i].id
  {
    var last := |cars| - 1;
    var init := cars[..last];
    assert CarsById(cars) == CarsById(init)[cars[last].id := cars[last]];
    if cars[last].id == cars[i].id {
      assert CarsById(cars)[cars[i].id] == cars[last];
    } else {
      LastDuplicateWins(init, i);
      var j :| i <= j < |init| && CarsById(init)[init[i].id] == init[j]
                && forall k | j < k < |init| :: init[k].id != init[i].id;
      assert CarsById(cars)[cars[i].id] == cars[j];
      forall k | j < k < |cars|
        ensures cars[k].id != cars[i].id
      {
        if k < last {
          assert cars[k] == init[k];
        }
      }
    }
  }

  /**
   * Every inventory car whose id no holding reservation names is offered, as the last inventory
   * entry with that id.
   */
  lemma UnreservedCarsOffered(cars: seq<Car>, reservations: seq<Reservation>, startDate: int, endDate: int,
                              isReserved: (Reservation, int, int) -> bool, i: int)
    requires 0 <= i < |cars|
    requires forall r | r in reservations && isReserved(r, startDate, endDate) :: r.carId != cars[i].id
    ensures var available := AvailableCars(cars, reservations, startDate, endDate, isReserved);
            && cars[i].id in available
            && exists j | i <= j < |cars| :: available[cars[i].id] == cars[j]
                 && forall k | j < k < |cars| :: cars[k].id != cars[i].id
  {
    LastDuplicateWins(cars, i);
  }
}
