/**
 The five booking handlers as operations on one store. Each handler's SQL
 statements become reads and map updates on the store's tables, in the order
 the handler issues them; every statement is taken to succeed.
 */
module Server {
  import opened Tables

  /** The handlers' non-database failures: 400 for missing fields or a taken slot, 404 otherwise. */
  datatype Error = MissingFields | SlotNotFound | AlreadyBooked | BookingNotFound

  datatype Result<T> = Ok(value: T) | Err(error: Error)

  /** A request-body field: `None` when absent, `null` or `undefined`. */
  datatype Option<T> = None | Some(value: T)

  /** A row of the slot listing: the slot id, its carpenter's name and its times. */
  datatype SlotListing = SlotListing(id: int, carpenter: string, startTime: Time, endTime: Time)

  /** The joined row returned for one booking. */
  datatype BookingDetails = BookingDetails(id: int, userName: string, status: Status,
                                           startTime: Time, endTime: Time, carpenter: string)

  /** `!slotId || !userName`: a field is missing when absent, the number 0 or the empty string. */
  predicate MissingInput(slotId: Option<int>, userName: Option<string>)
  {
    slotId == None || slotId == Some(0) || userName == None || userName == Some("")
  }

  class Store {
    var carpenters: map<int, string>
    var slots: map<int, Slot>
    var reservations: map<int, Reservation>
    /** The next value of the reservations table's auto-increment counter. */
    var nextId: int

    ghost predicate Valid()
      reads this
    {
      Consistent(carpenters, slots, reservations, nextId)
    }

    /** A store over tables that were filled consistently from outside (seed data). */
    constructor (carpenters: map<int, string>, slots: map<int, Slot>,
                 reservations: map<int, Reservation>, nextId: int)
      requires Consistent(carpenters, slots, reservations, nextId)
      ensures Valid()
      ensures this.carpenters == carpenters && this.slots == slots
      ensures this.reservations == reservations && this.nextId == nextId
    {
      this.carpenters := carpenters;
      this.slots := slots;
      this.reservations := reservations;
      this.nextId := nextId;
    }

    /** GET /api/slots: the available slots, inner-joined with their carpenter. */
    function ListAvailable(): (rows: set<SlotListing>)
      reads this
      ensures forall row :: row in rows ==>
                && row.id in slots && slots[row.id].available
                && slots[row.id].carpenterId in carpenters
                && row.carpenter == carpenters[slots[row.id].carpenterId]
                && row.startTime == slots[row.id].startTime && row.endTime == slots[row.id].endTime
      ensures forall sid :: sid in slots && slots[sid].available && slots[sid].carpenterId in carpenters ==>
                SlotListing(sid, carpenters[slots[sid].carpenterId], slots[sid].startTime, slots[sid].endTime) in rows
    {
      set sid | sid in slots && slots[sid].available && slots[sid].carpenterId in carpenters
        :: SlotListing(sid, carpenters[slots[sid].carpenterId], slots[sid].startTime, slots[sid].endTime)
    }

    /** In a consistent store the listing shows exactly the slots no reservation references. */
    lemma ListedAreUnreserved()
      requires Valid()
      ensures (set row | row in ListAvailable() :: row.id) == slots.Keys - ReservedSlots(reservations)
    {
      var listed := set row | row in ListAvailable() :: row.id;
      forall sid | sid in slots && sid !in ReservedSlots(reservations)
        ensures sid in listed
      {
        var row := SlotListing(sid, carpenters[slots[sid].carpenterId], slots[sid].startTime, slots[sid].endTime);
        assert row in ListAvailable();
      }
    }

    /** GET /api/booking/:id: the reservation inner-joined with its slot and the slot's carpenter. */
    function GetBooking(id: int): (r: Result<BookingDetails>)
      reads this
      ensures r.Err? ==> r.error == BookingNotFound
      ensures r.Ok? <==> (&& id in reservations && reservations[id].slotId in slots
                          && slots[reservations[id].slotId].carpenterId in carpenters)
      ensures Valid() ==> (r.Ok? <==> id in reservations)
      ensures r.Ok? ==>
                && r.value.id == id
                && r.value.userName == reservations[id].userName
                && r.value.status == reservations[id].status
                && r.value.startTime == slots[reservations[id].slotId].startTime
                && r.value.endTime == slots[reservations[id].slotId].endTime
                && r.value.carpenter == carpenters[slots[reservations[id].slotId].carpenterId]
    {
      if id in reservations && reservations[id].slotId in slots
         && slots[reservations[id].slotId].carpenterId in carpenters
      then
        var res := reservations[id];
        var slot := slots[res.slotId];
        Ok(BookingDetails(id, res.userName, res.status, slot.startTime, slot.endTime, carpenters[slot.carpenterId]))
      else
        Err(BookingNotFound)
    }

    /**
     POST /api/book: validate the fields, read the slot, insert a reservation
     under the next auto-increment id, then mark the slot taken.
     */
    method Book(slotId: Option<int>, userName: Option<string>) returns (r: Result<int>)
      requires Valid()
      modifies this
      ensures Valid()
      ensures MissingInput(slotId, userName) ==> r == Err(MissingFields) && unchanged(this)
      ensures !MissingInput(slotId, userName) && slotId.value !in old(slots) ==>
                r == Err(SlotNotFound) && unchanged(this)
      ensures !MissingInput(slotId, userName) && slotId.value in old(slots) && !old(slots)[slotId.value].available ==>
                r == Err(AlreadyBooked) && unchanged(this)
      ensures !MissingInput(slotId, userName) && slotId.value in old(slots) && old(slots)[slotId.value].available ==>
                && r == Ok(old(nextId))
                && r.value !in old(reservations)
                && reservations == old(reservations)[r.value := Reservation(slotId.value, userName.value, Booked)]
                && slots == SetAvailability(old(slots), slotId.value, false)
                && carpenters == old(carpenters)
                && nextId == old(nextId) + 1
                && GetBooking(r.value) == Ok(BookingDetails(r.value, userName.value, Booked,
                                                            slots[slotId.value].startTime, slots[slotId.value].endTime,
                                                            carpenters[slots[slotId.value].carpenterId]))
                && forall row :: row in ListAvailable() ==> row.id != slotId.value
    {
      if MissingInput(slotId, userName) {
        return Err(MissingFields);
      }
      var sid := slotId.value;
      if sid !in slots {
        return Err(SlotNotFound);
      }
      if !slots[sid].available {
        return Err(AlreadyBooked);
      }
      BookKeepsConsistent(carpenters, slots, reservations, nextId, sid, userName.value);
      var id := nextId;
      reservations := reservations[id := Reservation(sid, userName.value, Booked)];
      nextId := nextId + 1;
      slots := SetAvailability(slots, sid, false);
      r := Ok(id);
    }

    /** PUT /api/booking/:id/confirm: an unconditional status update that reports success even for an unknown id. */
    method Confirm(id: int) returns (r: Result<()>)
      requires Valid()
      modifies this
      ensures Valid()
      ensures r == Ok(())
      ensures reservations == SetStatus(old(reservations), id, Confirmed)
      ensures id !in old(reservations) ==> unchanged(this)
      ensures slots == old(slots) && carpenters == old(carpenters) && nextId == old(nextId)
      ensures id in old(reservations) ==> GetBooking(id).Ok? && GetBooking(id).value.status == Confirmed
    {
      ConfirmKeepsConsistent(carpenters, slots, reservations, nextId, id);
      reservations := SetStatus(reservations, id, Confirmed);
      r := Ok(());
    }

    /**
     DELETE /api/booking/:id: read the reservation's slot, delete the
     reservation, then mark that slot available again.
     */
    method Cancel(id: int) returns (r: Result<()>)
      requires Valid()
      modifies this
      ensures Valid()
      ensures id !in old(reservations) ==> r == Err(BookingNotFound) && unchanged(this)
      ensures id in old(reservations) ==>
                && r == Ok(())
                && reservations == old(reservations) - {id}
                && slots == SetAvailability(old(slots), old(reservations)[id].slotId, true)
                && carpenters == old(carpenters) && nextId == old(nextId)
                && var sid := old(reservations)[id].slotId;
                   SlotListing(sid, carpenters[slots[sid].carpenterId], slots[sid].startTime, slots[sid].endTime)
                     in ListAvailable()
      ensures GetBooking(id) == Err(BookingNotFound)
    {
      if id !in reservations {
        return Err(BookingNotFound);
      }
      var sid := reservations[id].slotId;
      CancelKeepsConsistent(carpenters, slots, reservations, nextId, id);
      reservations := reservations - {id};
      slots := SetAvailability(slots, sid, true);
      r := Ok(());
    }
  }

  /**
   One carpenter with one free slot: book it, see it leave the listing,
   confirm the booking, cancel it, and see the slot listed again.
   */
  method BookConfirmCancelScenario()
  {
    var slot := Slot(1, "2025-01-01 09:00", "2025-01-01 10:00", true);
    var store := new Store(map[1 := "Alice"], map[7 := slot], map[], 1);
    var listing := SlotListing(7, "Alice", slot.startTime, slot.endTime);
    assert store.slots[7] == slot && store.carpenters[1] == "Alice";
    assert listing in store.ListAvailable();

    var booked := store.Book(Some(7), Some("Bob"));
    assert booked == Ok(1);
    assert forall row :: row in store.ListAvailable() ==> row.id != 7;
    assert store.GetBooking(1).Ok? && store.GetBooking(1).value.status == Booked;

    var again := store.Book(Some(7), Some("Carol"));
    assert again == Err(AlreadyBooked);
    var missing := store.Book(Some(0), Some("Carol"));
    assert missing == Err(MissingFields);

    var confirmed := store.Confirm(1);
    assert store.GetBooking(1).value.status == Confirmed;

    assert store.reservations[1].slotId == 7;
    var cancelled := store.Cancel(1);
    assert cancelled == Ok(());
    assert store.GetBooking(1) == Err(BookingNotFound);
    assert store.slots[7] == slot && store.carpenters[1] == "Alice";
    assert listing in store.ListAvailable();
  }
}
