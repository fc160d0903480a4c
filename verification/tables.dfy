/**
 The three tables of the booking database (carpenters, slots, reservations),
 the single-row UPDATE statements the handlers issue, and the consistency
 invariant that every handler keeps: the foreign keys hold, a slot is
 available exactly when no reservation references it, no slot carries two
 reservations, and every reservation id lies below the next auto-increment id.
 */
module Tables {

  /** The DATETIME columns; the handlers only copy them, so their text is kept opaque. */
  type Time = string

  datatype Status = Booked | Confirmed

  /** A row of `slots`, without its primary key. */
  datatype Slot = Slot(carpenterId: int, startTime: Time, endTime: Time, available: bool)

  /** A row of `reservations`, without its primary key. */
  datatype Reservation = Reservation(slotId: int, userName: string, status: Status)

  /** The slot ids that some reservation references. */
  function ReservedSlots(reservations: map<int, Reservation>): set<int>
  {
    set id | id in reservations :: reservations[id].slotId
  }

  /** The reservation ids that reference slot `sid`. */
  function HoldersOf(reservations: map<int, Reservation>, sid: int): set<int>
  {
    set id | id in reservations && reservations[id].slotId == sid
  }

  /** `UPDATE slots SET is_available = b WHERE id = sid`: a no-op when no row has that id. */
  function SetAvailability(slots: map<int, Slot>, sid: int, b: bool): (slots': map<int, Slot>)
    ensures slots'.Keys == slots.Keys
    ensures sid in slots ==> slots'[sid] == slots[sid].(available := b)
    ensures forall other :: other in slots && other != sid ==> slots'[other] == slots[other]
  {
    if sid in slots then slots[sid := slots[sid].(available := b)] else slots
  }

  /** `UPDATE reservations SET status = st WHERE id = id`: a no-op when no row has that id. */
  function SetStatus(reservations: map<int, Reservation>, id: int, st: Status): (reservations': map<int, Reservation>)
    ensures reservations'.Keys == reservations.Keys
    ensures id in reservations ==> reservations'[id] == reservations[id].(status := st)
    ensures forall other :: other in reservations && other != id ==> reservations'[other] == reservations[other]
  {
    if id in reservations then reservations[id := reservations[id].(status := st)] else reservations
  }

  /** Foreign key slots.carpenter_id -> carpenters.id. */
  ghost predicate SlotsHaveCarpenters(carpenters: map<int, string>, slots: map<int, Slot>)
  {
    forall sid :: sid in slots ==> slots[sid].carpenterId in carpenters
  }

  /** Foreign key reservations.slot_id -> slots.id. */
  ghost predicate ReservationsHaveSlots(slots: map<int, Slot>, reservations: map<int, Reservation>)
  {
    forall id :: id in reservations ==> reservations[id].slotId in slots
  }

  /** The availability invariant: `is_available` is true exactly when no reservation references the slot. */
  ghost predicate AvailableIffUnreserved(slots: map<int, Slot>, reservations: map<int, Reservation>)
  {
    forall sid :: sid in slots ==> (slots[sid].available <==> sid !in ReservedSlots(reservations))
  }

  /** No two reservations reference the same slot. */
  ghost predicate OneReservationPerSlot(reservations: map<int, Reservation>)
  {
    forall a, b :: a in reservations && b in reservations && reservations[a].slotId == reservations[b].slotId ==> a == b
  }

  /** Every reservation id was handed out before the auto-increment counter reached `nextId`. */
  ghost predicate IdsBelow(reservations: map<int, Reservation>, nextId: int)
  {
    forall id :: id in reservations ==> id < nextId
  }

  ghost predicate Consistent(carpenters: map<int, string>, slots: map<int, Slot>,
                             reservations: map<int, Reservation>, nextId: int)
  {
    && SlotsHaveCarpenters(carpenters, slots)
    && ReservationsHaveSlots(slots, reservations)
    && AvailableIffUnreserved(slots, reservations)
    && OneReservationPerSlot(reservations)
    && IdsBelow(reservations, nextId)
  }

  /** Inserting a row under a fresh key adds exactly its slot to the reserved slots. */
  lemma ReservedAfterInsert(reservations: map<int, Reservation>, id: int, r: Reservation)
    requires id !in reservations
    ensures ReservedSlots(reservations[id := r]) == ReservedSlots(reservations) + {r.slotId}
  {
    var after := reservations[id := r];
    forall sid | sid in ReservedSlots(reservations)
      ensures sid in ReservedSlots(after)
    {
      var k :| k in reservations && reservations[k].slotId == sid;
      assert after[k].slotId == sid;
    }
    assert after[id].slotId == r.slotId;
  }

  /** Deleting a row removes its slot from the reserved slots, because no other row references that slot. */
  lemma ReservedAfterDelete(reservations: map<int, Reservation>, id: int)
    requires id in reservations
    requires OneReservationPerSlot(reservations)
    ensures ReservedSlots(reservations - {id}) == ReservedSlots(reservations) - {reservations[id].slotId}
  {
    var after := reservations - {id};
    forall sid | sid in ReservedSlots(reservations) && sid != reservations[id].slotId
      ensures sid in ReservedSlots(after)
    {
      var k :| k in reservations && reservations[k].slotId == sid;
      assert k in after && after[k].slotId == sid;
    }
  }

  /** Changing a reservation's status leaves the reserved slots as they were. */
  lemma ReservedAfterRestatus(reservations: map<int, Reservation>, id: int, st: Status)
    ensures ReservedSlots(SetStatus(reservations, id, st)) == ReservedSlots(reservations)
  {
  }

  /** Booking an available slot (insert the reservation, then mark the slot taken) keeps the store consistent. */
  lemma BookKeepsConsistent(carpenters: map<int, string>, slots: map<int, Slot>,
                            reservations: map<int, Reservation>, nextId: int, sid: int, userName: string)
    requires Consistent(carpenters, slots, reservations, nextId)
    requires sid in slots && slots[sid].available
    ensures Consistent(carpenters, SetAvailability(slots, sid, false),
                       reservations[nextId := Reservation(sid, userName, Booked)], nextId + 1)
  {
    var r := Reservation(sid, userName, Booked);
    ReservedAfterInsert(reservations, nextId, r);
    forall a | a in reservations
      ensures reservations[a].slotId != sid
    {
      assert reservations[a].slotId in ReservedSlots(reservations);
    }
  }

  /** Cancelling a reservation (delete it, then mark its slot free) keeps the store consistent. */
  lemma CancelKeepsConsistent(carpenters: map<int, string>, slots: map<int, Slot>,
                              reservations: map<int, Reservation>, nextId: int, id: int)
    requires Consistent(carpenters, slots, reservations, nextId)
    requires id in reservations
    ensures Consistent(carpenters, SetAvailability(slots, reservations[id].slotId, true),
                       reservations - {id}, nextId)
  {
    ReservedAfterDelete(reservations, id);
  }

  /** Confirming any id, present or not, keeps the store consistent. */
  lemma ConfirmKeepsConsistent(carpenters: map<int, string>, slots: map<int, Slot>,
                               reservations: map<int, Reservation>, nextId: int, id: int)
    requires Consistent(carpenters, slots, reservations, nextId)
    ensures Consistent(carpenters, slots, SetStatus(reservations, id, Confirmed), nextId)
  {
  }

  /** In a consistent store a free slot has no reservation and a taken slot has exactly one. */
  lemma HoldersOfSlot(carpenters: map<int, string>, slots: map<int, Slot>,
                      reservations: map<int, Reservation>, nextId: int, sid: int)
    requires Consistent(carpenters, slots, reservations, nextId)
    requires sid in slots
    ensures slots[sid].available ==> HoldersOf(reservations, sid) == {}
    ensures !slots[sid].available ==> |HoldersOf(reservations, sid)| == 1
  {
    if slots[sid].available {
      forall k | k in reservations
        ensures reservations[k].slotId != sid
      {
        assert reservations[k].slotId in ReservedSlots(reservations);
      }
    } else {
      var k :| k in reservations && reservations[k].slotId == sid;
      forall j | j in HoldersOf(reservations, sid)
        ensures j == k
      {
        assert reservations[j].slotId == reservations[k].slotId;
      }
      assert HoldersOf(reservations, sid) == {k};
    }
  }

  /**
   The state between the INSERT and the UPDATE of a booking is not consistent:
   the new reservation exists while its slot is still marked available.
   */
  lemma InsertAloneBreaksAvailability(slots: map<int, Slot>, reservations: map<int, Reservation>,
                                      nextId: int, sid: int, userName: string)
    requires IdsBelow(reservations, nextId)
    requires sid in slots && slots[sid].available
    ensures !AvailableIffUnreserved(slots, reservations[nextId := Reservation(sid, userName, Booked)])
  {
    ReservedAfterInsert(reservations, nextId, Reservation(sid, userName, Booked));
  }

  /**
   The availability invariant on its own is not enough for cancelling: with two
   reservations on one taken slot, deleting one and freeing the slot leaves a
   reservation on an available slot. This is why `Consistent` also demands
   one reservation per slot.
   */
  lemma AvailabilityAloneNotKeptByCancel()
    ensures var slots := map[1 := Slot(1, "09:00", "10:00", false)];
            var reservations := map[1 := Reservation(1, "a", Booked), 2 := Reservation(1, "b", Booked)];
            && AvailableIffUnreserved(slots, reservations)
            && !AvailableIffUnreserved(SetAvailability(slots, 1, true), reservations - {1})
  {
    var slots := map[1 := Slot(1, "09:00", "10:00", false)];
    var reservations := map[1 := Reservation(1, "a", Booked), 2 := Reservation(1, "b", Booked)];
    assert reservations[1].slotId == 1;
    assert (reservations - {1})[2].slotId == 1;
  }
}
