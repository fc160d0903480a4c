# Booking store of the Urban Company booking server

This project models the store logic behind the five booking handlers of
`server.js`, an Express/MySQL server. The server keeps three tables:

- `carpenters`: id ↦ name;
- `slots`: id ↦ (carpenter id, start time, end time, `is_available`);
- `reservations`: id ↦ (slot id, user name, status `booked` or `confirmed`).

The handlers work on these tables:

- list the available slots;
- book a slot: validate the fields, read the slot, `INSERT` a reservation, then `UPDATE` the slot to taken;
- read a booking through a join;
- confirm a booking with an unconditional `UPDATE`;
- cancel a booking: read its slot, `DELETE` the reservation, then `UPDATE` the slot to free.

Module `Tables` (`tables.dfy`) holds the row types and the single-row
`UPDATE` statements. It also holds the consistency invariant `Consistent`:

- every slot's carpenter exists;
- every reservation's slot exists;
- a slot is available exactly when no reservation references it;
- no two reservations reference the same slot;
- every reservation id lies below the next auto-increment id.

The same module proves, over plain maps, that each handler's sequence of
statements keeps `Consistent`.

Module `Server` (`server.dfy`) holds the class `Store`. Its map fields are
the three tables, and `nextId` stands for the table's auto-increment counter.
`Book`, `Confirm` and `Cancel` are methods that update those fields in the
order the handler issues its statements. `ListAvailable` and `GetBooking`
are read-only functions of the fields. The joins are inner joins: a row
whose foreign key dangles drops out. Under `Consistent` that never happens,
and `ListedAreUnreserved` and the last clauses of `GetBooking` say so. The
method `BookConfirmCancelScenario` is a client of the class. It books a slot,
sees it leave the listing, confirms and cancels the booking, and sees the
slot listed again. All of this is proved from the contracts alone.

The invariant states that a slot is available exactly when no reservation
references it. That statement alone does not imply that a slot holds at most
one reservation. It is also not kept by cancelling, because the cancel
handler frees the slot without looking for other reservations on it.
`AvailabilityAloneNotKeptByCancel` exhibits such a state. `Consistent`
therefore also requires one reservation per slot. `Book` keeps this, because
it refuses a slot that is already taken. `HoldersOfSlot` derives the
consequence: a free slot has no reservation, and a taken slot has exactly one.

Request fields are modelled as `Option` values. The check `!slotId ||
!userName` treats a field as missing when it is absent, the number 0 or the
empty string. Time values are opaque strings that the handlers only copy.

## Model

| member | source | states |
|---|---|---|
| Tables.SetAvailability | server.js:83-84 | `UPDATE slots SET is_available = b WHERE id = ?` sets only that slot's flag, keeps every other row and the key set, and is a no-op for an unknown id |
| Tables.SetStatus | server.js:121-122 | `UPDATE reservations SET status = ? WHERE id = ?` changes only that reservation's status, keeps every other row and the key set, and is a no-op for an unknown id |
| Tables.ReservedAfterInsert | server.js:76-77 | inserting a reservation under a fresh id adds exactly its slot to the set of reserved slots |
| Tables.ReservedAfterDelete | server.js:146-147 | when no slot has two reservations, deleting a reservation removes exactly its slot from the reserved slots |
| Tables.ReservedAfterRestatus | server.js:121 | changing a reservation's status leaves the reserved slots unchanged |
| Tables.BookKeepsConsistent | server.js:72-84 | inserting a `booked` reservation under the next id for an available slot, then marking that slot taken, keeps the foreign keys, availability-iff-unreserved, one reservation per slot and fresh ids |
| Tables.CancelKeepsConsistent | server.js:141-154 | deleting an existing reservation, then marking its slot available, keeps the store consistent |
| Tables.ConfirmKeepsConsistent | server.js:119-122 | setting any id's status to `confirmed`, whether it exists or not, keeps the store consistent |
| Tables.HoldersOfSlot | server.js:72-84 | in a consistent store an available slot has no reservation and a taken slot has exactly one |
| Tables.InsertAloneBreaksAvailability | server.js:76-88 | the state after the `INSERT` and before the slot `UPDATE` violates the availability invariant: the new reservation references a slot still marked available |
| Tables.AvailabilityAloneNotKeptByCancel | server.js:144-159 | without one reservation per slot, the availability invariant can hold before a cancel and fail after it |
| Server.Store.ListAvailable | server.js:40-54 | every listed row is an available slot with its carpenter's name and its start and end time; every available slot whose carpenter exists is listed |
| Server.Store.ListedAreUnreserved | server.js:41-46 | in a consistent store the listed slot ids are exactly the slots that no reservation references |
| Server.Store.GetBooking | server.js:96-116 | NotFound when the reservation (or, through the inner join, its slot or carpenter) is absent, and in a consistent store exactly when the id is absent; otherwise the id, user name, status, the slot's times and the carpenter's name |
| Server.Store.Book | server.js:57-93 | missing or falsy fields give MissingFields, an unknown slot gives SlotNotFound, a taken slot gives AlreadyBooked, and all three leave the store unchanged; otherwise it inserts one `booked` reservation under a fresh id, marks only that slot taken, leaves carpenters and every other row unchanged, returns the new id, the booking becomes readable, the slot leaves the listing, and the store stays consistent |
| Server.Store.Confirm | server.js:119-129 | always reports success; sets the status of reservation `id` to `confirmed`, changes nothing else, is a no-op for an unknown id, and keeps the store consistent |
| Server.Store.Cancel | server.js:132-163 | an unknown id gives NotFound and changes nothing; otherwise it deletes only that reservation, marks only its slot available, and the slot is listed again; afterwards `GetBooking(id)` is NotFound, and the store stays consistent |

## Left out

- Express setup, body parsing, static file serving, the port and `listen` (server.js:7-16, 166-168): HTTP transport and process startup.
- The MySQL pool and the startup connection test (server.js:19-35): I/O through a foreign library.
- Every "Database error" (500) branch and its logging. Each statement is modelled as succeeding. So the partial states these branches leave are not modelled: a reservation inserted with its slot still free (server.js:84-88), or a reservation deleted with its slot still taken (server.js:154-158). `InsertAloneBreaksAvailability` shows that the first of these breaks the invariant.
- The race between concurrent bookings of one slot (server.js:63-84): the model is sequential, one handler at a time.
- JSON bodies and message texts: only the outcome kind (`Error`) and the returned value are kept.
- Row order of the slot listing: `ListAvailable` returns a set. The SQL returns rows in storage order with no `ORDER BY`, and the ids are distinct.
- Request values of other JSON types (a `slotId` given as a string, a non-string `userName`) and path ids that are not numbers: ids are integers and names are strings.
- Creating or deleting carpenters and slots, and seeding the tables: no handler does this. The `Store` constructor accepts any consistent seed.
