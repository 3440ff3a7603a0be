# Slot-occupancy ingestion handler, modelled in Dafny

RFID readers publish JSON status messages over MQTT. The server's handler
decodes each message and upserts rows into two tables. `users` maps a tag id to
a login. `slots` maps a slot id to the tag that last touched it (`taken_by`) and
an occupancy flag (`is_taken`). This project models that handler
(main.go:131-216) and the status vocabulary it dispatches on (types/types.go).

- `Types` holds the `Status` integers `Placed`..`Disconnected`, `Status.String()`
  as `StatusString`, and the `MQTTMessage` record.
- `SlotList` models `strings.Split(slots, ";")` as `Split`, with `Join` as its
  inverse. It also holds the filter that skips empty pieces (`NonEmpty`) and
  their composition `Segments`.
- `Ingest` holds the tables as a value `Db`, the effect of one payload as the
  function `Step`, and a class `Store` with the two tables as `map` fields.
  `Store.Handle` is the handler and is proved to leave the store in the state
  `Step` gives. Its Placed/Taken loop (`Store.UpsertListed`) upserts one slot
  per non-empty piece and is proved equal to the fold `UpsertPieces`.
  `Store.UpsertSlot` and `Store.UpsertUser` state their new tables directly in
  terms of the old ones.
- `IngestProperties` proves what `Step` promises: which slots a message
  touches, what they hold afterwards, the frame, idempotence, last-write-wins,
  referential integrity, and how a stream of deliveries (`Run`) treats
  undecodable payloads and redeliveries.

Store behaviour that the source cannot see is a parameter. A `Faults` value
lists the primary keys whose upsert the store rejects while a message is
handled. A slot upsert also fails when its `taken_by` is not a user id. This is
the foreign key `slots.taken_by REFERENCES users(id)` of the documented schema;
the schema file is not part of this model. A failed upsert changes nothing, is
only logged, and the loop goes on with the next slot.

A decode failure of `json.Unmarshal` is the `None` of an `Option<MQTTMessage>`.

## Model

| member | source | states |
|---|---|---|
| `Types.StatusString` | types/types.go:12-25 | the result is "unknown status" exactly when the status is outside 0..3, and is never empty |
| `Types.StatusValues` | types/types.go:3-10 | the `iota` constants are 0, 1, 2, 3, and these four are the named statuses |
| `Types.StatusStringKnown` | types/types.go:13-21 | the fixed text of each of the four named statuses |
| `Types.StatusStringInjective` | types/types.go:12-24 | two statuses give the same text iff they are equal or both unnamed |
| `SlotList.Split` | main.go:148 | `strings.Split` on ";" yields at least one piece and no piece contains ";" |
| `SlotList.JoinSplit` | main.go:148 | joining the pieces of a slot list with ";" gives the list back |
| `SlotList.SplitJoin` | main.go:148 | splitting the join of ";"-free pieces gives the same pieces back |
| `SlotList.NonEmpty` | main.go:149-151 | the kept pieces are exactly the non-empty ones, never more than there were |
| `SlotList.Segments` | main.go:148-151 | a slot id is a segment iff it is a non-empty piece of the split; segments are non-empty and ";"-free |
| `SlotList.SplitExample` | main.go:148 | splitting "A01;;A02;" keeps the empty pieces: A01, "", A02, "" |
| `SlotList.SegmentsExample` | main.go:148-151 | "A01;;A02;" names exactly A01 then A02 |
| `SlotList.SegmentsOfBlank` | main.go:148-151 | an empty list, or one of separators only, names no slot |
| `Ingest.UpsertPieces` | main.go:148-165 | defines the slot table after the loop: a left fold over the split pieces that skips empty pieces, writes the row at each piece whose upsert commits, and leaves a failed one as it was; no row is removed, and every row is either the message's row or the old one |
| `Ingest.Step` | main.go:131-216 | defines one handler run: decode failure, Disconnected and unnamed statuses change nothing; Placed/Taken fold over the pieces with (RFID, status is Taken); Scanned writes the user with the default login when it commits; no row of either table is removed, and after Placed/Taken every slot row is the message's row or the old one |
| `Ingest.Store.UpsertSlot` | main.go:153-164 | keyed on id, overwrites (taken_by, is_taken) when it commits; commits iff the tag is a user and the key is not rejected; users unchanged |
| `Ingest.Store.UpsertUser` | main.go:199-208 | keyed on id, writes the default login when it commits; slots unchanged |
| `Ingest.Store.UpsertListed` | main.go:148-165 | after the loop the slot table is the loop's fold over the split pieces; users unchanged; integrity kept |
| `Ingest.Store.Handle` | main.go:131-216 | the new tables are `Step` of the old ones, and referential integrity is kept |
| `IngestProperties.UpsertPiecesAt` | main.go:148-165 | the loop writes the row at exactly the non-empty pieces whose upsert commits; every other key keeps its value |
| `IngestProperties.MoveEffect` | main.go:148-191 | a Placed/Taken message sets each committed listed slot to (tag, status is Taken), keeps all others, keeps users |
| `IngestProperties.PlacedEffect` | main.go:148-165 | after Placed by a registered tag, every accepted listed slot holds (tag, false), existing before or not |
| `IngestProperties.TakenEffect` | main.go:174-191 | after Taken by a registered tag, every accepted listed slot holds (tag, true) |
| `IngestProperties.MoveFrame` | main.go:148-191 | Placed/Taken change no unlisted slot, no rejected slot, and no user |
| `IngestProperties.ScannedEffect` | main.go:193-208 | Scanned leaves slots unchanged and, when the upsert commits, puts the tag in users with the default login |
| `IngestProperties.UndecodableIgnored` | main.go:134-138 | a payload that fails to decode leaves both tables unchanged |
| `IngestProperties.DefaultIgnored` | main.go:210-216 | Disconnected and every unnamed status leave both tables unchanged |
| `IngestProperties.StepPreservesConsistency` | main.go:140-216 | every message keeps each slot's taken_by pointing at an existing user |
| `IngestProperties.StepTwice` | main.go:153-208 | handling a message twice, the store failing independently each time, equals one run failing only on keys rejected both times: a redelivery never undoes a committed write |
| `IngestProperties.StepIdempotent` | main.go:153-208 | handling a message twice with the same store faults gives the same tables as handling it once |
| `IngestProperties.LastWriteWins` | main.go:153-186 | of two Placed/Taken messages listing a slot, the later committed one decides its (taken_by, is_taken) |
| `IngestProperties.ScanThenMove` | main.go:148-208 | after a committed Scanned of a tag, a Placed/Taken by that tag writes every listed slot the store does not reject |
| `IngestProperties.RunAppend` | main.go:129-218 | handling a stream in two parts equals handling it whole |
| `IngestProperties.UndecodableIsSkipped` | main.go:134-138 | an undecodable payload in a stream changes nothing, and later messages are still handled |
| `IngestProperties.RedeliveryIsAbsorbed` | main.go:140-208 | in a stream, a payload delivered twice back to back ends where one delivery does whose store rejects only the keys both deliveries' stores rejected |

## Left out

- Logging (zerolog calls in every branch): it changes no state.
- JSON decoding (`json.Unmarshal`): a library call; its outcome is the `Option` argument.
- MQTT transport, broker set-up, will topics and the `start`/`main`/`init` bootstrap (main.go:30-127, 218-239, broker/broker.go): I/O, configuration and concurrency.
- Concurrent handlers: the model handles messages one after another. Races between upserts are decided by the store's commit order, which a sequential stream stands for.
- The generated sqlboiler `models` package is not part of this model. An upsert is a map assignment keyed by id with the whitelisted columns. For `users` the whitelisted `login` takes the zero value of `User{ID: rfid}`, which equals the column default "". So a Scanned resets an existing login to "".
- Store failures other than the foreign key are not derived from anything. They are the `Faults` parameter, fixed for the duration of one message.
- `Status` is Go's `int`; the model uses unbounded integers. Out-of-range JSON numbers fail to decode, which the `None` case covers.
- The `message` field is only logged; it is carried but never read.
