/**
 * The MQTT ingestion handler of main.go:131-216 over the two keyed tables it
 * upserts into: `users` (id -> login) and `slots` (id -> taken_by, is_taken).
 */
module Ingest {
  import opened Wrappers
  import opened Types
  import opened SlotList

  /** The value columns of a `slots` row, keyed by the slot id. */
  datatype SlotRow = SlotRow(takenBy: string, isTaken: bool)

  /** Both tables as values: the state a message is applied to. */
  datatype Db = Db(users: map<string, string>, slots: map<string, SlotRow>)

  /**
   * The store's transient failures, as the primary keys whose upsert it
   * rejects while a message is handled (the source only logs such errors).
   */
  datatype Faults = Faults(slotIds: set<string>, userIds: set<string>)

  /** The sentinel user that pre-exists so that slots can reference someone. */
  const NullUser: string := "null"

  /** `login` as written by `User{ID: rfid}`: Go's zero value, equal to the column default. */
  const DefaultLogin: string := ""

  /** Referential integrity: every slot's `taken_by` names an existing user, and the sentinel exists. */
  ghost predicate Consistent(db: Db)
  {
    && NullUser in db.users
    && forall id :: id in db.slots ==> db.slots[id].takenBy in db.users
  }

  /** A slot upsert commits unless the store rejects the key or `taken_by` violates the foreign key. */
  predicate SlotUpsertSucceeds(users: map<string, string>, id: string, row: SlotRow, faults: Faults)
  {
    row.takenBy in users && id !in faults.slotIds
  }

  /** A user upsert commits unless the store rejects the key. */
  predicate UserUpsertSucceeds(id: string, faults: Faults)
  {
    id !in faults.userIds
  }

  /**
   * The slot table after the handler's loop has visited `pieces` in order:
   * empty pieces are skipped, each other piece is upserted with `row`, and a
   * failed upsert leaves its slot as it was.
   */
  function UpsertPieces(users: map<string, string>, slots: map<string, SlotRow>,
                        pieces: seq<string>, row: SlotRow, faults: Faults): (r: map<string, SlotRow>)
    ensures slots.Keys <= r.Keys
    ensures forall id :: id in r ==> r[id] == row || (id in slots && r[id] == slots[id])
    decreases |pieces|
  {
    if pieces == [] then slots
    else
      var before := UpsertPieces(users, slots, pieces[..|pieces| - 1], row, faults);
      var id := pieces[|pieces| - 1];
      if id != "" && SlotUpsertSucceeds(users, id, row, faults) then before[id := row] else before
  }

  /** The row a Placed or Taken message writes: the tag as `taken_by`, Taken as `is_taken`. */
  function RowOf(m: MQTTMessage): SlotRow
  {
    SlotRow(m.rfid, m.status == Taken)
  }

  /** Whether the handler writes slots for this message (the Placed and Taken cases). */
  predicate MovesComputer(m: MQTTMessage)
  {
    m.status == Placed || m.status == Taken
  }

  /** The effect of handling one payload; `None` is a payload that failed to decode. */
  function Step(db: Db, msg: Option<MQTTMessage>, faults: Faults): (r: Db)
    ensures db.users.Keys <= r.users.Keys && db.slots.Keys <= r.slots.Keys
    ensures msg.Some? && MovesComputer(msg.value) ==>
      forall id :: id in r.slots ==> r.slots[id] == RowOf(msg.value) || (id in db.slots && r.slots[id] == db.slots[id])
  {
    match msg
    case None => db
    case Some(m) =>
      if MovesComputer(m) then
        Db(db.users, UpsertPieces(db.users, db.slots, Split(m.slots), RowOf(m), faults))
      else if m.status == Scanned then
        if UserUpsertSucceeds(m.rfid, faults) then Db(db.users[m.rfid := DefaultLogin], db.slots) else db
      else db
  }

  class Store {
    var users: map<string, string>
    var slots: map<string, SlotRow>

    function State(): Db
      reads this
    {
      Db(users, slots)
    }

    ghost predicate Valid()
      reads this
    {
      Consistent(State())
    }

    /** The freshly seeded database: the sentinel user and no slot rows. */
    constructor ()
      ensures Valid()
      ensures users == map[NullUser := DefaultLogin] && slots == map[]
    {
      users := map[NullUser := DefaultLogin];
      slots := map[];
    }

    /** `slot.UpsertG` keyed on `id`, overwriting `taken_by` and `is_taken` on conflict. */
    method UpsertSlot(id: string, row: SlotRow, faults: Faults) returns (ok: bool)
      requires Valid()
      modifies this
      ensures Valid()
      ensures ok == SlotUpsertSucceeds(old(users), id, row, faults)
      ensures users == old(users)
      ensures slots == if ok then old(slots)[id := row] else old(slots)
    {
      ok := SlotUpsertSucceeds(users, id, row, faults);
      if ok {
        slots := slots[id := row];
      }
    }

    /** `user.UpsertG` keyed on `id`, overwriting `login` on conflict. */
    method UpsertUser(id: string, faults: Faults) returns (ok: bool)
      requires Valid()
      modifies this
      ensures Valid()
      ensures ok == UserUpsertSucceeds(id, faults)
      ensures slots == old(slots)
      ensures users == if ok then old(users)[id := DefaultLogin] else old(users)
    {
      ok := UserUpsertSucceeds(id, faults);
      if ok {
        users := users[id := DefaultLogin];
      }
    }

    /** The loop of the Placed and Taken cases: one upsert per non-empty piece of `slotList`. */
    method UpsertListed(slotList: string, row: SlotRow, faults: Faults)
      requires Valid()
      modifies this
      ensures Valid()
      ensures users == old(users)
      ensures slots == UpsertPieces(old(users), old(slots), Split(slotList), row, faults)
    {
      var pieces := Split(slotList);
      for i := 0 to |pieces|
        invariant Valid()
        invariant users == old(users)
        invariant slots == UpsertPieces(old(users), old(slots), pieces[..i], row, faults)
      {
        assert pieces[..i + 1][..i] == pieces[..i];
        if pieces[i] != "" {
          var ok := UpsertSlot(pieces[i], row, faults);
          // a failed upsert is logged and the loop goes on
        }
      }
      assert pieces[..|pieces|] == pieces;
    }

    /** The handler: decode, then dispatch on the status. */
    method Handle(msg: Option<MQTTMessage>, faults: Faults)
      requires Valid()
      modifies this
      ensures Valid()
      ensures State() == Step(old(State()), msg, faults)
    {
      if msg.None? {
        // failed to unmarshal: logged, message dropped
        return;
      }
      var m := msg.value;
      if m.status == Placed {
        UpsertListed(m.slots, SlotRow(m.rfid, false), faults);
      } else if m.status == Taken {
        UpsertListed(m.slots, SlotRow(m.rfid, true), faults);
      } else if m.status == Scanned {
        var ok := UpsertUser(m.rfid, faults);
      }
      // default (Disconnected and every unnamed status): a warning is logged
    }
  }
}
