/**
 * What handling messages does to the two tables: which slots a message
 * touches, what they hold afterwards, what is left alone, and how repeated,
 * reordered or undecodable deliveries combine.
 */
module IngestProperties {
  import opened Wrappers
  import opened Types
  import opened SlotList
  import opened Ingest

  /** Values at one key agree in the two maps (both absent, or both present and equal). */
  predicate SameAt<K, V(==)>(m: map<K, V>, m': map<K, V>, k: K)
  {
    (k in m <==> k in m') && (k in m ==> m[k] == m'[k])
  }

  /** The loop writes `row` at exactly the non-empty pieces whose upsert commits; every other key keeps its value. */
  lemma {:induction false} UpsertPiecesAt(users: map<string, string>, slots: map<string, SlotRow>,
                                          pieces: seq<string>, row: SlotRow, faults: Faults, id: string)
    ensures var r := UpsertPieces(users, slots, pieces, row, faults);
      if id in pieces && id != "" && SlotUpsertSucceeds(users, id, row, faults)
      then id in r && r[id] == row
      else SameAt(slots, r, id)
    decreases |pieces|
  {
    if pieces != [] {
      var init := pieces[..|pieces| - 1];
      UpsertPiecesAt(users, slots, init, row, faults, id);
      assert pieces == init + [pieces[|pieces| - 1]];
    }
  }

  /**
   * A Placed or Taken message sets every listed slot whose upsert commits to
   * (tag, is_taken), whether or not the row existed; every other slot and the
   * whole users table are unchanged.
   */
  lemma MoveEffect(db: Db, m: MQTTMessage, faults: Faults, id: string)
    requires MovesComputer(m)
    ensures Step(db, Some(m), faults).users == db.users
    ensures var slots' := Step(db, Some(m), faults).slots;
      if id in Segments(m.slots) && SlotUpsertSucceeds(db.users, id, RowOf(m), faults)
      then id in slots' && slots'[id] == SlotRow(m.rfid, m.status == Taken)
      else SameAt(db.slots, slots', id)
  {
    UpsertPiecesAt(db.users, db.slots, Split(m.slots), RowOf(m), faults, id);
  }

  /** After a Placed message from a registered tag, each listed slot the store accepts holds (tag, false). */
  lemma PlacedEffect(db: Db, m: MQTTMessage, faults: Faults)
    requires m.status == Placed && m.rfid in db.users
    ensures forall id :: id in Segments(m.slots) && id !in faults.slotIds ==>
      id in Step(db, Some(m), faults).slots && Step(db, Some(m), faults).slots[id] == SlotRow(m.rfid, false)
  {
    forall id | id in Segments(m.slots) && id !in faults.slotIds
      ensures id in Step(db, Some(m), faults).slots && Step(db, Some(m), faults).slots[id] == SlotRow(m.rfid, false)
    {
      MoveEffect(db, m, faults, id);
    }
  }

  /** After a Taken message from a registered tag, each listed slot the store accepts holds (tag, true). */
  lemma TakenEffect(db: Db, m: MQTTMessage, faults: Faults)
    requires m.status == Taken && m.rfid in db.users
    ensures forall id :: id in Segments(m.slots) && id !in faults.slotIds ==>
      id in Step(db, Some(m), faults).slots && Step(db, Some(m), faults).slots[id] == SlotRow(m.rfid, true)
  {
    forall id | id in Segments(m.slots) && id !in faults.slotIds
      ensures id in Step(db, Some(m), faults).slots && Step(db, Some(m), faults).slots[id] == SlotRow(m.rfid, true)
    {
      MoveEffect(db, m, faults, id);
    }
  }

  /** A Placed or Taken message changes no slot outside its segment list, and a rejected slot keeps its row. */
  lemma MoveFrame(db: Db, m: MQTTMessage, faults: Faults)
    requires MovesComputer(m)
    ensures Step(db, Some(m), faults).users == db.users
    ensures forall id :: id !in Segments(m.slots) || !SlotUpsertSucceeds(db.users, id, RowOf(m), faults) ==>
      SameAt(db.slots, Step(db, Some(m), faults).slots, id)
  {
    forall id | id !in Segments(m.slots) || !SlotUpsertSucceeds(db.users, id, RowOf(m), faults)
      ensures SameAt(db.slots, Step(db, Some(m), faults).slots, id)
    {
      MoveEffect(db, m, faults, id);
    }
  }

  /** A Scanned message registers its tag when the upsert commits and never touches the slots. */
  lemma ScannedEffect(db: Db, m: MQTTMessage, faults: Faults)
    requires m.status == Scanned
    ensures Step(db, Some(m), faults).slots == db.slots
    ensures UserUpsertSucceeds(m.rfid, faults) ==> Step(db, Some(m), faults).users == db.users[m.rfid := DefaultLogin]
    ensures !UserUpsertSucceeds(m.rfid, faults) ==> Step(db, Some(m), faults) == db
  {
  }

  /** A payload that fails to decode changes nothing. */
  lemma UndecodableIgnored(db: Db, faults: Faults)
    ensures Step(db, None, faults) == db
  {
  }

  /** A Disconnected message, and a message with any unnamed status, fall into the default case and change nothing. */
  lemma DefaultIgnored(db: Db, m: MQTTMessage, faults: Faults)
    requires m.status == Disconnected || !IsKnown(m.status)
    ensures Step(db, Some(m), faults) == db
  {
  }

  /** Handling a message keeps every slot's `taken_by` pointing at an existing user. */
  lemma StepPreservesConsistency(db: Db, msg: Option<MQTTMessage>, faults: Faults)
    requires Consistent(db)
    ensures Consistent(Step(db, msg, faults))
  {
    if msg.Some? && MovesComputer(msg.value) {
      var m := msg.value;
      var db' := Step(db, msg, faults);
      forall id | id in db'.slots
        ensures db'.slots[id].takenBy in db'.users
      {
        MoveEffect(db, m, faults, id);
      }
    }
  }

  /** The keys the store rejects in both of two runs. */
  function BothRejected(f1: Faults, f2: Faults): Faults
  {
    Faults(f1.slotIds * f2.slotIds, f1.userIds * f2.userIds)
  }

  /**
   * Handling a message a second time, with the store failing independently,
   * ends where one run that fails only on keys rejected both times would: a
   * redelivery never undoes a committed write and can only complete a failed one.
   */
  lemma StepTwice(db: Db, msg: Option<MQTTMessage>, f1: Faults, f2: Faults)
    ensures Step(Step(db, msg, f1), msg, f2) == Step(db, msg, BothRejected(f1, f2))
  {
    if msg.Some? && MovesComputer(msg.value) {
      var m := msg.value;
      var both := BothRejected(f1, f2);
      var once := Step(db, msg, f1);
      var twice := Step(once, msg, f2);
      var merged := Step(db, msg, both);
      forall id
        ensures id in merged.slots <==> id in twice.slots
        ensures id in merged.slots ==> merged.slots[id] == twice.slots[id]
      {
        MoveEffect(db, m, f1, id);
        MoveEffect(once, m, f2, id);
        MoveEffect(db, m, both, id);
      }
      assert merged.slots.Keys == twice.slots.Keys;
    }
  }

  /** Handling the same message twice, with the store rejecting the same keys both times, leaves what handling it once left. */
  lemma StepIdempotent(db: Db, msg: Option<MQTTMessage>, faults: Faults)
    ensures Step(Step(db, msg, faults), msg, faults) == Step(db, msg, faults)
  {
    StepTwice(db, msg, faults, faults);
    assert BothRejected(faults, faults) == faults;
  }

  /**
   * Last write wins: when two Placed/Taken messages both list a slot and both
   * upserts commit, the slot ends with the second message's (tag, is_taken),
   * whatever the first one wrote.
   */
  lemma LastWriteWins(db: Db, m1: MQTTMessage, f1: Faults, m2: MQTTMessage, f2: Faults, id: string)
    requires MovesComputer(m1) && MovesComputer(m2)
    requires id in Segments(m2.slots)
    requires SlotUpsertSucceeds(db.users, id, RowOf(m2), f2)
    ensures var final := Step(Step(db, Some(m1), f1), Some(m2), f2);
      id in final.slots && final.slots[id] == SlotRow(m2.rfid, m2.status == Taken)
  {
    var mid := Step(db, Some(m1), f1);
    MoveEffect(db, m1, f1, id);
    MoveEffect(mid, m2, f2, id);
  }

  /**
   * Registering a tag with Scanned lets a later Placed/Taken by that tag
   * satisfy the foreign key: every listed slot the store does not reject takes
   * the new row, even on a store where the tag was unknown.
   */
  lemma ScanThenMove(db: Db, scan: MQTTMessage, f1: Faults, m: MQTTMessage, f2: Faults, id: string)
    requires scan.status == Scanned && UserUpsertSucceeds(scan.rfid, f1)
    requires MovesComputer(m) && m.rfid == scan.rfid
    requires id in Segments(m.slots) && id !in f2.slotIds
    ensures var final := Step(Step(db, Some(scan), f1), Some(m), f2);
      id in final.slots && final.slots[id] == RowOf(m)
  {
    MoveEffect(Step(db, Some(scan), f1), m, f2, id);
  }

  /** One delivered payload together with how the store behaves while it is handled. */
  datatype Delivery = Delivery(msg: Option<MQTTMessage>, faults: Faults)

  /** Handling a stream of deliveries one after another. */
  function Run(db: Db, ds: seq<Delivery>): Db
    decreases |ds|
  {
    if ds == [] then db else Run(Step(db, ds[0].msg, ds[0].faults), ds[1..])
  }

  /** Handling `a` then `b` is handling `a + b`. */
  lemma {:induction false} RunAppend(db: Db, a: seq<Delivery>, b: seq<Delivery>)
    ensures Run(db, a + b) == Run(Run(db, a), b)
    decreases |a|
  {
    if a != [] {
      assert (a + b)[0] == a[0] && (a + b)[1..] == a[1..] + b;
      RunAppend(Step(db, a[0].msg, a[0].faults), a[1..], b);
    } else {
      assert a + b == b;
    }
  }

  /** An undecodable payload in a stream has no effect; the messages after it are still handled. */
  lemma UndecodableIsSkipped(db: Db, a: seq<Delivery>, f: Faults, b: seq<Delivery>)
    ensures Run(db, a + [Delivery(None, f)] + b) == Run(db, a + b)
  {
    var bad := [Delivery(None, f)];
    RunAppend(db, a + bad, b);
    RunAppend(db, a, bad);
    RunAppend(db, a, b);
    assert Run(Run(db, a), bad) == Run(db, a) by {
      assert bad[1..] == [];
    }
  }

  /**
   * A payload delivered twice back to back (an at-least-once redelivery) ends
   * where a single delivery does whose store rejects only what both runs rejected.
   */
  lemma RedeliveryIsAbsorbed(db: Db, a: seq<Delivery>, msg: Option<MQTTMessage>, f1: Faults, f2: Faults, b: seq<Delivery>)
    ensures Run(db, a + [Delivery(msg, f1), Delivery(msg, f2)] + b)
         == Run(db, a + [Delivery(msg, BothRejected(f1, f2))] + b)
  {
    var twice := [Delivery(msg, f1), Delivery(msg, f2)];
    var once := [Delivery(msg, BothRejected(f1, f2))];
    RunAppend(db, a + twice, b);
    RunAppend(db, a, twice);
    RunAppend(db, a + once, b);
    RunAppend(db, a, once);
    var s := Run(db, a);
    assert twice[1..] == [Delivery(msg, f2)] && twice[1..][1..] == [] && once[1..] == [];
    StepTwice(s, msg, f1, f2);
  }
}
