/**
 * The message vocabulary of the RFID readers: the `Status` enumeration, its
 * textual form, and the decoded MQTT message record (types/types.go).
 */
module Types {

  /** Go's `type Status int`: any integer decodes, only 0..3 are named. */
  type Status = int

  const Placed: Status := 0
  const Taken: Status := 1
  const Scanned: Status := 2
  const Disconnected: Status := 3

  const UnknownStatusText: string := "unknown status"

  /** True of the four statuses that have a name. */
  predicate IsKnown(s: Status)
  {
    Placed <= s <= Disconnected
  }

  /** `Status.String()`: a fixed text for each named status, a fallback otherwise. */
  function StatusString(s: Status): (r: string)
    ensures r == UnknownStatusText <==> !IsKnown(s)
    ensures |r| > 0
  {
    if s == Placed then "placed the computer"
    else if s == Taken then "taken the computer"
    else if s == Scanned then "scanned new tag"
    else if s == Disconnected then "arduino with RFID reader disconnected"
    else UnknownStatusText
  }

  /** The decoded payload `{"message", "RFID", "slots", "status"}`. */
  datatype MQTTMessage = MQTTMessage(message: string, rfid: string, slots: string, status: Status)

  /** The constants are the consecutive values 0..3 produced by `iota`. */
  lemma StatusValues()
    ensures Placed == 0 && Taken == 1 && Scanned == 2 && Disconnected == 3
    ensures forall s :: IsKnown(s) <==> s in {Placed, Taken, Scanned, Disconnected}
  {
  }

  /** Each named status has its own text. */
  lemma StatusStringKnown()
    ensures StatusString(Placed) == "placed the computer"
    ensures StatusString(Taken) == "taken the computer"
    ensures StatusString(Scanned) == "scanned new tag"
    ensures StatusString(Disconnected) == "arduino with RFID reader disconnected"
  {
  }

  /** `String()` tells the statuses apart: distinct statuses give distinct texts,
      except that every unnamed status shares the fallback text. */
  lemma StatusStringInjective(s: Status, t: Status)
    ensures StatusString(s) == StatusString(t) <==> s == t || (!IsKnown(s) && !IsKnown(t))
  {
  }
}
