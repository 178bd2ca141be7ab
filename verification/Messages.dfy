/** The two message classes of src/Message.hpp. */
module Messages {

  datatype Option<+T> = None | Some(value: T)

  datatype MessageType = Insert | Delete | InsertMetric | DeleteDevice | Select_K1 | Select_K2 | Select_K3

  /** The value of the enumerator. */
  function Number(op: MessageType): nat {
    match op
    case Insert => 0
    case Delete => 1
    case InsertMetric => 2
    case DeleteDevice => 3
    case Select_K1 => 4
    case Select_K2 => 5
    case Select_K3 => 6
  }

  /** An item of the work queue. */
  datatype Message = Message(op: MessageType, ts: nat, device: nat, table: nat)

  /** A finished statement, as reported to the statistics thread. */
  datatype StatMessage = StatMessage(op: MessageType, time: nat, cnt: nat)

  const TWO_TO_THE_32: nat := 0x1_0000_0000

  /** `Message::ts` is an `unsigned int`, the producer's loop variable a `uint64_t`. */
  function NewMessage(ts: nat, device: nat, table: nat): Message {
    Message(Insert, ts % TWO_TO_THE_32, device, table)
  }

  /** The timestamp of a message fits its field, and is the one meant up to a multiple of 2^32, so itself
      when that fits. */
  lemma MessageTimestamp(ts: nat, device: nat, table: nat)
    ensures var m := NewMessage(ts, device, table);
      && m.op == Insert && m.device == device && m.table == table
      && m.ts < TWO_TO_THE_32 && (ts < TWO_TO_THE_32 ==> m.ts == ts)
      && m.ts == NewMessage(ts + TWO_TO_THE_32, device, table).ts
  {
  }
}
