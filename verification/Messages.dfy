/** The message exchanged between nodes, and the small shared datatypes. */
module Messages {
  type PeerId = string
  type MessageId = string

  // A vector clock: peer id to counter.
  type Clock = map<PeerId, int>

  datatype Option<+T> = None | Some(value: T)

  datatype Kind = Data | Ack | Nak | StoreAndForward

  datatype Message = Message(
    id: MessageId,
    kind: Kind,
    sender: PeerId,
    recipient: PeerId,
    payload: string,
    timestamp: int,
    sequence: Option<int>,
    clock: Option<Clock>)

  // Two copies that may differ in the payload: the sender encrypts it in place
  // before the first transmission, while its queued copy keeps the plain one.
  predicate SameEnvelope(a: Message, b: Message) {
    a == b.(payload := a.payload)
  }

  // Two copies of one message: the fields that a resend never changes.
  predicate SameMessage(a: Message, b: Message) {
    a.id == b.id && a.sender == b.sender && a.timestamp == b.timestamp && a.sequence == b.sequence
  }
}
