/** Transactions and the records they are stored in. */
module GradidoTypes {
  import opened Values

  type Key = string
  type Byte = x: int | 0 <= x < 256

  datatype Signature = Signature(pubkey: seq<Byte>, signature: seq<Byte>)

  datatype Result =
    | Success
    | Undecided
    | NotEnoughGradidos
    | UnknownLocalUser
    | UnknownRemoteUser
    | UnknownGroup
    | OutboundTransactionFailed
    | UserAlreadyExists
    | GroupIsAlreadyFriend
    | GroupIsNotFriend

  /** A local user of a transfer, with the calculated fields that are stored for this user. */
  datatype Party = Party(user: Key, newBalance: Value, prevRec: nat)

  datatype Body =
    | GradidoCreation(amount: Value, party: Party)
    | AddGroupFriend(group: Key)
    | RemoveGroupFriend(group: Key)
    | AddUser(user: Key)
    | MoveUserInbound(user: Key, pairedId: Timestamp, otherGroup: Key, newBalance: Value)
    | MoveUserOutbound(user: Key, pairedId: Timestamp, otherGroup: Key)
    | LocalTransfer(amount: Value, sender: Party, receiver: Party)
    | InboundTransfer(amount: Value, pairedId: Timestamp, otherGroup: Key, remoteSender: Key, receiver: Party)
    | OutboundTransfer(amount: Value, pairedId: Timestamp, otherGroup: Key, sender: Party, remoteReceiver: Key)
    | OtherBody(kind: nat)

  datatype Transaction = Transaction(
    parts: nat,
    sequenceNumber: nat,
    time: Timestamp,
    signature: Signature,
    signatureCount: Byte,
    body: Body,
    result: Result,
    memo: seq<Byte>)

  datatype GradidoRecord =
    | Main(tr: Transaction)
    | Memo(bytes: seq<Byte>)
    | Signatures(sigs: seq<Signature>)
    | OtherRecord(tag: nat)

  /** A transaction as it is handed over for storage: its main record, then its other parts. */
  predicate WellFormedBatch(batch: seq<GradidoRecord>)
  {
    && batch != [] && batch[0].Main?
    && forall i :: 1 <= i < |batch| ==> batch[i].Memo? || batch[i].Signatures?
  }
}
