/**
 The two ways in which the ledger indexes come about: `Live` decides an incoming
 transaction against the indexes and updates them, `Replay` rebuilds them from stored
 records. Decay over time is a parameter.
 */
module LedgerRules {
  import opened Values
  import opened GradidoTypes
  import opened Layout

  datatype UserInfo = UserInfo(balance: Value, lastRec: nat, time: Timestamp)

  datatype Index = Index(users: map<Key, UserInfo>, friends: set<Key>)

  const EmptyIndex := Index(map[], {})

  /** The decay of a value over a number of seconds. */
  type Decay = (Value, int) -> Value

  function Deflate(decay: Decay, from: Timestamp, to: Timestamp, v: Value): Value
  {
    if v == Zero then Zero else decay(v, Minus(to, from).seconds)
  }

  function Decayed(decay: Decay, u: UserInfo, now: Timestamp): Value
  {
    Deflate(decay, u.time, now, u.balance)
  }

  // ----- live -----

  /** What the other group's chain answers about the paired transaction. */
  datatype Remote = NoBlockchain | NotFound | Found(result: Result)

  datatype PairedKind = NoPaired | PairedMove | PairedTransfer

  /** The paired transaction that was last delivered, whether nothing is decided until the next
      one is, and the ids of those that have been asked for. */
  datatype Pairing = Pairing(
    waiting: bool,
    asked: set<Timestamp>,
    otherGroup: Key,
    kind: PairedKind,
    id: Timestamp,
    result: Result)

  const NoPairing := Pairing(false, {}, "", NoPaired, ZeroTime, Success)

  /** A paired transaction is delivered. */
  function Deliver(pairing: Pairing, kind: PairedKind, id: Timestamp, result: Result): Pairing
  {
    Pairing(false, pairing.asked - {id}, pairing.otherGroup, kind, id, result)
  }

  /** Either the transaction has to wait for its pair, or it is decided. */
  datatype Step = Wait(pairing: Pairing) | Done(index: Index, tr: Transaction)

  function Refuse(ix: Index, tr: Transaction, result: Result): Step
  {
    Done(ix, tr.(result := result))
  }

  /** The result of the paired transaction, if it is known. */
  function PairedResult(pairing: Pairing, kind: PairedKind, group: Key, id: Timestamp, remote: Remote): Option<Result>
  {
    if pairing.otherGroup == group && pairing.kind == kind && pairing.id == id then Some(pairing.result)
    else if remote.Found? then Some(remote.result)
    else None
  }

  /** `calc_fields_and_update_indexes_for` with `recCount` records stored before. */
  function Live(decay: Decay, ix: Index, pairing: Pairing, recCount: nat, tr: Transaction, remote: Remote): Step
  {
    if pairing.waiting then Wait(pairing)
    else
      match tr.body
      case GradidoCreation(amount, party) =>
        if party.user !in ix.users then Refuse(ix, tr, UnknownLocalUser)
        else
          var u := ix.users[party.user];
          var balance := Add(Decayed(decay, u, tr.time), amount);
          Done(ix.(users := ix.users[party.user := UserInfo(balance, recCount, tr.time)]),
               tr.(result := Success, body := tr.body.(party := Party(party.user, balance, u.lastRec))))
      case AddGroupFriend(group) =>
        if group in ix.friends then Refuse(ix, tr, GroupIsAlreadyFriend)
        else Done(ix.(friends := ix.friends + {group}), tr.(result := Success))
      case RemoveGroupFriend(group) =>
        if group !in ix.friends then Refuse(ix, tr, GroupIsNotFriend)
        else Done(ix.(friends := ix.friends - {group}), tr.(result := Success))
      case AddUser(user) =>
        if user in ix.users then Refuse(ix, tr, UserAlreadyExists)
        else Done(ix.(users := ix.users[user := UserInfo(Zero, recCount, tr.time)]), tr.(result := Success))
      case MoveUserInbound(user, id, group, newBalance) =>
        if user in ix.users then Refuse(ix, tr, UserAlreadyExists)
        else
          (match PairedResult(pairing, PairedMove, group, id, remote)
           case None => Wait(pairing.(waiting := true, asked := pairing.asked + {id}, otherGroup := group))
           case Some(Success) =>
             Done(ix.(users := ix.users[user := UserInfo(newBalance, recCount, tr.time)]), tr.(result := Success))
           case Some(_) => Refuse(ix, tr, OutboundTransactionFailed))
      case MoveUserOutbound(user, _, _) =>
        if user !in ix.users then Refuse(ix, tr, UnknownLocalUser)
        else Done(ix.(users := ix.users - {user}), tr.(result := Success))
      case LocalTransfer(_, sender, receiver) =>
        if sender.user !in ix.users || receiver.user !in ix.users then Refuse(ix, tr, UnknownLocalUser)
        else LiveTransfer(decay, ix, recCount, tr)
      case InboundTransfer(amount, id, group, _, receiver) =>
        if receiver.user !in ix.users then Refuse(ix, tr, UnknownLocalUser)
        else
          (match PairedResult(pairing, PairedTransfer, group, id, remote)
           case None => Wait(pairing.(asked := pairing.asked + {id}, otherGroup := group))
           case Some(Success) =>
             var u := ix.users[receiver.user];
             var balance := Decayed(decay, u, tr.time);
             Done(ix.(users := ix.users[receiver.user := UserInfo(balance, recCount, tr.time)]),
                  tr.(result := Success,
                      body := tr.body.(receiver := Party(receiver.user, Add(balance, amount), u.lastRec))))
           case Some(_) => Refuse(ix, tr, OutboundTransactionFailed))
      case OutboundTransfer(amount, _, _, sender, _) =>
        if sender.user !in ix.users then Refuse(ix, tr, UnknownLocalUser)
        else
          var u := ix.users[sender.user];
          var balance := Decayed(decay, u, tr.time);
          if Less(balance, amount) then Refuse(ix, tr, NotEnoughGradidos)
          else
            Done(ix.(users := ix.users[sender.user := UserInfo(balance, recCount, tr.time)]),
                 tr.(result := Success,
                     body := tr.body.(sender := Party(sender.user, Sub(balance, amount).value, u.lastRec))))
      case OtherBody(_) => Done(ix, tr)
  }

  /** A local transfer between known users. When both are the same user, the receiver's
      balance is decayed a second time. */
  function LiveTransfer(decay: Decay, ix: Index, recCount: nat, tr: Transaction): Step
    requires tr.body.LocalTransfer? && tr.body.sender.user in ix.users && tr.body.receiver.user in ix.users
  {
    var LocalTransfer(amount, sender, receiver) := tr.body;
    var s, v := ix.users[sender.user], ix.users[receiver.user];
    var sent := Decayed(decay, s, tr.time);
    if Less(sent, amount) then Refuse(ix, tr, NotEnoughGradidos)
    else
      var kept := Deflate(decay, v.time, tr.time, if sender.user == receiver.user then sent else v.balance);
      Done(ix.(users := ix.users[sender.user := UserInfo(sent, recCount, tr.time)]
                                [receiver.user := UserInfo(kept, recCount, tr.time)]),
           tr.(result := Success,
               body := LocalTransfer(amount,
                                     Party(sender.user, Sub(sent, amount).value, s.lastRec),
                                     Party(receiver.user, Add(kept, amount), v.lastRec))))
  }

  // ----- replay -----

  /** `find` without an end check: `None` means that an absent user was looked up. */
  function SetBalance(ix: Index, user: Key, balance: Value, recNum: nat, time: Timestamp): Option<Index>
  {
    if user !in ix.users then None
    else Some(ix.(users := ix.users[user := UserInfo(balance, recNum, time)]))
  }

  /** `insert` keeps an entry that is already there. */
  function InsertUser(ix: Index, user: Key, info: UserInfo): Index
  {
    if user in ix.users then ix else ix.(users := ix.users[user := info])
  }

  function ReplayTx(ix: Index, tr: Transaction, recNum: nat): Option<Index>
  {
    match tr.body
    case GradidoCreation(_, party) => SetBalance(ix, party.user, party.newBalance, recNum, tr.time)
    case AddGroupFriend(group) => Some(ix.(friends := ix.friends + {group}))
    case RemoveGroupFriend(group) => Some(ix.(friends := ix.friends - {group}))
    case AddUser(user) => Some(InsertUser(ix, user, UserInfo(Zero, recNum, tr.time)))
    // the record number of this one is calculated in 32 bits, and its time is not set
    case MoveUserInbound(user, _, _, newBalance) =>
      Some(InsertUser(ix, user, UserInfo(newBalance, recNum % TWO32, ZeroTime)))
    case MoveUserOutbound(user, _, _) => Some(ix.(users := ix.users - {user}))
    case LocalTransfer(_, sender, receiver) =>
      (match SetBalance(ix, sender.user, sender.newBalance, recNum, tr.time)
       case None => None
       case Some(ix') => SetBalance(ix', receiver.user, receiver.newBalance, recNum, tr.time))
    case InboundTransfer(_, _, _, _, receiver) => SetBalance(ix, receiver.user, receiver.newBalance, recNum, tr.time)
    case OutboundTransfer(_, _, _, sender, _) => SetBalance(ix, sender.user, sender.newBalance, recNum, tr.time)
    case OtherBody(_) => Some(ix)
  }

  function ReplayRecord(ix: Index, rec: GradidoRecord, recNum: nat): Option<Index>
  {
    if rec.Main? && rec.tr.result == Success then ReplayTx(ix, rec.tr, recNum) else Some(ix)
  }

  /** Replay of all stored payloads, each with the record number at which it lies. */
  function Replay(payloads: seq<GradidoRecord>): Option<Index>
  {
    if payloads == [] then Some(EmptyIndex)
    else
      var n := |payloads| - 1;
      match Replay(payloads[..n])
      case None => None
      case Some(ix) => ReplayRecord(ix, payloads[n], RecPos(n, R))
  }
}
