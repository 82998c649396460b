/**
 What the decisions of the ledger mean: when a transaction waits or is refused, what it credits
 and debits, which users and groups it touches, and what the indexes say after whole runs.
 */
module LedgerEffects {
  import opened Values
  import opened GradidoTypes
  import opened Layout
  import opened LedgerRules
  import opened LedgerLaws
  import opened LedgerMoney

  // ----- what a user owns -----

  /** A balance after the whole seconds since it was set; nothing stays nothing. */
  function Owns(decay: Decay, u: UserInfo, now: Timestamp): Value
  {
    if u.balance == Zero then Zero else decay(u.balance, WholeSeconds(u.time, now))
  }

  /** The nanoseconds of the two times differ by less than one second, as those of all times with
      nanoseconds below one second do. */
  predicate Timely(u: UserInfo, now: Timestamp)
  {
    -BILLION <= now.nanos - u.time.nanos < BILLION
  }

  lemma DecayedIsOwned(decay: Decay, u: UserInfo, now: Timestamp)
    requires Timely(u, now)
    ensures Decayed(decay, u, now) == Owns(decay, u, now)
  {
    MinusExact(now, u.time);
  }

  // ----- credit and debit -----

  /** A creation for a known user succeeds, and the recorded balance, which the index takes over, is
      what the user owns plus the amount if and only if the addition does not wrap. */
  lemma CreationCredits(decay: Decay, ix: Index, pairing: Pairing, recCount: nat, tr: Transaction, remote: Remote)
    requires !pairing.waiting && tr.body.GradidoCreation? && tr.body.party.user in ix.users
    ensures var step := Live(decay, ix, pairing, recCount, tr, remote);
      var u, user, amount := ix.users[tr.body.party.user], tr.body.party.user, tr.body.amount;
      && step.Done? && step.tr.result == Success && step.tr.body.GradidoCreation?
      && step.tr.body.amount == amount && step.tr.body.party.user == user && step.tr.body.party.prevRec == u.lastRec
      && user in step.index.users && step.index.users[user].balance == step.tr.body.party.newBalance
      && (Timely(u, tr.time) ==>
          var d := Owns(decay, u, tr.time);
          Units(step.tr.body.party.newBalance) == Units(d) + Units(amount) <==> AddFits(d, amount))
  {
    var u, amount := ix.users[tr.body.party.user], tr.body.amount;
    AddExactIff(Decayed(decay, u, tr.time), amount);
    hide Add, AddFits, Deflate;
    if Timely(u, tr.time) {
      DecayedIsOwned(decay, u, tr.time);
    }
  }

  /** What is known of the pair of a transaction: the delivered one if it is this one, else what the
      other group's chain has. */
  predicate PairKnown(pairing: Pairing, kind: PairedKind, group: Key, id: Timestamp, remote: Remote, result: Result)
  {
    var delivered := pairing.otherGroup == group && pairing.kind == kind && pairing.id == id;
    (delivered ==> result == pairing.result) && (!delivered ==> remote == Found(result))
  }

  lemma PairedResultKnown(pairing: Pairing, kind: PairedKind, group: Key, id: Timestamp, remote: Remote)
    ensures forall result :: PairedResult(pairing, kind, group, id, remote) == Some(result) <==>
      PairKnown(pairing, kind, group, id, remote, result)
  {
  }

  /** An inbound transfer to a known user whose pair succeeded: the recorded balance is what the user
      owns plus the amount if and only if the addition does not wrap. The index keeps what the user
      owned. */
  lemma InboundCredits(decay: Decay, ix: Index, pairing: Pairing, recCount: nat, tr: Transaction, remote: Remote)
    requires !pairing.waiting && tr.body.InboundTransfer? && tr.body.receiver.user in ix.users
    requires PairKnown(pairing, PairedTransfer, tr.body.otherGroup, tr.body.pairedId, remote, Success)
    ensures var step := Live(decay, ix, pairing, recCount, tr, remote);
      var u, user, amount := ix.users[tr.body.receiver.user], tr.body.receiver.user, tr.body.amount;
      && step.Done? && step.tr.result == Success && step.tr.body.InboundTransfer?
      && step.tr.body.amount == amount && step.tr.body.receiver.user == user && step.tr.body.receiver.prevRec == u.lastRec
      && user in step.index.users
      && (Timely(u, tr.time) ==>
          var d := Owns(decay, u, tr.time);
          && step.index.users[user].balance == d
          && (Units(step.tr.body.receiver.newBalance) == Units(d) + Units(amount) <==> AddFits(d, amount)))
  {
    var u, amount := ix.users[tr.body.receiver.user], tr.body.amount;
    PairedResultKnown(pairing, PairedTransfer, tr.body.otherGroup, tr.body.pairedId, remote);
    AddExactIff(Decayed(decay, u, tr.time), amount);
    hide Add, AddFits, Deflate, PairedResult, PairKnown;
    if Timely(u, tr.time) {
      DecayedIsOwned(decay, u, tr.time);
    }
  }

  /** An outbound transfer of a known user is refused if and only if the user owns less than the
      amount; otherwise the recorded balance is the difference if and only if the borrow is at most
      one unit. The index keeps what the user owned. */
  lemma OutboundDebits(decay: Decay, ix: Index, pairing: Pairing, recCount: nat, tr: Transaction, remote: Remote)
    requires !pairing.waiting && tr.body.OutboundTransfer? && tr.body.sender.user in ix.users
    requires Timely(ix.users[tr.body.sender.user], tr.time)
    ensures var step := Live(decay, ix, pairing, recCount, tr, remote);
      var u, user, amount := ix.users[tr.body.sender.user], tr.body.sender.user, tr.body.amount;
      var d := Owns(decay, u, tr.time);
      && step.Done? && step.tr.result == (if Less(d, amount) then NotEnoughGradidos else Success)
      && (step.tr.result == Success ==>
          && step.tr.body.OutboundTransfer? && step.tr.body.amount == amount
          && step.tr.body.sender.user == user && step.tr.body.sender.prevRec == u.lastRec
          && user in step.index.users && step.index.users[user].balance == d
          && (Units(step.tr.body.sender.newBalance) == Units(d) - Units(amount) <==> amount.decimal - d.decimal <= BASE))
  {
    var u, amount := ix.users[tr.body.sender.user], tr.body.amount;
    DecayedIsOwned(decay, u, tr.time);
    if !Less(Decayed(decay, u, tr.time), amount) {
      SubExactIff(Decayed(decay, u, tr.time), amount);
    }
    hide Less, Deflate;
  }

  /** A local transfer between two known users is refused if and only if the sender owns less than the
      amount; otherwise the amount is taken from what the sender owns and added to what the receiver
      owns, each exactly when no machine integer wraps. The index keeps what they owned. */
  lemma TransferMoves(decay: Decay, ix: Index, pairing: Pairing, recCount: nat, tr: Transaction, remote: Remote)
    requires !pairing.waiting && tr.body.LocalTransfer? && tr.body.sender.user != tr.body.receiver.user
    requires tr.body.sender.user in ix.users && tr.body.receiver.user in ix.users
    requires Timely(ix.users[tr.body.sender.user], tr.time) && Timely(ix.users[tr.body.receiver.user], tr.time)
    ensures var step := Live(decay, ix, pairing, recCount, tr, remote);
      var sender, receiver, amount := tr.body.sender.user, tr.body.receiver.user, tr.body.amount;
      var s, v := Owns(decay, ix.users[sender], tr.time), Owns(decay, ix.users[receiver], tr.time);
      && step.Done? && step.tr.result == (if Less(s, amount) then NotEnoughGradidos else Success)
      && (step.tr.result == Success ==>
          && step.tr.body.LocalTransfer? && step.tr.body.amount == amount
          && step.tr.body.sender.user == sender && step.tr.body.sender.prevRec == ix.users[sender].lastRec
          && step.tr.body.receiver.user == receiver && step.tr.body.receiver.prevRec == ix.users[receiver].lastRec
          && sender in step.index.users && step.index.users[sender].balance == s
          && receiver in step.index.users && step.index.users[receiver].balance == v
          && (Units(step.tr.body.sender.newBalance) == Units(s) - Units(amount) <==> amount.decimal - s.decimal <= BASE)
          && (Units(step.tr.body.receiver.newBalance) == Units(v) + Units(amount) <==> AddFits(v, amount)))
  {
    var s, v, amount := ix.users[tr.body.sender.user], ix.users[tr.body.receiver.user], tr.body.amount;
    DecayedIsOwned(decay, s, tr.time);
    DecayedIsOwned(decay, v, tr.time);
    AddExactIff(Decayed(decay, v, tr.time), amount);
    if !Less(Decayed(decay, s, tr.time), amount) {
      SubExactIff(Decayed(decay, s, tr.time), amount);
    }
    hide Add, AddFits, Less, Deflate;
  }

  // ----- waiting, refusal and success -----

  /** The local users that a transaction speaks of and that must be known. */
  function NeededUsers(body: Body): set<Key>
  {
    match body
    case GradidoCreation(_, party) => {party.user}
    case MoveUserOutbound(user, _, _) => {user}
    case LocalTransfer(_, sender, receiver) => {sender.user, receiver.user}
    case InboundTransfer(_, _, _, _, receiver) => {receiver.user}
    case OutboundTransfer(_, _, _, sender, _) => {sender.user}
    case _ => {}
  }

  /** The user who joins and must not be known. */
  function JoiningUsers(body: Body): set<Key>
  {
    match body
    case AddUser(user) => {user}
    case MoveUserInbound(user, _, _, _) => {user}
    case _ => {}
  }

  /** The transaction spends more than its sender owns. */
  predicate Overspends(decay: Decay, ix: Index, tr: Transaction)
  {
    match tr.body
    case LocalTransfer(amount, sender, _) =>
      sender.user in ix.users && Less(Decayed(decay, ix.users[sender.user], tr.time), amount)
    case OutboundTransfer(amount, _, _, sender, _) =>
      sender.user in ix.users && Less(Decayed(decay, ix.users[sender.user], tr.time), amount)
    case _ => false
  }

  /** The pair of the transaction is known to have this result. */
  predicate PairHas(pairing: Pairing, body: Body, remote: Remote, result: Result)
  {
    match body
    case MoveUserInbound(_, id, group, _) => PairKnown(pairing, PairedMove, group, id, remote, result)
    case InboundTransfer(_, id, group, _, _) => PairKnown(pairing, PairedTransfer, group, id, remote, result)
    case _ => false
  }

  predicate HasPair(body: Body)
  {
    body.MoveUserInbound? || body.InboundTransfer?
  }

  ghost predicate PairUnknown(pairing: Pairing, body: Body, remote: Remote)
  {
    HasPair(body) && forall result :: !PairHas(pairing, body, remote, result)
  }

  /** All users that must be known are, and one who joins is not. */
  predicate UsersFit(ix: Index, body: Body)
  {
    NeededUsers(body) <= ix.users.Keys && JoiningUsers(body) !! ix.users.Keys
  }

  /** Why a transaction is not successful. */
  ghost predicate Refused(decay: Decay, ix: Index, pairing: Pairing, tr: Transaction, remote: Remote, result: Result)
  {
    match result
    case UnknownLocalUser => !(NeededUsers(tr.body) <= ix.users.Keys)
    case UserAlreadyExists => !(JoiningUsers(tr.body) !! ix.users.Keys)
    case GroupIsAlreadyFriend => tr.body.AddGroupFriend? && tr.body.group in ix.friends
    case GroupIsNotFriend => tr.body.RemoveGroupFriend? && tr.body.group !in ix.friends
    case NotEnoughGradidos => UsersFit(ix, tr.body) && Overspends(decay, ix, tr)
    case OutboundTransactionFailed =>
      UsersFit(ix, tr.body) && exists r :: r != Success && PairHas(pairing, tr.body, remote, r)
    case _ => false
  }

  /** When nothing is awaited, a transaction waits if and only if its users fit and its pair is not
      known. Otherwise it is decided, with a reason for every refusal, and with success if and only
      if there is no such reason. */
  lemma LiveVerdict(decay: Decay, ix: Index, pairing: Pairing, recCount: nat, tr: Transaction, remote: Remote)
    requires !pairing.waiting
    ensures var step := Live(decay, ix, pairing, recCount, tr, remote);
      && (step.Wait? <==> UsersFit(ix, tr.body) && PairUnknown(pairing, tr.body, remote))
      && (step.Done? && !tr.body.OtherBody? ==>
          && (step.tr.result != Success ==> Refused(decay, ix, pairing, tr, remote, step.tr.result))
          && (step.tr.result == Success ==> forall r :: !Refused(decay, ix, pairing, tr, remote, r)))
      && (tr.body.OtherBody? ==> step == Done(ix, tr))
  {
    hide Deflate, Add, Sub, Less;
    PairUnknownIff(pairing, tr.body, remote);
    hide PairUnknown;
    var kind := if tr.body.MoveUserInbound? then PairedMove else PairedTransfer;
    if HasPair(tr.body) && PairedResult(pairing, kind, tr.body.otherGroup, tr.body.pairedId, remote).Some? {
      var known := PairedResult(pairing, kind, tr.body.otherGroup, tr.body.pairedId, remote).value;
      assert PairHas(pairing, tr.body, remote, known);
    }
  }

  lemma PairUnknownIff(pairing: Pairing, body: Body, remote: Remote)
    ensures PairUnknown(pairing, body, remote) <==>
      HasPair(body) &&
      var kind := if body.MoveUserInbound? then PairedMove else PairedTransfer;
      PairedResult(pairing, kind, body.otherGroup, body.pairedId, remote).None?
  {
    if HasPair(body) {
      var kind := if body.MoveUserInbound? then PairedMove else PairedTransfer;
      var known := PairedResult(pairing, kind, body.otherGroup, body.pairedId, remote);
      PairedResultKnown(pairing, kind, body.otherGroup, body.pairedId, remote);
      if known.Some? {
        assert PairHas(pairing, body, remote, known.value);
      }
    }
  }

  /** While an inbound move is awaited, nothing is decided and nothing changes. */
  lemma WaitingHoldsAll(decay: Decay, ix: Index, pairing: Pairing, recCount: nat, tr: Transaction, remote: Remote)
    requires pairing.waiting
    ensures Live(decay, ix, pairing, recCount, tr, remote) == Wait(pairing)
  {
  }

  /** A transaction that waits has asked for its pair; only an inbound move holds back all others. */
  lemma WaitAsks(decay: Decay, ix: Index, pairing: Pairing, recCount: nat, tr: Transaction, remote: Remote)
    requires !pairing.waiting && Live(decay, ix, pairing, recCount, tr, remote).Wait?
    ensures HasPair(tr.body)
    ensures var asking := Live(decay, ix, pairing, recCount, tr, remote).pairing;
      && asking.asked == pairing.asked + {tr.body.pairedId} && asking.otherGroup == tr.body.otherGroup
      && (asking.waiting <==> tr.body.MoveUserInbound?)
      && asking.kind == pairing.kind && asking.id == pairing.id && asking.result == pairing.result
  {
    hide Deflate, Add, Sub, Less;
  }

  // ----- what a decision touches -----

  /** The record number that a stored record keeps as the user's previous one. */
  function PreviousOf(tr: Transaction, user: Key): Option<nat>
  {
    if tr.result != Success then None
    else
      match tr.body
      case GradidoCreation(_, party) => if party.user == user then Some(party.prevRec) else None
      case LocalTransfer(_, sender, receiver) =>
        if receiver.user == user then Some(receiver.prevRec)
        else if sender.user == user then Some(sender.prevRec)
        else None
      case InboundTransfer(_, _, _, _, receiver) => if receiver.user == user then Some(receiver.prevRec) else None
      case OutboundTransfer(_, _, _, sender, _) => if sender.user == user then Some(sender.prevRec) else None
      case _ => None
  }

  /** The live index holds this balance for a user whose balance the record sets: the recorded one, but
      for a transfer the one before the amount was added or taken away. */
  predicate HoldsLive(tr: Transaction, user: Key, balance: Value)
  {
    match tr.body
    case LocalTransfer(amount, sender, receiver) =>
      if receiver.user == user then receiver.newBalance == Add(balance, amount)
      else sender.user == user && Sub(balance, amount) == Some(sender.newBalance)
    case InboundTransfer(amount, _, _, _, receiver) => receiver.newBalance == Add(balance, amount)
    case OutboundTransfer(amount, _, _, sender, _) => Sub(balance, amount) == Some(sender.newBalance)
    case _ => SetsBalance(Main(tr), user) == Some(balance)
  }

  /** What a live step does to one user: a user whose balance the decided record sets gets its time and
      the record count, and the record keeps the number that the user had before; every other user
      of the index was there before and is unchanged. */
  predicate OneUserStepped(ix: Index, recCount: nat, tr: Transaction, step: Step, user: Key)
    requires step.Done?
  {
    && step.tr.time == tr.time
    && (SetsBalance(Main(step.tr), user).Some? ==>
        && user in step.index.users && step.index.users[user].time == tr.time
        && step.index.users[user].lastRec == recCount && HoldsLive(step.tr, user, step.index.users[user].balance))
    && (PreviousOf(step.tr, user).Some? ==> user in ix.users && PreviousOf(step.tr, user).value == ix.users[user].lastRec)
    && (SetsBalance(Main(step.tr), user).None? && user in step.index.users ==>
        user in ix.users && step.index.users[user] == ix.users[user])
  }

  lemma LiveOneUser(decay: Decay, ix: Index, pairing: Pairing, recCount: nat, tr: Transaction, remote: Remote, user: Key)
    requires Live(decay, ix, pairing, recCount, tr, remote).Done?
    ensures OneUserStepped(ix, recCount, tr, Live(decay, ix, pairing, recCount, tr, remote), user)
  {
    hide Deflate, Add, Less, Sub, PairedResult, LiveTransfer;
    match tr.body {
      case LocalTransfer(_, sender, receiver) =>
        if sender.user in ix.users && receiver.user in ix.users {
          TransferOneUser(decay, ix, recCount, tr, user);
        }
      case InboundTransfer(_, _, _, _, _) =>
      case OutboundTransfer(_, _, _, _, _) =>
        OutboundOneUser(decay, ix, pairing, recCount, tr, remote, user);
      case _ =>
    }
  }

  lemma TransferOneUser(decay: Decay, ix: Index, recCount: nat, tr: Transaction, user: Key)
    requires tr.body.LocalTransfer? && tr.body.sender.user in ix.users && tr.body.receiver.user in ix.users
    ensures LiveTransfer(decay, ix, recCount, tr).Done?
    ensures OneUserStepped(ix, recCount, tr, LiveTransfer(decay, ix, recCount, tr), user)
  {
    var sent := Decayed(decay, ix.users[tr.body.sender.user], tr.time);
    assert Less(sent, tr.body.amount) <==> Sub(sent, tr.body.amount).None?;
    hide Deflate, Add, Less, Sub;
  }

  lemma OutboundOneUser(decay: Decay, ix: Index, pairing: Pairing, recCount: nat, tr: Transaction, remote: Remote, user: Key)
    requires tr.body.OutboundTransfer? && Live(decay, ix, pairing, recCount, tr, remote).Done?
    ensures OneUserStepped(ix, recCount, tr, Live(decay, ix, pairing, recCount, tr, remote), user)
  {
    hide Deflate, Less;
  }

  // ----- whole runs: who is there -----

  /** Whether a stored record lets a user in or out. */
  function Membership(rec: GradidoRecord, user: Key): Option<bool>
  {
    if !rec.Main? || rec.tr.result != Success then None
    else if user in JoiningUsers(rec.tr.body) then Some(true)
    else if rec.tr.body.MoveUserOutbound? && rec.tr.body.user == user then Some(false)
    else None
  }

  /** Whether a stored record makes a group a friend or ends this. */
  function Friendship(rec: GradidoRecord, group: Key): Option<bool>
  {
    if !rec.Main? || rec.tr.result != Success then None
    else if rec.tr.body.AddGroupFriend? && rec.tr.body.group == group then Some(true)
    else if rec.tr.body.RemoveGroupFriend? && rec.tr.body.group == group then Some(false)
    else None
  }

  /** What the last record said that spoke of the user. */
  function LastMembership(payloads: seq<GradidoRecord>, user: Key): Option<bool>
  {
    if payloads == [] then None
    else
      var n := |payloads| - 1;
      if Membership(payloads[n], user).Some? then Membership(payloads[n], user) else LastMembership(payloads[..n], user)
  }

  function LastFriendship(payloads: seq<GradidoRecord>, group: Key): Option<bool>
  {
    if payloads == [] then None
    else
      var n := |payloads| - 1;
      if Friendship(payloads[n], group).Some? then Friendship(payloads[n], group) else LastFriendship(payloads[..n], group)
  }

  /** Replaying a record looks up an absent user if and only if it was accepted and sets a balance of a
      user who is not there and does not join by it. */
  lemma ReplayFailsIff(ix: Index, rec: GradidoRecord, recNum: nat)
    ensures ReplayRecord(ix, rec, recNum).None? <==>
      exists user :: SetsBalance(rec, user).Some? && user !in ix.users && Membership(rec, user).None?
  {
    if rec.Main? && rec.tr.result == Success {
      match rec.tr.body
      case GradidoCreation(_, party) => assert SetsBalance(rec, party.user).Some?;
      case LocalTransfer(_, sender, receiver) =>
        assert SetsBalance(rec, sender.user).Some? && SetsBalance(rec, receiver.user).Some?;
      case InboundTransfer(_, _, _, _, receiver) => assert SetsBalance(rec, receiver.user).Some?;
      case OutboundTransfer(_, _, _, sender, _) => assert SetsBalance(rec, sender.user).Some?;
      case _ =>
    }
  }

  /** Replaying a record by which a known user joins again changes nothing. */
  lemma JoinKeepsKnown(ix: Index, rec: GradidoRecord, recNum: nat, user: Key)
    requires Membership(rec, user) == Some(true) && user in ix.users
    ensures ReplayRecord(ix, rec, recNum) == Some(ix)
  {
  }

  lemma ReplayOneKey(ix: Index, rec: GradidoRecord, recNum: nat, user: Key, group: Key)
    requires ReplayRecord(ix, rec, recNum).Some?
    ensures var ix' := ReplayRecord(ix, rec, recNum).value;
      && (user in ix'.users <==> match Membership(rec, user) case Some(joins) => joins case None => user in ix.users)
      && (group in ix'.friends <==> match Friendship(rec, group) case Some(adds) => adds case None => group in ix.friends)
  {
  }

  /** After a replay, a user is known if and only if the last accepted record that let this user in or
      out let the user in; and so for friend groups. */
  lemma {:induction false} KeysAreLastSaid(payloads: seq<GradidoRecord>, user: Key, group: Key)
    requires Replay(payloads).Some?
    ensures user in Replay(payloads).value.users <==> LastMembership(payloads, user) == Some(true)
    ensures group in Replay(payloads).value.friends <==> LastFriendship(payloads, group) == Some(true)
  {
    if payloads != [] {
      var n := |payloads| - 1;
      KeysAreLastSaid(payloads[..n], user, group);
      hide ReplayRecord, Membership, Friendship;
      ReplayOneKey(Replay(payloads[..n]).value, payloads[n], RecPos(n, R), user, group);
    }
  }

  /** The same for the live indexes of every run from an empty chain. */
  lemma LiveKeysAreLastSaid(decay: Decay, events: seq<Event>, user: Key, group: Key)
    requires forall i :: 0 <= i < |events| ==> WellFormedEvent(events[i])
    ensures var s := Run(decay, events);
      && (user in s.index.users <==> LastMembership(s.payloads, user) == Some(true))
      && (group in s.index.friends <==> LastFriendship(s.payloads, group) == Some(true))
  {
    hide Run, Replay, LastMembership, LastFriendship;
    LiveAndReplayAgree(decay, events);
    KeysAreLastSaid(Run(decay, events).payloads, user, group);
  }

  // ----- whole runs: balances, times and record numbers -----

  /** The record count when payload `i` was decided. */
  function CountAt(payloads: seq<GradidoRecord>, i: nat): nat
    requires i <= |payloads|
  {
    RecCount(ExtendAll([], payloads[..i], R), R)
  }

  /** The live index knows a user by payload `i`: it is the last one that set the balance, and balance,
      time and number are those of this record. */
  predicate KnownBy(s: LedgerState, user: Key, i: nat)
  {
    && user in s.index.users && LastSetter(s.payloads, user, i)
    && var info, tr := s.index.users[user], s.payloads[i].tr;
    info.time == tr.time && info.lastRec == CountAt(s.payloads, i) && HoldsLive(tr, user, info.balance)
  }

  lemma PartsSetNothing(payloads: seq<GradidoRecord>, tr: Transaction, parts: seq<GradidoRecord>, user: Key)
    requires forall k :: 0 <= k < |parts| ==> IsPart(parts[k])
    ensures var all := payloads + ([Main(tr)] + parts);
      && all[..|payloads|] == payloads && all[|payloads|] == Main(tr)
      && forall k :: |payloads| < k < |all| ==> SetsBalance(all[k], user).None?
  {
    var all := payloads + ([Main(tr)] + parts);
    forall k | |payloads| < k < |all|
      ensures SetsBalance(all[k], user).None?
    {
      assert all[k] == parts[k - |payloads| - 1];
    }
  }

  lemma KnownOn(s: LedgerState, s': LedgerState, user: Key, i: nat)
    requires KnownBy(s, user, i) && s.payloads <= s'.payloads
    requires user in s'.index.users && s'.index.users[user] == s.index.users[user]
    requires forall k :: |s.payloads| <= k < |s'.payloads| ==> SetsBalance(s'.payloads[k], user).None?
    ensures KnownBy(s', user, i)
  {
    hide SetsBalance, HoldsLive, RecCount;
    assert s'.payloads[..i] == s.payloads[..i];
    assert s'.payloads[i] == s.payloads[i];
    assert forall k :: 0 <= k < |s.payloads| ==> s'.payloads[k] == s.payloads[k];
  }

  /** One event. */
  lemma EventKeepsKnown(decay: Decay, s: LedgerState, e: Event, user: Key, known: Option<nat>) returns (i: nat)
    requires WellFormedEvent(e) && user in Next(decay, s, e).index.users
    requires user in s.index.users ==> known.Some? && KnownBy(s, user, known.value)
    ensures KnownBy(Next(decay, s, e), user, i)
  {
    hide Live, SetsBalance, HoldsLive, RecCount, KnownBy;
    var s' := Next(decay, s, e);
    var recCount := RecCount(ExtendAll([], s.payloads, R), R);
    i := if known.Some? then known.value else 0;
    if e.Delivered? || Live(decay, s.index, s.pairing, recCount, e.tr, e.remote).Wait? {
      KnownOn(s, s', user, i);
    } else {
      var step := Live(decay, s.index, s.pairing, recCount, e.tr, e.remote);
      LiveOneUser(decay, s.index, s.pairing, recCount, e.tr, e.remote, user);
      PartsSetNothing(s.payloads, step.tr, e.parts, user);
      if SetsBalance(Main(step.tr), user).Some? {
        i := |s.payloads|;
        NewlyKnown(s, s', user, recCount);
      } else {
        KnownOn(s, s', user, i);
      }
    }
  }

  lemma NewlyKnown(s: LedgerState, s': LedgerState, user: Key, recCount: nat)
    requires s.payloads < s'.payloads && recCount == RecCount(ExtendAll([], s.payloads, R), R)
    requires user in s'.index.users && SetsBalance(s'.payloads[|s.payloads|], user).Some?
    requires forall k :: |s.payloads| < k < |s'.payloads| ==> SetsBalance(s'.payloads[k], user).None?
    requires var info, tr := s'.index.users[user], s'.payloads[|s.payloads|].tr;
      info.time == tr.time && info.lastRec == recCount && HoldsLive(tr, user, info.balance)
    ensures KnownBy(s', user, |s.payloads|)
  {
    hide SetsBalance, HoldsLive, RecCount;
    assert s'.payloads[..|s.payloads|] == s.payloads;
  }

  /** In every run from an empty chain, the live index knows every user by the last record that set the
      user's balance. */
  lemma {:induction false} LiveComesFromLastSetter(decay: Decay, events: seq<Event>, user: Key) returns (i: nat)
    requires forall k :: 0 <= k < |events| ==> WellFormedEvent(events[k])
    requires user in Run(decay, events).index.users
    ensures KnownBy(Run(decay, events), user, i)
  {
    hide KnownBy, Next;
    if events == [] {
      assert false;
    } else {
      var n := |events| - 1;
      var s := Run(decay, events[..n]);
      var known := None;
      if user in s.index.users {
        var j := LiveComesFromLastSetter(decay, events[..n], user);
        known := Some(j);
      }
      assert WellFormedEvent(events[n]);
      i := EventKeepsKnown(decay, s, events[n], user, known);
    }
  }

  /** In every such run, the previous number that a stored record keeps for a user is the record count
      at which the last record before it set this user's balance. */
  lemma {:induction false} PreviousIsLastSetter(decay: Decay, events: seq<Event>, m: nat, user: Key) returns (j: nat)
    requires forall k :: 0 <= k < |events| ==> WellFormedEvent(events[k])
    requires var payloads := Run(decay, events).payloads;
      m < |payloads| && payloads[m].Main? && PreviousOf(payloads[m].tr, user).Some?
    ensures var payloads := Run(decay, events).payloads;
      LastSetter(payloads[..m], user, j) && PreviousOf(payloads[m].tr, user) == Some(CountAt(payloads, j))
  {
    hide LastSetter, PreviousOf, RecCount, Live, KnownBy;
    if events == [] {
      assert false;
    } else {
      var n := |events| - 1;
      var s, s', e := Run(decay, events[..n]), Run(decay, events), events[n];
      assert WellFormedEvent(e);
      StoredStays(decay, s, e);
      if m < |s.payloads| {
        assert s'.payloads[m] == s.payloads[m] && s'.payloads[..m] == s.payloads[..m];
        j := PreviousIsLastSetter(decay, events[..n], m, user);
        LastSetterInside(s.payloads[..m], user, j);
        assert s'.payloads[..j] == s.payloads[..j];
      } else {
        var recCount := RecCount(ExtendAll([], s.payloads, R), R);
        var step := Live(decay, s.index, s.pairing, recCount, e.tr, e.remote);
        assert m == |s.payloads| && s'.payloads[m] == Main(step.tr);
        LiveOneUser(decay, s.index, s.pairing, recCount, e.tr, e.remote, user);
        j := LiveComesFromLastSetter(decay, events[..n], user);
        KnownNumber(s, user, j);
        assert s'.payloads[..m] == s.payloads && s'.payloads[..j] == s.payloads[..j];
      }
    }
  }

  lemma LastSetterInside(payloads: seq<GradidoRecord>, user: Key, j: nat)
    requires LastSetter(payloads, user, j)
    ensures j < |payloads|
  {
  }

  lemma KnownNumber(s: LedgerState, user: Key, j: nat)
    requires KnownBy(s, user, j)
    ensures user in s.index.users && LastSetter(s.payloads, user, j) && j < |s.payloads|
    ensures s.index.users[user].lastRec == CountAt(s.payloads, j)
  {
  }

  /** What an event does to the stored payloads: nothing, or one decided record and its parts follow. */
  lemma StoredStays(decay: Decay, s: LedgerState, e: Event)
    requires WellFormedEvent(e)
    ensures var s' := Next(decay, s, e);
      && s.payloads <= s'.payloads
      && forall m :: |s.payloads| <= m < |s'.payloads| && s'.payloads[m].Main? ==>
        && m == |s.payloads| && e.Arrives?
        && var step := Live(decay, s.index, s.pairing, RecCount(ExtendAll([], s.payloads, R), R), e.tr, e.remote);
        step.Done? && s'.payloads[m] == Main(step.tr)
  {
    hide Live, RecCount;
    var s' := Next(decay, s, e);
    if |s.payloads| < |s'.payloads| {
      assert forall m :: |s.payloads| < m < |s'.payloads| ==> s'.payloads[m] == e.parts[m - |s.payloads| - 1];
    }
  }

  /** After every run, a restart gives a user the time that the live index has if and only if the last
      record that set the balance is not an inbound move, or is one from time zero. */
  lemma RestartKeepsTimeIff(decay: Decay, events: seq<Event>, user: Key) returns (i: nat)
    requires forall k :: 0 <= k < |events| ==> WellFormedEvent(events[k])
    requires user in Run(decay, events).index.users
    ensures var s := Run(decay, events);
      && LastSetter(s.payloads, user, i) && Replay(s.payloads).Some? && user in Replay(s.payloads).value.users
      && (Replay(s.payloads).value.users[user].time == s.index.users[user].time <==>
          !s.payloads[i].tr.body.MoveUserInbound? || s.payloads[i].tr.time == ZeroTime)
  {
    hide Run, Replay, Consistent, SetsBalance, HoldsLive, RecCount;
    LiveAndReplayAgree(decay, events);
    var s := Run(decay, events);
    i := LiveComesFromLastSetter(decay, events, user);
    var j := BalanceComesFromLastSetter(s.payloads, user);
    assert i == j;
  }
}
