/**
 How the live indexes and the replayed ones are related, for every run of transactions.
 */
module LedgerLaws {
  import opened Values
  import opened GradidoTypes
  import opened Layout
  import opened LedgerRules

  /** The same users and the same friend groups. */
  predicate SameKeys(a: Index, b: Index)
  {
    a.users.Keys == b.users.Keys && a.friends == b.friends
  }

  /** A stored record that the live path may have decided against `ix`: replaying it looks up
      no absent user, and a user who joins is not there yet. */
  predicate Admissible(ix: Index, rec: GradidoRecord)
  {
    && ReplayRecord(ix, rec, 0).Some?
    && (rec.Main? && rec.tr.result == Success ==>
        && (rec.tr.body.AddUser? ==> rec.tr.body.user !in ix.users)
        && (rec.tr.body.MoveUserInbound? ==> rec.tr.body.user !in ix.users))
  }

  /** Every payload is admissible after those before it. */
  predicate Consistent(payloads: seq<GradidoRecord>)
  {
    payloads != [] ==>
      var n := |payloads| - 1;
      Consistent(payloads[..n]) && Replay(payloads[..n]).Some? && Admissible(Replay(payloads[..n]).value, payloads[n])
  }

  lemma TransferThenReplay(decay: Decay, live: Index, pairing: Pairing, recCount: nat, tr: Transaction, remote: Remote,
                           replayed: Index, recNum: nat)
    requires SameKeys(live, replayed) && tr.body.LocalTransfer?
    ensures var step := Live(decay, live, pairing, recCount, tr, remote);
      step.Done? ==>
        && Admissible(replayed, Main(step.tr))
        && ReplayRecord(replayed, Main(step.tr), recNum).Some?
        && SameKeys(step.index, ReplayRecord(replayed, Main(step.tr), recNum).value)
  {
    hide Deflate, Add, Sub, Less;
  }

  /** One step: if live and replayed indexes have the same keys before a transaction is
      decided, replaying the decided record finds all its users and gives the same keys. */
  lemma LiveThenReplay(decay: Decay, live: Index, pairing: Pairing, recCount: nat, tr: Transaction, remote: Remote,
                       replayed: Index, recNum: nat)
    requires SameKeys(live, replayed)
    ensures var step := Live(decay, live, pairing, recCount, tr, remote);
      step.Done? ==>
        && Admissible(replayed, Main(step.tr))
        && ReplayRecord(replayed, Main(step.tr), recNum).Some?
        && SameKeys(step.index, ReplayRecord(replayed, Main(step.tr), recNum).value)
  {
    hide Deflate, Add, Sub, Less, PairedResult;
    match tr.body {
      case LocalTransfer(_, _, _) =>
        TransferThenReplay(decay, live, pairing, recCount, tr, remote, replayed, recNum);
      case InboundTransfer(_, _, _, _, _) =>
      case OutboundTransfer(_, _, _, _, _) =>
      case MoveUserInbound(_, _, _, _) =>
      case _ =>
    }
  }

  lemma {:induction false} ReplaySnoc(payloads: seq<GradidoRecord>, rec: GradidoRecord)
    ensures Replay(payloads + [rec]) ==
      match Replay(payloads)
      case None => None
      case Some(ix) => ReplayRecord(ix, rec, RecPos(|payloads|, R))
  {
    assert (payloads + [rec])[..|payloads|] == payloads;
  }

  lemma {:induction false} ConsistentSnoc(payloads: seq<GradidoRecord>, rec: GradidoRecord)
    requires Consistent(payloads) && Replay(payloads).Some? && Admissible(Replay(payloads).value, rec)
    ensures Consistent(payloads + [rec])
  {
    assert (payloads + [rec])[..|payloads|] == payloads;
  }

  predicate IsPart(rec: GradidoRecord)
  {
    rec.Memo? || rec.Signatures?
  }

  /** Memo and signature parts change nothing. */
  lemma {:induction false} PartsReplay(payloads: seq<GradidoRecord>, parts: seq<GradidoRecord>)
    requires forall i :: 0 <= i < |parts| ==> IsPart(parts[i])
    ensures Replay(payloads + parts) == Replay(payloads)
    decreases |parts|
  {
    if parts == [] {
      assert payloads + parts == payloads;
    } else {
      hide Replay;
      var n := |parts| - 1;
      PartsReplay(payloads, parts[..n]);
      ReplaySnoc(payloads + parts[..n], parts[n]);
      assert payloads + parts[..n] + [parts[n]] == payloads + parts;
    }
  }

  lemma {:induction false} PartsConsistent(payloads: seq<GradidoRecord>, parts: seq<GradidoRecord>)
    requires Consistent(payloads) && Replay(payloads).Some?
    requires forall i :: 0 <= i < |parts| ==> IsPart(parts[i])
    ensures Consistent(payloads + parts)
    decreases |parts|
  {
    hide Replay, Consistent;
    if parts == [] {
      assert payloads + parts == payloads;
    } else {
      var n := |parts| - 1;
      PartsConsistent(payloads, parts[..n]);
      PartsReplay(payloads, parts[..n]);
      ConsistentSnoc(payloads + parts[..n], parts[n]);
      assert payloads + parts[..n] + [parts[n]] == payloads + parts;
    }
  }

  // ----- whole runs -----

  /** Something that happens to a ledger: a batch arrives (with the other group's answer), or
      the awaited paired transaction is delivered. */
  datatype Event =
    | Arrives(tr: Transaction, parts: seq<GradidoRecord>, remote: Remote)
    | Delivered(kind: PairedKind, id: Timestamp, result: Result)

  datatype LedgerState = LedgerState(index: Index, pairing: Pairing, payloads: seq<GradidoRecord>)

  const EmptyLedger := LedgerState(EmptyIndex, NoPairing, [])

  function Next(decay: Decay, s: LedgerState, e: Event): LedgerState
  {
    match e
    case Arrives(tr, parts, remote) =>
      var blocks := ExtendAll([], s.payloads, R);
      (match Live(decay, s.index, s.pairing, RecCount(blocks, R), tr, remote)
       case Wait(pairing) => s.(pairing := pairing)
       case Done(index, tr') => LedgerState(index, s.pairing, s.payloads + ([Main(tr')] + parts)))
    case Delivered(kind, id, result) =>
      s.(pairing := Deliver(s.pairing, kind, id, result))
  }

  function Run(decay: Decay, events: seq<Event>): LedgerState
  {
    if events == [] then EmptyLedger else Next(decay, Run(decay, events[..|events| - 1]), events[|events| - 1])
  }

  predicate WellFormedEvent(e: Event)
  {
    e.Arrives? ==> forall i :: 0 <= i < |e.parts| ==> IsPart(e.parts[i])
  }

  /** The live indexes have the keys of the replayed ones; what the stored records are is open. */
  predicate Agrees(index: Index, payloads: seq<GradidoRecord>)
  {
    Replay(payloads).Some? && SameKeys(index, Replay(payloads).value)
  }

  /** Deciding and storing a transaction keeps the agreement, whatever was stored before. */
  lemma StepKeepsAgreement(decay: Decay, index: Index, pairing: Pairing, recCount: nat, tr: Transaction,
                           remote: Remote, payloads: seq<GradidoRecord>, parts: seq<GradidoRecord>)
    requires Agrees(index, payloads) && Live(decay, index, pairing, recCount, tr, remote).Done?
    requires forall i :: 0 <= i < |parts| ==> IsPart(parts[i])
    ensures var step := Live(decay, index, pairing, recCount, tr, remote);
      && Agrees(step.index, payloads + ([Main(step.tr)] + parts))
      && (Consistent(payloads) ==> Consistent(payloads + ([Main(step.tr)] + parts)))
  {
    hide Replay, Live, ReplayRecord, Admissible, Consistent;
    var step := Live(decay, index, pairing, recCount, tr, remote);
    LiveThenReplay(decay, index, pairing, recCount, tr, remote, Replay(payloads).value, RecPos(|payloads|, R));
    ReplaySnoc(payloads, Main(step.tr));
    PartsReplay(payloads + [Main(step.tr)], parts);
    if Consistent(payloads) {
      ConsistentSnoc(payloads, Main(step.tr));
      PartsConsistent(payloads + [Main(step.tr)], parts);
    }
    assert payloads + [Main(step.tr)] + parts == payloads + ([Main(step.tr)] + parts);
  }

  /** For every run from an empty chain: clearing the indexes and replaying the stored records
      looks up no absent user and gives exactly the live users and friend groups. */
  lemma {:induction false} LiveAndReplayAgree(decay: Decay, events: seq<Event>)
    requires forall i :: 0 <= i < |events| ==> WellFormedEvent(events[i])
    ensures Agrees(Run(decay, events).index, Run(decay, events).payloads)
    ensures Consistent(Run(decay, events).payloads)
  {
    hide Live, Replay;
    if events == [] {
      NothingStored();
    } else {
      var n := |events| - 1;
      LiveAndReplayAgree(decay, events[..n]);
      var s, e := Run(decay, events[..n]), events[n];
      assert WellFormedEvent(e);
      if e.Arrives? {
        var recCount := RecCount(ExtendAll([], s.payloads, R), R);
        if Live(decay, s.index, s.pairing, recCount, e.tr, e.remote).Done? {
          StepKeepsAgreement(decay, s.index, s.pairing, recCount, e.tr, e.remote, s.payloads, e.parts);
        }
      }
    }
  }

  lemma NothingStored()
    ensures Agrees(EmptyIndex, []) && Consistent([])
  {
  }

  // ----- the awaited pair -----

  /** The transaction has asked for this pair, and still could be decided successfully. */
  predicate WaitsFor(ix: Index, pairing: Pairing, tr: Transaction, kind: PairedKind, id: Timestamp)
  {
    match tr.body
    case MoveUserInbound(user, pairedId, group, _) =>
      user !in ix.users && kind == PairedMove && pairedId == id && group == pairing.otherGroup
    case InboundTransfer(_, pairedId, group, _, receiver) =>
      receiver.user in ix.users && kind == PairedTransfer && pairedId == id && group == pairing.otherGroup
    case _ => false
  }

  /** The transaction will be decided, whatever the other group answers by then. */
  ghost predicate IsDecided(decay: Decay, ix: Index, pairing: Pairing, tr: Transaction)
  {
    forall n, answer :: Live(decay, ix, pairing, n, tr, answer).Done?
  }

  /** The transaction will be decided as its pair was, whatever the record count and the other group's
      answer are by then. */
  ghost predicate DecidedAs(decay: Decay, ix: Index, pairing: Pairing, tr: Transaction, result: Result)
  {
    forall n, answer ::
      var step := Live(decay, ix, pairing, n, tr, answer);
      step.Done? && step.tr.result == if result == Success then Success else OutboundTransactionFailed
  }

  /** Every transaction that waits for a pair is decided as this pair was once it is delivered. */
  lemma DeliveredDecides(decay: Decay, ix: Index, asking: Pairing, tr: Transaction, kind: PairedKind, id: Timestamp,
                         result: Result)
    requires WaitsFor(ix, asking, tr, kind, id)
    ensures DecidedAs(decay, ix, Deliver(asking, kind, id, result), tr, result)
  {
  }

  /** A transaction that waits has asked for its pair; after a delivery it is decided if and only
      if this pair is the one that was delivered, and then as the pair was. */
  lemma DeliveryDecidesIff(decay: Decay, ix: Index, pairing: Pairing, recCount: nat, tr: Transaction, remote: Remote,
                           kind: PairedKind, id: Timestamp, result: Result)
    requires !pairing.waiting && Live(decay, ix, pairing, recCount, tr, remote).Wait?
    ensures var asking := Live(decay, ix, pairing, recCount, tr, remote).pairing;
      var answered := Deliver(asking, kind, id, result);
      && tr.body.pairedId in asking.asked
      && (IsDecided(decay, ix, answered, tr) <==> WaitsFor(ix, asking, tr, kind, id))
      && (WaitsFor(ix, asking, tr, kind, id) ==> forall n, answer ::
            Live(decay, ix, answered, n, tr, answer).tr.result ==
              if result == Success then Success else OutboundTransactionFailed)
  {
    var asking := Live(decay, ix, pairing, recCount, tr, remote).pairing;
    assert Live(decay, ix, Deliver(asking, kind, id, result), 0, tr, NotFound).Done? ==>
      WaitsFor(ix, asking, tr, kind, id);
  }

  // ----- where a replayed balance comes from -----

  /** The balance that a stored record sets for a user. */
  function SetsBalance(rec: GradidoRecord, user: Key): Option<Value>
  {
    if !rec.Main? || rec.tr.result != Success then None
    else
      match rec.tr.body
      case GradidoCreation(_, party) => if party.user == user then Some(party.newBalance) else None
      case AddUser(u) => if u == user then Some(Zero) else None
      case MoveUserInbound(u, _, _, newBalance) => if u == user then Some(newBalance) else None
      case LocalTransfer(_, sender, receiver) =>
        if receiver.user == user then Some(receiver.newBalance)
        else if sender.user == user then Some(sender.newBalance)
        else None
      case InboundTransfer(_, _, _, _, receiver) => if receiver.user == user then Some(receiver.newBalance) else None
      case OutboundTransfer(_, _, _, sender, _) => if sender.user == user then Some(sender.newBalance) else None
      case _ => None
  }

  /** Payload `i` is the last one that set the user's balance. */
  predicate LastSetter(payloads: seq<GradidoRecord>, user: Key, i: nat)
  {
    && i < |payloads| && SetsBalance(payloads[i], user).Some?
    && forall k :: i < k < |payloads| ==> SetsBalance(payloads[k], user).None?
  }

  /** The record number that replay keeps for payload `i`. */
  function KeptNumber(payloads: seq<GradidoRecord>, i: nat): nat
    requires i < |payloads|
  {
    if payloads[i].Main? && payloads[i].tr.body.MoveUserInbound? then RecPos(i, R) % TWO32 else RecPos(i, R)
  }

  /** The time that replay keeps for a user whose balance the record sets. That of a user who moved in
      is not set. */
  function KeptTime(tr: Transaction): Timestamp
  {
    if tr.body.MoveUserInbound? then ZeroTime else tr.time
  }

  lemma ReplayOneUser(ix: Index, rec: GradidoRecord, recNum: nat, user: Key)
    requires Admissible(ix, rec) && ReplayRecord(ix, rec, recNum).Some?
    requires user in ReplayRecord(ix, rec, recNum).value.users
    ensures var info := ReplayRecord(ix, rec, recNum).value.users[user];
      match SetsBalance(rec, user)
      case None => user in ix.users && info == ix.users[user]
      case Some(balance) =>
        && info.balance == balance && info.time == KeptTime(rec.tr)
        && info.lastRec == if rec.tr.body.MoveUserInbound? then recNum % TWO32 else recNum
  {
  }

  /** After replay, every user's balance, time and record number are those of the last successful
      record that set this user's balance. */
  lemma {:induction false} BalanceComesFromLastSetter(payloads: seq<GradidoRecord>, user: Key) returns (i: nat)
    requires Consistent(payloads) && Replay(payloads).Some? && user in Replay(payloads).value.users
    ensures LastSetter(payloads, user, i)
    ensures Replay(payloads).value.users[user].balance == SetsBalance(payloads[i], user).value
    ensures Replay(payloads).value.users[user].lastRec == KeptNumber(payloads, i)
    ensures Replay(payloads).value.users[user].time == KeptTime(payloads[i].tr)
  {
    var n := |payloads| - 1;
    var ix := Replay(payloads[..n]).value;
    ReplayOneUser(ix, payloads[n], RecPos(n, R), user);
    if SetsBalance(payloads[n], user).Some? {
      i := n;
    } else {
      i := BalanceComesFromLastSetter(payloads[..n], user);
    }
  }

  /** In a chain of fewer than 2^32 records that number is the position at which `get_record`
      finds the record (see `Layout.Position`). */
  lemma KeptNumberIsPosition(blocks: seq<seq<GradidoRecord>>, i: nat)
    requires Packed(blocks, R) && RecCount(blocks, R) < TWO32 && i < |Flatten(blocks)|
    ensures KeptNumber(Flatten(blocks), i) == RecPos(i, R) < RecCount(blocks, R)
    ensures RecPos(i, R) / R < |blocks| && RecPos(i, R) % R < |blocks[RecPos(i, R) / R]|
    ensures blocks[RecPos(i, R) / R][RecPos(i, R) % R] == Flatten(blocks)[i]
  {
    Position(blocks, R, i);
  }

  /** The bound is exact: a user who moved in keeps the right number if and only if the record
      lies below 2^32. */
  lemma KeptNumberIff(payloads: seq<GradidoRecord>, i: nat)
    requires i < |payloads| && payloads[i].Main? && payloads[i].tr.body.MoveUserInbound?
    ensures KeptNumber(payloads, i) == RecPos(i, R) <==> RecPos(i, R) < TWO32
  {
    if RecPos(i, R) < TWO32 {
      QuotientAndRest(0, TWO32, RecPos(i, R));
    }
  }
}
