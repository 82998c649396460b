/**
 What transfers do to balances: conservation on the stored record, and the exact
 conditions under which the live index keeps what the record says.
 */
module LedgerMoney {
  import opened Values
  import opened GradidoTypes
  import opened Layout
  import opened LedgerRules
  import opened LedgerLaws

  // ----- conservation on the record -----

  /** The receiver's balance before the amount is added. */
  function Kept(decay: Decay, ix: Index, tr: Transaction): Value
    requires tr.body.LocalTransfer? && tr.body.sender.user in ix.users && tr.body.receiver.user in ix.users
  {
    var s, v := ix.users[tr.body.sender.user], ix.users[tr.body.receiver.user];
    Deflate(decay, v.time, tr.time,
            if tr.body.sender.user == tr.body.receiver.user then Decayed(decay, s, tr.time) else v.balance)
  }

  /** A successful local transfer between two users: the subtraction does not throw, and the two
      recorded balances sum to the two decayed ones if and only if the addition does not wrap. */
  lemma TransferConservesIff(decay: Decay, ix: Index, pairing: Pairing, recCount: nat, tr: Transaction, remote: Remote)
    requires tr.body.LocalTransfer? && tr.body.sender.user != tr.body.receiver.user && Normal(tr.body.amount)
    requires var step := Live(decay, ix, pairing, recCount, tr, remote); step.Done? && step.tr.result == Success
    ensures tr.body.sender.user in ix.users && tr.body.receiver.user in ix.users
    ensures var step := Live(decay, ix, pairing, recCount, tr, remote);
      var sent, kept := Decayed(decay, ix.users[tr.body.sender.user], tr.time), Kept(decay, ix, tr);
      && Sub(sent, tr.body.amount).Some?
      && (Units(step.tr.body.sender.newBalance) + Units(step.tr.body.receiver.newBalance) == Units(sent) + Units(kept)
          <==> AddFits(kept, tr.body.amount))
  {
    var sent, kept := Decayed(decay, ix.users[tr.body.sender.user], tr.time), Kept(decay, ix, tr);
    SubExactIff(sent, tr.body.amount);
    AddExactIff(kept, tr.body.amount);
  }

  /** A transfer to oneself is recorded as the balance decayed twice plus the amount. What the user
      owns, the balance decayed once, is conserved if and only if the amount makes up for the
      second decay; if that decay takes nothing, if and only if the amount is zero. */
  lemma SelfTransferConservesIff(decay: Decay, ix: Index, pairing: Pairing, recCount: nat, tr: Transaction,
                                 remote: Remote, replayed: Index, recNum: nat)
    requires tr.body.LocalTransfer? && tr.body.sender.user == tr.body.receiver.user && tr.body.sender.user in ix.users
    requires !pairing.waiting && SameKeys(ix, replayed)
    requires !Less(Decayed(decay, ix.users[tr.body.sender.user], tr.time), tr.body.amount)
    ensures var step := Live(decay, ix, pairing, recCount, tr, remote);
      var user, amount := tr.body.sender.user, tr.body.amount;
      var owned, kept := Decayed(decay, ix.users[user], tr.time), Kept(decay, ix, tr);
      && step.Done? && step.tr.result == Success && ReplayRecord(replayed, Main(step.tr), recNum).Some?
      && var after := ReplayRecord(replayed, Main(step.tr), recNum).value;
      && user in after.users
      && kept == Deflate(decay, ix.users[user].time, tr.time, owned)
      && (AddFits(kept, amount) ==>
          (Units(after.users[user].balance) == Units(owned) <==> Units(kept) + Units(amount) == Units(owned)))
      && (AddFits(kept, amount) && kept == owned ==>
          (Units(after.users[user].balance) == Units(owned) <==> amount == Zero))
  {
    AddExactIff(Kept(decay, ix, tr), tr.body.amount);
  }

  /** So nothing at all sent to oneself still costs a second decay. */
  lemma SelfTransferOfNothing(decay: Decay, ix: Index, recCount: nat, tr: Transaction, remote: Remote)
    requires tr.body.LocalTransfer? && tr.body.sender.user == tr.body.receiver.user && tr.body.amount == Zero
    requires tr.body.sender.user in ix.users && ix.users[tr.body.sender.user] == UserInfo(Value(8, 0), 1, ZeroTime)
    requires decay(Value(8, 0), tr.time.seconds) == Value(4, 0) && decay(Value(4, 0), tr.time.seconds) == Value(2, 0)
    requires tr.time.nanos == 0
    ensures Decayed(decay, ix.users[tr.body.sender.user], tr.time) == Value(4, 0)
    ensures var step := Live(decay, ix, NoPairing, recCount, tr, remote);
      step.Done? && step.tr.result == Success && step.tr.body.receiver.newBalance == Value(2, 0)
  {
    AddIsIdentityIff(Value(2, 0), Zero);
    hide Add, Sub;
    assert Kept(decay, ix, tr) == Value(2, 0);
  }

  // ----- what the live index keeps -----

  predicate SameBalances(a: Index, b: Index)
  {
    a.users.Keys == b.users.Keys && forall u :: u in a.users ==> a.users[u].balance == b.users[u].balance
  }

  /** The transaction is a transfer that will be accepted and moves something: a nonzero amount, or
      one added to a balance that the addition would normalise. */
  predicate Moves(decay: Decay, ix: Index, pairing: Pairing, tr: Transaction, remote: Remote)
  {
    match tr.body
    case LocalTransfer(amount, sender, receiver) =>
      && sender.user in ix.users && receiver.user in ix.users
      && !Less(Decayed(decay, ix.users[sender.user], tr.time), amount)
      && !(amount == Zero && Normal(Kept(decay, ix, tr)))
    case InboundTransfer(amount, id, group, _, receiver) =>
      && receiver.user in ix.users
      && PairedResult(pairing, PairedTransfer, group, id, remote) == Some(Success)
      && !(amount == Zero && Normal(Decayed(decay, ix.users[receiver.user], tr.time)))
    case OutboundTransfer(amount, _, _, sender, _) =>
      sender.user in ix.users && !Less(Decayed(decay, ix.users[sender.user], tr.time), amount) && amount != Zero
    case _ => false
  }

  predicate WholeAmount(tr: Transaction)
  {
    match tr.body
    case LocalTransfer(amount, _, _) => Normal(amount)
    case InboundTransfer(amount, _, _, _, _) => Normal(amount)
    case OutboundTransfer(amount, _, _, _, _) => Normal(amount)
    case _ => true
  }

  /** From agreeing balances, live and replayed balances agree after a decided transaction if and
      only if it is not a transfer that moves something: the live index does not take over the
      recorded balances of transfers. */
  lemma LiveKeepsBalancesIff(decay: Decay, live: Index, pairing: Pairing, recCount: nat, tr: Transaction,
                             remote: Remote, replayed: Index, recNum: nat)
    requires SameKeys(live, replayed) && SameBalances(live, replayed) && WholeAmount(tr)
    requires Live(decay, live, pairing, recCount, tr, remote).Done?
    ensures var step := Live(decay, live, pairing, recCount, tr, remote);
      && ReplayRecord(replayed, Main(step.tr), recNum).Some?
      && (SameBalances(step.index, ReplayRecord(replayed, Main(step.tr), recNum).value) <==>
          !Moves(decay, live, pairing, tr, remote))
  {
    hide Deflate, Add, Sub, Less, PairedResult;
    match tr.body {
      case LocalTransfer(_, _, _) =>
        TransferBalances(decay, live, pairing, recCount, tr, remote, replayed, recNum);
      case InboundTransfer(_, _, _, _, _) =>
        InboundBalances(decay, live, pairing, recCount, tr, remote, replayed, recNum);
      case OutboundTransfer(_, _, _, _, _) =>
        OutboundBalances(decay, live, pairing, recCount, tr, remote, replayed, recNum);
      case _ =>
    }
  }

  lemma InboundBalances(decay: Decay, live: Index, pairing: Pairing, recCount: nat, tr: Transaction,
                        remote: Remote, replayed: Index, recNum: nat)
    requires tr.body.InboundTransfer? && SameKeys(live, replayed) && SameBalances(live, replayed) && WholeAmount(tr)
    requires Live(decay, live, pairing, recCount, tr, remote).Done?
    ensures var step := Live(decay, live, pairing, recCount, tr, remote);
      && ReplayRecord(replayed, Main(step.tr), recNum).Some?
      && (SameBalances(step.index, ReplayRecord(replayed, Main(step.tr), recNum).value) <==>
          !Moves(decay, live, pairing, tr, remote))
  {
    var step := Live(decay, live, pairing, recCount, tr, remote);
    var receiver, amount := tr.body.receiver.user, tr.body.amount;
    if step.tr.result == Success {
      AddIsIdentityIff(Decayed(decay, live.users[receiver], tr.time), amount);
      hide Deflate, Add;
      var after := ReplayRecord(replayed, Main(step.tr), recNum).value;
      assert receiver in step.index.users && receiver in after.users;
    }
  }

  lemma OutboundBalances(decay: Decay, live: Index, pairing: Pairing, recCount: nat, tr: Transaction,
                         remote: Remote, replayed: Index, recNum: nat)
    requires tr.body.OutboundTransfer? && SameKeys(live, replayed) && SameBalances(live, replayed)
    requires Live(decay, live, pairing, recCount, tr, remote).Done?
    ensures var step := Live(decay, live, pairing, recCount, tr, remote);
      && ReplayRecord(replayed, Main(step.tr), recNum).Some?
      && (SameBalances(step.index, ReplayRecord(replayed, Main(step.tr), recNum).value) <==>
          !Moves(decay, live, pairing, tr, remote))
  {
    var step := Live(decay, live, pairing, recCount, tr, remote);
    var sender, amount := tr.body.sender.user, tr.body.amount;
    if step.tr.result == Success {
      SubIsIdentityIff(Decayed(decay, live.users[sender], tr.time), amount);
      hide Deflate, Sub;
      var after := ReplayRecord(replayed, Main(step.tr), recNum).value;
      assert sender in step.index.users && sender in after.users;
    }
  }

  lemma TransferBalances(decay: Decay, live: Index, pairing: Pairing, recCount: nat, tr: Transaction,
                         remote: Remote, replayed: Index, recNum: nat)
    requires tr.body.LocalTransfer? && SameKeys(live, replayed) && SameBalances(live, replayed) && WholeAmount(tr)
    requires Live(decay, live, pairing, recCount, tr, remote).Done?
    ensures var step := Live(decay, live, pairing, recCount, tr, remote);
      && ReplayRecord(replayed, Main(step.tr), recNum).Some?
      && (SameBalances(step.index, ReplayRecord(replayed, Main(step.tr), recNum).value) <==>
          !Moves(decay, live, pairing, tr, remote))
  {
    var step := Live(decay, live, pairing, recCount, tr, remote);
    var sender, receiver, amount := tr.body.sender.user, tr.body.receiver.user, tr.body.amount;
    if step.tr.result == Success && sender in live.users && receiver in live.users {
      var sent, kept := Decayed(decay, live.users[sender], tr.time), Kept(decay, live, tr);
      var after := ReplayRecord(replayed, Main(step.tr), recNum).value;
      SubIsIdentityIff(sent, amount);
      AddIsIdentityIff(kept, amount);
      hide Deflate, Add, Sub;
      assert step.index.users[receiver].balance == kept && after.users[receiver].balance == Add(kept, amount);
      if sender != receiver {
        assert step.index.users[sender].balance == sent && after.users[sender].balance == Sub(sent, amount).value;
      }
    }
  }

  /** The live record number of a balance is the record's position if and only if the record
      opens a block; otherwise it is one too high. */
  lemma LiveRecordNumberIff(decay: Decay, live: Index, pairing: Pairing, tr: Transaction, remote: Remote,
                            blocks: seq<seq<GradidoRecord>>, user: Key)
    requires Packed(blocks, R)
    requires Live(decay, live, pairing, RecCount(blocks, R), tr, remote).Done?
    requires SetsBalance(Main(Live(decay, live, pairing, RecCount(blocks, R), tr, remote).tr), user).Some?
    ensures var step := Live(decay, live, pairing, RecCount(blocks, R), tr, remote);
      && user in step.index.users
      && (step.index.users[user].lastRec == RecPos(|Flatten(blocks)|, R) <==> Opens(blocks, R))
      && (!Opens(blocks, R) ==> step.index.users[user].lastRec == RecPos(|Flatten(blocks)|, R) + 1)
  {
    hide Live, SetsBalance;
    LandsAt(blocks, R);
    LiveStampsRecCount(decay, live, pairing, RecCount(blocks, R), tr, remote, user);
  }

  lemma LiveStampsRecCount(decay: Decay, live: Index, pairing: Pairing, recCount: nat, tr: Transaction,
                           remote: Remote, user: Key)
    requires Live(decay, live, pairing, recCount, tr, remote).Done?
    requires SetsBalance(Main(Live(decay, live, pairing, recCount, tr, remote).tr), user).Some?
    ensures var step := Live(decay, live, pairing, recCount, tr, remote);
      user in step.index.users && step.index.users[user].lastRec == recCount && step.index.users[user].time == tr.time
  {
    hide Deflate, Add, Sub, Less, PairedResult, LiveTransfer;
    match tr.body {
      case LocalTransfer(_, sender, receiver) =>
        if sender.user in live.users && receiver.user in live.users {
          TransferStampsRecCount(decay, live, recCount, tr, user);
        }
      case InboundTransfer(_, _, _, _, _) =>
      case OutboundTransfer(_, _, _, _, _) =>
      case _ =>
    }
  }

  lemma TransferStampsRecCount(decay: Decay, live: Index, recCount: nat, tr: Transaction, user: Key)
    requires tr.body.LocalTransfer? && tr.body.sender.user in live.users && tr.body.receiver.user in live.users
    ensures var step := LiveTransfer(decay, live, recCount, tr);
      && step.Done?
      && (SetsBalance(Main(step.tr), user).Some? ==>
          user in step.index.users && step.index.users[user].lastRec == recCount && step.index.users[user].time == tr.time)
  {
    hide Deflate, Add, Sub, Less;
  }

  /** A balance that is spent twice: the live index accepts a second transfer of the whole
      balance, which the replayed index refuses. */
  lemma SpentTwice(decay: Decay, tr: Transaction)
    requires forall v, t :: decay(v, t) == v
    requires tr.body == LocalTransfer(Value(10, 0), Party("alice", Zero, 0), Party("bob", Zero, 0))
    requires tr.time == ZeroTime
    ensures var ix := Index(map["alice" := UserInfo(Value(10, 0), 0, ZeroTime), "bob" := UserInfo(Zero, 0, ZeroTime)], {});
      var first := Live(decay, ix, NoPairing, 3, tr, NoBlockchain);
      && first.Done? && first.tr.result == Success
      && ReplayRecord(ix, Main(first.tr), 2).Some?
      && var replayed := ReplayRecord(ix, Main(first.tr), 2).value;
      var again := Live(decay, first.index, NoPairing, 4, tr, NoBlockchain);
      var restarted := Live(decay, replayed, NoPairing, 4, tr, NoBlockchain);
      && again.Done? && again.tr.result == Success
      && restarted.Done? && restarted.tr.result == NotEnoughGradidos
  {
  }
}
