/**
 A group ledger: the indexes over users and friend groups, kept beside the block storage.

 `intact` becomes false when the storage is truncated or an absent user is looked up: from
 then on the source's counters no longer describe its tiles (or its behaviour is undefined),
 and the model lets the storage answer anything.
 */
module LedgerStore {
  import opened Values
  import opened GradidoTypes
  import opened Layout
  import opened Checksums
  import opened BlockScan
  import opened BlockStorage
  import opened LedgerRules
  import opened LedgerLaws

  /** The sequence number of the last main record, if there is one. */
  function LatestMain(payloads: seq<GradidoRecord>): Option<nat>
  {
    if payloads == [] then None
    else if payloads[|payloads| - 1].Main? then Some(payloads[|payloads| - 1].tr.sequenceNumber)
    else LatestMain(payloads[..|payloads| - 1])
  }

  class Ledger<D> {
    const decay: Decay
    const storage: Blockchain<GradidoRecord, D>

    var users: map<Key, UserInfo>
    var friends: set<Key>
    var pairing: Pairing
    var indexedBlocks: nat
    var intact: bool

    ghost var indexLog: seq<nat>  // the blocks indexed since the indexes were cleared

    ghost predicate Valid()
      reads this, storage, storage.ft, storage.ft.Repr, storage.ft.tiles
      ensures Valid() ==> this !in storage.ft.Repr
    {
      this !in storage.ft.Repr && (intact ==> storage.Valid() && storage.r == R)
    }

    function Ix(): Index
      reads this
    {
      Index(users, friends)
    }

    ghost function Payloads(): seq<GradidoRecord>
      reads storage
    {
      Flatten(storage.blocks)
    }

    /** The indexes are the replay of the first `n` blocks. */
    ghost predicate Indexed(n: nat)
      requires n <= |storage.blocks|
      reads this, storage
    {
      Replay(Flatten(storage.blocks[..n])) == Some(Ix())
    }

    constructor (decay: Decay, storage: Blockchain<GradidoRecord, D>)
      requires storage.Valid() && storage.r == R
      ensures Valid() && this.storage == storage && this.decay == decay
      ensures intact && Ix() == EmptyIndex && indexedBlocks == 0 && pairing == NoPairing && indexLog == []
    {
      this.decay, this.storage := decay, storage;
      users, friends, pairing := map[], {}, NoPairing;
      indexedBlocks, intact, indexLog := 0, true, [];
    }

    /** Clears the indexes and starts counting indexed blocks anew. */
    method ClearIndexes()
      requires Valid()
      modifies this
      ensures Valid() && intact == old(intact) && pairing == old(pairing)
      ensures Ix() == EmptyIndex && indexLog == [] && indexedBlocks == 0
    {
      users, friends := map[], {};
      indexLog, indexedBlocks := [], 0;
    }

    method Truncate()
      requires Valid()
      modifies this
      ensures Valid() && !intact && pairing == old(pairing)
    {
      intact := false;
    }

    method GetBlockCount() returns (n: nat)
      requires Valid()
      ensures intact ==> n == |storage.ft.view| == |storage.blocks|
    {
      n := *;
      if intact {
        n := |storage.ft.tiles|;
      }
    }

    method CountIndexedBlock()
      requires Valid()
      modifies this
      ensures Valid() && intact == old(intact) && Ix() == old(Ix()) && indexLog == old(indexLog)
      ensures indexedBlocks == old(indexedBlocks) + 1 && pairing == old(pairing)
    {
      indexedBlocks := indexedBlocks + 1;
    }

    // ----- replay -----

    /** Takes one stored record into the indexes. */
    method IndexRecord(rec: GradidoRecord, recNum: nat) returns (absent: bool)
      modifies `users, `friends
      ensures absent <==> ReplayRecord(old(Ix()), rec, recNum).None?
      ensures !absent ==> ReplayRecord(old(Ix()), rec, recNum) == Some(Ix())
    {
      if !(rec.Main? && rec.tr.result == Success) {
        return false;
      }
      var tr := rec.tr;
      match tr.body {
        case GradidoCreation(_, party) =>
          absent := SetUser(party, recNum, tr.time);
        case AddGroupFriend(group) =>
          friends := friends + {group};
          absent := false;
        case RemoveGroupFriend(group) =>
          friends := friends - {group};
          absent := false;
        case AddUser(user) =>
          if user !in users {
            users := users[user := UserInfo(Zero, recNum, tr.time)];
          }
          absent := false;
        case MoveUserInbound(user, _, _, newBalance) =>
          if user !in users {
            users := users[user := UserInfo(newBalance, recNum % TWO32, ZeroTime)];
          }
          absent := false;
        case MoveUserOutbound(user, _, _) =>
          users := users - {user};
          absent := false;
        case LocalTransfer(_, sender, receiver) =>
          absent := SetUser(sender, recNum, tr.time);
          if !absent {
            absent := SetUser(receiver, recNum, tr.time);
          }
        case InboundTransfer(_, _, _, _, receiver) =>
          absent := SetUser(receiver, recNum, tr.time);
        case OutboundTransfer(_, _, _, sender, _) =>
          absent := SetUser(sender, recNum, tr.time);
        case OtherBody(_) =>
          absent := false;
      }
    }

    method SetUser(party: Party, recNum: nat, time: Timestamp) returns (absent: bool)
      modifies `users
      ensures absent <==> party.user !in old(users)
      ensures users == if absent then old(users) else old(users)[party.user := UserInfo(party.newBalance, recNum, time)]
    {
      if party.user !in users {
        return true;
      }
      users := users[party.user := users[party.user].(balance := party.newBalance)];
      users := users[party.user := users[party.user].(lastRec := recNum)];
      users := users[party.user := users[party.user].(time := time)];
      return false;
    }

    /** Indexes the valid blocks that are not indexed yet. */
    method AddIndexData(flush: bool) returns (ok: bool)
      requires Valid()
      requires intact ==> indexedBlocks <= storage.validated <= |storage.blocks| && Indexed(indexedBlocks)
      modifies this, storage, storage.ft, storage.ft.Repr
      ensures Valid() && fresh(storage.ft.Repr - old(storage.ft.Repr))
      ensures intact ==> old(intact)
      ensures ok && indexedBlocks == old(indexedBlocks) && pairing == old(pairing)
      ensures intact ==>
        && storage.blocks == old(storage.blocks) && storage.validated == old(storage.validated)
        && storage.recCount == old(storage.recCount) && storage.validated <= |storage.blocks|
        && Indexed(storage.validated)
        && indexLog == old(indexLog) + UpTo(indexedBlocks, storage.validated)
        && (old(storage.Unread()) ==> storage.Unread())
      ensures old(intact) ==>
        (intact <==> Replay(Flatten(old(storage.blocks)[..old(storage.validated)])).Some?)
    {
      hide Replay, Flatten, Blockchain.Valid, UpTo;
      if !intact {
        users, friends := *, *;
      } else {
        var absent := IndexBlocks(flush);
        if absent {
          intact := false;
        }
      }
      return true;
    }

    /** The outer loop over the blocks. */
    method IndexBlocks(flush: bool) returns (absent: bool)
      requires Valid() && intact
      requires indexedBlocks <= storage.validated <= |storage.blocks| && Indexed(indexedBlocks)
      modifies `users, `friends, `indexLog, storage, storage.ft, storage.ft.Repr
      ensures Valid() && fresh(storage.ft.Repr - old(storage.ft.Repr))
      ensures storage.blocks == old(storage.blocks) && storage.validated == old(storage.validated)
      ensures storage.recCount == old(storage.recCount)
      ensures absent <==> Replay(Flatten(storage.blocks[..storage.validated])).None?
      ensures !absent ==>
        && Indexed(storage.validated)
        && indexLog == old(indexLog) + UpTo(indexedBlocks, storage.validated)
      ensures old(storage.Unread()) ==> storage.Unread()
    {
      hide Replay, Flatten, Blockchain.Valid, Blockchain.Unread, UpTo;
      var i := indexedBlocks;
      UpToNothing(i);
      absent := false;
      while i < storage.validated && !absent
        invariant Valid() && fresh(storage.ft.Repr - old(storage.ft.Repr))
        invariant storage.blocks == old(storage.blocks) && storage.validated == old(storage.validated)
        invariant storage.recCount == old(storage.recCount)
        invariant indexedBlocks <= i <= storage.validated
        invariant absent ==> Replay(Flatten(storage.blocks[..i])).None?
        invariant !absent ==> Indexed(i) && indexLog == old(indexLog) + UpTo(indexedBlocks, i)
        invariant old(storage.Unread()) ==> storage.Unread()
        decreases storage.validated - i, !absent
      {
        UpToSnoc(indexedBlocks, i);
        absent := IndexBlock(i, flush);
        i := i + 1;
      }
      if absent {
        PrefixReplays(storage.blocks, i, storage.validated);
      }
    }

    method IndexBlock(i: nat, flush: bool) returns (absent: bool)
      requires Valid() && intact && i < storage.validated <= |storage.blocks| && Indexed(i)
      modifies `users, `friends, `indexLog, storage, storage.ft, storage.ft.Repr
      ensures Valid() && fresh(storage.ft.Repr - old(storage.ft.Repr))
      ensures storage.blocks == old(storage.blocks) && storage.validated == old(storage.validated)
      ensures storage.recCount == old(storage.recCount)
      ensures absent <==> Replay(Flatten(storage.blocks[..i + 1])).None?
      ensures !absent ==> Indexed(i + 1)
      ensures indexLog == old(indexLog) + [i]
      ensures old(storage.Unread()) ==> storage.Unread()
    {
      var threw, data := storage.GetBlock(i, flush);
      indexLog := indexLog + [i];
      FullPrefix(storage.blocks, R, i);
      assert storage.blocks[..i + 1][..i] == storage.blocks[..i];
      absent := IndexRecords(i, data[..], Flatten(storage.blocks[..i]), storage.blocks[i], storage.sums[i]);
    }

    /** The inner loop: the records of block `i` up to its checksum. */
    method IndexRecords(i: nat, records: seq<Record<GradidoRecord, D>>,
                        ghost done: seq<GradidoRecord>, ghost block: seq<GradidoRecord>, ghost sum: D)
      returns (absent: bool)
      requires |block| < R && records == Image(block, sum, R)
      requires |done| == i * (R - 1) && Replay(done) == Some(Ix())
      modifies `users, `friends
      ensures absent <==> Replay(done + block).None?
      ensures !absent ==> Replay(done + block) == Some(Ix())
    {
      hide Replay, ReplayRecord, Flatten;
      assert done + block[..0] == done;
      var j := 0;
      while j < R
        invariant 0 <= j <= |block|
        invariant Replay(done + block[..j]) == Some(Ix())
      {
        var rec := records[j];
        var recNum := i * R + j;
        if rec.Checksum? {
          break;
        }
        RecPosOf(i, j);
        ReplaySnoc(done + block[..j], block[j]);
        assert done + block[..j] + [block[j]] == done + block[..j + 1];
        absent := IndexRecord(rec.payload, recNum);
        if absent {
          assert (done + block)[..|done| + j + 1] == done + block[..j + 1];
          PrefixNone(done + block, |done| + j + 1);
          return true;
        }
        j := j + 1;
      }
      assert block[..j] == block;
      return false;
    }

    static lemma RecPosOf(i: nat, j: nat)
      requires j < R - 1
      ensures RecPos(i * (R - 1) + j, R) == i * R + j
    {
      QuotientAndRest(i, R - 1, j);
    }

    // ----- live -----

    /** `calc_fields_and_update_indexes_for`: decides a transaction, field by field as the source
        does, and returns it with its calculated fields. */
    method CalcFields(tr: Transaction, recCount: nat, remote: Remote) returns (ready: bool, out: Transaction)
      modifies `users, `friends, `pairing
      ensures var step := Live(decay, old(Ix()), old(pairing), recCount, tr, remote);
        match step
        case Wait(p) => !ready && out == tr && Ix() == old(Ix()) && pairing == p
        case Done(ix, tr') => ready && out == tr' && Ix() == ix && pairing == old(pairing)
    {
      out := tr;
      if pairing.waiting {
        return false, out;
      }
      ready := true;
      match tr.body {
        case GradidoCreation(amount, party) =>
          out := Create(tr, recCount);
        case AddGroupFriend(group) =>
          if group in friends {
            out := out.(result := GroupIsAlreadyFriend);
          } else {
            out := out.(result := Success);
            friends := friends + {group};
          }
        case RemoveGroupFriend(group) =>
          if group !in friends {
            out := out.(result := GroupIsNotFriend);
          } else {
            out := out.(result := Success);
            friends := friends - {group};
          }
        case AddUser(user) =>
          if user in users {
            out := out.(result := UserAlreadyExists);
          } else {
            out := out.(result := Success);
            users := users[user := UserInfo(Zero, recCount, tr.time)];
          }
        case MoveUserInbound(user, _, _, _) =>
          ready, out := MoveIn(tr, recCount, remote);
        case MoveUserOutbound(user, _, _) =>
          if user !in users {
            out := out.(result := UnknownLocalUser);
          } else {
            out := out.(result := Success);
            users := users - {user};
          }
        case LocalTransfer(_, _, _) =>
          out := Transfer(tr, recCount);
        case InboundTransfer(_, _, _, _, _) =>
          ready, out := Receive(tr, recCount, remote);
        case OutboundTransfer(_, _, _, _, _) =>
          out := Send(tr, recCount);
        case OtherBody(_) =>
      }
    }

    method Create(tr: Transaction, recCount: nat) returns (out: Transaction)
      requires tr.body.GradidoCreation? && !pairing.waiting
      modifies `users
      ensures Live(decay, old(Ix()), pairing, recCount, tr, NoBlockchain) == Done(Ix(), out)
    {
      var GradidoCreation(amount, party) := tr.body;
      var user := party.user;
      if user !in users {
        return tr.(result := UnknownLocalUser);
      }
      users := users[user := users[user].(balance := Deflate(decay, users[user].time, tr.time, users[user].balance))];
      out := tr.(body := GradidoCreation(amount, Party(user, Add(users[user].balance, amount), users[user].lastRec)));
      out := out.(result := Success);
      users := users[user := users[user].(balance := Add(users[user].balance, amount))];
      users := users[user := users[user].(lastRec := recCount)];
      users := users[user := users[user].(time := tr.time)];
    }

    method Transfer(tr: Transaction, recCount: nat) returns (out: Transaction)
      requires tr.body.LocalTransfer? && !pairing.waiting
      modifies `users
      ensures Live(decay, old(Ix()), pairing, recCount, tr, NoBlockchain) == Done(Ix(), out)
    {
      hide Add, Sub, Deflate;
      var LocalTransfer(amount, sender, receiver) := tr.body;
      var s, v := sender.user, receiver.user;
      if s !in users || v !in users {
        return tr.(result := UnknownLocalUser);
      }
      var sent := Deflate(decay, users[s].time, tr.time, users[s].balance);
      if Less(sent, amount) {
        return tr.(result := NotEnoughGradidos);
      }
      users := users[s := users[s].(balance := sent)];
      users := users[v := users[v].(balance := Deflate(decay, users[v].time, tr.time, users[v].balance))];
      var sender', receiver' := sender, receiver;
      sender' := sender'.(newBalance := Sub(sent, amount).value);
      receiver' := receiver'.(newBalance := Add(users[v].balance, amount));
      sender' := sender'.(prevRec := users[s].lastRec);
      receiver' := receiver'.(prevRec := users[v].lastRec);
      ghost var kept := users[v].balance;
      users := users[s := users[s].(time := tr.time)];
      users := users[v := users[v].(time := tr.time)];
      users := users[s := users[s].(lastRec := recCount)];
      users := users[v := users[v].(lastRec := recCount)];
      assert users.Keys == old(users).Keys;
      assert users[v] == UserInfo(kept, recCount, tr.time);
      assert s != v ==> users[s] == UserInfo(sent, recCount, tr.time);
      assert users == old(users)[s := UserInfo(sent, recCount, tr.time)][v := UserInfo(kept, recCount, tr.time)];
      out := tr.(body := LocalTransfer(amount, sender', receiver'), result := Success);
    }

    method Send(tr: Transaction, recCount: nat) returns (out: Transaction)
      requires tr.body.OutboundTransfer? && !pairing.waiting
      modifies `users
      ensures Live(decay, old(Ix()), pairing, recCount, tr, NoBlockchain) == Done(Ix(), out)
    {
      var OutboundTransfer(amount, id, group, sender, remoteReceiver) := tr.body;
      var s := sender.user;
      if s !in users {
        return tr.(result := UnknownLocalUser);
      }
      var sent := Deflate(decay, users[s].time, tr.time, users[s].balance);
      if Less(sent, amount) {
        return tr.(result := NotEnoughGradidos);
      }
      users := users[s := users[s].(balance := sent)];
      var sender' := Party(s, Sub(users[s].balance, amount).value, users[s].lastRec);
      out := tr.(body := OutboundTransfer(amount, id, group, sender', remoteReceiver));
      users := users[s := users[s].(time := tr.time)];
      users := users[s := users[s].(lastRec := recCount)];
      out := out.(result := Success);
    }

    method MoveIn(tr: Transaction, recCount: nat, remote: Remote) returns (ready: bool, out: Transaction)
      requires tr.body.MoveUserInbound? && !pairing.waiting
      modifies `users, `pairing
      ensures match Live(decay, old(Ix()), old(pairing), recCount, tr, remote)
        case Wait(p) => !ready && out == tr && Ix() == old(Ix()) && pairing == p
        case Done(ix, tr') => ready && out == tr' && Ix() == ix && pairing == old(pairing)
    {
      var MoveUserInbound(user, id, group, newBalance) := tr.body;
      if user in users {
        return true, tr.(result := UserAlreadyExists);
      }
      var found := pairing.otherGroup == group && pairing.kind == PairedMove && pairing.id == id;
      if !found && !remote.Found? {
        pairing := pairing.(otherGroup := group, waiting := true, asked := pairing.asked + {id});
        return false, tr;
      }
      var result := if found then pairing.result else remote.result;
      if result != Success {
        return true, tr.(result := OutboundTransactionFailed);
      }
      users := users[user := UserInfo(newBalance, recCount, tr.time)];
      return true, tr.(result := Success);
    }

    method Receive(tr: Transaction, recCount: nat, remote: Remote) returns (ready: bool, out: Transaction)
      requires tr.body.InboundTransfer? && !pairing.waiting
      modifies `users, `pairing
      ensures match Live(decay, old(Ix()), old(pairing), recCount, tr, remote)
        case Wait(p) => !ready && out == tr && Ix() == old(Ix()) && pairing == p
        case Done(ix, tr') => ready && out == tr' && Ix() == ix && pairing == old(pairing)
    {
      var InboundTransfer(amount, id, group, remoteSender, receiver) := tr.body;
      var v := receiver.user;
      if v !in users {
        return true, tr.(result := UnknownLocalUser);
      }
      var found := pairing.otherGroup == group && pairing.kind == PairedTransfer && pairing.id == id;
      if !found && !remote.Found? {
        pairing := pairing.(otherGroup := group, asked := pairing.asked + {id});
        return false, tr;
      }
      var result := if found then pairing.result else remote.result;
      if result != Success {
        return true, tr.(result := OutboundTransactionFailed);
      }
      users := users[v := users[v].(balance := Deflate(decay, users[v].time, tr.time, users[v].balance))];
      var receiver' := Party(v, Add(users[v].balance, amount), users[v].lastRec);
      out := tr.(body := InboundTransfer(amount, id, group, remoteSender, receiver'));
      users := users[v := users[v].(time := tr.time)];
      users := users[v := users[v].(lastRec := recCount)];
      return true, out.(result := Success);
    }

    /** `on_paired_transaction_done`: every transaction that waits for the delivered pair is
        decided from now on, as this pair was. */
    method OnPairedTransactionDone(kind: PairedKind, id: Timestamp, result: Result)
      modifies `pairing
      ensures pairing == Deliver(old(pairing), kind, id, result)
      ensures forall tr :: WaitsFor(Ix(), old(pairing), tr, kind, id) ==> DecidedAs(decay, Ix(), pairing, tr, result)
    {
      pairing := pairing.(waiting := false);
      pairing := pairing.(asked := pairing.asked - {id}, kind := kind, id := id, result := result);
    }

    // ----- the latest transaction -----

    /** The backward scan over record numbers, past checksums, memos and signatures. */
    method GetLatestTransactionId(flush: bool) returns (has: bool, id: nat)
      requires Valid() && (intact ==> storage.Complete())
      modifies storage, storage.ft, storage.ft.Repr
      ensures Valid() && fresh(storage.ft.Repr - old(storage.ft.Repr))
      ensures intact ==>
        && storage.Complete() && storage.blocks == old(storage.blocks) && storage.sums == old(storage.sums)
        && (has <==> LatestMain(Payloads()).Some?) && (has ==> LatestMain(Payloads()) == Some(id))
        && (storage.blocks != [] ==> Current(storage.TailState()))
    {
      if !intact {
        has, id := *, *;
        return;
      }
      id := 0;
      assert storage.blocks[..storage.validated] == storage.blocks;
      CountLaws(storage.blocks, R);
      if storage.recCount == 0 || storage.recCount == 1 {
        return false, 0;
      }
      has, id := ScanBack(flush);
    }

    method ScanBack(flush: bool) returns (has: bool, id: nat)
      requires Valid() && intact && storage.Complete() && storage.blocks != []
      modifies storage, storage.ft, storage.ft.Repr
      ensures Valid() && fresh(storage.ft.Repr - old(storage.ft.Repr))
      ensures storage.Complete() && storage.blocks == old(storage.blocks) && storage.sums == old(storage.sums)
      ensures has <==> LatestMain(Payloads()).Some?
      ensures has ==> LatestMain(Payloads()) == Some(id)
      ensures Current(storage.TailState())
    {
      ghost var ps, n := Payloads(), RecCount(storage.blocks, R);
      assert storage.blocks[..storage.validated] == storage.blocks;
      var last := storage.recCount - 2;
      LastPayloadInTail(storage.blocks);
      assert ps[..|ps|] == ps;
      var zeroTried := false;
      ghost var left := |ps|;  // the payloads that are still to be read
      while true
        invariant Valid() && fresh(storage.ft.Repr - old(storage.ft.Repr))
        invariant storage.Complete() && storage.blocks == old(storage.blocks) && storage.sums == old(storage.sums)
        invariant 0 <= last <= n - 2 && (zeroTried ==> last == 0)
        invariant 0 <= left <= |ps| && LatestMain(ps) == LatestMain(ps[..left])
        invariant left == if zeroTried then 0 else PayloadsBefore(last + 1)
        invariant last < n - 2 || zeroTried ==> Current(storage.TailState())
        decreases last, if zeroTried then 0 else 1
      {
        if !(last > 0 || !zeroTried) {
          return false, 0;
        }
        var main;
        main, id := ReadBack(last, flush);
        assert Payloads() == ps;
        if main {
          return true, id;
        }
        left := PayloadsBefore(last);
        if last > 0 {
          last := last - 1;
        } else {
          zeroTried := true;
        }
      }
    }

    /** Reading the record that the index keeps for a user's balance: after a replay of a chain of
        fewer than 2^32 records it is the last one that set the balance, to what the index says. */
    method ReadLastSetter(user: Key, flush: bool) returns (rec: GradidoRecord, ghost i: nat)
      requires Valid() && intact && storage.Complete() && user in users
      requires Consistent(Payloads()) && Replay(Payloads()) == Some(Ix()) && RecCount(storage.blocks, R) < TWO32
      modifies storage, storage.ft, storage.ft.Repr
      ensures Valid() && fresh(storage.ft.Repr - old(storage.ft.Repr)) && Payloads() == old(Payloads())
      ensures LastSetter(Payloads(), user, i) && rec == Payloads()[i]
      ensures SetsBalance(rec, user) == Some(users[user].balance) && users[user].time == KeptTime(rec.tr)
    {
      hide Replay, Consistent, Flatten, RecCount;
      i := BalanceComesFromLastSetter(Payloads(), user);
      KeptNumberIsPosition(storage.blocks, i);
      var stored, ec := storage.GetRecord(users[user].lastRec, flush);
      rec := stored.payload;
    }

    /** One turn of the scan. */
    method ReadBack(last: nat, flush: bool) returns (main: bool, id: nat)
      requires Valid() && intact && storage.Complete() && storage.blocks != []
      requires last <= RecCount(storage.blocks, R) - 2
      modifies storage, storage.ft, storage.ft.Repr
      ensures Valid() && fresh(storage.ft.Repr - old(storage.ft.Repr))
      ensures storage.Complete() && storage.blocks == old(storage.blocks) && storage.sums == old(storage.sums)
      ensures PayloadsBefore(last) <= |Payloads()| && PayloadsBefore(last + 1) <= |Payloads()|
      ensures main ==> LatestMain(Payloads()[..PayloadsBefore(last + 1)]) == Some(id)
      ensures !main ==> LatestMain(Payloads()[..PayloadsBefore(last + 1)]) == LatestMain(Payloads()[..PayloadsBefore(last)])
      ensures last / R == |storage.blocks| - 1 || old(Current(storage.TailState())) ==> Current(storage.TailState())
    {
      var rec, ec := storage.GetRecord(last, flush);
      ReadAt(storage.blocks, last);
      ScanStep(Payloads(), last, rec.Payload?);
      if rec.Payload? && rec.payload.Main? {
        return true, rec.payload.tr.sequenceNumber;
      }
      return false, 0;
    }

    static lemma ScanStep(ps: seq<GradidoRecord>, last: nat, isPayload: bool)
      requires PayloadsBefore(last + 1) <= |ps|
      requires PayloadsBefore(last + 1) == if isPayload then PayloadsBefore(last) + 1 else PayloadsBefore(last)
      ensures LatestMain(ps[..PayloadsBefore(last + 1)]) ==
        if isPayload && ps[PayloadsBefore(last)].Main? then Some(ps[PayloadsBefore(last)].tr.sequenceNumber)
        else LatestMain(ps[..PayloadsBefore(last)])
    {
      if isPayload {
        assert ps[..PayloadsBefore(last + 1)][..PayloadsBefore(last)] == ps[..PayloadsBefore(last)];
      }
    }

    /** The last payload lies in the last block. */
    static lemma LastPayloadInTail(blocks: seq<seq<GradidoRecord>>)
      requires Packed(blocks, R) && blocks != []
      ensures RecCount(blocks, R) >= 2
      ensures (RecCount(blocks, R) - 2) / R == |blocks| - 1
      ensures PayloadsBefore(RecCount(blocks, R) - 1) == |Flatten(blocks)|
    {
      CountLaws(blocks, R);
    }

    /** What is read at record number `last`: a payload, or the checksum of an earlier block. */
    static lemma ReadAt(blocks: seq<seq<GradidoRecord>>, last: nat)
      requires Packed(blocks, R) && blocks != [] && last <= RecCount(blocks, R) - 2
      ensures var b, j := last / R, last % R;
        && b < |blocks| && j <= |blocks[b]| && PayloadsBefore(last) <= |Flatten(blocks)|
        && (j < |blocks[b]| ==> PayloadsBefore(last) < |Flatten(blocks)| && Flatten(blocks)[PayloadsBefore(last)] == blocks[b][j])
        && PayloadsBefore(last + 1) == if j < |blocks[b]| then PayloadsBefore(last) + 1 else PayloadsBefore(last)
    {
      var b, j := last / R, last % R;
      InUse(blocks, R, last);
      FullPrefix(blocks, R, b);
      if j < |blocks[b]| {
        PositionOf(blocks, R, b, j);
      } else {
        FlattenAt(blocks, b, j - 1);
      }
    }
  }

  // ----- lists of block numbers -----

  /** [from, from + 1, ..., to - 1] */
  function UpTo(from: nat, to: nat): seq<nat>
  {
    if to <= from then [] else UpTo(from, to - 1) + [to - 1]
  }

  lemma UpToNothing(n: nat)
    ensures UpTo(n, n) == []
  {
  }

  lemma UpToSnoc(from: nat, to: nat)
    requires from <= to
    ensures UpTo(from, to + 1) == UpTo(from, to) + [to]
  {
  }

  lemma UpToOne(n: nat)
    ensures UpTo(n, n + 1) == [n]
  {
    assert UpTo(n, n) == [];
  }

  // ----- prefixes of a replay -----

  lemma {:induction false} PrefixNone(payloads: seq<GradidoRecord>, n: nat)
    requires n <= |payloads| && Replay(payloads[..n]).None?
    ensures Replay(payloads).None?
    decreases |payloads|
  {
    if n == |payloads| {
      assert payloads[..n] == payloads;
    } else {
      var m := |payloads| - 1;
      assert payloads[..m][..n] == payloads[..n];
      PrefixNone(payloads[..m], n);
    }
  }

  lemma {:induction false} FlattenPrefix<T>(blocks: seq<seq<T>>, i: nat, n: nat)
    requires i <= n <= |blocks|
    ensures |Flatten(blocks[..i])| <= |Flatten(blocks[..n])|
    ensures Flatten(blocks[..n])[..|Flatten(blocks[..i])|] == Flatten(blocks[..i])
    decreases n
  {
    if i < n {
      assert blocks[..n][..n - 1] == blocks[..n - 1];
      FlattenPrefix(blocks, i, n - 1);
    }
  }

  lemma PrefixReplays(blocks: seq<seq<GradidoRecord>>, i: nat, n: nat)
    requires i <= n <= |blocks| && Replay(Flatten(blocks[..i])).None?
    ensures Replay(Flatten(blocks[..n])).None?
  {
    FlattenPrefix(blocks, i, n);
    PrefixNone(Flatten(blocks[..n]), |Flatten(blocks[..i])|);
  }

  lemma PrefixStillReplays(blocks: seq<seq<GradidoRecord>>, n: nat)
    requires n <= |blocks|
    ensures Replay(Flatten(blocks)).Some? ==> Replay(Flatten(blocks[..n])).Some?
  {
    assert blocks[..|blocks|] == blocks;
    if Replay(Flatten(blocks[..n])).None? {
      PrefixReplays(blocks, n, |blocks|);
    }
  }
}
