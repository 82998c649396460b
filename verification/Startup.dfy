/**
 Starting a node: what arrives while the files are validated, and opening the files of a chain
 anew after a run.
 */
module NodeStartup {
  import opened Values
  import opened GradidoTypes
  import opened Layout
  import opened BlockStorage
  import opened LedgerRules
  import opened LedgerLaws
  import opened LedgerMoney
  import opened LedgerStore
  import opened GroupNode

  /** A batch that arrives during the validation is put with the waiting ones and stays there. The
      change to READY pushes no task for it, so nothing takes it up by itself unless such a task or
      an awaited pair was outstanding before. */
  method ArriveThenValidate<D>(node: Node<D>, batch: Batch, flush: bool) returns (runs: nat)
    requires node.Valid() && node.state == Validating && node.ledger.intact && Deliverable(batch)
    requires node.ledger.storage.Unread() && Replay(node.ledger.Payloads()).Some?
    modifies node, node.ledger, node.ledger.storage, node.ledger.storage.ft, node.ledger.storage.ft.Repr
    ensures node.Valid() && node.state == Ready && node.ledger.intact
    ensures node.ledger.storage.blocks == old(node.ledger.storage.blocks)
    ensures node.inbound == old(node.inbound) + multiset{batch} && node.log == old(node.log)
    ensures node.asleep <==> old(ContinueTransactions !in node.tasks && node.ledger.pairing.asked == {})
    ensures node.asleep ==> ContinueTransactions !in node.tasks && node.ledger.pairing.asked == {}
  {
    hide Ledger.Valid, Node.Accounted, Node.InPhase, Node.Awake, Replay, Flatten, UpTo;
    var _, _ := node.AddTransaction(batch, flush);
    assert batch in node.inbound;
    runs := RunValidation(node);
  }

  /** A new node over the files that a node leaves behind. */
  method OpenAgain<D>(node: Node<D>) returns (again: Node<D>)
    requires node.Valid() && node.ledger.intact
    ensures again.Valid() && again.state == Initial && again.ledger.intact && ContinueValidation in again.tasks
    ensures again.inbound == multiset{} && again.log == [] && again.dropped == multiset{}
    ensures fresh(again) && fresh(again.ledger) && fresh(again.ledger.storage) && fresh(again.ledger.storage.ft)
    ensures fresh(again.ledger.storage.ft.Repr - {node.ledger.storage.ft.disk})
    ensures again.ledger.storage.blocks == node.ledger.storage.blocks && again.ledger.storage.Unread()
  {
    hide Blockchain.Valid, Flatten, Packed, Image;
    var was := node.ledger.storage;
    was.OnDisk();
    var storage := new Blockchain(was.r, was.optimalCacheSize, was.hash, was.zero, was.ft.disk, was.blocks, was.sums);
    var ledger := new Ledger(node.ledger.decay, storage);
    again := new Node(ledger, node.batchSize, node.topicResetAllowed);
  }

  /** The files of a READY node are opened by a new one, which validates and indexes them: the
      stored payloads are the same, and the indexes have the keys that they had before. */
  method Restart<D>(node: Node<D>, hasSibling: bool) returns (again: Node<D>)
    requires node.Valid() && node.state == Ready && node.ledger.intact
    modifies node.ledger.storage.ft.disk
    ensures again.Valid() && again.ledger.intact
    ensures fresh(again) && fresh(again.ledger) && fresh(again.ledger.storage) && fresh(again.ledger.storage.ft)
    ensures fresh(again.ledger.storage.ft.Repr - {node.ledger.storage.ft.disk})
    ensures again.ledger.storage.blocks == node.ledger.storage.blocks
    ensures again.state == if hasSibling && node.ledger.storage.blocks == [] then FetchingChecksums else Ready
    ensures again.state == Ready ==>
      && SameKeys(node.ledger.Ix(), again.ledger.Ix()) && Replay(again.ledger.Payloads()) == Some(again.ledger.Ix())
      && again.base == again.ledger.Payloads() && (Consistent(node.base) ==> Consistent(again.base))
      && (node.InSequence() ==> again.InSequence())
  {
    hide Ledger.Valid, Node.Accounted, Node.Awake, Replay, Flatten, UpTo, Consistent;
    again := OpenAgain(node);
    var _ := again.RunContinueValidation(hasSibling, false);
    if again.state == Validating {
      var _ := RunValidation(again);
    }
  }

  /** After a restart, the record that the index keeps for a user's balance is the last one that set
      it, to what the index says, for every user of the node that ran before. */
  method RestartThenRead<D>(node: Node<D>, hasSibling: bool, user: Key, flush: bool)
    returns (again: Node<D>, rec: GradidoRecord, ghost i: nat)
    requires node.Valid() && node.state == Ready && node.ledger.intact && Consistent(node.base)
    requires user in node.ledger.users && RecCount(node.ledger.storage.blocks, R) < TWO32
    modifies node.ledger.storage.ft.disk
    ensures again.ledger.Payloads() == node.ledger.Payloads()
    ensures LastSetter(node.ledger.Payloads(), user, i) && rec == node.ledger.Payloads()[i]
    ensures user in again.ledger.users && SetsBalance(rec, user) == Some(again.ledger.users[user].balance)
    ensures again.ledger.users[user].time == KeptTime(rec.tr)
  {
    hide Ledger.Valid, Node.Accounted, Node.Awake, Consistent;
    again := Restart(node, hasSibling);
    rec, i := again.ledger.ReadLastSetter(user, flush);
  }
}
