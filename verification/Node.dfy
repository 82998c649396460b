/**
 The state machine around a ledger: validation of existing blocks, fetching from a sibling,
 and admission of ordered transactions. Tasks that the node has pushed and not yet run are
 the multiset `tasks`. Every method is one critical section of the node's main lock, except
 `AddTransaction`: the source releases the lock between its two sections, `Arrive` and
 `ContinueWithTransactions`, each of which keeps `Valid` by itself.
 */
module GroupNode {
  import opened Values
  import opened GradidoTypes
  import opened Layout
  import opened Checksums
  import opened BlockScan
  import opened BlockStorage
  import opened LedgerRules
  import opened LedgerLaws
  import opened LedgerStore

  datatype NodeState = Initial | FetchingChecksums | FetchingBlocks | Validating | Ready

  datatype Task = ContinueValidation | ContinueTransactions

  datatype Batch = Batch(records: seq<GradidoRecord>, reset: bool)

  /** What translation hands over: a reset mark, or a main record with its parts. */
  predicate Deliverable(batch: Batch)
  {
    batch.reset || batch.records == [] || WellFormedBatch(batch.records)
  }

  datatype Outcome = GoOn | Stop | Throw

  function NumberOf(batch: Batch): nat
  {
    if batch.records != [] && batch.records[0].Main? then batch.records[0].tr.sequenceNumber else 0
  }

  /** The sequence numbers of the stored transactions, in order. */
  function MainNumbers(payloads: seq<GradidoRecord>): seq<nat>
  {
    if payloads == [] then []
    else
      var n := |payloads| - 1;
      MainNumbers(payloads[..n]) + if payloads[n].Main? then [payloads[n].tr.sequenceNumber] else []
  }

  /** The stored transactions carry the numbers 1, 2, 3, ... without gap or repeat. */
  predicate Sequenced(payloads: seq<GradidoRecord>)
  {
    MainNumbers(payloads) == UpTo(1, |MainNumbers(payloads)| + 1)
  }

  // ----- what becomes of a batch -----

  /** What a turn of the admission loop does with the batch it took. */
  datatype Fate = WasAppended(tr: Transaction) | WasDropped | MustWait | LeavesHole

  predicate IsNext(latest: Option<nat>, number: nat, topicResetAllowed: bool)
  {
    if latest.None? then topicResetAllowed || number == 1 else number == latest.value + 1
  }

  /** The fate of a batch with this number, if its transaction would be decided as `step` says. */
  function FateOf(latest: Option<nat>, number: nat, topicResetAllowed: bool, step: Step): Fate
  {
    if IsNext(latest, number, topicResetAllowed) then
      (match step
       case Done(_, tr) => WasAppended(tr)
       case Wait(_) => MustWait)
    else if latest.Some? && number <= latest.value then WasDropped
    else LeavesHole
  }

  /** The records of a batch as they are stored: the main record is the decided one. */
  function StoredRecords(records: seq<GradidoRecord>, tr: Transaction): seq<GradidoRecord>
    requires records != []
  {
    [Main(tr)] + records[1..]
  }

  /** A batch that was appended, with its decided transaction. */
  datatype Entry = Entry(batch: Batch, tr: Transaction)

  /** A transaction without the fields that the node calculates. */
  function Request(tr: Transaction): Transaction
  {
    var body := match tr.body
      case GradidoCreation(amount, party) => GradidoCreation(amount, Party(party.user, Zero, 0))
      case LocalTransfer(amount, sender, receiver) =>
        LocalTransfer(amount, Party(sender.user, Zero, 0), Party(receiver.user, Zero, 0))
      case InboundTransfer(amount, id, group, remoteSender, receiver) =>
        InboundTransfer(amount, id, group, remoteSender, Party(receiver.user, Zero, 0))
      case OutboundTransfer(amount, id, group, sender, remoteReceiver) =>
        OutboundTransfer(amount, id, group, Party(sender.user, Zero, 0), remoteReceiver)
      case other => other;
    tr.(body := body, result := Undecided)
  }

  /** An appended batch was well formed, and its transaction differs from the one that arrived in
      calculated fields only. */
  predicate Genuine(e: Entry)
  {
    WellFormedBatch(e.batch.records) && Request(e.tr) == Request(e.batch.records[0].tr)
  }

  function Batches(log: seq<Entry>): seq<Batch>
  {
    seq(|log|, i requires 0 <= i < |log| => log[i].batch)
  }

  /** The records that the appended batches left behind, in order. */
  function Records(log: seq<Entry>): seq<GradidoRecord>
  {
    if log == [] then []
    else
      var n := |log| - 1;
      Records(log[..n]) + if log[n].batch.records == [] then [] else StoredRecords(log[n].batch.records, log[n].tr)
  }

  function Numbers(log: seq<Entry>): seq<nat>
  {
    seq(|log|, i requires 0 <= i < |log| => NumberOf(log[i].batch))
  }

  /** The stored payloads, the waiting batches, and what became of the others. */
  datatype Books = Books(
    payloads: seq<GradidoRecord>,
    inbound: multiset<Batch>,
    log: seq<Entry>,
    dropped: multiset<Batch>,
    refused: multiset<Batch>)

  /** The books after a batch that had been taken has met its fate. */
  function Settled(books: Books, batch: Batch, fate: Fate): Books
    requires batch.records != []
  {
    match fate
    case WasAppended(tr) =>
      books.(payloads := books.payloads + StoredRecords(batch.records, tr), log := books.log + [Entry(batch, tr)])
    case WasDropped => books.(dropped := books.dropped + multiset{batch})
    case MustWait => books.(inbound := books.inbound + multiset{batch})
    case LeavesHole => books.(inbound := books.inbound + multiset{batch})
  }

  /** Every batch that arrived is waiting, was appended, was dropped, or was refused; only reset marks
      and empty batches are refused. */
  ghost predicate AllAccounted(arrived: multiset<Batch>, waiting: multiset<Batch>, log: seq<Entry>,
                               dropped: multiset<Batch>, refused: multiset<Batch>)
  {
    && arrived == waiting + multiset(Batches(log)) + dropped + refused
    && (forall b :: b in waiting ==> Deliverable(b))
    && (forall e :: e in log ==> Genuine(e))
    && forall b :: b in refused ==> IsMark(b)
  }

  /** Every dropped batch had a number up to the latest stored one. */
  ghost predicate DroppedBefore(payloads: seq<GradidoRecord>, dropped: multiset<Batch>)
  {
    forall b :: b in dropped ==> LatestMain(payloads).Some? && NumberOf(b) <= LatestMain(payloads).value
  }

  lemma BlankStorage()
    ensures Agrees(EmptyIndex, []) && Records([]) == [] && Flatten<GradidoRecord>([]) == []
    ensures DroppedBefore([], multiset{})
  {
  }

  // ----- turns of the admission loop -----

  predicate IsMark(batch: Batch)
  {
    batch.reset || batch.records == []
  }

  datatype Rules = Rules(decay: Decay, topicResetAllowed: bool)

  /** What the admission of batches depends on and changes, up to the first truncate. */
  datatype World = World(books: Books, index: Index, pairing: Pairing)

  /** One turn: a batch is taken, and the other group would give this answer about its pair. */
  datatype Turn = Turn(batch: Batch, remote: Remote)

  function StepIn(rules: Rules, w: World, turn: Turn): Step
    requires WellFormedBatch(turn.batch.records)
  {
    var recCount := RecCount(ExtendAll([], w.books.payloads, R), R);
    Live(rules.decay, w.index, w.pairing, recCount, turn.batch.records[0].tr, turn.remote)
  }

  function FateIn(rules: Rules, w: World, turn: Turn): Fate
  {
    if !WellFormedBatch(turn.batch.records) then LeavesHole
    else FateOf(LatestMain(w.books.payloads), NumberOf(turn.batch), rules.topicResetAllowed, StepIn(rules, w, turn))
  }

  function OutcomeIn(rules: Rules, w: World, turn: Turn): Outcome
  {
    if IsMark(turn.batch) then if turn.batch.reset && rules.topicResetAllowed then GoOn else Throw
    else
      match FateIn(rules, w, turn)
      case WasAppended(_) => GoOn
      case WasDropped => GoOn
      case MustWait => Stop
      case LeavesHole => Stop
  }

  /** The turn truncates the storage: it finds a hole in the numbers or an allowed reset mark. */
  predicate Truncates(rules: Rules, w: World, turn: Turn)
  {
    if IsMark(turn.batch) then turn.batch.reset && rules.topicResetAllowed else FateIn(rules, w, turn) == LeavesHole
  }

  /** The world after a turn that does not truncate the storage. */
  function TurnIn(rules: Rules, w: World, turn: Turn): World
  {
    var books := w.books.(inbound := w.books.inbound - multiset{turn.batch});
    if IsMark(turn.batch) then w.(books := books.(refused := books.refused + multiset{turn.batch}))
    else
      var fate := FateIn(rules, w, turn);
      World(Settled(books, turn.batch, fate),
            if fate.WasAppended? then StepIn(rules, w, turn).index else w.index,
            if fate == MustWait then StepIn(rules, w, turn).pairing else w.pairing)
  }

  /** The world after some turns, one after the other. */
  function After(rules: Rules, w: World, turns: seq<Turn>): World
  {
    if turns == [] then w else TurnIn(rules, After(rules, w, turns[..|turns| - 1]), turns[|turns| - 1])
  }

  function LastOutcome(rules: Rules, w: World, turns: seq<Turn>): Outcome
  {
    if turns == [] then GoOn else OutcomeIn(rules, After(rules, w, turns[..|turns| - 1]), turns[|turns| - 1])
  }

  /** None of the turns truncates the storage. */
  predicate NoneTruncates(rules: Rules, w: World, turns: seq<Turn>)
  {
    turns != [] ==>
      var before, last := turns[..|turns| - 1], turns[|turns| - 1];
      NoneTruncates(rules, w, before) && !Truncates(rules, After(rules, w, before), last)
  }

  /** Each turn takes a waiting batch, and only after turns that let the loop go on and leave the
      storage intact. */
  predicate Legal(rules: Rules, w: World, turns: seq<Turn>)
  {
    turns != [] ==>
      var before, last := turns[..|turns| - 1], turns[|turns| - 1];
      && Legal(rules, w, before) && NoneTruncates(rules, w, before) && LastOutcome(rules, w, before) == GoOn
      && last.batch in After(rules, w, before).books.inbound
  }

  function WithArrival(w: World, batch: Batch): World
  {
    w.(books := w.books.(inbound := w.books.inbound + multiset{batch}))
  }

  lemma NoTurnsYet(rules: Rules, w: World)
    ensures Legal(rules, w, []) && NoneTruncates(rules, w, [])
    ensures LastOutcome(rules, w, []) == GoOn && After(rules, w, []) == w
  {
  }

  lemma OneMoreTurn(rules: Rules, w: World, turns: seq<Turn>, turn: Turn)
    requires Legal(rules, w, turns) && NoneTruncates(rules, w, turns) && LastOutcome(rules, w, turns) == GoOn
    requires turn.batch in After(rules, w, turns).books.inbound
    ensures Legal(rules, w, turns + [turn])
    ensures After(rules, w, turns + [turn]) == TurnIn(rules, After(rules, w, turns), turn)
    ensures NoneTruncates(rules, w, turns + [turn]) <==> !Truncates(rules, After(rules, w, turns), turn)
    ensures LastOutcome(rules, w, turns + [turn]) == OutcomeIn(rules, After(rules, w, turns), turn)
  {
    assert (turns + [turn])[..|turns|] == turns;
  }

  /** The stored numbers are in sequence, and every dropped batch had a number up to the last. */
  ghost predicate InOrder(payloads: seq<GradidoRecord>, dropped: multiset<Batch>)
  {
    && Sequenced(payloads)
    && forall b :: b in dropped ==> NumberOf(b) <= |MainNumbers(payloads)|
  }

  class Node<D> {
    const ledger: Ledger<D>
    const batchSize: nat
    const topicResetAllowed: bool

    var state: NodeState
    var tasks: multiset<Task>
    var inbound: multiset<Batch>

    var fetchedChecksums: nat
    var fetchedRecordCount: nat
    var expectingLast: bool
    var blockToFetch: nat
    var fetchedDataCount: nat

    // what became of the batches that arrived
    ghost var arrived: multiset<Batch>
    ghost var log: seq<Entry>             // those that were appended, in order
    ghost var dropped: multiset<Batch>
    ghost var refused: multiset<Batch>
    ghost var base: seq<GradidoRecord>    // what was stored when the node became READY
    ghost var asleep: bool                // nothing will take up the waiting batches by itself

    ghost predicate Valid()
      reads this, ledger, ledger.storage, ledger.storage.ft, ledger.storage.ft.Repr, ledger.storage.ft.tiles
    {
      && this !in ledger.storage.ft.Repr
      && ledger.Valid()
      && OneValidationTask()
      && (ledger.intact ==> InPhase())
      && Accounted()
      && Awake()
    }

    /** Exactly one validation task is outstanding in INITIAL and VALIDATING, none elsewhere. */
    ghost predicate OneValidationTask()
      reads `state, `tasks
    {
      tasks[ContinueValidation] == if state == Initial || state == Validating then 1 else 0
    }

    /** What each phase knows of storage and indexes, up to the first truncate. */
    ghost predicate InPhase()
      reads `state, `log, `dropped, `base, ledger, ledger.storage, ledger.storage.ft
    {
      var s := ledger.storage;
      (state != Ready ==> log == [] && dropped == multiset{}) &&
      match state
      case Initial => s.validated == 0 && s.validated <= |s.blocks| && ledger.Ix() == EmptyIndex
      case FetchingChecksums => s.Complete() && s.blocks == []
      case FetchingBlocks => s.Complete()
      case Validating =>
        && ledger.indexedBlocks <= s.validated <= |s.blocks|
        && ledger.Indexed(ledger.indexedBlocks)
        && ledger.indexLog == UpTo(0, ledger.indexedBlocks)
        && (ledger.indexedBlocks == s.validated || (ledger.indexedBlocks == 0 && s.Complete()))
      case Ready =>
        && s.Complete() && Agrees(ledger.Ix(), ledger.Payloads())
        && ledger.Payloads() == base + Records(log)
        && DroppedBefore(ledger.Payloads(), dropped)
        && (Consistent(base) ==> Consistent(ledger.Payloads()))
    }

    ghost predicate Accounted()
      reads `arrived, `inbound, `log, `dropped, `refused
    {
      AllAccounted(arrived, inbound, log, dropped, refused)
    }

    /** In READY with batches waiting, a task to take them up is outstanding or a paired
        transaction has been asked for, unless the node is asleep. */
    ghost predicate Awake()
      reads `state, `tasks, `inbound, `asleep, ledger
    {
      && (ledger.pairing.waiting ==> ledger.pairing.asked != {})
      && (state == Ready && |inbound| > 0 && !asleep ==>
          ContinueTransactions in tasks || ledger.pairing.asked != {})
    }

    ghost predicate InSequence()
      reads `dropped, ledger.storage
    {
      InOrder(ledger.Payloads(), dropped)
    }

    ghost function Account(): Books
      reads this, ledger.storage
    {
      Books(ledger.Payloads(), inbound, log, dropped, refused)
    }

    ghost function Now(): World
      reads this, ledger, ledger.storage
    {
      World(Account(), ledger.Ix(), ledger.pairing)
    }

    ghost function TheRules(): Rules
    {
      Rules(ledger.decay, topicResetAllowed)
    }

    /** A node over the files that are there; its first validation task has been pushed. */
    constructor (ledger: Ledger<D>, batchSize: nat, topicResetAllowed: bool)
      requires ledger.Valid() && ledger.intact && ledger.Ix() == EmptyIndex && ledger.storage.validated == 0
      requires ledger.pairing == NoPairing
      ensures Valid() && this.ledger == ledger && state == Initial
      ensures this.batchSize == batchSize && this.topicResetAllowed == topicResetAllowed
      ensures inbound == multiset{} && dropped == multiset{} && log == []
    {
      this.ledger, this.batchSize, this.topicResetAllowed := ledger, batchSize, topicResetAllowed;
      state, tasks, inbound := Initial, multiset{ContinueValidation}, multiset{};
      fetchedChecksums, fetchedRecordCount, expectingLast, blockToFetch, fetchedDataCount := 0, 0, false, 0, 0;
      arrived, log, dropped, refused, base, asleep := multiset{}, [], multiset{}, multiset{}, [], false;
    }

    // ----- validation -----

    method ResetValidation()
      requires ledger.Valid() && this !in ledger.storage.ft.Repr && Accounted()
      requires ledger.pairing.waiting ==> ledger.pairing.asked != {}
      requires tasks[ContinueValidation] == 0
      modifies `state, `tasks, ledger
      ensures Valid() && state == Initial && !ledger.intact && ledger.pairing == old(ledger.pairing)
      ensures tasks == old(tasks) + multiset{ContinueValidation}
    {
      hide Ledger.Valid, Node.Accounted;
      state := Initial;
      ledger.Truncate();
      ledger.ClearIndexes();
      tasks := tasks + multiset{ContinueValidation};
    }

    /** One run of the outstanding validation task. It never finds the node in a wrong state. An
        exception of the storage, which ends the process and leaves no validation task, comes up
        exactly when the next block has been read before its validation. Otherwise the node goes
        one step further: to the next phase, by one block that is validated and indexed, or to
        READY with every block indexed exactly once. */
    method RunContinueValidation(hasSibling: bool, flush: bool) returns (threw: bool)
      requires Valid() && ContinueValidation in tasks
      modifies this, ledger, ledger.storage, ledger.storage.ft, ledger.storage.ft.Repr
      ensures fresh(ledger.storage.ft.Repr - old(ledger.storage.ft.Repr))
      ensures !threw ==> Valid()
      ensures threw ==> old(state) == state == Validating && tasks == old(tasks) - multiset{ContinueValidation}
      ensures old(ledger.intact) ==> (threw <==> old(state == Validating && ledger.storage.NextAtEnd(flush)))
      ensures !threw && old(state) == Initial && ledger.intact ==>
        state == if ledger.storage.blocks != [] then Validating else if hasSibling then FetchingChecksums else Ready
      ensures !threw && old(state) == Initial ==>
        ledger.intact == old(ledger.intact) && unchanged(ledger.storage) && unchanged(ledger.storage.ft)
      ensures !threw && old(state) == Validating && ledger.intact ==>
        old(ledger.intact) && Stepped(old(ledger.storage.validated), old(ledger.indexLog))
      ensures !threw ==> KeptBlocks()
      ensures !threw && old(state) == Initial && state == Ready ==> StartedBlank()
      ensures !threw && old(state) == Validating ==> KeptWaiting()
      ensures inbound == old(inbound) && dropped == old(dropped) && log == old(log)
    {
      hide Ledger.Valid, Node.Accounted, Replay, Flatten, UpTo;
      tasks := tasks - multiset{ContinueValidation};
      threw := false;
      match state {
        case Initial =>
          Begin(hasSibling);
        case Validating =>
          threw := ValidateNextBatch(flush);
        case FetchingChecksums =>
          threw := true;
        case FetchingBlocks =>
          threw := true;
        case Ready =>
          threw := true;
      }
    }

    /** The blocks stay what they are. The storage stays intact if the chain can be replayed, and no
        block that is still to be validated is left read. */
    twostate predicate KeptBlocks()
      reads this, ledger, ledger.storage, ledger.storage.ft
    {
      && (old(ledger.intact && Replay(ledger.Payloads()).Some?) ==> ledger.intact)
      && (ledger.intact ==> ledger.storage.blocks == old(ledger.storage.blocks))
      && (ledger.intact && old(ledger.storage.Unread()) ==> ledger.storage.Unread())
    }

    /** Validation pushes no task for the waiting batches: once the node is READY, nothing takes them up
        unless a task is outstanding or a pair is awaited. */
    twostate predicate KeptWaiting()
      reads this, ledger
    {
      && ledger.pairing == old(ledger.pairing) && tasks[ContinueTransactions] == old(tasks[ContinueTransactions])
      && (state == Ready ==>
          (asleep <==> |inbound| > 0 && ContinueTransactions !in tasks && ledger.pairing.asked == {}))
    }

    /** Nothing is stored or indexed, and a task will take up what waits. */
    ghost predicate StartedBlank()
      reads this, ledger, ledger.storage
    {
      && ContinueTransactions in tasks && !asleep
      && (ledger.intact ==> ledger.Ix() == EmptyIndex && base == ledger.Payloads() == [])
    }

    /** What one step of the validation leaves behind when `was` blocks had been validated: one more
        block validated and indexed, or READY when all had been. */
    ghost predicate Stepped(was: nat, logged: seq<nat>)
      reads this, ledger, ledger.storage
    {
      var s := ledger.storage;
      if was == |s.blocks| then
        && state == Ready && s.validated == was && base == ledger.Payloads()
        && ledger.indexLog == UpTo(0, |s.blocks|) && Replay(ledger.Payloads()) == Some(ledger.Ix())
      else
        && state == Validating && s.validated == ledger.indexedBlocks == was + 1 <= |s.blocks|
        && ledger.indexLog == logged + [was]
        && Replay(Flatten(s.blocks[..was + 1])) == Some(ledger.Ix())
    }

    method Begin(hasSibling: bool)
      requires ledger.Valid() && this !in ledger.storage.ft.Repr && Accounted() && Awake()
      requires state == Initial && (ledger.intact ==> InPhase()) && tasks[ContinueValidation] == 0
      modifies this, ledger
      ensures Valid()
      ensures state in {Validating, FetchingChecksums, Ready}
      ensures inbound == old(inbound) && dropped == old(dropped) && log == old(log)
      ensures ledger.intact == old(ledger.intact)
      ensures ledger.intact ==>
        state == if ledger.storage.blocks != [] then Validating else if hasSibling then FetchingChecksums else Ready
      ensures state == FetchingChecksums ==> fetchedRecordCount == 0 && fetchedChecksums == 0 && !expectingLast
      ensures state == Ready ==> tasks == old(tasks) + multiset{ContinueTransactions} && !asleep
      ensures state == Ready && ledger.intact ==> ledger.Ix() == EmptyIndex && base == ledger.Payloads() == []
    {
      hide Ledger.Valid, Node.Accounted, UpTo;
      var blockCount := ledger.GetBlockCount();
      if blockCount > 0 {
        StartValidation();
      } else {
        BeginWithoutBlocks(hasSibling);
      }
    }

    method BeginWithoutBlocks(hasSibling: bool)
      requires ledger.Valid() && this !in ledger.storage.ft.Repr && Accounted() && Awake()
      requires state == Initial && (ledger.intact ==> InPhase()) && tasks[ContinueValidation] == 0
      requires ledger.intact ==> ledger.storage.blocks == [] && |ledger.storage.ft.view| == 0
      modifies `state, `tasks, `fetchedRecordCount, `fetchedChecksums, `expectingLast, `base, `asleep
      ensures Valid() && state == if hasSibling then FetchingChecksums else Ready
      ensures hasSibling ==> fetchedRecordCount == 0 && fetchedChecksums == 0 && !expectingLast
      ensures !hasSibling ==> tasks == old(tasks) + multiset{ContinueTransactions} && !asleep
      ensures !hasSibling && ledger.intact ==> ledger.Ix() == EmptyIndex && base == ledger.Payloads() == []
    {
      hide Ledger.Valid, Node.Accounted, Agrees, Consistent, DroppedBefore, Records, Flatten;
      BlankStorage();
      if hasSibling {
        state, fetchedRecordCount, fetchedChecksums, expectingLast := FetchingChecksums, 0, 0, false;
      } else {
        state, tasks, base, asleep := Ready, tasks + multiset{ContinueTransactions}, [], false;
      }
    }

    /** From now on the blocks are taken into cleared indexes. */
    method StartValidation()
      requires ledger.Valid() && this !in ledger.storage.ft.Repr && Accounted() && Awake()
      requires tasks[ContinueValidation] == 0 && (ledger.intact ==> log == [] && dropped == multiset{})
      requires ledger.intact ==> ledger.storage.validated == 0 || ledger.storage.Complete()
      modifies `state, `tasks, ledger
      ensures Valid() && state == Validating && ledger.intact == old(ledger.intact)
      ensures tasks == old(tasks) + multiset{ContinueValidation}
      ensures ledger.indexedBlocks == 0 && ledger.indexLog == []
    {
      hide Node.Accounted;
      state := Validating;
      ledger.ClearIndexes();
      tasks := tasks + multiset{ContinueValidation};
      assert ledger.storage.blocks[..0] == [];
    }

    method ValidateNextBatch(flush: bool) returns (threw: bool)
      requires ledger.Valid() && this !in ledger.storage.ft.Repr && Accounted() && Awake()
      requires state == Validating && (ledger.intact ==> InPhase()) && tasks[ContinueValidation] == 0
      modifies this, ledger, ledger.storage, ledger.storage.ft, ledger.storage.ft.Repr
      ensures fresh(ledger.storage.ft.Repr - old(ledger.storage.ft.Repr))
      ensures !threw ==> Valid()
      ensures threw ==> state == Validating && tasks == old(tasks)
      ensures old(ledger.intact) ==> (threw <==> old(ledger.storage.NextAtEnd(flush)))
      ensures !threw && ledger.intact ==>
        old(ledger.intact) && Stepped(old(ledger.storage.validated), old(ledger.indexLog))
      ensures !threw ==> KeptBlocks()
      ensures !threw ==> KeptWaiting()
      ensures inbound == old(inbound) && dropped == old(dropped) && log == old(log)
    {
      hide Ledger.Valid, Node.Accounted, Replay, Flatten, UpTo;
      var blockCount := ledger.GetBlockCount();
      var allValid := *;
      if ledger.intact {
        allValid := ledger.storage.validated == blockCount;
      }
      if allValid {
        threw := false;
        FinishValidation(flush);
      } else {
        threw := ValidateOne(flush);
      }
    }

    method FinishValidation(flush: bool)
      requires ledger.Valid() && this !in ledger.storage.ft.Repr && Accounted() && Awake()
      requires state == Validating && (ledger.intact ==> InPhase()) && tasks[ContinueValidation] == 0
      requires ledger.intact ==> ledger.storage.Complete()
      modifies `state, `tasks, `base, `asleep, ledger, ledger.storage, ledger.storage.ft, ledger.storage.ft.Repr
      ensures Valid() && fresh(ledger.storage.ft.Repr - old(ledger.storage.ft.Repr)) && state == Ready
      ensures ledger.intact ==> old(ledger.intact) && Stepped(old(ledger.storage.validated), old(ledger.indexLog))
      ensures KeptBlocks() && KeptWaiting()
    {
      hide Ledger.Valid, Node.Accounted, Replay, Flatten, UpTo;
      IndexRest(flush);
      state, base := Ready, ledger.Payloads();
      asleep := |inbound| > 0 && ContinueTransactions !in tasks && ledger.pairing.asked == {};
      assert base + [] == base;
    }

    /** Taking blocks into the indexes never fails, so the reset that would follow is not reached. */
    method IndexRest(flush: bool)
      requires ledger.Valid() && this !in ledger.storage.ft.Repr
      requires state == Validating && (ledger.intact ==> InPhase() && ledger.storage.Complete())
      modifies ledger, ledger.storage, ledger.storage.ft, ledger.storage.ft.Repr
      ensures ledger.Valid() && fresh(ledger.storage.ft.Repr - old(ledger.storage.ft.Repr))
      ensures ledger.pairing == old(ledger.pairing)
      ensures ledger.intact ==>
        && old(ledger.intact)
        && ledger.storage.blocks == old(ledger.storage.blocks) && ledger.storage.Complete()
        && ledger.storage.validated == old(ledger.storage.validated) == |ledger.storage.blocks|
        && Replay(ledger.Payloads()) == Some(ledger.Ix())
        && ledger.indexLog == UpTo(0, |ledger.storage.blocks|)
        && (old(ledger.storage.Unread()) ==> ledger.storage.Unread())
      ensures old(ledger.intact && Replay(ledger.Payloads()).Some?) ==> ledger.intact
    {
      if ledger.intact {
        assert ledger.storage.blocks[..ledger.storage.validated] == ledger.storage.blocks;
      }
      var ok := ledger.AddIndexData(flush);
      if ledger.intact {
        UpToJoin(0, ledger.indexedBlocks, |ledger.storage.blocks|);
      }
    }

    method ValidateOne(flush: bool) returns (threw: bool)
      requires ledger.Valid() && this !in ledger.storage.ft.Repr && Accounted() && Awake()
      requires state == Validating && (ledger.intact ==> InPhase()) && tasks[ContinueValidation] == 0
      requires ledger.intact ==> !ledger.storage.Complete()
      modifies `state, `tasks, ledger, ledger.storage, ledger.storage.ft, ledger.storage.ft.Repr
      ensures fresh(ledger.storage.ft.Repr - old(ledger.storage.ft.Repr)) && state != Ready
      ensures !threw ==> Valid()
      ensures threw ==> state == Validating && tasks == old(tasks)
      ensures old(ledger.intact) ==> (threw <==> old(ledger.storage.NextAtEnd(flush)))
      ensures !threw && ledger.intact ==>
        old(ledger.intact) && Stepped(old(ledger.storage.validated), old(ledger.indexLog))
      ensures !threw ==> KeptBlocks()
      ensures !threw ==> KeptWaiting()
    {
      hide Ledger.Valid, Node.Accounted, Replay, Flatten, UpTo;
      var ok;
      threw, ok := ValidateAndIndex(flush);
      if threw {
        return;
      }
      if ok {
        tasks := tasks + multiset{ContinueValidation};
        ledger.CountIndexedBlock();
      } else {
        ResetValidation();
      }
    }

    /** The next block is scanned and taken into the indexes. */
    method ValidateAndIndex(flush: bool) returns (threw: bool, ok: bool)
      requires ledger.Valid() && this !in ledger.storage.ft.Repr
      requires state == Validating && (ledger.intact ==> InPhase())
      requires ledger.intact ==> !ledger.storage.Complete()
      modifies ledger, ledger.storage, ledger.storage.ft, ledger.storage.ft.Repr
      ensures fresh(ledger.storage.ft.Repr - old(ledger.storage.ft.Repr))
      ensures !threw ==> ledger.Valid()
      ensures ledger.indexedBlocks == old(ledger.indexedBlocks) && ledger.pairing == old(ledger.pairing)
      ensures old(ledger.intact) ==> (threw <==> old(ledger.storage.NextAtEnd(flush)))
      ensures !threw && old(ledger.intact) ==> ok
      ensures !threw && ledger.intact ==>
        && old(ledger.intact) && old(ledger.indexedBlocks) == old(ledger.storage.validated)
        && ledger.storage.blocks == old(ledger.storage.blocks)
        && ledger.storage.validated == ledger.indexedBlocks + 1 <= |ledger.storage.blocks|
        && ledger.Indexed(ledger.storage.validated)
        && ledger.indexLog == UpTo(0, ledger.storage.validated) == old(ledger.indexLog) + [old(ledger.storage.validated)]
        && (old(ledger.storage.Unread()) ==> ledger.storage.Unread())
      ensures old(ledger.intact && Replay(ledger.Payloads()).Some?) && !threw ==> ledger.intact
    {
      hide Replay, Flatten;
      threw, ok := *, *;
      ghost var was := ledger.indexedBlocks;
      if ledger.intact {
        var ec;
        threw, ok, ec := ledger.storage.ValidateNextChecksum(flush);
      }
      if threw {
        return;
      }
      if ok {
        if ledger.intact {
          PrefixStillReplays(ledger.storage.blocks, ledger.storage.validated);
        }
        ok := ledger.AddIndexData(flush);
        UpToSnoc(0, was);
        UpToOne(was);
      }
    }

    // ----- fetching from a sibling -----

    /** The size of one more block of the sibling. */
    method OnBlockChecksum(blockSize: nat) returns (threw: bool)
      requires Valid()
      modifies this, ledger
      ensures Valid() && threw == (old(state) != FetchingChecksums)
      ensures threw ==> unchanged(this) && unchanged(ledger)
      ensures !threw && !old(expectingLast) ==>
        && state == FetchingChecksums && ledger.intact == old(ledger.intact) && tasks == old(tasks)
        && fetchedRecordCount == old(fetchedRecordCount) + blockSize && fetchedChecksums == old(fetchedChecksums) + 1
        && expectingLast == (blockSize < R)
      ensures !threw && old(expectingLast) ==>
        state == Initial && !ledger.intact && tasks == old(tasks) + multiset{ContinueValidation}
      ensures inbound == old(inbound) && dropped == old(dropped) && log == old(log)
    {
      hide Ledger.Valid, Node.Accounted;
      if state != FetchingChecksums {
        return true;
      }
      threw := false;
      if expectingLast {
        ResetValidation();
      } else {
        if blockSize < R {
          expectingLast := true;
        }
        fetchedRecordCount, fetchedChecksums := fetchedRecordCount + blockSize, fetchedChecksums + 1;
      }
    }

    /** The end of the list of block sizes; the first block is asked for. */
    method OnChecksumsEnd() returns (threw: bool)
      requires Valid()
      modifies this
      ensures Valid() && threw == (old(state) != FetchingChecksums)
      ensures threw ==> unchanged(this)
      ensures !threw ==> state == FetchingBlocks && blockToFetch == 0 && fetchedDataCount == 0 && tasks == old(tasks)
      ensures fetchedRecordCount == old(fetchedRecordCount) && fetchedChecksums == old(fetchedChecksums)
      ensures inbound == old(inbound) && dropped == old(dropped) && log == old(log)
    {
      hide Ledger.Valid, Node.Accounted;
      if state != FetchingChecksums {
        return true;
      }
      state, blockToFetch, fetchedDataCount := FetchingBlocks, 0, 0;
      return false;
    }

    /** The receiver's filter: is the record at stream position `n` taken over? */
    static predicate TakesOver(n: nat, total: nat)
    {
      n % R < R - 1 && n + 1 < total
    }

    /** A record of the block that was asked for. */
    method OnBlockRecord(rec: GradidoRecord, flush: bool) returns (threw: bool)
      requires Valid()
      modifies this, ledger.storage, ledger.storage.ft, ledger.storage.ft.Repr
      ensures Valid() && fresh(ledger.storage.ft.Repr - old(ledger.storage.ft.Repr))
      ensures threw == (old(state) != FetchingBlocks) && state == old(state) && tasks == old(tasks)
      ensures threw ==> unchanged(this) && unchanged(ledger.storage) && unchanged(ledger.storage.ft)
      ensures !threw ==> fetchedDataCount == old(fetchedDataCount) + 1
      ensures blockToFetch == old(blockToFetch)
      ensures fetchedRecordCount == old(fetchedRecordCount) && fetchedChecksums == old(fetchedChecksums)
      ensures !threw && ledger.intact ==>
        && Packed(old(ledger.storage.blocks), R)
        && ledger.storage.blocks ==
          if TakesOver(old(fetchedDataCount), fetchedRecordCount) then Extend(old(ledger.storage.blocks), rec, R)
          else old(ledger.storage.blocks)
      ensures inbound == old(inbound) && dropped == old(dropped) && log == old(log)
    {
      hide Ledger.Valid, AllAccounted, Extend;
      if state != FetchingBlocks {
        return true;
      }
      PackedIfIntact();
      // only positions of payloads are taken over; appending makes its own checksums
      if fetchedDataCount % R < R - 1 && fetchedDataCount + 1 < fetchedRecordCount {
        if ledger.intact {
          AppendFetched(rec, flush);
        }
      }
      fetchedDataCount := fetchedDataCount + 1;
      return false;
    }

    lemma PackedIfIntact()
      requires ledger.Valid()
      ensures ledger.intact ==> Packed(ledger.storage.blocks, R)
    {
    }

    method AppendFetched(rec: GradidoRecord, flush: bool)
      requires ledger.Valid() && ledger.intact && ledger.storage.Complete() && this !in ledger.storage.ft.Repr
      modifies ledger.storage, ledger.storage.ft, ledger.storage.ft.Repr
      ensures ledger.Valid() && ledger.storage.Complete() && this !in ledger.storage.ft.Repr
      ensures fresh(ledger.storage.ft.Repr - old(ledger.storage.ft.Repr))
      ensures Packed(old(ledger.storage.blocks), R)
      ensures ledger.storage.blocks == Extend(old(ledger.storage.blocks), rec, R)
    {
      var ok, ec := ledger.storage.Append(rec, flush);
    }

    /** The end of the block that was asked for. The running count is compared with the total of
        all blocks each time. */
    method OnBlockEnd() returns (threw: bool)
      requires Valid()
      modifies this, ledger
      ensures Valid() && threw == (old(state) != FetchingBlocks)
      ensures threw ==> unchanged(this) && unchanged(ledger)
      ensures fetchedDataCount == old(fetchedDataCount)
      ensures fetchedRecordCount == old(fetchedRecordCount) && fetchedChecksums == old(fetchedChecksums)
      ensures !threw && fetchedDataCount != fetchedRecordCount ==> state == Initial && !ledger.intact
      ensures !threw ==>
        tasks == old(tasks) + if state == FetchingBlocks then multiset{} else multiset{ContinueValidation}
      ensures !threw && fetchedDataCount == fetchedRecordCount ==>
        && ledger.intact == old(ledger.intact)
        && (if old(blockToFetch) == fetchedChecksums then state == Validating
            else state == FetchingBlocks && blockToFetch == old(blockToFetch) + 1)
      ensures inbound == old(inbound) && dropped == old(dropped) && log == old(log)
    {
      hide Ledger.Valid, Node.Accounted;
      if state != FetchingBlocks {
        return true;
      }
      threw := false;
      var lastBlock := blockToFetch == fetchedChecksums;
      if fetchedDataCount != fetchedRecordCount {
        ResetValidation();
      } else if lastBlock {
        StartValidation();
      } else {
        blockToFetch := blockToFetch + 1;
      }
    }

    // ----- transactions -----

    /** How `batch` would be decided now. */
    ghost function StepNow(batch: Batch, remote: Remote): Step
      requires WellFormedBatch(batch.records)
      reads ledger, ledger.storage
    {
      Live(ledger.decay, ledger.Ix(), ledger.pairing, RecCount(ledger.storage.blocks, R), batch.records[0].tr, remote)
    }

    /** What would become of `batch` now. */
    ghost function FateNow(batch: Batch, remote: Remote): Fate
      requires WellFormedBatch(batch.records)
      reads ledger, ledger.storage
    {
      FateOf(LatestMain(ledger.Payloads()), NumberOf(batch), topicResetAllowed, StepNow(batch, remote))
    }

    /** All checksums are right and the copy of the tail is up to date. */
    ghost predicate Fresh()
      reads ledger, ledger.storage
    {
      ledger.storage.Folded() && (ledger.storage.blocks == [] || Current(ledger.storage.TailState()))
    }

    /** Decides a batch and, if it need not wait for its pair, stores it: exactly its decided main
        record and its parts are added. */
    method Admit(batch: Batch, remote: Remote, flush: bool) returns (ready: bool, tr: Transaction)
      requires ledger.Valid() && this !in ledger.storage.ft.Repr && WellFormedBatch(batch.records)
      requires ledger.intact ==> ledger.storage.Complete() && Agrees(ledger.Ix(), ledger.Payloads())
      requires ledger.pairing.waiting ==> ledger.pairing.asked != {}
      modifies ledger, ledger.storage, ledger.storage.ft, ledger.storage.ft.Repr
      ensures ledger.Valid() && fresh(ledger.storage.ft.Repr - old(ledger.storage.ft.Repr))
      ensures ledger.intact == old(ledger.intact)
      ensures ledger.pairing.waiting || !ready ==> ledger.pairing.asked != {}
      ensures ready ==> Request(tr) == Request(batch.records[0].tr)
      ensures ledger.intact ==> ledger.storage.Complete() && Agrees(ledger.Ix(), ledger.Payloads())
      ensures ledger.intact && old(Consistent(ledger.Payloads())) ==> Consistent(ledger.Payloads())
      ensures ledger.intact ==>
        match old(StepNow(batch, remote))
        case Wait(pairing) =>
          !ready && ledger.Payloads() == old(ledger.Payloads()) && ledger.Ix() == old(ledger.Ix()) && ledger.pairing == pairing
        case Done(index, decided) =>
          && ready && tr == decided && ledger.Ix() == index && ledger.pairing == old(ledger.pairing)
          && ledger.Payloads() == old(ledger.Payloads()) + StoredRecords(batch.records, decided)
      ensures ledger.intact && |batch.records| == 1 && old(Fresh()) ==> ledger.storage.Folded()
    {
      hide Live, Replay, Request, Flatten, Consistent;
      ready, tr := Decide(batch, remote);
      if ready && ledger.intact {
        var ok, ec := ledger.storage.AppendAll(StoredRecords(batch.records, tr), flush);
      }
    }

    method Decide(batch: Batch, remote: Remote) returns (ready: bool, tr: Transaction)
      requires ledger.Valid() && WellFormedBatch(batch.records)
      requires ledger.intact ==> ledger.storage.Complete() && Agrees(ledger.Ix(), ledger.Payloads())
      requires ledger.pairing.waiting ==> ledger.pairing.asked != {}
      modifies ledger
      ensures ledger.Valid() && ledger.intact == old(ledger.intact)
      ensures ledger.pairing.waiting || !ready ==> ledger.pairing.asked != {}
      ensures ready ==> Request(tr) == Request(batch.records[0].tr)
      ensures ledger.intact ==>
        match old(StepNow(batch, remote))
        case Wait(pairing) => !ready && ledger.Ix() == old(ledger.Ix()) && ledger.pairing == pairing
        case Done(index, decided) =>
          && ready && tr == decided && ledger.Ix() == index && ledger.pairing == old(ledger.pairing)
          && Agrees(ledger.Ix(), ledger.Payloads() + StoredRecords(batch.records, decided))
          && (Consistent(ledger.Payloads()) ==> Consistent(ledger.Payloads() + StoredRecords(batch.records, decided)))
    {
      hide Live, Replay, Request, Flatten, Consistent;
      var recCount: nat := *;
      if ledger.intact {
        assert ledger.storage.blocks[..ledger.storage.validated] == ledger.storage.blocks;
        recCount := ledger.storage.recCount;
      }
      var main := batch.records[0].tr;
      ready, tr := ledger.CalcFields(main, recCount, remote);
      LiveKeepsRequest(ledger.decay, old(ledger.Ix()), old(ledger.pairing), recCount, main, remote);
      if ready && ledger.intact {
        StepKeepsAgreement(ledger.decay, old(ledger.Ix()), old(ledger.pairing), recCount, main, remote,
                           ledger.Payloads(), batch.records[1..]);
      }
    }

    /** Compares the number of a batch with the latest stored one, and stores the batch if it
        is the next. */
    method Place(batch: Batch, remote: Remote, flush: bool) returns (fate: Fate)
      requires ledger.Valid() && this !in ledger.storage.ft.Repr && WellFormedBatch(batch.records)
      requires ledger.intact ==> ledger.storage.Complete() && Agrees(ledger.Ix(), ledger.Payloads())
      requires ledger.pairing.waiting ==> ledger.pairing.asked != {}
      modifies ledger, ledger.storage, ledger.storage.ft, ledger.storage.ft.Repr
      ensures ledger.Valid() && fresh(ledger.storage.ft.Repr - old(ledger.storage.ft.Repr))
      ensures ledger.intact == old(ledger.intact)
      ensures ledger.pairing.waiting || fate == MustWait ==> ledger.pairing.asked != {}
      ensures fate.WasAppended? ==> Request(fate.tr) == Request(batch.records[0].tr)
      ensures ledger.intact ==> ledger.storage.Complete() && Agrees(ledger.Ix(), ledger.Payloads())
      ensures ledger.intact && old(Consistent(ledger.Payloads())) ==> Consistent(ledger.Payloads())
      ensures ledger.intact ==>
        && fate == old(FateNow(batch, remote))
        && ledger.Payloads() ==
          old(ledger.Payloads()) + (if fate.WasAppended? then StoredRecords(batch.records, fate.tr) else [])
        && ledger.Ix() == (if fate.WasAppended? then old(StepNow(batch, remote)).index else old(ledger.Ix()))
        && ledger.pairing == (if fate == MustWait then old(StepNow(batch, remote)).pairing else old(ledger.pairing))
      ensures ledger.intact && |batch.records| == 1 && old(ledger.storage.Folded()) ==> ledger.storage.Folded()
    {
      hide Ledger.Valid, Live, Replay, Flatten, Request, Consistent;
      var has, latest := ledger.GetLatestTransactionId(flush);
      var number := batch.records[0].tr.sequenceNumber;
      if (has && number == latest + 1) || (!has && (topicResetAllowed || number == 1)) {
        var ready, tr := Admit(batch, remote, flush);
        fate := if ready then WasAppended(tr) else MustWait;
      } else if has && number <= latest {
        fate := WasDropped;
      } else {
        fate := LeavesHole;
      }
    }

    /** What every turn keeps: nothing that is stored or logged goes away, the stored numbers stay in
        sequence when topic reset is not allowed. */
    twostate predicate Kept()
      reads this, ledger, ledger.storage
    {
      && base == old(base) && old(log) <= log
      && (ledger.intact ==> old(ledger.intact))
      && (ledger.intact && !topicResetAllowed && old(InSequence()) ==> InSequence())
    }

    /** Batches of one record keep the checksum of every block the fold over its payloads. */
    twostate predicate KeptFolds()
      reads this, ledger, ledger.storage
    {
      && (old(AllSingle()) ==> AllSingle())
      && (ledger.intact && old(AllSingle() && ledger.storage.Folded()) ==> ledger.storage.Folded())
    }

    /** Up to the first truncate, a batch that is taken meets exactly the fate that its number and the
        live rules give it: stored payloads, indexes and books follow. */
    twostate predicate MetItsFate(batch: Batch, remote: Remote, outcome: Outcome)
      reads this, ledger, ledger.storage
    {
      old(ledger.intact) ==>
        var was, turn := old(Now()), Turn(batch, remote);
        && outcome == OutcomeIn(TheRules(), was, turn)
        && (ledger.intact <==> !Truncates(TheRules(), was, turn))
        && (ledger.intact ==> Now() == TurnIn(TheRules(), was, turn))
        && (outcome == Stop && !ledger.intact ==> StartedOver(TurnIn(TheRules(), was, turn), old(tasks)))
    }

    /** A hole was found: the batches are where they were, and the validation starts anew. */
    ghost predicate StartedOver(w: World, pushed: multiset<Task>)
      reads this
    {
      && state == Initial && tasks == pushed + multiset{ContinueValidation}
      && Books(w.books.payloads, inbound, log, dropped, refused) == w.books
    }

    /** One turn of the admission loop, for any choice of the batch that is taken. */
    method TakeOne(remote: Remote, flush: bool) returns (outcome: Outcome, ghost batch: Batch)
      requires Valid() && state == Ready && |inbound| > 0
      modifies this, ledger, ledger.storage, ledger.storage.ft, ledger.storage.ft.Repr
      ensures Valid() && fresh(ledger.storage.ft.Repr - old(ledger.storage.ft.Repr))
      ensures batch in old(inbound) && arrived == old(arrived)
      ensures inbound == if outcome == Stop then old(inbound) else old(inbound) - multiset{batch}
      ensures outcome != Stop ==> state == Ready
      ensures outcome == Stop && state == Ready ==> ledger.pairing.asked != {}
      ensures state == Ready ==> tasks == old(tasks)
      ensures state != Ready ==> state == Initial && !ledger.intact
      ensures MetItsFate(batch, remote, outcome)
      ensures Kept() && KeptFolds()
    {
      hide Ledger.Valid, Node.InPhase, Batches, Genuine, Node.MetItsFate, Node.Kept, Node.KeptFolds;
      var taken :| taken in inbound;
      batch := taken;
      if IsMark(taken) {
        outcome := TakeMark(taken, remote);
      } else {
        outcome := TakeBatch(taken, remote, flush);
      }
    }

    /** The state between taking a batch and deciding what becomes of it. */
    ghost predicate Holding(batch: Batch)
      reads this, ledger, ledger.storage, ledger.storage.ft, ledger.storage.ft.Repr, ledger.storage.ft.tiles
    {
      && this !in ledger.storage.ft.Repr && ledger.Valid() && state == Ready && tasks[ContinueValidation] == 0
      && (ledger.intact ==> InPhase())
      && (ledger.pairing.waiting ==> ledger.pairing.asked != {})
      && AllAccounted(arrived, inbound + multiset{batch}, log, dropped, refused)
    }

    method TakeBatch(batch: Batch, remote: Remote, flush: bool) returns (outcome: Outcome)
      requires Valid() && state == Ready && batch in inbound && !IsMark(batch) && WellFormedBatch(batch.records)
      modifies this, ledger, ledger.storage, ledger.storage.ft, ledger.storage.ft.Repr
      ensures Valid() && fresh(ledger.storage.ft.Repr - old(ledger.storage.ft.Repr))
      ensures outcome != Throw && arrived == old(arrived)
      ensures inbound == if outcome == Stop then old(inbound) else old(inbound) - multiset{batch}
      ensures outcome != Stop ==> state == Ready
      ensures outcome == Stop && state == Ready ==> ledger.pairing.asked != {}
      ensures state == Ready ==> tasks == old(tasks)
      ensures state != Ready ==> state == Initial && !ledger.intact
      ensures MetItsFate(batch, remote, outcome)
      ensures Kept() && KeptFolds()
    {
      hide Ledger.Valid, Node.Valid, Node.Holding, Node.Placed, Node.FateNow, Node.StepNow, Ledger.Payloads,
           Blockchain.Folded, Follows, StoredRecords, Settled, InOrder, FateIn, StepIn, OutcomeIn, Truncates, TurnIn,
           WellFormedBatch, IsMark, Singles;
      SingleTaken(inbound, batch);
      FatesAgree(batch, remote);
      TurnOfBatch(TheRules(), Now(), Turn(batch, remote));
      var fate;
      outcome, fate := PlaceAndSettle(batch, remote, flush);
      if ledger.intact {
        BooksFollow(old(Account()), Account(), batch, fate, topicResetAllowed);
      }
    }

    method PlaceAndSettle(batch: Batch, remote: Remote, flush: bool) returns (outcome: Outcome, fate: Fate)
      requires Valid() && state == Ready && batch in inbound && WellFormedBatch(batch.records)
      modifies this, ledger, ledger.storage, ledger.storage.ft, ledger.storage.ft.Repr
      ensures Valid() && fresh(ledger.storage.ft.Repr - old(ledger.storage.ft.Repr))
      ensures arrived == old(arrived) && refused == old(refused) && base == old(base)
      ensures log == old(log) + if fate.WasAppended? then [Entry(batch, fate.tr)] else []
      ensures dropped == old(dropped) + if fate == WasDropped then multiset{batch} else multiset{}
      ensures inbound == if outcome == Stop then old(inbound) else old(inbound) - multiset{batch}
      ensures outcome == if fate == MustWait || fate == LeavesHole then Stop else GoOn
      ensures fate == MustWait ==> ledger.pairing.asked != {}
      ensures if fate == LeavesHole
        then state == Initial && !ledger.intact && tasks == old(tasks) + multiset{ContinueValidation}
        else state == Ready && ledger.intact == old(ledger.intact) && tasks == old(tasks)
      ensures old(ledger.intact) ==> fate == old(FateNow(batch, remote))
      ensures ledger.intact ==>
        && ledger.Payloads() ==
          old(ledger.Payloads()) + (if fate.WasAppended? then StoredRecords(batch.records, fate.tr) else [])
        && (fate.WasAppended? ==> old(StepNow(batch, remote)).Done?)
        && (fate == MustWait ==> old(StepNow(batch, remote)).Wait?)
        && ledger.Ix() == (if fate.WasAppended? then old(StepNow(batch, remote)).index else old(ledger.Ix()))
        && ledger.pairing == (if fate == MustWait then old(StepNow(batch, remote)).pairing else old(ledger.pairing))
        && (!topicResetAllowed ==> Follows(old(ledger.Payloads()), batch, fate))
        && (|batch.records| == 1 && old(ledger.storage.Folded()) ==> ledger.storage.Folded())
    {
      hide Ledger.Valid, Node.Valid, Node.Holding, Node.Placed, Node.FateNow, Node.StepNow, Ledger.Payloads,
           Blockchain.Folded, Follows, StoredRecords, WellFormedBatch;
      TakenAndPutBack(inbound, batch);
      fate := PopAndPlace(batch, remote, flush);
      if fate == LeavesHole {
        PutBackAndReset(batch);
        outcome := Stop;
      } else {
        outcome := Settle(batch, fate);
      }
    }

    /** The fate that the batch meets now is the one that the world now gives it. */
    lemma FatesAgree(batch: Batch, remote: Remote)
      requires Valid() && WellFormedBatch(batch.records)
      ensures ledger.intact ==>
        && StepNow(batch, remote) == StepIn(TheRules(), Now(), Turn(batch, remote))
        && FateNow(batch, remote) == FateIn(TheRules(), Now(), Turn(batch, remote))
    {
      hide Live, Flatten, Replay, FateOf, Node.InPhase, Node.Accounted, RecCount;
      if ledger.intact {
        Rebuild(ledger.storage.blocks, R);
      }
    }

    method Pop(batch: Batch)
      requires Valid() && state == Ready && batch in inbound
      modifies `inbound
      ensures this !in ledger.storage.ft.Repr && Holding(batch) && inbound == old(inbound) - multiset{batch}
    {
      hide Ledger.Valid, Node.InPhase, AllAccounted;
      TakenAndPutBack(inbound, batch);
      inbound := inbound - multiset{batch};
    }

    method PopAndPlace(batch: Batch, remote: Remote, flush: bool) returns (fate: Fate)
      requires Valid() && state == Ready && batch in inbound && WellFormedBatch(batch.records)
      modifies `inbound, ledger, ledger.storage, ledger.storage.ft, ledger.storage.ft.Repr
      ensures this !in ledger.storage.ft.Repr && if fate == LeavesHole then Holding(batch) else Placed(batch, fate)
      ensures inbound == old(inbound) - multiset{batch} && arrived == old(arrived) && state == Ready
      ensures log == old(log) && dropped == old(dropped) && refused == old(refused) && base == old(base)
      ensures tasks == old(tasks)
      ensures fresh(ledger.storage.ft.Repr - old(ledger.storage.ft.Repr)) && ledger.intact == old(ledger.intact)
      ensures fate == MustWait ==> ledger.pairing.asked != {}
      ensures ledger.intact ==>
        && fate == old(FateNow(batch, remote))
        && ledger.Payloads() ==
          old(ledger.Payloads()) + (if fate.WasAppended? then StoredRecords(batch.records, fate.tr) else [])
        && (fate.WasAppended? ==> old(StepNow(batch, remote)).Done?)
        && (fate == MustWait ==> old(StepNow(batch, remote)).Wait?)
        && ledger.Ix() == (if fate.WasAppended? then old(StepNow(batch, remote)).index else old(ledger.Ix()))
        && ledger.pairing == (if fate == MustWait then old(StepNow(batch, remote)).pairing else old(ledger.pairing))
        && (!topicResetAllowed ==> Follows(old(ledger.Payloads()), batch, fate))
        && (|batch.records| == 1 && old(ledger.storage.Folded()) ==> ledger.storage.Folded())
    {
      hide Node.Valid, Node.Holding, Node.Placed, Node.FateNow, Node.StepNow, Ledger.Payloads, Blockchain.Folded, Follows,
           StoredRecords, WellFormedBatch;
      Pop(batch);
      fate := PlaceHeld(batch, remote, flush);
    }

    method PlaceHeld(batch: Batch, remote: Remote, flush: bool) returns (fate: Fate)
      requires Holding(batch) && WellFormedBatch(batch.records)
      modifies ledger, ledger.storage, ledger.storage.ft, ledger.storage.ft.Repr
      ensures this !in ledger.storage.ft.Repr && if fate == LeavesHole then Holding(batch) else Placed(batch, fate)
      ensures fresh(ledger.storage.ft.Repr - old(ledger.storage.ft.Repr)) && ledger.intact == old(ledger.intact)
      ensures fate == MustWait ==> ledger.pairing.asked != {}
      ensures ledger.intact ==>
        && fate == old(FateNow(batch, remote))
        && ledger.Payloads() ==
          old(ledger.Payloads()) + (if fate.WasAppended? then StoredRecords(batch.records, fate.tr) else [])
        && (fate.WasAppended? ==> old(StepNow(batch, remote)).Done?)
        && (fate == MustWait ==> old(StepNow(batch, remote)).Wait?)
        && ledger.Ix() == (if fate.WasAppended? then old(StepNow(batch, remote)).index else old(ledger.Ix()))
        && ledger.pairing == (if fate == MustWait then old(StepNow(batch, remote)).pairing else old(ledger.pairing))
        && (!topicResetAllowed ==> Follows(old(ledger.Payloads()), batch, fate))
        && (|batch.records| == 1 && old(ledger.storage.Folded()) ==> ledger.storage.Folded())
    {
      hide Ledger.Valid, Replay, Flatten, UpTo, MainNumbers, Batches, Records, FateOf, Live, Request, LatestMain, Follows,
           Agrees, Deliverable, DroppedBefore, Consistent, StoredRecords;
      fate := Place(batch, remote, flush);
      if ledger.intact {
        ghost var payloads, step := old(ledger.Payloads()), old(StepNow(batch, remote));
        FateKeepsDropped(payloads, batch, fate, topicResetAllowed, step, dropped);
        FateHasStep(LatestMain(payloads), NumberOf(batch), topicResetAllowed, step);
        if !topicResetAllowed {
          FateFollows(payloads, batch, fate, step);
        }
      }
    }

    method PutBackAndReset(batch: Batch)
      requires Holding(batch)
      modifies `inbound, `state, `tasks, ledger
      ensures Valid() && state == Initial && !ledger.intact && inbound == old(inbound) + multiset{batch}
      ensures tasks == old(tasks) + multiset{ContinueValidation}
    {
      hide Ledger.Valid, Node.InPhase, AllAccounted;
      inbound := inbound + multiset{batch};
      ResetValidation();
    }

    /** The state after a batch was placed, before the books follow: its records are stored. */
    ghost predicate Placed(batch: Batch, fate: Fate)
      reads this, ledger, ledger.storage, ledger.storage.ft, ledger.storage.ft.Repr, ledger.storage.ft.tiles
    {
      && this !in ledger.storage.ft.Repr && ledger.Valid() && state == Ready && tasks[ContinueValidation] == 0
      && (ledger.pairing.waiting || fate == MustWait ==> ledger.pairing.asked != {})
      && WellFormedBatch(batch.records) && (fate.WasAppended? ==> Genuine(Entry(batch, fate.tr)))
      && AllAccounted(arrived, inbound + multiset{batch}, log, dropped, refused)
      && (ledger.intact ==>
          && ledger.storage.Complete() && Agrees(ledger.Ix(), ledger.Payloads())
          && ledger.Payloads() ==
            base + Records(log) + (if fate.WasAppended? then StoredRecords(batch.records, fate.tr) else [])
          && DroppedBefore(ledger.Payloads(), if fate == WasDropped then dropped + multiset{batch} else dropped)
          && (Consistent(base) ==> Consistent(ledger.Payloads())))
    }

    method Settle(batch: Batch, fate: Fate) returns (outcome: Outcome)
      requires Placed(batch, fate) && fate != LeavesHole
      modifies `inbound, `log, `dropped, `asleep
      ensures Valid()
      ensures log == old(log) + if fate.WasAppended? then [Entry(batch, fate.tr)] else []
      ensures dropped == old(dropped) + if fate == WasDropped then multiset{batch} else multiset{}
      ensures inbound == old(inbound) + if fate == MustWait then multiset{batch} else multiset{}
      ensures outcome == if fate == MustWait then Stop else GoOn
    {
      hide Node.Valid, Node.Placed;
      match fate {
        case WasAppended(tr) =>
          LogAppended(batch, tr);
          outcome := GoOn;
        case WasDropped =>
          LogDropped(batch);
          outcome := GoOn;
        case MustWait =>
          PutBack(batch);
          outcome := Stop;
      }
    }

    ghost method LogAppended(batch: Batch, tr: Transaction)
      requires Placed(batch, WasAppended(tr))
      modifies `log, `asleep
      ensures Valid() && log == old(log) + [Entry(batch, tr)]
    {
      hide Ledger.Valid, AllAccounted, Agrees, StoredRecords, WellFormedBatch, Records, Genuine, Batches, DroppedBefore,
           Consistent;
      RecordsJoin(base, log, Entry(batch, tr));
      HeldAppended(arrived, inbound, batch, log, dropped, refused, tr);
      log, asleep := log + [Entry(batch, tr)], true;
    }

    ghost method LogDropped(batch: Batch)
      requires Placed(batch, WasDropped)
      modifies `dropped, `asleep
      ensures Valid() && dropped == old(dropped) + multiset{batch}
    {
      hide Ledger.Valid, AllAccounted, Agrees, Records, WellFormedBatch, StoredRecords, Genuine, DroppedBefore, Consistent;
      HeldDropped(arrived, inbound, batch, log, dropped, refused);
      dropped, asleep := dropped + multiset{batch}, true;
      assert base + Records(log) + [] == base + Records(log);
    }

    method PutBack(batch: Batch)
      requires Placed(batch, MustWait)
      modifies `inbound, `asleep
      ensures Valid() && inbound == old(inbound) + multiset{batch}
    {
      hide Ledger.Valid, AllAccounted, Agrees, Records, WellFormedBatch, StoredRecords, Genuine, DroppedBefore, Consistent;
      inbound, asleep := inbound + multiset{batch}, true;
      assert base + Records(log) + [] == base + Records(log);
    }

    ghost predicate AllSingle()
      reads this
    {
      Singles(inbound)
    }

    /** A reset mark or an empty batch. */
    method TakeMark(batch: Batch, ghost remote: Remote) returns (outcome: Outcome)
      requires Valid() && state == Ready && batch in inbound && IsMark(batch)
      modifies `inbound, `refused, `asleep, ledger
      ensures Valid() && outcome != Stop && unchanged(ledger.storage) && unchanged(ledger.storage.ft)
      ensures inbound == old(inbound) - multiset{batch} && refused == old(refused) + multiset{batch}
      ensures outcome == GoOn <==> batch.reset && topicResetAllowed
      ensures ledger.intact <==> old(ledger.intact) && outcome == Throw
      ensures MetItsFate(batch, remote, outcome)
      ensures Kept() && KeptFolds()
    {
      hide Ledger.Valid, Node.Valid, Node.Holding, InOrder, Blockchain.Folded, Ledger.Payloads;
      Pop(batch);
      LogRefused(batch);
      if batch.reset && topicResetAllowed {
        ResetTopic();
        outcome := GoOn;
      } else {
        outcome := Throw;
      }
    }

    ghost method LogRefused(batch: Batch)
      requires Holding(batch) && IsMark(batch)
      modifies `refused, `asleep
      ensures Valid() && refused == old(refused) + multiset{batch} && asleep
    {
      hide Ledger.Valid, Node.InPhase, AllAccounted;
      HeldRefused(arrived, inbound, batch, log, dropped, refused);
      refused, asleep := refused + multiset{batch}, true;
    }

    method ResetTopic()
      requires Valid() && state == Ready && asleep
      modifies ledger
      ensures Valid() && !ledger.intact
    {
      hide Ledger.Valid, Node.InPhase, Node.Accounted;
      ledger.Truncate();
      ledger.ClearIndexes();
    }

    /** What the admission loop did, from the world `was` and the tasks `pushed`: the turns were legal,
        and the storage is still intact if and only if none of them truncated it. In that case stored
        payloads, indexes and books are those after the turns, one by one; and the loop went on until
        a batch had to wait, an exception was thrown, nothing was left, or the batch size was reached.
        At a hole the loop ends, and the validation starts anew. */
    twostate predicate Ran(was: World, pushed: multiset<Task>, turns: seq<Turn>, threw: bool)
      reads this, ledger, ledger.storage
    {
      old(ledger.intact) && old(state) == Ready ==>
        var outcome := LastOutcome(TheRules(), was, turns);
        && Legal(TheRules(), was, turns) && |turns| <= batchSize
        && (ledger.intact <==> NoneTruncates(TheRules(), was, turns))
        && (ledger.intact ==>
            && state == Ready && Now() == After(TheRules(), was, turns) && threw == (outcome == Throw)
            && (outcome == GoOn ==> |turns| == batchSize || inbound == multiset{})
            && tasks == pushed + if outcome == GoOn && |inbound| > 0 then multiset{ContinueTransactions} else multiset{})
        && (!ledger.intact && outcome == Stop ==> !threw && StartedOver(After(TheRules(), was, turns), pushed))
    }

    /** Where the loop is after `i` turns; `turns` are those up to the first truncate. */
    ghost predicate Running(was: World, pushed: multiset<Task>, turns: seq<Turn>, i: nat, outcome: Outcome)
      reads this, ledger, ledger.storage
    {
      && Legal(TheRules(), was, turns) && |turns| <= i
      && (ledger.intact <==> NoneTruncates(TheRules(), was, turns))
      && (ledger.intact ==>
          && |turns| == i && Now() == After(TheRules(), was, turns)
          && outcome == LastOutcome(TheRules(), was, turns))
      && (!ledger.intact && LastOutcome(TheRules(), was, turns) == Stop ==>
          outcome == Stop && StartedOver(After(TheRules(), was, turns), pushed))
    }

    /** Outside READY nothing is done. */
    twostate predicate Untouched()
      reads this, ledger, ledger.storage, ledger.storage.ft
    {
      && state == old(state) && log == old(log) && dropped == old(dropped) && refused == old(refused)
      && base == old(base) && asleep == old(asleep)
      && unchanged(ledger) && unchanged(ledger.storage) && unchanged(ledger.storage.ft)
    }

    /** `continue_with_transactions`, run for a task or for a batch that has just arrived. */
    method ContinueWithTransactions(flush: bool) returns (threw: bool, ghost turns: seq<Turn>)
      requires Valid()
      modifies this, ledger, ledger.storage, ledger.storage.ft, ledger.storage.ft.Repr
      ensures Valid() && fresh(ledger.storage.ft.Repr - old(ledger.storage.ft.Repr))
      ensures arrived == old(arrived) && Kept() && KeptFolds()
      ensures Ran(old(Now()), old(tasks), turns, threw)
      ensures old(state) != Ready ==> !threw && Untouched() && inbound == old(inbound) && tasks == old(tasks)
      ensures state == Ready && !threw ==>
        !asleep && (inbound == multiset{} || ledger.pairing.asked != {} || |inbound| + batchSize == |old(inbound)|)
    {
      hide Ledger.Valid, Node.InPhase, Replay, Flatten, UpTo, MainNumbers, Node.Accounted, FateOf, Live, Settled, Legal,
           NoneTruncates, LastOutcome, After, TurnIn, Truncates, OutcomeIn, Node.Now;
      threw, turns := false, [];
      if state == Ready {
        threw, turns := AdmissionLoop(flush);
      }
    }

    method AdmissionLoop(flush: bool) returns (threw: bool, ghost turns: seq<Turn>)
      requires Valid() && state == Ready
      modifies this, ledger, ledger.storage, ledger.storage.ft, ledger.storage.ft.Repr
      ensures Valid() && fresh(ledger.storage.ft.Repr - old(ledger.storage.ft.Repr))
      ensures arrived == old(arrived) && Kept() && KeptFolds()
      ensures Ran(old(Now()), old(tasks), turns, threw)
      ensures state == Ready && !threw ==>
        !asleep && (inbound == multiset{} || ledger.pairing.asked != {} || |inbound| + batchSize == |old(inbound)|)
    {
      hide Ledger.Valid, Node.InPhase, Replay, Flatten, UpTo, MainNumbers, Node.Accounted, Legal,
           NoneTruncates, LastOutcome, After, TurnIn, Truncates, OutcomeIn;
      var i := 0;
      var outcome := GoOn;
      turns := [];
      NoTurnsYet(TheRules(), Now());
      while i < batchSize && |inbound| > 0 && outcome == GoOn
        invariant Valid() && fresh(ledger.storage.ft.Repr - old(ledger.storage.ft.Repr))
        invariant 0 <= i <= batchSize
        invariant outcome == GoOn ==> |inbound| + i == |old(inbound)|
        invariant outcome != Stop ==> state == Ready
        invariant outcome == Stop && state == Ready ==> ledger.pairing.asked != {}
        invariant state == Ready ==> tasks == old(tasks)
        invariant ledger.intact ==> state == Ready
        invariant arrived == old(arrived) && Kept() && KeptFolds()
        invariant old(ledger.intact) ==> Running(old(Now()), old(tasks), turns, i, outcome)
        decreases batchSize - i
      {
        var remote: Remote := *;
        outcome, turns := LoopTurn(remote, flush, old(Now()), old(tasks), turns, i, old(ledger.intact));
        i := i + 1;
      }
      PushIfWaiting(outcome);
      threw := outcome == Throw;
    }

    method LoopTurn(remote: Remote, flush: bool, ghost was: World, ghost pushed: multiset<Task>, ghost turns: seq<Turn>,
                    ghost i: nat, ghost tracked: bool)
      returns (outcome: Outcome, ghost turns': seq<Turn>)
      requires Valid() && state == Ready && |inbound| > 0
      requires tracked ==> Running(was, pushed, turns, i, GoOn)
      requires ledger.intact ==> tracked && tasks == pushed
      modifies this, ledger, ledger.storage, ledger.storage.ft, ledger.storage.ft.Repr
      ensures Valid() && fresh(ledger.storage.ft.Repr - old(ledger.storage.ft.Repr))
      ensures arrived == old(arrived) && Kept() && KeptFolds()
      ensures outcome == GoOn ==> |inbound| + 1 == |old(inbound)|
      ensures outcome != Stop ==> state == Ready
      ensures outcome == Stop && state == Ready ==> ledger.pairing.asked != {}
      ensures state == Ready ==> tasks == old(tasks)
      ensures ledger.intact ==> state == Ready
      ensures tracked ==> Running(was, pushed, turns', i + 1, outcome)
    {
      hide Ledger.Valid, Node.Valid, Node.InSequence, Node.KeptFolds, Legal, NoneTruncates, LastOutcome, After, TurnIn,
           Truncates, OutcomeIn;
      ghost var batch;
      outcome, batch := TakeOne(remote, flush);
      turns' := turns;
      if old(ledger.intact) {
        turns' := turns + [Turn(batch, remote)];
        OneMoreTurn(TheRules(), was, turns, Turn(batch, remote));
      }
    }

    method PushIfWaiting(outcome: Outcome)
      requires Valid() && (outcome == GoOn ==> state == Ready)
      requires outcome == Stop && state == Ready ==> ledger.pairing.asked != {}
      modifies `tasks, `asleep
      ensures Valid() && asleep == (outcome == Throw)
      ensures tasks == old(tasks) + if outcome == GoOn && |inbound| > 0 then multiset{ContinueTransactions} else multiset{}
    {
      hide Ledger.Valid, Node.InPhase, Node.Accounted;
      if outcome == GoOn && |inbound| > 0 {
        tasks := tasks + multiset{ContinueTransactions};
      }
      asleep := outcome == Throw;
    }

    method RunContinueTransactions(flush: bool) returns (threw: bool, ghost turns: seq<Turn>)
      requires Valid() && ContinueTransactions in tasks
      modifies this, ledger, ledger.storage, ledger.storage.ft, ledger.storage.ft.Repr
      ensures Valid() && fresh(ledger.storage.ft.Repr - old(ledger.storage.ft.Repr))
      ensures arrived == old(arrived) && Kept() && KeptFolds()
      ensures Ran(old(Now()), old(tasks) - multiset{ContinueTransactions}, turns, threw)
      ensures old(state) != Ready ==>
        !threw && Untouched() && inbound == old(inbound) && tasks == old(tasks) - multiset{ContinueTransactions}
      ensures state == Ready && !threw ==>
        !asleep && (inbound == multiset{} || ledger.pairing.asked != {} || |inbound| + batchSize == |old(inbound)|)
    {
      hide Ledger.Valid, Node.Valid, InOrder, Blockchain.Folded, Legal, NoneTruncates, LastOutcome, After;
      StartTask();
      threw, turns := ContinueWithTransactions(flush);
    }

    method StartTask()
      requires Valid() && ContinueTransactions in tasks
      modifies `tasks, `asleep
      ensures Valid() && tasks == old(tasks) - multiset{ContinueTransactions}
      ensures state != Ready ==> asleep == old(asleep)
    {
      hide Ledger.Valid, Node.InPhase, Node.Accounted;
      tasks, asleep := tasks - multiset{ContinueTransactions}, asleep || state == Ready;
    }

    /** A batch arrives: outside READY it is put with the waiting ones and nothing else happens; in
        READY the admission loop runs with it among them. */
    method AddTransaction(batch: Batch, flush: bool) returns (threw: bool, ghost turns: seq<Turn>)
      requires Valid() && Deliverable(batch)
      modifies this, ledger, ledger.storage, ledger.storage.ft, ledger.storage.ft.Repr
      ensures Valid() && fresh(ledger.storage.ft.Repr - old(ledger.storage.ft.Repr))
      ensures arrived == old(arrived) + multiset{batch} && Kept()
      ensures Ran(WithArrival(old(Now()), batch), old(tasks), turns, threw)
      ensures old(state) != Ready ==>
        !threw && Untouched() && inbound == old(inbound) + multiset{batch} && tasks == old(tasks)
      ensures state == Ready && !threw ==>
        !asleep && (inbound == multiset{} || ledger.pairing.asked != {} || |inbound| + batchSize == |old(inbound)| + 1)
      ensures ledger.intact && |batch.records| <= 1 && old(AllSingle() && ledger.storage.Folded()) ==>
        ledger.storage.Folded()
    {
      hide Ledger.Valid, Node.Valid, InOrder, Blockchain.Folded, Legal, NoneTruncates, LastOutcome, After;
      Arrive(batch);
      threw, turns := ContinueWithTransactions(flush);
    }

    method Arrive(batch: Batch)
      requires Valid() && Deliverable(batch)
      modifies `inbound, `arrived, `asleep
      ensures Valid() && inbound == old(inbound) + multiset{batch} && arrived == old(arrived) + multiset{batch}
      ensures state != Ready ==> asleep == old(asleep)
    {
      hide Ledger.Valid, Node.InPhase, AllAccounted, Deliverable;
      ArrivedAccounted(arrived, inbound, batch, log, dropped, refused);
      inbound, arrived, asleep := inbound + multiset{batch}, arrived + multiset{batch}, asleep || state == Ready;
    }

    /** The awaited pair is delivered: what waits for it is decided from now on, as this pair was, and a
        task to take it up is outstanding. */
    method OnPairedTransactionDone(kind: PairedKind, id: Timestamp, result: Result)
      requires Valid()
      modifies `tasks, ledger`pairing
      ensures Valid() && tasks == old(tasks) + multiset{ContinueTransactions}
      ensures ledger.pairing == Deliver(old(ledger.pairing), kind, id, result)
      ensures !ledger.pairing.waiting && ledger.pairing.asked == old(ledger.pairing.asked) - {id}
      ensures forall tr ::
        WaitsFor(ledger.Ix(), old(ledger.pairing), tr, kind, id) ==>
        DecidedAs(ledger.decay, ledger.Ix(), ledger.pairing, tr, result)
    {
      hide Node.Accounted, Replay, Flatten, UpTo, Live;
      ledger.OnPairedTransactionDone(kind, id, result);
      tasks := tasks + multiset{ContinueTransactions};
    }
  }

  /** Validation of a chain's own files: as long as nobody has read a block that is not validated
      yet, one run of the task for each such block and a last one lead to READY. */
  method RunValidation<D>(node: Node<D>) returns (runs: nat)
    requires node.Valid() && node.state == Validating && node.ledger.intact
    requires node.ledger.storage.Unread() && Replay(node.ledger.Payloads()).Some?
    modifies node, node.ledger, node.ledger.storage, node.ledger.storage.ft, node.ledger.storage.ft.Repr
    ensures node.Valid() && node.state == Ready && node.ledger.intact
    ensures node.ledger.storage.blocks == old(node.ledger.storage.blocks)
    ensures node.ledger.indexLog == UpTo(0, |node.ledger.storage.blocks|)
    ensures Replay(node.ledger.Payloads()) == Some(node.ledger.Ix()) && node.base == node.ledger.Payloads()
    ensures runs == |node.ledger.storage.blocks| - old(node.ledger.storage.validated) + 1
    ensures fresh(node.ledger.storage.ft.Repr - old(node.ledger.storage.ft.Repr))
    ensures node.inbound == old(node.inbound) && node.log == old(node.log) && node.dropped == old(node.dropped)
    ensures node.ledger.pairing == old(node.ledger.pairing)
    ensures node.tasks[ContinueTransactions] == old(node.tasks[ContinueTransactions])
    ensures node.asleep <==>
      |node.inbound| > 0 && ContinueTransactions !in node.tasks && node.ledger.pairing.asked == {}
  {
    hide Ledger.Valid, Node.Accounted, Node.Awake, Replay, Flatten, UpTo;
    runs := 0;
    while node.state == Validating
      invariant node.Valid() && node.ledger.intact && node.ledger.storage.Unread()
      invariant fresh(node.ledger.storage.ft.Repr - old(node.ledger.storage.ft.Repr))
      invariant node.ledger.storage.blocks == old(node.ledger.storage.blocks)
      invariant node.ledger.storage.validated <= |node.ledger.storage.blocks|
      invariant node.state == Validating || node.state == Ready
      invariant runs == if node.state == Validating then node.ledger.storage.validated - old(node.ledger.storage.validated)
                        else |node.ledger.storage.blocks| - old(node.ledger.storage.validated) + 1
      invariant node.state == Ready ==>
        && node.ledger.indexLog == UpTo(0, |node.ledger.storage.blocks|) && node.base == node.ledger.Payloads()
        && Replay(node.ledger.Payloads()) == Some(node.ledger.Ix())
        && (node.asleep <==>
            |node.inbound| > 0 && ContinueTransactions !in node.tasks && node.ledger.pairing.asked == {})
      invariant node.inbound == old(node.inbound) && node.log == old(node.log) && node.dropped == old(node.dropped)
      invariant node.ledger.pairing == old(node.ledger.pairing)
      invariant node.tasks[ContinueTransactions] == old(node.tasks[ContinueTransactions])
      decreases node.state == Validating, |node.ledger.storage.blocks| - node.ledger.storage.validated
    {
      var flush: bool := *;
      var threw := node.RunContinueValidation(false, flush);
      runs := runs + 1;
    }
  }

  lemma {:induction false} UpToJoin(a: nat, b: nat, c: nat)
    requires a <= b
    ensures b <= c ==> UpTo(a, b) + UpTo(b, c) == UpTo(a, c)
    decreases c
  {
    if b < c {
      UpToJoin(a, b, c - 1);
    } else {
      assert UpTo(b, c) == [];
    }
  }

  /** Deciding a transaction changes its calculated fields only, and one that is not decided has
      asked for a pair. */
  lemma LiveKeepsRequest(decay: Decay, ix: Index, pairing: Pairing, recCount: nat, tr: Transaction, remote: Remote)
    requires pairing.waiting ==> pairing.asked != {}
    ensures var step := Live(decay, ix, pairing, recCount, tr, remote);
      match step
      case Done(_, decided) => Request(decided) == Request(tr)
      case Wait(p) => p.asked != {}
  {
    hide Deflate, Add, Sub, Less;
  }

  lemma {:induction false} NumbersOfParts(payloads: seq<GradidoRecord>, parts: seq<GradidoRecord>)
    requires forall i :: 0 <= i < |parts| ==> !parts[i].Main?
    ensures MainNumbers(payloads + parts) == MainNumbers(payloads)
    decreases |parts|
  {
    if parts == [] {
      assert payloads + parts == payloads;
    } else {
      var n := |parts| - 1;
      NumbersOfParts(payloads, parts[..n]);
      assert (payloads + parts)[..|payloads| + n] == payloads + parts[..n];
    }
  }

  lemma {:induction false} NumbersOfBatch(payloads: seq<GradidoRecord>, tr: Transaction, parts: seq<GradidoRecord>)
    requires forall i :: 0 <= i < |parts| ==> !parts[i].Main?
    ensures MainNumbers(payloads + ([Main(tr)] + parts)) == MainNumbers(payloads) + [tr.sequenceNumber]
  {
    var first := payloads + [Main(tr)];
    assert first[..|payloads|] == payloads;
    NumbersOfParts(first, parts);
    assert first + parts == payloads + ([Main(tr)] + parts);
  }

  /** The backward scan finds the last of the stored numbers. */
  lemma {:induction false} LatestIsLastNumber(payloads: seq<GradidoRecord>)
    ensures var ns := MainNumbers(payloads);
      LatestMain(payloads) == if ns == [] then None else Some(ns[|ns| - 1])
  {
    if payloads != [] {
      LatestIsLastNumber(payloads[..|payloads| - 1]);
    }
  }

  /** In a sequenced chain the latest number is the number of transactions, and adding the next
      number keeps the chain sequenced. */
  lemma SequencedNext(payloads: seq<GradidoRecord>)
    requires Sequenced(payloads)
    ensures LatestMain(payloads) ==
      if MainNumbers(payloads) == [] then None else Some(|MainNumbers(payloads)|)
    ensures MainNumbers(payloads) + [|MainNumbers(payloads)| + 1] == UpTo(1, |MainNumbers(payloads)| + 2)
  {
    LatestIsLastNumber(payloads);
  }

  /** The fate is one that the number of the batch can meet when topic reset is not allowed. */
  predicate Follows(payloads: seq<GradidoRecord>, batch: Batch, fate: Fate)
  {
    var latest, number := LatestMain(payloads), NumberOf(batch);
    && (fate.WasAppended? ==> fate.tr.sequenceNumber == number && IsNext(latest, number, false))
    && (fate == WasDropped ==> latest.Some? && number <= latest.value)
  }

  lemma FateFollows(payloads: seq<GradidoRecord>, batch: Batch, fate: Fate, step: Step)
    requires WellFormedBatch(batch.records) && fate == FateOf(LatestMain(payloads), NumberOf(batch), false, step)
    requires fate.WasAppended? ==> Request(fate.tr) == Request(batch.records[0].tr)
    ensures Follows(payloads, batch, fate)
  {
    hide LatestMain;
  }

  /** A turn with a batch that is no mark settles it by its fate; one that leaves a hole is put back. */
  lemma TurnOfBatch(rules: Rules, w: World, turn: Turn)
    requires turn.batch in w.books.inbound && !IsMark(turn.batch)
    ensures turn.batch.records != []
    ensures var fate, books := FateIn(rules, w, turn), w.books.(inbound := w.books.inbound - multiset{turn.batch});
      && OutcomeIn(rules, w, turn) == (if fate.WasAppended? || fate == WasDropped then GoOn else Stop)
      && (Truncates(rules, w, turn) <==> fate == LeavesHole)
      && TurnIn(rules, w, turn).books == Settled(books, turn.batch, fate)
      && TurnIn(rules, w, turn).index == (if fate.WasAppended? then StepIn(rules, w, turn).index else w.index)
      && TurnIn(rules, w, turn).pairing == (if fate == MustWait then StepIn(rules, w, turn).pairing else w.pairing)
      && (fate == LeavesHole ==> TurnIn(rules, w, turn).books == w.books)
  {
    TakenAndPutBack(w.books.inbound, turn.batch);
  }

  lemma FateHasStep(latest: Option<nat>, number: nat, topicResetAllowed: bool, step: Step)
    ensures var fate := FateOf(latest, number, topicResetAllowed, step);
      (fate.WasAppended? ==> step.Done?) && (fate == MustWait ==> step.Wait?)
  {
  }

  lemma LatestAfter(payloads: seq<GradidoRecord>, batch: Batch, tr: Transaction)
    requires Genuine(Entry(batch, tr))
    ensures LatestMain(payloads + StoredRecords(batch.records, tr)) == Some(NumberOf(batch))
  {
    hide LatestMain, MainNumbers;
    NumbersOfBatch(payloads, tr, batch.records[1..]);
    LatestIsLastNumber(payloads + StoredRecords(batch.records, tr));
  }

  /** The latest number grows with every appended batch, and a dropped one has a number up to it. */
  lemma FateKeepsDropped(before: seq<GradidoRecord>, batch: Batch, fate: Fate, topicResetAllowed: bool, step: Step,
                         dropped: multiset<Batch>)
    requires WellFormedBatch(batch.records) && DroppedBefore(before, dropped)
    requires fate == FateOf(LatestMain(before), NumberOf(batch), topicResetAllowed, step)
    requires fate.WasAppended? ==> Request(fate.tr) == Request(batch.records[0].tr)
    ensures var after := before + if fate.WasAppended? then StoredRecords(batch.records, fate.tr) else [];
      DroppedBefore(after, if fate == WasDropped then dropped + multiset{batch} else dropped)
  {
    hide LatestMain, MainNumbers;
    if fate.WasAppended? {
      LatestAfter(before, batch, fate.tr);
    } else {
      assert before + [] == before;
    }
  }

  /** With topic reset disallowed no fate of a batch makes a gap or a repeat, and the number of a
      dropped batch was stored before. */
  lemma StaysSequenced(before: seq<GradidoRecord>, batch: Batch, fate: Fate)
    requires WellFormedBatch(batch.records) && Sequenced(before) && Follows(before, batch, fate)
    ensures var after := before + if fate.WasAppended? then StoredRecords(batch.records, fate.tr) else [];
      && Sequenced(after) && |MainNumbers(before)| <= |MainNumbers(after)|
      && (fate == WasDropped ==> NumberOf(batch) <= |MainNumbers(after)|)
  {
    hide MainNumbers, LatestMain, UpTo;
    SequencedNext(before);
    if fate.WasAppended? {
      NumbersOfBatch(before, fate.tr, batch.records[1..]);
    } else {
      assert before + [] == before;
    }
  }

  lemma SettledInOrder(books: Books, batch: Batch, fate: Fate)
    requires WellFormedBatch(batch.records) && InOrder(books.payloads, books.dropped)
    requires Follows(books.payloads, batch, fate)
    ensures var after := Settled(books, batch, fate); InOrder(after.payloads, after.dropped)
  {
    hide MainNumbers, LatestMain, UpTo, Sequenced, Follows, StoredRecords, NumberOf, WellFormedBatch;
    StaysSequenced(books.payloads, batch, fate);
    assert books.payloads + [] == books.payloads;
  }

  lemma BooksSettled(before: Books, after: Books, batch: Batch, fate: Fate)
    requires batch.records != []
    requires after.payloads == before.payloads + if fate.WasAppended? then StoredRecords(batch.records, fate.tr) else []
    requires after.inbound == before.inbound + if fate == MustWait || fate == LeavesHole then multiset{batch} else multiset{}
    requires after.log == before.log + if fate.WasAppended? then [Entry(batch, fate.tr)] else []
    requires after.dropped == before.dropped + if fate == WasDropped then multiset{batch} else multiset{}
    requires after.refused == before.refused
    ensures after == Settled(before, batch, fate)
  {
    hide StoredRecords;
  }

  /** Every batch has at most one record. */
  ghost predicate Singles(batches: multiset<Batch>)
  {
    forall b :: b in batches ==> |b.records| <= 1
  }

  lemma SingleTaken(batches: multiset<Batch>, batch: Batch)
    requires batch in batches
    ensures Singles(batches) ==> |batch.records| <= 1 && Singles(batches - multiset{batch})
  {
  }

  /** The books follow the fate of a batch that was taken from the waiting ones. */
  lemma BooksFollow(before: Books, after: Books, batch: Batch, fate: Fate, topicResetAllowed: bool)
    requires WellFormedBatch(batch.records) && batch in before.inbound
    requires after.payloads == before.payloads + if fate.WasAppended? then StoredRecords(batch.records, fate.tr) else []
    requires after.inbound ==
      if fate == MustWait || fate == LeavesHole then before.inbound else before.inbound - multiset{batch}
    requires after.log == before.log + if fate.WasAppended? then [Entry(batch, fate.tr)] else []
    requires after.dropped == before.dropped + if fate == WasDropped then multiset{batch} else multiset{}
    requires after.refused == before.refused
    requires !topicResetAllowed ==> Follows(before.payloads, batch, fate)
    ensures after == Settled(before.(inbound := before.inbound - multiset{batch}), batch, fate)
    ensures !topicResetAllowed && InOrder(before.payloads, before.dropped) ==> InOrder(after.payloads, after.dropped)
  {
    hide StoredRecords, InOrder, Follows;
    var taken := before.(inbound := before.inbound - multiset{batch});
    TakenAndPutBack(before.inbound, batch);
    BooksSettled(taken, after, batch, fate);
    if !topicResetAllowed && InOrder(before.payloads, before.dropped) {
      SettledInOrder(taken, batch, fate);
    }
  }

  // ----- the log of appended batches -----

  lemma TakenAndPutBack(all: multiset<Batch>, batch: Batch)
    requires batch in all
    ensures all - multiset{batch} + multiset{batch} == all
    ensures all - multiset{batch} + multiset{} == all - multiset{batch}
  {
  }

  lemma HeldAppended(arrived: multiset<Batch>, inbound: multiset<Batch>, batch: Batch, log: seq<Entry>,
                     dropped: multiset<Batch>, refused: multiset<Batch>, tr: Transaction)
    requires AllAccounted(arrived, inbound + multiset{batch}, log, dropped, refused) && Genuine(Entry(batch, tr))
    ensures AllAccounted(arrived, inbound, log + [Entry(batch, tr)], dropped, refused)
  {
    assert WellFormedBatch(batch.records);
    hide Deliverable, Genuine, WellFormedBatch, Batches, Request;
    RecordsSnoc(log, Entry(batch, tr));
    assert forall b :: b in inbound ==> b in inbound + multiset{batch};
  }

  lemma HeldDropped(arrived: multiset<Batch>, inbound: multiset<Batch>, batch: Batch, log: seq<Entry>,
                    dropped: multiset<Batch>, refused: multiset<Batch>)
    requires AllAccounted(arrived, inbound + multiset{batch}, log, dropped, refused)
    ensures AllAccounted(arrived, inbound, log, dropped + multiset{batch}, refused)
  {
    hide Deliverable, Genuine, Batches;
    assert forall b :: b in inbound ==> b in inbound + multiset{batch};
  }

  lemma HeldRefused(arrived: multiset<Batch>, inbound: multiset<Batch>, batch: Batch, log: seq<Entry>,
                    dropped: multiset<Batch>, refused: multiset<Batch>)
    requires AllAccounted(arrived, inbound + multiset{batch}, log, dropped, refused) && IsMark(batch)
    ensures AllAccounted(arrived, inbound, log, dropped, refused + multiset{batch})
  {
    hide Deliverable, Genuine, Batches;
    assert forall b :: b in inbound ==> b in inbound + multiset{batch};
  }

  lemma ArrivedAccounted(arrived: multiset<Batch>, inbound: multiset<Batch>, batch: Batch, log: seq<Entry>,
                         dropped: multiset<Batch>, refused: multiset<Batch>)
    requires AllAccounted(arrived, inbound, log, dropped, refused) && Deliverable(batch)
    ensures AllAccounted(arrived + multiset{batch}, inbound + multiset{batch}, log, dropped, refused)
  {
    hide Deliverable, Genuine, Batches;
  }

  lemma RecordsSnoc(log: seq<Entry>, e: Entry)
    requires WellFormedBatch(e.batch.records)
    ensures Records(log + [e]) == Records(log) + StoredRecords(e.batch.records, e.tr)
    ensures multiset(Batches(log + [e])) == multiset(Batches(log)) + multiset{e.batch}
  {
    assert (log + [e])[..|log|] == log;
    assert Batches(log + [e]) == Batches(log) + [e.batch];
  }

  lemma RecordsJoin(base: seq<GradidoRecord>, log: seq<Entry>, e: Entry)
    requires WellFormedBatch(e.batch.records)
    ensures base + Records(log) + StoredRecords(e.batch.records, e.tr) == base + Records(log + [e])
  {
    RecordsSnoc(log, e);
    hide Records, StoredRecords;
    var more := StoredRecords(e.batch.records, e.tr);
    assert base + Records(log) + more == base + (Records(log) + more);
  }

  /** The stored numbers are those that were there before and those of the appended batches. */
  lemma {:induction false} NumbersOfLog(base: seq<GradidoRecord>, log: seq<Entry>)
    requires forall e :: e in log ==> Genuine(e)
    ensures MainNumbers(base + Records(log)) == MainNumbers(base) + Numbers(log)
    decreases |log|
  {
    hide MainNumbers, Records;
    if log == [] {
      assert base + [] == base;
      NothingLogged();
    } else {
      var n := |log| - 1;
      var e, before := log[n], Records(log[..n]);
      assert e in log && log == log[..n] + [e];
      NumbersOfLog(base, log[..n]);
      RecordsSnoc(log[..n], e);
      NumbersOfBatch(base + before, e.tr, e.batch.records[1..]);
      assert base + before + StoredRecords(e.batch.records, e.tr) == base + (before + StoredRecords(e.batch.records, e.tr));
      GenuineNumber(e);
      assert Numbers(log) == Numbers(log[..n]) + [NumberOf(e.batch)];
    }
  }

  lemma NothingLogged()
    ensures Records([]) == []
  {
  }

  lemma GenuineNumber(e: Entry)
    requires Genuine(e)
    ensures e.tr.sequenceNumber == NumberOf(e.batch)
  {
  }
}
