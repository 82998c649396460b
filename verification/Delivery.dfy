/**
 A paired transaction is delivered, and the transaction that waited for it is stored with the result
 that follows from it.
 */
module PairDelivery {
  import opened Values
  import opened GradidoTypes
  import opened Layout
  import opened LedgerRules
  import opened LedgerLaws
  import opened LedgerStore
  import opened GroupNode

  /** As long as the loop can go on, the awaited pair is the same. */
  lemma {:induction false} PairingStays(rules: Rules, w: World, turns: seq<Turn>)
    requires Legal(rules, w, turns) && LastOutcome(rules, w, turns) == GoOn
    ensures After(rules, w, turns).pairing == w.pairing
  {
    if turns != [] {
      hide StepIn, FateIn, Settled;
      PairingStays(rules, w, turns[..|turns| - 1]);
    }
  }

  /** The log grows by what is appended, and only then do payloads and indexes change. */
  lemma {:induction false} NothingLogged(rules: Rules, w: World, turns: seq<Turn>)
    ensures |w.books.log| <= |After(rules, w, turns).books.log|
    ensures var w' := After(rules, w, turns);
      |w'.books.log| == |w.books.log| ==>
        w'.books.log == w.books.log && w'.books.payloads == w.books.payloads && w'.index == w.index
  {
    if turns != [] {
      hide StepIn, FateIn;
      NothingLogged(rules, w, turns[..|turns| - 1]);
    }
  }

  lemma TurnStays(rules: Rules, w: World, turn: Turn)
    ensures w.books.payloads <= TurnIn(rules, w, turn).books.payloads && w.books.log <= TurnIn(rules, w, turn).books.log
  {
    hide StepIn, FateIn, StoredRecords;
  }

  /** What has been stored and logged after some of the turns stays at its place. */
  lemma {:induction false} StoredStays(rules: Rules, w: World, turns: seq<Turn>, m: nat)
    requires m <= |turns|
    ensures After(rules, w, turns[..m]).books.payloads <= After(rules, w, turns).books.payloads
    ensures After(rules, w, turns[..m]).books.log <= After(rules, w, turns).books.log
    decreases |turns|
  {
    if m == |turns| {
      assert turns[..m] == turns;
    } else {
      var n := |turns| - 1;
      assert turns[..n][..m] == turns[..m];
      assert After(rules, w, turns) == TurnIn(rules, After(rules, w, turns[..n]), turns[n]);
      hide After, TurnIn;
      StoredStays(rules, w, turns[..n], m);
      TurnStays(rules, After(rules, w, turns[..n]), turns[n]);
    }
  }

  /** Before each of the turns the loop could go on, and nothing was truncated. */
  lemma {:induction false} LegalBefore(rules: Rules, w: World, turns: seq<Turn>, k: nat)
    requires Legal(rules, w, turns) && k < |turns|
    ensures Legal(rules, w, turns[..k]) && LastOutcome(rules, w, turns[..k]) == GoOn
    ensures turns[k].batch in After(rules, w, turns[..k]).books.inbound
    decreases |turns|
  {
    hide After, LastOutcome, NoneTruncates;
    if k < |turns| - 1 {
      var before := turns[..|turns| - 1];
      LegalBefore(rules, w, before, k);
      assert before[..k] == turns[..k];
    }
  }

  lemma OneTurnOn(rules: Rules, w: World, turns: seq<Turn>, k: nat)
    requires k < |turns|
    ensures After(rules, w, turns[..k + 1]) == TurnIn(rules, After(rules, w, turns[..k]), turns[k])
  {
    assert turns[..k + 1][..k] == turns[..k];
  }

  lemma TurnShrinks(rules: Rules, w: World, turn: Turn, b: Batch)
    requires turn.batch in w.books.inbound && b in TurnIn(rules, w, turn).books.inbound
    ensures b in w.books.inbound
  {
    hide StepIn, FateIn, StoredRecords;
    assert b == turn.batch || b in w.books.inbound - multiset{turn.batch};
  }

  lemma {:induction false} InboundShrinks(rules: Rules, w: World, turns: seq<Turn>, b: Batch)
    requires Legal(rules, w, turns) && b in After(rules, w, turns).books.inbound
    ensures b in w.books.inbound
  {
    if turns != [] {
      hide TurnIn, LastOutcome, NoneTruncates;
      var before, last := turns[..|turns| - 1], turns[|turns| - 1];
      TurnShrinks(rules, After(rules, w, before), last, b);
      InboundShrinks(rules, w, before, b);
    }
  }

  // ----- the delivered pair -----

  /** How a transaction ends whose pair has this result. */
  function AsPair(result: Result): Result
  {
    if result == Success then Success else OutboundTransactionFailed
  }

  /** The first thing that was stored since is this batch, with its main record decided as the pair was. */
  predicate StoredAsPair(w: World, w': World, batch: Batch, result: Result)
  {
    && |w.books.log| < |w'.books.log| && w'.books.log[|w.books.log|].batch == batch
    && |w.books.payloads| < |w'.books.payloads|
    && var rec := w'.books.payloads[|w.books.payloads|];
    && rec.Main? && rec.tr.result == AsPair(result)
    && batch.records != [] && batch.records[0].Main? && Request(rec.tr) == Request(batch.records[0].tr)
  }

  /** The batch waits for this pair, and it has the next number. */
  predicate IsAwaited(rules: Rules, w: World, batch: Batch, kind: PairedKind, id: Timestamp)
  {
    && !IsMark(batch) && WellFormedBatch(batch.records)
    && WaitsFor(w.index, w.pairing, batch.records[0].tr, kind, id)
    && IsNext(LatestMain(w.books.payloads), NumberOf(batch), rules.topicResetAllowed)
  }

  function Answered(w: World, kind: PairedKind, id: Timestamp, result: Result): World
  {
    w.(pairing := Deliver(w.pairing, kind, id, result))
  }

  /** The turn that takes the batch, when nothing else has been stored since the delivery. */
  lemma DeliveredTurn(rules: Rules, w: World, w': World, turn: Turn, kind: PairedKind, id: Timestamp, result: Result)
    requires IsAwaited(rules, w, turn.batch, kind, id)
    requires w'.index == w.index && w'.pairing == Answered(w, kind, id, result).pairing
    requires w'.books.payloads == w.books.payloads && w'.books.log == w.books.log
    ensures StoredAsPair(w, TurnIn(rules, w', turn), turn.batch, result)
  {
    var tr := turn.batch.records[0].tr;
    var recCount := RecCount(ExtendAll([], w'.books.payloads, R), R);
    DeliveredDecides(rules.decay, w.index, w.pairing, tr, kind, id, result);
    LiveKeepsRequest(rules.decay, w'.index, w'.pairing, recCount, tr, turn.remote);
    hide Live, Request, LatestMain, WaitsFor;
    assert Live(rules.decay, w'.index, w'.pairing, recCount, tr, turn.remote) == StepIn(rules, w', turn);
  }

  /** For every sequence of turns after the delivery: if one of them takes the batch and nothing was
      stored before it, the batch is stored as its pair was. */
  lemma DeliveredIsStored(rules: Rules, w: World, turns: seq<Turn>, k: nat, kind: PairedKind, id: Timestamp, result: Result)
    requires Legal(rules, Answered(w, kind, id, result), turns) && k < |turns|
    requires IsAwaited(rules, w, turns[k].batch, kind, id)
    requires |After(rules, Answered(w, kind, id, result), turns[..k]).books.log| == |w.books.log|
    ensures StoredAsPair(w, After(rules, Answered(w, kind, id, result), turns), turns[k].batch, result)
  {
    hide After, Legal, LastOutcome, TurnIn, IsAwaited, Request;
    var answered := Answered(w, kind, id, result);
    LegalBefore(rules, answered, turns, k);
    PairingStays(rules, answered, turns[..k]);
    NothingLogged(rules, answered, turns[..k]);
    DeliveredTurn(rules, w, After(rules, answered, turns[..k]), turns[k], kind, id, result);
    OneTurnOn(rules, answered, turns, k);
    StoredStays(rules, answered, turns, k + 1);
  }

  lemma {:induction false} FirstLogged(rules: Rules, w: World, turns: seq<Turn>) returns (k: nat)
    requires |w.books.log| < |After(rules, w, turns).books.log|
    ensures k < |turns| && |After(rules, w, turns[..k]).books.log| == |w.books.log|
    ensures FateIn(rules, After(rules, w, turns[..k]), turns[k]).WasAppended? && !IsMark(turns[k].batch)
    ensures After(rules, w, turns[..k]).books.payloads == w.books.payloads
  {
    hide StepIn, FateIn;
    if turns == [] {
      assert false;
    } else {
      var n := |turns| - 1;
      NothingLogged(rules, w, turns[..n]);
      if |w.books.log| < |After(rules, w, turns[..n]).books.log| {
        k := FirstLogged(rules, w, turns[..n]);
        assert turns[..n][..k] == turns[..k];
      } else {
        k := n;
      }
    }
  }

  /** No other waiting batch has the same number. */
  ghost predicate OnlyOne(waiting: multiset<Batch>, batch: Batch)
  {
    forall b :: b in waiting && NumberOf(b) == NumberOf(batch) ==> b == batch
  }

  /** So if no other waiting batch has its number, whatever is stored next after the delivery is this
      batch, as its pair was. */
  lemma NextIsDelivered(rules: Rules, w: World, turns: seq<Turn>, batch: Batch, kind: PairedKind, id: Timestamp,
                        result: Result)
    requires Legal(rules, Answered(w, kind, id, result), turns)
    requires IsAwaited(rules, w, batch, kind, id) && OnlyOne(w.books.inbound, batch)
    requires LatestMain(w.books.payloads).Some? || !rules.topicResetAllowed
    requires |w.books.log| < |After(rules, Answered(w, kind, id, result), turns).books.log|
    ensures StoredAsPair(w, After(rules, Answered(w, kind, id, result), turns), batch, result)
  {
    hide After, Legal, LastOutcome, StepIn, LatestMain, StoredAsPair, WaitsFor, NumberOf;
    var answered := Answered(w, kind, id, result);
    var k := FirstLogged(rules, answered, turns);
    LegalBefore(rules, answered, turns, k);
    InboundShrinks(rules, answered, turns[..k], turns[k].batch);
    assert NumberOf(turns[k].batch) == NumberOf(batch);
    DeliveredIsStored(rules, w, turns, k, kind, id, result);
  }

  /** One of the turns takes the batch, before anything else is stored. */
  ghost predicate TakenFirst(rules: Rules, w: World, turns: seq<Turn>, batch: Batch)
  {
    exists k :: 0 <= k < |turns| && turns[k].batch == batch && |After(rules, w, turns[..k]).books.log| == |w.books.log|
  }

  /** Only this batch can be stored next, and something is stored. */
  ghost predicate OnlyThisStored(rules: Rules, w: World, turns: seq<Turn>, batch: Batch)
  {
    && OnlyOne(w.books.inbound, batch) && (LatestMain(w.books.payloads).Some? || !rules.topicResetAllowed)
    && |w.books.log| < |After(rules, w, turns).books.log|
  }

  lemma DeliveryRun(rules: Rules, w: World, turns: seq<Turn>, batch: Batch, kind: PairedKind, id: Timestamp, result: Result)
    requires Legal(rules, Answered(w, kind, id, result), turns) && IsAwaited(rules, w, batch, kind, id)
    requires var answered := Answered(w, kind, id, result);
      TakenFirst(rules, answered, turns, batch) || OnlyThisStored(rules, answered, turns, batch)
    ensures StoredAsPair(w, After(rules, Answered(w, kind, id, result), turns), batch, result)
  {
    hide After, Legal, IsAwaited, StoredAsPair, LatestMain, OnlyOne;
    var answered := Answered(w, kind, id, result);
    if TakenFirst(rules, answered, turns, batch) {
      var k :| 0 <= k < |turns| && turns[k].batch == batch && |After(rules, answered, turns[..k]).books.log| == |w.books.log|;
      DeliveredIsStored(rules, w, turns, k, kind, id, result);
    } else {
      NextIsDelivered(rules, w, turns, batch, kind, id, result);
    }
  }

  /** The task that takes up what waits, as a sequence of turns. */
  method TakeUp<D>(node: Node<D>, flush: bool) returns (threw: bool, ghost turns: seq<Turn>)
    requires node.Valid() && node.state == Ready && node.ledger.intact && ContinueTransactions in node.tasks
    modifies node, node.ledger, node.ledger.storage, node.ledger.storage.ft, node.ledger.storage.ft.Repr
    ensures node.Valid() && Legal(node.TheRules(), old(node.Now()), turns)
    ensures node.ledger.intact <==> NoneTruncates(node.TheRules(), old(node.Now()), turns)
    ensures node.ledger.intact ==> node.Now() == After(node.TheRules(), old(node.Now()), turns)
  {
    hide Ledger.Valid, Node.Valid, Node.Kept, Node.KeptFolds, Node.Now, After, Legal, LastOutcome, NoneTruncates;
    threw, turns := node.RunContinueTransactions(flush);
  }

  /** The same at a node: the pair is delivered, and the task that this pushes runs. */
  method DeliverThenContinue<D>(node: Node<D>, batch: Batch, kind: PairedKind, id: Timestamp, result: Result, flush: bool)
    returns (threw: bool, ghost turns: seq<Turn>)
    requires node.Valid() && node.state == Ready && node.ledger.intact
    requires IsAwaited(node.TheRules(), node.Now(), batch, kind, id)
    modifies node, node.ledger, node.ledger.storage, node.ledger.storage.ft, node.ledger.storage.ft.Repr
    ensures node.Valid() && Legal(node.TheRules(), Answered(old(node.Now()), kind, id, result), turns)
    ensures var rules, answered := node.TheRules(), Answered(old(node.Now()), kind, id, result);
      && (node.ledger.intact <==> NoneTruncates(rules, answered, turns))
      && (node.ledger.intact ==> node.Now() == After(rules, answered, turns))
      && (node.ledger.intact &&
          (TakenFirst(rules, answered, turns, batch) || OnlyThisStored(rules, answered, turns, batch)) ==>
          StoredAsPair(old(node.Now()), node.Now(), batch, result))
  {
    hide Ledger.Valid, Node.Valid, After, Legal, NoneTruncates, StoredAsPair, IsAwaited, TakenFirst, OnlyThisStored,
         DecidedAs, WaitsFor;
    ghost var w, rules := node.Now(), node.TheRules();
    ghost var answered := Answered(w, kind, id, result);
    node.OnPairedTransactionDone(kind, id, result);
    assert node.Now() == answered;
    threw, turns := TakeUp(node, flush);
    if node.ledger.intact && (TakenFirst(rules, answered, turns, batch) || OnlyThisStored(rules, answered, turns, batch)) {
      DeliveryRun(rules, w, turns, batch, kind, id, result);
    }
  }
}
