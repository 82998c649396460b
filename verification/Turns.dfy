/**
 What every sequence of turns of the admission loop keeps, up to the first truncate.
 */
module AdmissionTurns {
  import opened Values
  import opened GradidoTypes
  import opened Layout
  import opened LedgerRules
  import opened LedgerLaws
  import opened LedgerStore
  import opened GroupNode

  /** Every batch that arrived has its place in the books, a dropped one had a number up to the latest
      stored one, and the live indexes have the keys that a replay of the stored payloads gives. */
  ghost predicate SoundWorld(arrived: multiset<Batch>, w: World)
  {
    && AllAccounted(arrived, w.books.inbound, w.books.log, w.books.dropped, w.books.refused)
    && DroppedBefore(w.books.payloads, w.books.dropped)
    && Agrees(w.index, w.books.payloads)
    && (w.pairing.waiting ==> w.pairing.asked != {})
  }

  /** The world of every node in READY is such a one, up to the first truncate. */
  lemma NodeIsSound<D>(node: Node<D>)
    requires node.Valid() && node.state == Ready && node.ledger.intact
    ensures SoundWorld(node.arrived, node.Now())
  {
  }

  /** Nothing that was stored or logged is taken back; what was stored since is what the
      batches logged since left behind; sequence and consistency are kept. */
  ghost predicate Grown(rules: Rules, w: World, w': World)
  {
    && w.books.payloads <= w'.books.payloads && w.books.log <= w'.books.log
    && w'.books.payloads == w.books.payloads + Records(w'.books.log[|w.books.log|..])
    && (Consistent(w.books.payloads) ==> Consistent(w'.books.payloads))
    && (!rules.topicResetAllowed && InOrder(w.books.payloads, w.books.dropped) ==>
        InOrder(w'.books.payloads, w'.books.dropped))
  }

  /** For every legal sequence of turns of which none truncates the storage. */
  lemma {:induction false} TurnsKeepWorld(rules: Rules, arrived: multiset<Batch>, w: World, turns: seq<Turn>)
    requires SoundWorld(arrived, w) && Legal(rules, w, turns) && NoneTruncates(rules, w, turns)
    ensures SoundWorld(arrived, After(rules, w, turns)) && Grown(rules, w, After(rules, w, turns))
  {
    hide SoundWorld, Truncates, TurnIn, OutcomeIn;
    if turns == [] {
      NothingGrown(rules, w);
    } else {
      var before, last := turns[..|turns| - 1], turns[|turns| - 1];
      TurnsKeepWorld(rules, arrived, w, before);
      hide Grown;
      TurnKeepsWorld(rules, arrived, After(rules, w, before), last);
      GrownOn(rules, w, After(rules, w, before), After(rules, w, turns));
    }
  }

  lemma NothingGrown(rules: Rules, w: World)
    ensures Grown(rules, w, w)
  {
    hide Consistent, InOrder;
    NoneLogged(w.books.payloads, w.books.log);
  }

  lemma NoneLogged(payloads: seq<GradidoRecord>, log: seq<Entry>)
    ensures payloads == payloads + Records(log[|log|..])
  {
    assert log[|log|..] == [];
  }

  lemma GrownOn(rules: Rules, a: World, b: World, c: World)
    requires Grown(rules, a, b) && Grown(rules, b, c)
    ensures Grown(rules, a, c)
  {
    hide Consistent, InOrder, Records;
    var first, second := b.books.log[|a.books.log|..], c.books.log[|b.books.log|..];
    assert c.books.log[|a.books.log|..] == first + second;
    RecordsConcat(first, second);
    assert a.books.payloads + (Records(first) + Records(second)) == a.books.payloads + Records(first) + Records(second);
  }

  /** What the last batch of a log left behind. */
  function LastRecords(log: seq<Entry>): seq<GradidoRecord>
    requires log != []
  {
    var e := log[|log| - 1];
    if e.batch.records == [] then [] else StoredRecords(e.batch.records, e.tr)
  }

  lemma RecordsLast(log: seq<Entry>)
    requires log != []
    ensures Records(log) == Records(log[..|log| - 1]) + LastRecords(log)
  {
    hide StoredRecords;
  }

  lemma LastOfJoined(a: seq<Entry>, b: seq<Entry>)
    requires b != []
    ensures (a + b)[..|a + b| - 1] == a + b[..|b| - 1] && LastRecords(a + b) == LastRecords(b)
  {
    hide StoredRecords;
  }

  lemma Regroup(x: seq<GradidoRecord>, y: seq<GradidoRecord>, z: seq<GradidoRecord>)
    ensures x + y + z == x + (y + z)
  {
  }

  lemma {:induction false} RecordsConcat(a: seq<Entry>, b: seq<Entry>)
    ensures Records(a + b) == Records(a) + Records(b)
    decreases |b|
  {
    if b == [] {
      assert a + b == a;
    } else {
      hide Records, LastRecords;
      var before := b[..|b| - 1];
      calc {
        Records(a + b);
        { RecordsLast(a + b); LastOfJoined(a, b); }
        Records(a + before) + LastRecords(b);
        { RecordsConcat(a, before); }
        Records(a) + Records(before) + LastRecords(b);
        { Regroup(Records(a), Records(before), LastRecords(b)); }
        Records(a) + (Records(before) + LastRecords(b));
        { RecordsLast(b); }
        Records(a) + Records(b);
      }
    }
  }

  /** One turn. */
  lemma TurnKeepsWorld(rules: Rules, arrived: multiset<Batch>, w: World, turn: Turn)
    requires SoundWorld(arrived, w) && turn.batch in w.books.inbound && !Truncates(rules, w, turn)
    ensures SoundWorld(arrived, TurnIn(rules, w, turn)) && Grown(rules, w, TurnIn(rules, w, turn))
  {
    if IsMark(turn.batch) {
      MarkKeepsWorld(rules, arrived, w, turn);
    } else {
      BatchKeepsWorld(rules, arrived, w, turn);
    }
  }

  lemma MarkKeepsWorld(rules: Rules, arrived: multiset<Batch>, w: World, turn: Turn)
    requires SoundWorld(arrived, w) && turn.batch in w.books.inbound && IsMark(turn.batch)
    ensures SoundWorld(arrived, TurnIn(rules, w, turn)) && Grown(rules, w, TurnIn(rules, w, turn))
  {
    hide AllAccounted, Agrees, Consistent, InOrder, DroppedBefore, FateIn, Settled;
    var left := w.books.inbound - multiset{turn.batch};
    TakenAndPutBack(w.books.inbound, turn.batch);
    HeldRefused(arrived, left, turn.batch, w.books.log, w.books.dropped, w.books.refused);
  }

  /** How the transaction of a waiting batch is decided. */
  lemma BatchStep(rules: Rules, arrived: multiset<Batch>, w: World, turn: Turn)
    requires SoundWorld(arrived, w) && turn.batch in w.books.inbound && !IsMark(turn.batch)
    ensures WellFormedBatch(turn.batch.records)
    ensures var fate, step, payloads := FateIn(rules, w, turn), StepIn(rules, w, turn), w.books.payloads;
      && fate == FateOf(LatestMain(payloads), NumberOf(turn.batch), rules.topicResetAllowed, step)
      && (fate == MustWait ==> step.Wait? && step.pairing.asked != {})
      && (fate.WasAppended? ==>
          && step.Done? && Genuine(Entry(turn.batch, fate.tr))
          && Agrees(step.index, payloads + StoredRecords(turn.batch.records, fate.tr))
          && (Consistent(payloads) ==> Consistent(payloads + StoredRecords(turn.batch.records, fate.tr))))
  {
    hide Live, LatestMain, Replay, Agrees, Consistent, RecCount;
    assert Deliverable(turn.batch);
    var tr := turn.batch.records[0].tr;
    var recCount := RecCount(ExtendAll([], w.books.payloads, R), R);
    LiveKeepsRequest(rules.decay, w.index, w.pairing, recCount, tr, turn.remote);
    if FateIn(rules, w, turn).WasAppended? {
      StepKeepsAgreement(rules.decay, w.index, w.pairing, recCount, tr, turn.remote, w.books.payloads,
                         turn.batch.records[1..]);
    }
  }

  lemma BatchKeepsWorld(rules: Rules, arrived: multiset<Batch>, w: World, turn: Turn)
    requires SoundWorld(arrived, w) && turn.batch in w.books.inbound && !IsMark(turn.batch)
    requires FateIn(rules, w, turn) != LeavesHole
    ensures SoundWorld(arrived, TurnIn(rules, w, turn)) && Grown(rules, w, TurnIn(rules, w, turn))
  {
    hide AllAccounted, Agrees, Consistent, InOrder, DroppedBefore, FateIn, StepIn, FateOf, LatestMain, Genuine, Records;
    var fate, batch, payloads := FateIn(rules, w, turn), turn.batch, w.books.payloads;
    BatchStep(rules, arrived, w, turn);
    BatchInOrder(rules, w, turn);
    NoneLogged(payloads, w.books.log);
    TakenAndPutBack(w.books.inbound, batch);
    var left := w.books.inbound - multiset{batch};
    match fate {
      case WasAppended(tr) =>
        HeldAppended(arrived, left, batch, w.books.log, w.books.dropped, w.books.refused, tr);
        LogGrown(w.books.log, batch, tr);
      case WasDropped =>
        HeldDropped(arrived, left, batch, w.books.log, w.books.dropped, w.books.refused);
      case MustWait =>
    }
  }

  lemma LogGrown(log: seq<Entry>, batch: Batch, tr: Transaction)
    requires WellFormedBatch(batch.records)
    ensures Records((log + [Entry(batch, tr)])[|log|..]) == StoredRecords(batch.records, tr)
  {
    var e, none: seq<Entry> := Entry(batch, tr), [];
    assert (log + [e])[|log|..] == none + [e];
    assert Records(none) == [];
    hide Records, StoredRecords, WellFormedBatch;
    RecordsSnoc(none, e);
    assert [] + StoredRecords(batch.records, tr) == StoredRecords(batch.records, tr);
  }

  /** The numbers, for a batch that meets its fate. */
  lemma BatchInOrder(rules: Rules, w: World, turn: Turn)
    requires WellFormedBatch(turn.batch.records) && DroppedBefore(w.books.payloads, w.books.dropped)
    requires FateIn(rules, w, turn).WasAppended? ==> Genuine(Entry(turn.batch, FateIn(rules, w, turn).tr))
    ensures var left := w.books.(inbound := w.books.inbound - multiset{turn.batch});
      var after := Settled(left, turn.batch, FateIn(rules, w, turn));
      && DroppedBefore(after.payloads, after.dropped)
      && (!rules.topicResetAllowed && InOrder(w.books.payloads, w.books.dropped) ==> InOrder(after.payloads, after.dropped))
  {
    hide InOrder, DroppedBefore, LatestMain, FateOf, StepIn, StoredRecords, Follows;
    var fate, step := FateIn(rules, w, turn), StepIn(rules, w, turn);
    FateKeepsDropped(w.books.payloads, turn.batch, fate, rules.topicResetAllowed, step, w.books.dropped);
    if !rules.topicResetAllowed && InOrder(w.books.payloads, w.books.dropped) {
      FateFollows(w.books.payloads, turn.batch, fate, step);
      SettledInOrder(w.books.(inbound := w.books.inbound - multiset{turn.batch}), turn.batch, fate);
    }
    assert w.books.payloads + [] == w.books.payloads;
  }

  // ----- the order in which the queue gives the batches -----

  /** The queue gives a batch with the largest number first. */
  ghost predicate IsTop(waiting: multiset<Batch>, batch: Batch)
  {
    batch in waiting && forall b :: b in waiting ==> NumberOf(b) <= NumberOf(batch)
  }

  ghost predicate NoMarks(waiting: multiset<Batch>)
  {
    forall b :: b in waiting ==> !IsMark(b)
  }

  ghost predicate AllUpTo(waiting: multiset<Batch>, number: nat)
  {
    forall b :: b in waiting ==> NumberOf(b) <= number
  }

  /** No waiting number is beyond the next one. */
  ghost predicate NoneBeyondNext(rules: Rules, w: World)
  {
    var latest := LatestMain(w.books.payloads);
    if latest.Some? then AllUpTo(w.books.inbound, latest.value + 1)
    else rules.topicResetAllowed || (AllUpTo(w.books.inbound, 1) && exists b :: b in w.books.inbound && NumberOf(b) == 1)
  }

  /** Batches that have waited together, taken up by the loop: the storage is left intact if and only
      if no number is beyond the next one. The next two at once are enough for a truncate, although no
      number is missing, since the larger one comes first. */
  lemma {:induction false} LargestFirstIff(rules: Rules, arrived: multiset<Batch>, w: World, turns: seq<Turn>)
    requires SoundWorld(arrived, w) && NoMarks(w.books.inbound)
    requires turns != [] && Legal(rules, w, turns) && IsTop(w.books.inbound, turns[0].batch)
    ensures NoneTruncates(rules, w, turns) <==> NoneBeyondNext(rules, w)
    ensures NoneTruncates(rules, w, turns) && LastOutcome(rules, w, turns) == GoOn ==> WithinReach(After(rules, w, turns))
  {
    hide SoundWorld, Truncates, TurnIn, OutcomeIn, IsTop, NoMarks, NoneBeyondNext, WithinReach;
    var before, last := turns[..|turns| - 1], turns[|turns| - 1];
    if before == [] {
      FirstTurn(rules, arrived, w, last);
    } else {
      LargestFirstIff(rules, arrived, w, before);
      TurnsKeepWorld(rules, arrived, w, before);
      TurnWithinReach(rules, arrived, After(rules, w, before), last);
    }
  }

  /** Two new batches with the next two numbers, taken up together, make a hole. */
  lemma NextTwoTruncate(rules: Rules, arrived: multiset<Batch>, w: World, turns: seq<Turn>, a: Batch, b: Batch)
    requires SoundWorld(arrived, w) && NoMarks(w.books.inbound) && LatestMain(w.books.payloads).Some?
    requires a in w.books.inbound && NumberOf(a) == LatestMain(w.books.payloads).value + 1
    requires b in w.books.inbound && NumberOf(b) == NumberOf(a) + 1
    requires turns != [] && Legal(rules, w, turns) && IsTop(w.books.inbound, turns[0].batch)
    ensures !NoneTruncates(rules, w, turns)
  {
    hide SoundWorld, NoneTruncates, Legal, LatestMain;
    LargestFirstIff(rules, arrived, w, turns);
  }

  /** Something is stored, and every waiting batch can be appended next or dropped. */
  ghost predicate WithinReach(w: World)
  {
    && LatestMain(w.books.payloads).Some? && NoMarks(w.books.inbound)
    && AllUpTo(w.books.inbound, LatestMain(w.books.payloads).value + 1)
  }

  lemma FirstTurn(rules: Rules, arrived: multiset<Batch>, w: World, turn: Turn)
    requires SoundWorld(arrived, w) && NoMarks(w.books.inbound) && IsTop(w.books.inbound, turn.batch)
    ensures Truncates(rules, w, turn) <==> !NoneBeyondNext(rules, w)
    ensures !Truncates(rules, w, turn) && OutcomeIn(rules, w, turn) == GoOn ==> WithinReach(TurnIn(rules, w, turn))
  {
    hide LatestMain, AllAccounted, DroppedBefore, Agrees, Genuine, StepIn;
    BatchStep(rules, arrived, w, turn);
    var fate := FateIn(rules, w, turn);
    if fate.WasAppended? {
      LatestAfter(w.books.payloads, turn.batch, fate.tr);
    }
  }

  lemma TurnWithinReach(rules: Rules, arrived: multiset<Batch>, w: World, turn: Turn)
    requires SoundWorld(arrived, w) && WithinReach(w) && turn.batch in w.books.inbound
    ensures !Truncates(rules, w, turn) && WithinReach(TurnIn(rules, w, turn))
  {
    hide LatestMain, AllAccounted, DroppedBefore, Agrees, Genuine, StepIn;
    BatchStep(rules, arrived, w, turn);
    TakenAndPutBack(w.books.inbound, turn.batch);
    var fate := FateIn(rules, w, turn);
    if fate.WasAppended? {
      LatestAfter(w.books.payloads, turn.batch, fate.tr);
    }
  }

  function Friend(number: nat): Transaction
  {
    Transaction(1, number, ZeroTime, Signature([], []), 0, AddGroupFriend("friends"), GroupIsAlreadyFriend, [])
  }

  function FriendBatch(number: nat): Batch
  {
    Batch([Main(Friend(number))], false)
  }

  /** Transaction 1 is stored, and those with the numbers 2 and 3 wait. */
  const TwoWaiting := World(
    Books([Main(Friend(1))], multiset{FriendBatch(2), FriendBatch(3)}, [], multiset{}, multiset{}),
    EmptyIndex, NoPairing)

  /** The concrete case: nothing is missing, and the first turn truncates the storage. */
  lemma NextTwoExample(rules: Rules, remote: Remote)
    ensures var arrived, turns := TwoWaiting.books.inbound, [Turn(FriendBatch(3), remote)];
      && SoundWorld(arrived, TwoWaiting) && NoMarks(TwoWaiting.books.inbound)
      && InOrder(TwoWaiting.books.payloads, TwoWaiting.books.dropped)
      && Legal(rules, TwoWaiting, turns) && IsTop(TwoWaiting.books.inbound, turns[0].batch)
      && !NoneTruncates(rules, TwoWaiting, turns)
  {
    hide SoundWorld, Legal, NoneTruncates, LatestMain, InOrder, Agrees, FriendBatch, NumberOf, IsTop, NoMarks;
    var arrived, turns := TwoWaiting.books.inbound, [Turn(FriendBatch(3), remote)];
    OneStored();
    ExampleWaits();
    ExampleIsSound();
    OnlyTurn(rules, TwoWaiting, turns[0]);
    NextTwoTruncate(rules, arrived, TwoWaiting, turns, FriendBatch(2), FriendBatch(3));
  }

  lemma ExampleWaits()
    ensures var waiting := TwoWaiting.books.inbound;
      && FriendBatch(2) in waiting && FriendBatch(3) in waiting && NoMarks(waiting) && IsTop(waiting, FriendBatch(3))
    ensures NumberOf(FriendBatch(2)) == 2 && NumberOf(FriendBatch(3)) == 3
  {
  }

  lemma ExampleIsSound()
    ensures SoundWorld(TwoWaiting.books.inbound, TwoWaiting)
  {
    hide LatestMain, Agrees, UpTo, MainNumbers;
    OneStored();
    assert Batches([]) == [];
  }

  lemma OneStored()
    ensures var payloads := [Main(Friend(1))];
      && Agrees(EmptyIndex, payloads) && LatestMain(payloads) == Some(1) && InOrder(payloads, multiset{})
  {
    var payloads := [Main(Friend(1))];
    assert payloads[..0] == [];
    assert UpTo(1, 2) == [1] by {
      assert UpTo(1, 1) == [];
    }
    assert MainNumbers(payloads) == [1];
  }

  lemma OnlyTurn(rules: Rules, w: World, turn: Turn)
    requires turn.batch in w.books.inbound
    ensures Legal(rules, w, [turn])
  {
    NoTurnsYet(rules, w);
    OneMoreTurn(rules, w, [], turn);
    assert [] + [turn] == [turn];
  }
}
