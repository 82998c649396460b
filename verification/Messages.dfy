/**
 From messages to the chain: the batch that a message becomes, and what a chain holds after the
 messages of a topic have been admitted in order.
 */
module MessageAdmission {
  import opened Values
  import opened GradidoTypes
  import opened LedgerRules
  import opened LedgerStore
  import opened GroupNode
  import opened AdmissionTurns
  import Packing

  /** The message is translated into records. */
  predicate Accepted(msg: Packing.Message)
  {
    Packing.CountAllowed(msg) && !msg.resetMark
  }

  /** The batch that a message becomes; one that cannot be translated asks for a reset. */
  function BatchOf(msg: Packing.Message): Batch
  {
    if Accepted(msg) then Batch(Packing.Packed(msg), false) else Batch([], true)
  }

  /** What arrives for a message: an accepted one brings its number, its time and its body, undecided. */
  method Receive(msg: Packing.Message) returns (batch: Batch)
    ensures batch == BatchOf(msg) && Deliverable(batch)
    ensures batch.reset <==> !Accepted(msg)
    ensures !batch.reset ==>
      && NumberOf(batch) == msg.sequenceNumber && WellFormedBatch(batch.records)
      && batch.records[0].tr.time == msg.time && batch.records[0].tr.body == msg.body
      && batch.records[0].tr.result == Undecided
  {
    hide Packing.Packed;
    var out := Packing.Translate(msg);
    match out
    case Reset => return Batch([], true);
    case Records(records) => return Batch(records, false);
  }

  lemma BatchCarries(msg: Packing.Message)
    requires Accepted(msg)
    ensures var batch := BatchOf(msg);
      && !IsMark(batch) && WellFormedBatch(batch.records) && NumberOf(batch) == msg.sequenceNumber
      && batch.records[0].tr.time == msg.time && batch.records[0].tr.body == msg.body
  {
    Packing.PackedShape(msg);
    hide Packing.SigParts, Packing.MemoParts;
  }

  /** The turns that take the messages one after the other. */
  function TurnsOf(msgs: seq<Packing.Message>, remotes: seq<Remote>): seq<Turn>
    requires |msgs| == |remotes|
  {
    seq(|msgs|, i requires 0 <= i < |msgs| => Turn(BatchOf(msgs[i]), remotes[i]))
  }

  predicate NumberedInOrder(msgs: seq<Packing.Message>)
  {
    forall i :: 0 <= i < |msgs| ==> Accepted(msgs[i]) && msgs[i].sequenceNumber == i + 1
  }

  /** Exactly these messages are stored, with the numbers 1, 2, 3, ... and their own times. */
  predicate HoldsMessages(books: Books, msgs: seq<Packing.Message>)
  {
    && MainNumbers(books.payloads) == UpTo(1, |msgs| + 1) && |books.log| == |msgs|
    && forall i :: 0 <= i < |msgs| ==> books.log[i].batch == BatchOf(msgs[i]) && books.log[i].tr.time == msgs[i].time
  }

  /** One more message, with the next number: nothing is truncated, and unless it has to wait it is
      stored after the others. */
  lemma NextMessage(rules: Rules, arrived: multiset<Batch>, w: World, msgs: seq<Packing.Message>, msg: Packing.Message,
                    remote: Remote)
    requires SoundWorld(arrived, w) && HoldsMessages(w.books, msgs) && BatchOf(msg) in w.books.inbound
    requires Accepted(msg) && msg.sequenceNumber == |msgs| + 1
    ensures var turn := Turn(BatchOf(msg), remote);
      && !Truncates(rules, w, turn)
      && (OutcomeIn(rules, w, turn) == GoOn ==> HoldsMessages(TurnIn(rules, w, turn).books, msgs + [msg]))
  {
    hide BatchOf, SoundWorld, StepIn, MainNumbers, UpTo, LatestMain, Request, Accepted;
    var turn := Turn(BatchOf(msg), remote);
    var fate := FateIn(rules, w, turn);
    BatchCarries(msg);
    BatchStep(rules, arrived, w, turn);
    LatestOfMessages(w.books.payloads, |msgs|);
    assert fate.WasAppended? || fate == MustWait;
    if fate.WasAppended? {
      SameNumberAndTime(fate.tr, turn.batch.records[0].tr);
      NumbersOfBatch(w.books.payloads, fate.tr, turn.batch.records[1..]);
      UpToSnoc(1, |msgs| + 1);
    }
  }

  lemma LatestOfMessages(payloads: seq<GradidoRecord>, n: nat)
    requires MainNumbers(payloads) == UpTo(1, n + 1)
    ensures LatestMain(payloads) == if n == 0 then None else Some(n)
  {
    LatestIsLastNumber(payloads);
  }

  lemma SameNumberAndTime(a: Transaction, b: Transaction)
    requires Request(a) == Request(b)
    ensures a.sequenceNumber == b.sequenceNumber && a.time == b.time
  {
  }

  /** The messages 1, 2, ..., n of a topic, taken in order on an empty chain: the storage is never
      truncated, and if none of them has to wait, exactly these are stored with these numbers. */
  lemma {:induction false} MessagesInOrder(rules: Rules, arrived: multiset<Batch>, w: World,
                                           msgs: seq<Packing.Message>, remotes: seq<Remote>)
    requires |msgs| == |remotes| && NumberedInOrder(msgs)
    requires SoundWorld(arrived, w) && w.books.payloads == [] && w.books.log == []
    requires Legal(rules, w, TurnsOf(msgs, remotes))
    ensures var turns := TurnsOf(msgs, remotes);
      && NoneTruncates(rules, w, turns)
      && (LastOutcome(rules, w, turns) == GoOn ==> HoldsMessages(After(rules, w, turns).books, msgs))
    decreases |msgs|
  {
    hide SoundWorld, BatchOf, Accepted, TurnIn, OutcomeIn, Truncates, HoldsMessages;
    var turns := TurnsOf(msgs, remotes);
    if msgs == [] {
      assert HoldsMessages(w.books, []) by {
        NoMessages(w.books);
      }
    } else {
      var n := |msgs| - 1;
      assert turns[..n] == TurnsOf(msgs[..n], remotes[..n]) && turns[n] == Turn(BatchOf(msgs[n]), remotes[n]);
      MessagesInOrder(rules, arrived, w, msgs[..n], remotes[..n]);
      TurnsKeepWorld(rules, arrived, w, turns[..n]);
      NextMessage(rules, arrived, After(rules, w, turns[..n]), msgs[..n], msgs[n], remotes[n]);
      assert msgs[..n] + [msgs[n]] == msgs;
    }
  }

  lemma NoMessages(books: Books)
    requires books.payloads == [] && books.log == []
    ensures HoldsMessages(books, [])
  {
  }
}
