/**
 Copying a chain from a sibling: the sender streams block sizes and then the records of one
 block at a time; the receiver keeps those that are no checksums and appends them.
 */
module Replication {
  import opened Values
  import opened GradidoTypes
  import opened Layout
  import opened BlockScan
  import opened BlockStorage
  import opened LedgerRules
  import opened LedgerLaws
  import opened LedgerStore
  import opened GroupNode

  /** A record on the wire. Its type is not sent: the receiver goes by position. */
  datatype Wire = FromPayload(payload: GradidoRecord) | FromChecksum

  /** The record with number `n` of a chain, as it is sent. */
  function WireAt(blocks: seq<seq<GradidoRecord>>, n: nat): Wire
    requires Packed(blocks, R) && n < RecCount(blocks, R)
  {
    InUse(blocks, R, n);
    if n % R < |blocks[n / R]| then FromPayload(blocks[n / R][n % R]) else FromChecksum
  }

  /** The non-empty prefix of block `b`, or nothing when there is no such block. */
  function Stream(blocks: seq<seq<GradidoRecord>>, b: nat): (s: seq<Wire>)
    requires Packed(blocks, R)
  {
    if b >= |blocks| then []
    else seq(|blocks[b]|, k requires 0 <= k < |blocks[b]| => FromPayload(blocks[b][k])) + [FromChecksum]
  }

  function Sizes(blocks: seq<seq<GradidoRecord>>): seq<nat>
  {
    seq(|blocks|, b requires 0 <= b < |blocks| => |blocks[b]| + 1)
  }

  function Sum(sizes: seq<nat>): nat
  {
    if sizes == [] then 0 else Sum(sizes[..|sizes| - 1]) + sizes[|sizes| - 1]
  }

  // ----- the sender -----

  /** No flush is due at the reads of blocks `k + 1`, ..., `n - 1`. */
  ghost predicate NoFlushAfter(flush: nat -> bool, k: nat, n: nat)
  {
    forall j :: k < j < n ==> !flush(j)
  }

  lemma OneMoreRead(flush: nat -> bool, k: nat, n: nat)
    requires k < n
    ensures NoFlushAfter(flush, k, n + 1) <==> NoFlushAfter(flush, k, n) && !flush(n)
  {
    if NoFlushAfter(flush, k, n) && !flush(n) {
      forall j | k < j < n + 1
        ensures !flush(j)
      {
        assert j == n || k < j < n;
      }
    }
  }

  /** The handle of block `k` after the blocks before block `n` of `count` have been read in order. */
  ghost function LeftHandle(flush: nat -> bool, k: nat, n: nat, count: nat): FileTile.Handle
  {
    if k == count - 1 || NoFlushAfter(flush, k, n) then FileTile.Open(R) else FileTile.Closed
  }

  /** `get_checksums`, the sizes: full blocks count as full, the last one up to its checksum. Every
      block is read, so its handle is left at the end of its file, unless it is not the last one and
      a flush is due at a later read; `flush(j)` says so for the read of block `j`. */
  method GetChecksums<D>(s: Blockchain<GradidoRecord, D>, flush: nat -> bool) returns (sizes: seq<nat>)
    requires s.Valid() && s.r == R
    modifies s, s.ft, s.ft.Repr
    ensures s.Valid() && fresh(s.ft.Repr - old(s.ft.Repr)) && s.blocks == old(s.blocks) && s.sums == old(s.sums)
    ensures s.validated == old(s.validated) && s.recCount == old(s.recCount)
    ensures sizes == Sizes(s.blocks)
    ensures |s.ft.view| == |s.blocks|
    ensures forall k :: 0 <= k < |s.blocks| ==>
      s.ft.view[k].handle == LeftHandle(flush, k, |s.blocks|, |s.blocks|)
  {
    hide FileTile.FileTile.Valid, Flatten, RecCount;
    sizes := [];
    var count := s.GetBlockCount();
    var i := 0;
    while i < count
      invariant s.Valid() && fresh(s.ft.Repr - old(s.ft.Repr)) && s.blocks == old(s.blocks) && s.sums == old(s.sums)
      invariant s.validated == old(s.validated) && s.recCount == old(s.recCount)
      invariant 0 <= i <= count == |s.blocks| == |s.ft.view|
      invariant sizes == Sizes(s.blocks)[..i]
      invariant forall k :: 0 <= k < i ==> s.ft.view[k].handle == LeftHandle(flush, k, i, count)
    {
      var threw, data := s.GetBlock(i, flush(i));
      forall k | 0 <= k < i
        ensures NoFlushAfter(flush, k, i + 1) <==> NoFlushAfter(flush, k, i) && !flush(i)
      {
        OneMoreRead(flush, k, i);
      }
      var size := SizeOf(data[..], s.blocks[i], s.sums[i], i == count - 1);
      sizes := sizes + [size];
      i := i + 1;
    }
  }

  method SizeOf<D>(recs: seq<Record<GradidoRecord, D>>, ghost block: seq<GradidoRecord>, ghost sum: D, isLast: bool)
    returns (size: nat)
    requires |block| < R && recs == Image(block, sum, R) && (!isLast ==> |block| == R - 1)
    ensures size == |block| + 1
  {
    size := R;
    if isLast {
      var j := FirstChecksum(recs, block, sum);
      size := j + 1;
    }
  }

  method FirstChecksum<D>(recs: seq<Record<GradidoRecord, D>>, ghost block: seq<GradidoRecord>, ghost sum: D)
    returns (j: nat)
    requires |block| < R && recs == Image(block, sum, R)
    ensures j == |block|
  {
    j := 0;
    while j < R
      invariant j <= |block|
    {
      if recs[j].Checksum? {
        return;
      }
      j := j + 1;
    }
  }

  /** The sizes add up to the record count. */
  lemma {:induction false} SizesAddUp(blocks: seq<seq<GradidoRecord>>)
    requires Packed(blocks, R)
    ensures Sum(Sizes(blocks)) == RecCount(blocks, R)
  {
    if blocks != [] {
      var n := |blocks| - 1;
      SizesAddUp(blocks[..n]);
      assert Sizes(blocks)[..n] == Sizes(blocks[..n]);
      if n > 0 {
        assert n * R == (n - 1) * R + R;
      }
    }
  }

  /** `get_block_record` */
  method GetBlockRecord<D>(s: Blockchain<GradidoRecord, D>, number: nat, flush: bool) returns (ok: bool, wire: Wire)
    requires s.Valid() && s.r == R
    modifies s, s.ft, s.ft.Repr
    ensures s.Valid() && fresh(s.ft.Repr - old(s.ft.Repr)) && s.blocks == old(s.blocks) && s.sums == old(s.sums)
    ensures s.validated == old(s.validated) && s.recCount == old(s.recCount)
    ensures number / R < |s.blocks| == |s.ft.view| ==> s.ft.view[number / R].handle == FileTile.Open(R)
    ensures ok <==> number / R < |s.blocks| && number % R <= |s.blocks[number / R]|
    ensures ok ==>
      wire == if number % R < |s.blocks[number / R]| then FromPayload(s.blocks[number / R][number % R]) else FromChecksum
  {
    hide FileTile.FileTile.Valid, Flatten, RecCount;
    wire := FromChecksum;
    var block := number / R;
    var count := s.GetBlockCount();
    if block >= count {
      return false, wire;
    }
    var threw, data := s.GetBlock(block, flush);
    var rec := data[..][number % R];
    if rec.Empty? {
      return false, wire;
    }
    if rec.Payload? {
      wire := FromPayload(rec.payload);
    }
    return true, wire;
  }

  /** The runs of one `BlockProvider`: it stops after a full block or at the first record that
      it does not get. */
  method ProvideBlock<D>(s: Blockchain<GradidoRecord, D>, block: nat, flush: bool) returns (stream: seq<Wire>)
    requires s.Valid() && s.r == R
    modifies s, s.ft, s.ft.Repr
    ensures s.Valid() && fresh(s.ft.Repr - old(s.ft.Repr)) && s.blocks == old(s.blocks) && s.sums == old(s.sums)
    ensures Packed(s.blocks, R) && stream == Stream(s.blocks, block)
  {
    hide FileTile.FileTile.Valid, Flatten, RecCount;
    stream := [];
    var provided, writesDone := 0, 0;
    var ok := true;
    assert Stream(s.blocks, block)[..0] == [];
    while ok
      invariant s.Valid() && fresh(s.ft.Repr - old(s.ft.Repr)) && s.blocks == old(s.blocks) && s.sums == old(s.sums)
      invariant writesDone == |stream| <= |Stream(s.blocks, block)| <= R && stream == Stream(s.blocks, block)[..|stream|]
      invariant ok ==> provided == writesDone
      invariant !ok ==> stream == Stream(s.blocks, block)
      decreases ok, R - writesDone
    {
      var number := provided + R * block;
      provided := provided + 1;
      if writesDone == R {
        ok := false;
      } else {
        var wire;
        QuotientAndRest(block, R, writesDone);
        ok, wire := GetBlockRecord(s, number, flush);
        if ok {
          stream := stream + [wire];
          writesDone := writesDone + 1;
        }
      }
    }
  }

  // ----- the receiver -----

  /** How many payloads are among the first `n` records. */
  function Taken(blocks: seq<seq<GradidoRecord>>, n: nat): (k: nat)
    ensures k <= |Flatten(blocks)|
  {
    if PayloadsBefore(n) <= |Flatten(blocks)| then PayloadsBefore(n) else |Flatten(blocks)|
  }

  /** The filter drops exactly the checksums: a record is taken over if and only if it is a
      payload, and then it is the next one. */
  lemma FilterDropsChecksums(blocks: seq<seq<GradidoRecord>>, n: nat)
    requires Packed(blocks, R) && n < RecCount(blocks, R)
    ensures Node<int>.TakesOver(n, RecCount(blocks, R)) <==> WireAt(blocks, n).FromPayload?
    ensures Taken(blocks, n + 1) == Taken(blocks, n) + if WireAt(blocks, n).FromPayload? then 1 else 0
    ensures WireAt(blocks, n).FromPayload? ==>
      && Taken(blocks, n) < |Flatten(blocks)|
      && WireAt(blocks, n).payload == Flatten(blocks)[Taken(blocks, n)]
  {
    var b, j := n / R, n % R;
    InUse(blocks, R, n);
    CountLaws(blocks, R);
    if j < |blocks[b]| {
      PositionOf(blocks, R, b, j);
    } else {
      PositionOf(blocks, R, b, j - 1);
    }
  }

  /** What the receiver makes of the bytes of a record; those of a checksum could be anything. */
  function Decode(wire: Wire, junk: GradidoRecord): GradidoRecord
  {
    match wire
    case FromPayload(payload) => payload
    case FromChecksum => junk
  }

  /** The receiver waits for records of `blocks`, has seen the first `n` of them and has stored
      the payloads among these. */
  ghost predicate Receiving<D>(node: Node<D>, blocks: seq<seq<GradidoRecord>>, n: nat)
    reads node, node.ledger, node.ledger.storage, node.ledger.storage.ft, node.ledger.storage.ft.Repr,
          node.ledger.storage.ft.tiles
  {
    && node.Valid() && node.ledger.intact && node.state == FetchingBlocks
    && node.fetchedDataCount == n && node.fetchedRecordCount == RecCount(blocks, R)
    && Packed(node.ledger.storage.blocks, R)
    && node.ledger.Payloads() == Flatten(blocks)[..Taken(blocks, n)]
  }

  /** Delivering the records from number `start` on. */
  method Deliver<D>(node: Node<D>, wires: seq<Wire>, junk: GradidoRecord, flush: bool,
                    ghost blocks: seq<seq<GradidoRecord>>, ghost start: nat)
    requires Packed(blocks, R) && start + |wires| <= RecCount(blocks, R)
    requires forall k :: 0 <= k < |wires| ==> wires[k] == WireAt(blocks, start + k)
    requires Receiving(node, blocks, start)
    modifies node, node.ledger.storage, node.ledger.storage.ft, node.ledger.storage.ft.Repr
    ensures Receiving(node, blocks, start + |wires|)
    ensures node.blockToFetch == old(node.blockToFetch) && node.fetchedChecksums == old(node.fetchedChecksums)
    ensures fresh(node.ledger.storage.ft.Repr - old(node.ledger.storage.ft.Repr))
  {
    hide Flatten, Packed, RecCount, WireAt, PayloadsBefore, Ledger.Valid, Node.InPhase;
    var k := 0;
    while k < |wires|
      invariant 0 <= k <= |wires| && Receiving(node, blocks, start + k)
      invariant node.blockToFetch == old(node.blockToFetch) && node.fetchedChecksums == old(node.fetchedChecksums)
      invariant fresh(node.ledger.storage.ft.Repr - old(node.ledger.storage.ft.Repr))
    {
      FilterDropsChecksums(blocks, start + k);
      var threw := node.OnBlockRecord(Decode(wires[k], junk), flush);
      k := k + 1;
    }
  }

  /** Delivering every record of a chain of any number of blocks to an empty node rebuilds the
      same payloads in the same blocks. */
  method DeliverAll<D>(node: Node<D>, wires: seq<Wire>, junk: GradidoRecord, flush: bool,
                       ghost blocks: seq<seq<GradidoRecord>>)
    requires Packed(blocks, R) && |wires| == RecCount(blocks, R)
    requires forall k :: 0 <= k < |wires| ==> wires[k] == WireAt(blocks, k)
    requires node.Valid() && node.ledger.intact && node.state == FetchingBlocks
    requires node.ledger.storage.blocks == [] && node.fetchedDataCount == 0
    requires node.fetchedRecordCount == RecCount(blocks, R)
    modifies node, node.ledger.storage, node.ledger.storage.ft, node.ledger.storage.ft.Repr
    ensures node.Valid() && node.ledger.intact && node.fetchedDataCount == node.fetchedRecordCount
    ensures node.ledger.storage.blocks == blocks
  {
    hide Ledger.Valid, Node.InPhase, Node.Accounted, Node.Awake, Flatten, PayloadsBefore, RecCount, WireAt, Taken, Packed;
    NothingTaken(blocks);
    node.PackedIfIntact();
    assert forall k :: 0 <= k < |wires| ==> wires[k] == WireAt(blocks, 0 + k);
    Deliver(node, wires, junk, flush, blocks, 0);
    ReceivedAll(node, blocks);
  }

  lemma NothingTaken(blocks: seq<seq<GradidoRecord>>)
    requires Packed(blocks, R)
    ensures Taken(blocks, 0) == 0 && Flatten(blocks)[..0] == Flatten<GradidoRecord>([]) == []
  {
  }

  lemma ReceivedAll<D>(node: Node<D>, blocks: seq<seq<GradidoRecord>>)
    requires Packed(blocks, R) && Receiving(node, blocks, RecCount(blocks, R))
    ensures node.ledger.storage.blocks == blocks
  {
    hide Ledger.Valid, Node.InPhase, Flatten, Packed, RecCount, PayloadsBefore;
    AllBefore(blocks);
    assert Flatten(blocks)[..|Flatten(blocks)|] == Flatten(blocks);
    PackedIsUnique(node.ledger.storage.blocks, blocks, R);
  }

  lemma AllBefore(blocks: seq<seq<GradidoRecord>>)
    requires Packed(blocks, R)
    ensures Taken(blocks, RecCount(blocks, R)) == |Flatten(blocks)|
  {
    CountLaws(blocks, R);
    if blocks != [] {
      BelowCount(blocks, R, |blocks| - 1, 0);
    }
  }

  // ----- a whole fetch -----

  lemma StreamIsWire(blocks: seq<seq<GradidoRecord>>, b: nat)
    requires Packed(blocks, R) && b < |blocks|
    ensures b * R + |Stream(blocks, b)| <= RecCount(blocks, R)
    ensures |Stream(blocks, b)| == |blocks[b]| + 1
    ensures forall k :: 0 <= k < |Stream(blocks, b)| ==> Stream(blocks, b)[k] == WireAt(blocks, b * R + k)
  {
    BelowCount(blocks, R, b, |blocks[b]|);
    forall k | 0 <= k < |Stream(blocks, b)|
      ensures Stream(blocks, b)[k] == WireAt(blocks, b * R + k)
    {
      QuotientAndRest(b, R, k);
    }
  }

  method ReceiveSizes<D>(node: Node<D>, blocks: seq<seq<GradidoRecord>>)
    requires Packed(blocks, R) && node.Valid() && node.ledger.intact && node.state == FetchingChecksums
    requires node.fetchedRecordCount == 0 && node.fetchedChecksums == 0 && !node.expectingLast
    modifies node, node.ledger
    ensures node.Valid() && node.ledger.intact && node.state == FetchingBlocks
    ensures node.fetchedRecordCount == RecCount(blocks, R) && node.fetchedChecksums == |blocks|
    ensures node.blockToFetch == 0 && node.fetchedDataCount == 0
  {
    hide Flatten, RecCount, Ledger.Valid, Node.InPhase;
    var sizes := Sizes(blocks);
    var i := 0;
    while i < |sizes|
      invariant 0 <= i <= |sizes| && node.Valid() && node.ledger.intact && node.state == FetchingChecksums
      invariant node.fetchedChecksums == i && node.fetchedRecordCount == Sum(sizes[..i])
      invariant i < |sizes| ==> !node.expectingLast
    {
      var threw := node.OnBlockChecksum(sizes[i]);
      assert sizes[..i + 1][..i] == sizes[..i];
      i := i + 1;
    }
    assert sizes[..i] == sizes;
    SizesAddUp(blocks);
    var threw := node.OnChecksumsEnd();
  }

  /** A fetch from an honest sibling that holds `blocks`: it reaches VALIDATING if and only if the
      chain has at most one block, and then the chain has been copied; otherwise the node resets. */
  method FetchRun<D>(node: Node<D>, blocks: seq<seq<GradidoRecord>>, junk: GradidoRecord, flush: bool)
    requires Packed(blocks, R) && node.Valid() && node.ledger.intact && node.state == FetchingChecksums
    requires node.fetchedRecordCount == 0 && node.fetchedChecksums == 0 && !node.expectingLast
    modifies node, node.ledger, node.ledger.storage, node.ledger.storage.ft, node.ledger.storage.ft.Repr
    ensures node.Valid()
    ensures node.state == Validating <==> |blocks| <= 1
    ensures node.state == Validating ==> node.ledger.intact && node.ledger.storage.blocks == blocks
    ensures |blocks| > 1 ==> node.state == Initial && !node.ledger.intact
  {
    assert node.ledger.storage.blocks == [];
    ReceiveSizes(node, blocks);
    FetchFirst(node, blocks, junk, flush);
    if node.state == FetchingBlocks {
      // the block after the last one: its stream is empty
      assert Stream(blocks, node.blockToFetch) == [];
      var threw := node.OnBlockEnd();
    }
  }

  /** The first block. */
  method FetchFirst<D>(node: Node<D>, blocks: seq<seq<GradidoRecord>>, junk: GradidoRecord, flush: bool)
    requires Packed(blocks, R) && node.Valid() && node.ledger.intact && node.state == FetchingBlocks
    requires node.fetchedRecordCount == RecCount(blocks, R) && node.fetchedChecksums == |blocks|
    requires node.blockToFetch == 0 && node.fetchedDataCount == 0 && node.ledger.storage.blocks == []
    modifies node, node.ledger, node.ledger.storage, node.ledger.storage.ft, node.ledger.storage.ft.Repr
    ensures node.Valid()
    ensures |blocks| == 0 ==> node.state == Validating
    ensures |blocks| == 1 ==> node.state == FetchingBlocks && node.blockToFetch == 1 == node.fetchedChecksums
    ensures |blocks| <= 1 ==>
      node.fetchedDataCount == node.fetchedRecordCount && node.ledger.intact && node.ledger.storage.blocks == blocks
    ensures |blocks| > 1 ==> node.state == Initial && !node.ledger.intact
  {
    hide Ledger.Valid;
    if |blocks| > 0 {
      StreamIsWire(blocks, 0);
      Deliver(node, Stream(blocks, node.blockToFetch), junk, flush, blocks, 0);
    }
    if |blocks| <= 1 {
      ReceivedAll(node, blocks);
    } else {
      BelowCount(blocks, R, 1, 0);
    }
    var threw := node.OnBlockEnd();
  }

  /** A sibling's request for a record of the block that is validated next: the next run of the
      validation task throws, unless a flush is due and the block is not the last one. */
  method ServeThenValidate<D>(node: Node<D>, flushServe: bool, flush: bool) returns (threw: bool)
    requires node.Valid() && node.state == Validating && node.ledger.intact && !node.ledger.storage.Complete()
    modifies node, node.ledger, node.ledger.storage, node.ledger.storage.ft, node.ledger.storage.ft.Repr
    ensures threw <==> !flush || old(node.ledger.storage.validated) == |old(node.ledger.storage.blocks)| - 1
  {
    hide Replay, Flatten, UpTo, Node.Accounted, Node.Awake, FileTile.FileTile.Valid;
    var next := node.ledger.storage.validated;
    QuotientAndRest(next, R, 0);
    var ok, wire := GetBlockRecord(node.ledger.storage, next * R, flushServe);
    threw := node.RunContinueValidation(false, flush);
  }

  /** A sibling's request for the checksums reads every block: the next run of the validation task
      throws, unless the next block is not the last one and a flush was due at the read of a later
      block or is due now. */
  method SendChecksumsThenValidate<D>(node: Node<D>, flushServe: nat -> bool, flush: bool) returns (threw: bool)
    requires node.Valid() && node.state == Validating && node.ledger.intact && !node.ledger.storage.Complete()
    modifies node, node.ledger, node.ledger.storage, node.ledger.storage.ft, node.ledger.storage.ft.Repr
    ensures var next, n := old(node.ledger.storage.validated), |old(node.ledger.storage.blocks)|;
      threw <==> next == n - 1 || (!flush && NoFlushAfter(flushServe, next, n))
  {
    hide Replay, Flatten, UpTo, Node.Accounted, Node.Awake, FileTile.FileTile.Valid, Sizes;
    var _ := GetChecksums(node.ledger.storage, flushServe);
    threw := node.RunContinueValidation(false, flush);
  }
}
