/**
 The scan that `validate_block` makes over the records of a block, and the grammar of
 the blocks it accepts.
 */
module BlockScan {
  import opened Layout

  datatype ExitCode =
    | OK
    | NonEmptyRecordAfterChecksum
    | EmptyRecordBeforeChecksum
    | NoPayload
    | NoChecksum
    | WriteError
    | IndexTooLarge

  /** No CHECKSUM and no EMPTY record among the first `k`. */
  predicate Body<T, D>(recs: seq<Record<T, D>>, k: nat)
    requires k <= |recs|
  {
    forall j :: 0 <= j < k ==> !recs[j].Checksum? && !recs[j].Empty?
  }

  predicate HasPayload<T, D>(recs: seq<Record<T, D>>, k: nat)
    requires k <= |recs|
  {
    exists j :: 0 <= j < k && recs[j].Payload?
  }

  predicate RestEmpty<T, D>(recs: seq<Record<T, D>>, k: nat)
  {
    forall j :: k <= j < |recs| ==> recs[j].Empty?
  }

  /** The body of the block is ended by the record at `k`. */
  predicate BodyEndsAt<T, D>(recs: seq<Record<T, D>>, k: nat)
  {
    k < |recs| && Body(recs, k) && (recs[k].Checksum? || recs[k].Empty?)
  }

  /** A first CHECKSUM at `k`, at least one PAYLOAD and no EMPTY before it, only EMPTY after it. */
  predicate AcceptedAt<T, D>(recs: seq<Record<T, D>>, k: nat)
  {
    BodyEndsAt(recs, k) && recs[k].Checksum? && HasPayload(recs, k) && RestEmpty(recs, k + 1)
  }

  predicate Accepted<T, D>(recs: seq<Record<T, D>>)
  {
    exists k: nat | k < |recs| :: AcceptedAt(recs, k)
  }

  /** The exit code that belongs to each shape of block. */
  predicate Explains<T, D>(recs: seq<Record<T, D>>, ec: ExitCode)
  {
    match ec
    case OK => Accepted(recs)
    case NoChecksum => Body(recs, |recs|)
    case EmptyRecordBeforeChecksum => exists k: nat | k < |recs| :: BodyEndsAt(recs, k) && recs[k].Empty?
    case NoPayload =>
      exists k: nat | k < |recs| :: BodyEndsAt(recs, k) && recs[k].Checksum? && !HasPayload(recs, k)
    case NonEmptyRecordAfterChecksum =>
      exists k: nat | k < |recs| ::
        BodyEndsAt(recs, k) && recs[k].Checksum? && HasPayload(recs, k) && !RestEmpty(recs, k + 1)
    case _ => false
  }

  /** The exit codes exclude each other: a block has exactly one explanation. */
  lemma OneExplanation<T, D>(recs: seq<Record<T, D>>, a: ExitCode, b: ExitCode)
    requires Explains(recs, a) && Explains(recs, b)
    ensures a == b
  {
    forall k: nat, k': nat | BodyEndsAt(recs, k) && BodyEndsAt(recs, k')
      ensures k == k'
    {
    }
  }

  /** The scan, with the source's three flags. */
  method Scan<T, D>(recs: seq<Record<T, D>>) returns (ok: bool, ec: ExitCode, hasEmpty: bool)
    ensures ok <==> Accepted(recs)
    ensures ok == (ec == OK) && Explains(recs, ec)
    ensures ok ==> (hasEmpty <==> !recs[|recs| - 1].Checksum?)
  {
    var finished, hasPayload := false, false;
    hasEmpty := false;
    ghost var end: nat := 0;
    var i := 0;
    while i < |recs|
      invariant 0 <= i <= |recs|
      invariant !finished ==> Body(recs, i) && (hasPayload <==> HasPayload(recs, i)) && !hasEmpty
      invariant finished ==> end < i && BodyEndsAt(recs, end) && recs[end].Checksum? && HasPayload(recs, end)
      invariant finished ==> forall j :: end < j < i ==> recs[j].Empty?
      invariant finished ==> (hasEmpty <==> end + 1 < i)
    {
      if finished {
        if !recs[i].Empty? {
          assert !RestEmpty(recs, end + 1);
          assert Explains(recs, NonEmptyRecordAfterChecksum);
          NotAccepted(recs, NonEmptyRecordAfterChecksum);
          return false, NonEmptyRecordAfterChecksum, hasEmpty;
        } else {
          hasEmpty := true;
        }
      } else {
        if recs[i].Payload? {
          hasPayload := true;
        } else if recs[i].Empty? {
          assert BodyEndsAt(recs, i);
          NotAccepted(recs, EmptyRecordBeforeChecksum);
          return false, EmptyRecordBeforeChecksum, hasEmpty;
        } else if recs[i].Checksum? {
          assert BodyEndsAt(recs, i);
          if !hasPayload {
            assert !HasPayload(recs, i);
            NotAccepted(recs, NoPayload);
            return false, NoPayload, hasEmpty;
          }
          finished := true;
          end := i;
        }
      }
      i := i + 1;
    }
    if !finished {
      NotAccepted(recs, NoChecksum);
      return false, NoChecksum, hasEmpty;
    }
    assert AcceptedAt(recs, end);
    return true, OK, hasEmpty;
  }

  lemma NotAccepted<T, D>(recs: seq<Record<T, D>>, ec: ExitCode)
    requires Explains(recs, ec) && ec != OK
    ensures !Accepted(recs)
  {
    if Accepted(recs) {
      OneExplanation(recs, ec, OK);
    }
  }

  /** `n` records come before the first EMPTY one. */
  predicate CountsTo<T, D>(recs: seq<Record<T, D>>, n: nat)
  {
    n <= |recs| && (forall j :: 0 <= j < n ==> !recs[j].Empty?) && (n < |recs| ==> recs[n].Empty?)
  }

  method CountRecords<T, D>(recs: seq<Record<T, D>>) returns (n: nat)
    ensures CountsTo(recs, n)
  {
    n := 0;
    while n < |recs|
      invariant n <= |recs| && forall j :: 0 <= j < n ==> !recs[j].Empty?
    {
      if recs[n].Empty? {
        break;
      }
      n := n + 1;
    }
  }

  /** Every block that holds at least one payload and has room for its checksum is accepted;
      it shows EMPTY records exactly when it is not full. */
  lemma ImageAccepted<T, D>(payloads: seq<T>, sum: D, r: nat)
    requires 1 <= |payloads| < r
    ensures Accepted(Image(payloads, sum, r))
    ensures Image(payloads, sum, r)[r - 1].Checksum? <==> |payloads| == r - 1
  {
    var recs := Image(payloads, sum, r);
    assert recs[0].Payload?;
    assert AcceptedAt(recs, |payloads|);
    assert recs[|payloads|] == Checksum(sum);
  }

  lemma ImageCount<T, D>(payloads: seq<T>, sum: D, r: nat, n: nat)
    requires |payloads| < r && CountsTo(Image(payloads, sum, r), n)
    ensures n == |payloads| + 1
  {
    var recs := Image(payloads, sum, r);
    assert forall j :: 0 <= j < |payloads| ==> recs[j].Payload?;
    assert recs[|payloads|].Checksum?;
    assert |payloads| + 1 < r ==> recs[|payloads| + 1].Empty?;
  }

  /** Conversely, an accepted block without unknown record types is the image of its payloads. */
  lemma AcceptedIsImage<T, D>(recs: seq<Record<T, D>>) returns (payloads: seq<T>, sum: D)
    requires Accepted(recs) && forall j :: 0 <= j < |recs| ==> !recs[j].Unknown?
    ensures 1 <= |payloads| < |recs| && recs == Image(payloads, sum, |recs|)
  {
    var k: nat :| k < |recs| && AcceptedAt(recs, k);
    payloads := seq(k, j requires 0 <= j < k => recs[j].payload);
    sum := recs[k].checksum;
  }

  /** Every block of a packed chain passes the scan, and all but the last are full. */
  lemma ChainAccepted<T, D>(blocks: seq<seq<T>>, sums: seq<D>, r: nat, b: nat)
    requires 2 <= r && Packed(blocks, r) && |blocks| == |sums| && b < |blocks|
    ensures Accepted(Images(blocks, sums, r)[b])
    ensures b < |blocks| - 1 ==> Images(blocks, sums, r)[b][r - 1].Checksum?
  {
    ImageAccepted(blocks[b], sums[b], r);
  }
}
