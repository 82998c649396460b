/**
 Translation of a message into records: the memo and the signatures are spread over the main
 record and extra parts of fixed size.
 */
module Packing {
  import opened Values
  import opened GradidoTypes

  const PUB_KEY_LENGTH: nat := 32
  const SIGNATURE_LENGTH: nat := 64
  const MAX_RECORD_PARTS: nat := 5
  const NON_SIGNATURE_PARTS: nat := 2
  const SIGNATURES_IN_MAIN_PART: nat := 1
  const MINIMUM_SIGNATURE_COUNT: nat := 1
  const MEMO_MAIN_SIZE: nat := 16
  const MEMO_FULL_SIZE: nat := 150

  const SIZE_OF_SIGNATURE: nat := PUB_KEY_LENGTH + SIGNATURE_LENGTH
  const SIZE_OF_VALUE: nat := 8 + 4
  const SIZE_OF_TIMESTAMP: nat := 8 + 4
  const SIZE_OF_USER_TRANSFER: nat := PUB_KEY_LENGTH + SIZE_OF_VALUE + 8
  const SIZE_OF_HEDERA_TRANSACTION: nat := SIZE_OF_TIMESTAMP + 48 + 8 + 8
  const SIZE_OF_COMMON_HEADER: nat := 4 + 4 + SIZE_OF_TIMESTAMP + SIZE_OF_HEDERA_TRANSACTION
  /** Inbound and outbound transfers are the largest members of the union. */
  const SIZE_OF_BODY: nat :=
    SIZE_OF_VALUE + SIZE_OF_TIMESTAMP + PUB_KEY_LENGTH + PUB_KEY_LENGTH + SIZE_OF_USER_TRANSFER
  const SIZE_OF_TRANSACTION: nat :=
    SIZE_OF_COMMON_HEADER + SIZE_OF_SIGNATURE + 1 + 1 + SIZE_OF_BODY + 1 + MEMO_MAIN_SIZE

  const MEMO_PART_SIZE: nat :=
    if SIZE_OF_TRANSACTION > MEMO_FULL_SIZE - MEMO_MAIN_SIZE then SIZE_OF_TRANSACTION
    else MEMO_FULL_SIZE - MEMO_MAIN_SIZE
  const SIGNATURES_PER_RECORD: nat := SIZE_OF_TRANSACTION / SIZE_OF_SIGNATURE
  const MAXIMUM_SIGNATURE_COUNT: nat :=
    SIGNATURES_PER_RECORD * (MAX_RECORD_PARTS - NON_SIGNATURE_PARTS) + SIGNATURES_IN_MAIN_PART

  /** The longest memo that fits: the main part and one extra part with its terminator. */
  const LONGEST_MEMO: nat := MEMO_MAIN_SIZE + MEMO_PART_SIZE - 1

  lemma Constants()
    ensures SIZE_OF_TRANSACTION == 351 && MEMO_PART_SIZE == 351 && SIGNATURES_PER_RECORD == 3
    ensures MAXIMUM_SIGNATURE_COUNT == 10 && LONGEST_MEMO == 366
  {
  }

  const NoSignature := Signature(seq(PUB_KEY_LENGTH, _ => 0), seq(SIGNATURE_LENGTH, _ => 0))

  /** What the message says, apart from the body of the transaction. */
  datatype Message = Message(
    sigs: seq<Signature>,
    memo: seq<Byte>,
    resetMark: bool,
    sequenceNumber: nat,
    time: Timestamp,
    body: Body)

  datatype Translated = Reset | Records(records: seq<GradidoRecord>)

  /** A buffer of `n` bytes that starts with `bytes` and is zero after that. */
  function Padded(bytes: seq<Byte>, n: nat): (p: seq<Byte>)
    requires |bytes| <= n
    ensures |p| == n && p[..|bytes|] == bytes
  {
    bytes + seq(n - |bytes|, _ => 0)
  }

  function Take<T>(s: seq<T>, n: nat): seq<T>
  {
    if |s| <= n then s else s[..n]
  }

  // ----- packing -----

  predicate Multipart(memo: seq<Byte>)
  {
    |memo| > MEMO_MAIN_SIZE - 1
  }

  function MainMemo(memo: seq<Byte>): (m: seq<Byte>)
    ensures |m| == MEMO_MAIN_SIZE
  {
    if Multipart(memo) then memo[..MEMO_MAIN_SIZE] else Padded(memo, MEMO_MAIN_SIZE)
  }

  function MemoParts(memo: seq<Byte>): seq<GradidoRecord>
  {
    if Multipart(memo) then [Memo(Padded(Take(memo[MEMO_MAIN_SIZE..], MEMO_PART_SIZE - 1), MEMO_PART_SIZE))] else []
  }

  function PaddedSigs(sigs: seq<Signature>): (p: seq<Signature>)
    requires |sigs| <= SIGNATURES_PER_RECORD
    ensures |p| == SIGNATURES_PER_RECORD && p[..|sigs|] == sigs
  {
    sigs + seq(SIGNATURES_PER_RECORD - |sigs|, _ => NoSignature)
  }

  /** The signatures beyond the first, a few per record. */
  function SigParts(sigs: seq<Signature>): seq<GradidoRecord>
  {
    if sigs == [] then []
    else if |sigs| <= SIGNATURES_PER_RECORD then [Signatures(PaddedSigs(sigs))]
    else [Signatures(sigs[..SIGNATURES_PER_RECORD])] + SigParts(sigs[SIGNATURES_PER_RECORD..])
  }

  /** `signature_count` is one byte. */
  function SignatureCount(msg: Message): Byte
  {
    |msg.sigs| % 256
  }

  predicate CountAllowed(msg: Message)
  {
    MINIMUM_SIGNATURE_COUNT <= SignatureCount(msg) <= MAXIMUM_SIGNATURE_COUNT
  }

  function SigPartCount(count: nat): nat
  {
    if count <= SIGNATURES_IN_MAIN_PART then 0
    else (count - SIGNATURES_IN_MAIN_PART - 1) / SIGNATURES_PER_RECORD + 1
  }

  lemma {:induction false} SigPartsCount(sigs: seq<Signature>)
    ensures |SigParts(sigs)| == SigPartCount(|sigs| + 1)
    ensures forall i :: 0 <= i < |SigParts(sigs)| ==>
      SigParts(sigs)[i].Signatures? && |SigParts(sigs)[i].sigs| == SIGNATURES_PER_RECORD
  {
    if |sigs| > SIGNATURES_PER_RECORD {
      var rest := sigs[SIGNATURES_PER_RECORD..];
      SigPartsCount(rest);
      SigPartCountStep(|sigs|);
      assert SigParts(sigs) == [Signatures(sigs[..SIGNATURES_PER_RECORD])] + SigParts(rest);
      hide SigParts, SigPartCount;
    }
  }

  lemma SigPartCountStep(n: nat)
    requires n > SIGNATURES_PER_RECORD
    ensures SigPartCount(n + 1) == SigPartCount(n - SIGNATURES_PER_RECORD + 1) + 1
  {
    Constants();
  }

  /** `translate_from_ctr`: everything that is thrown ends in a batch that asks for a reset. */
  method Translate(msg: Message) returns (out: Translated)
    ensures out.Reset? <==> !CountAllowed(msg) || msg.resetMark
    ensures out.Records? ==> out.records == Packed(msg) && WellFormedBatch(out.records)
    ensures out.Records? ==>
      var tr := out.records[0].tr;
      && tr.sequenceNumber == msg.sequenceNumber && tr.time == msg.time && tr.body == msg.body
      && tr.result == Undecided
  {
    var count := SignatureCount(msg);
    if count < MINIMUM_SIGNATURE_COUNT || count > MAXIMUM_SIGNATURE_COUNT || msg.resetMark {
      return Reset;
    }
    var signature := msg.sigs[0];
    var multipart := false;
    var mainMemo := Padded([], MEMO_MAIN_SIZE);
    if |msg.memo| > MEMO_MAIN_SIZE - 1 {
      mainMemo := msg.memo[..MEMO_MAIN_SIZE];
      multipart := true;
    } else {
      mainMemo := msg.memo + mainMemo[|msg.memo|..];
    }
    assert mainMemo == MainMemo(msg.memo) && multipart == Multipart(msg.memo);
    var sigPartCount := SigPartCount(count);
    var parts := 1 + (if multipart then 1 else 0) + sigPartCount;
    var tr := Transaction(parts, msg.sequenceNumber, msg.time, signature, count, msg.body, Undecided, mainMemo);
    var buff := [Main(tr)];
    if multipart {
      buff := buff + [Memo(Padded(Take(msg.memo[MEMO_MAIN_SIZE..], MEMO_PART_SIZE - 1), MEMO_PART_SIZE))];
    }
    assert buff == [Main(MainRecord(msg))] + MemoParts(msg.memo);
    var sigParts := PackSignatures(msg.sigs, count, sigPartCount);
    PackedShape(msg);
    return Records(buff + sigParts);
  }

  function MainRecord(msg: Message): Transaction
    requires CountAllowed(msg)
  {
    Transaction(1 + |MemoParts(msg.memo)| + SigPartCount(SignatureCount(msg)), msg.sequenceNumber, msg.time,
                msg.sigs[0], SignatureCount(msg), msg.body, Undecided, MainMemo(msg.memo))
  }

  /** The loop over the signature parts. */
  method PackSignatures(sigs: seq<Signature>, count: nat, partCount: nat) returns (parts: seq<GradidoRecord>)
    requires 1 <= count <= |sigs| && partCount == SigPartCount(count)
    ensures parts == SigParts(sigs[1..count])
  {
    hide SigParts, SigPartCount, PaddedSigs;
    parts := [];
    var cs := SIGNATURES_IN_MAIN_PART;
    var i := 0;
    while i < partCount
      invariant 0 <= i <= partCount && 1 <= cs <= count
      invariant partCount - i == SigPartCount(count - cs + 1)
      invariant parts + SigParts(sigs[cs..count]) == SigParts(sigs[1..count])
    {
      PartsLeft(count, cs);
      var one, next := PackOne(sigs, cs, count);
      FirstSigPart(sigs, cs, count, next);
      Regroup(parts, [Signatures(one)], SigParts(sigs[next..count]));
      parts := parts + [Signatures(one)];
      cs := next;
      i := i + 1;
    }
    PartsLeft(count, cs);
    NoSigParts(sigs[cs..count]);
  }

  /** How many parts are still to come, and that one fewer is after the next. */
  lemma PartsLeft(count: nat, cs: nat)
    requires 1 <= cs <= count
    ensures SigPartCount(count - cs + 1) == 0 <==> cs == count
    ensures cs < count ==>
      var next := if count - cs <= SIGNATURES_PER_RECORD then count else cs + SIGNATURES_PER_RECORD;
      SigPartCount(count - next + 1) == SigPartCount(count - cs + 1) - 1
  {
    Constants();
    if count - cs > SIGNATURES_PER_RECORD {
      SigPartCountStep(count - cs);
    }
  }

  lemma Regroup(a: seq<GradidoRecord>, b: seq<GradidoRecord>, c: seq<GradidoRecord>)
    ensures a + (b + c) == a + b + c
  {
  }

  lemma NoSigParts(sigs: seq<Signature>)
    ensures sigs == [] ==> SigParts(sigs) == []
  {
  }

  lemma FirstSigPart(sigs: seq<Signature>, cs: nat, count: nat, next: nat)
    requires cs < count <= |sigs|
    requires next == if count - cs <= SIGNATURES_PER_RECORD then count else cs + SIGNATURES_PER_RECORD
    ensures SigParts(sigs[cs..count]) == [Signatures(PaddedSigs(sigs[cs..next]))] + SigParts(sigs[next..count])
  {
    var all := sigs[cs..count];
    if |all| > SIGNATURES_PER_RECORD {
      assert all[..SIGNATURES_PER_RECORD] == sigs[cs..next] == PaddedSigs(sigs[cs..next]);
      assert all[SIGNATURES_PER_RECORD..] == sigs[next..count];
    }
  }

  /** The inner loop: one record of signatures. */
  method PackOne(sigs: seq<Signature>, cs: nat, count: nat) returns (one: seq<Signature>, next: nat)
    requires cs < count <= |sigs|
    ensures next == if count - cs <= SIGNATURES_PER_RECORD then count else cs + SIGNATURES_PER_RECORD
    ensures one == PaddedSigs(sigs[cs..next])
  {
    one := seq(SIGNATURES_PER_RECORD, _ => NoSignature);
    next := cs;
    var j := 0;
    while j < SIGNATURES_PER_RECORD
      invariant 0 <= j <= SIGNATURES_PER_RECORD && next == cs + j <= count && (j < SIGNATURES_PER_RECORD ==> next < count)
      invariant one == sigs[cs..next] + seq(SIGNATURES_PER_RECORD - j, _ => NoSignature)
    {
      one := one[j := sigs[next]];
      next := next + 1;
      if next == count {
        break;
      }
      j := j + 1;
    }
  }

  // ----- reading back -----

  /** The bytes up to the first zero. */
  function CString(bytes: seq<Byte>): (s: seq<Byte>)
    ensures |s| <= |bytes| && s == bytes[..|s|] && 0 !in s
  {
    if bytes == [] || bytes[0] == 0 then [] else [bytes[0]] + CString(bytes[1..])
  }

  /** A main record whose memo does not end with zero is followed by a memo part. */
  predicate BigMemo(records: seq<GradidoRecord>)
  {
    && |records| > 0 && records[0].Main? && |records[0].tr.memo| == MEMO_MAIN_SIZE
    && records[0].tr.memo[MEMO_MAIN_SIZE - 1] != 0
  }

  function ReadMemo(records: seq<GradidoRecord>): seq<Byte>
    requires |records| > 0 && records[0].Main?
  {
    CString(records[0].tr.memo) +
    if BigMemo(records) && |records| > 1 && records[1].Memo? then CString(records[1].bytes) else []
  }

  function AllSignatures(parts: seq<GradidoRecord>): seq<Signature>
  {
    if parts == [] then []
    else (if parts[0].Signatures? then parts[0].sigs else []) + AllSignatures(parts[1..])
  }

  function ReadSignatures(records: seq<GradidoRecord>): seq<Signature>
    requires |records| > 0 && records[0].Main?
  {
    var rest := AllSignatures(records[1..]);
    Take([records[0].tr.signature] + rest, records[0].tr.signatureCount)
  }

  // ----- laws -----

  lemma {:induction false} CStringOfPadded(bytes: seq<Byte>, n: nat)
    requires |bytes| <= n && 0 !in bytes
    ensures CString(Padded(bytes, n)) == bytes
  {
    if bytes != [] {
      CStringOfPadded(bytes[1..], n - 1);
      assert Padded(bytes, n)[1..] == Padded(bytes[1..], n - 1);
    }
  }

  lemma {:induction false} CStringOfFull(bytes: seq<Byte>)
    requires 0 !in bytes
    ensures CString(bytes) == bytes
  {
    if bytes != [] {
      CStringOfFull(bytes[1..]);
    }
  }

  /** For a memo without zero bytes: a memo part follows exactly when the last byte of the main
      memo is not zero. */
  lemma MemoPartIff(msg: Message)
    requires CountAllowed(msg) && 0 !in msg.memo
    ensures MemoParts(msg.memo) != [] <==> MainRecord(msg).memo[MEMO_MAIN_SIZE - 1] != 0
  {
  }

  /** What is read back as memo. */
  lemma ReadBackMemo(msg: Message, rest: seq<GradidoRecord>)
    requires CountAllowed(msg) && (rest != [] ==> !rest[0].Memo?)
    ensures var records := [Main(MainRecord(msg))] + MemoParts(msg.memo) + rest;
      ReadMemo(records) == msg.memo <==> 0 !in msg.memo && |msg.memo| <= LONGEST_MEMO
  {
    var memo := msg.memo;
    var records := [Main(MainRecord(msg))] + MemoParts(memo) + rest;
    if 0 in memo {
      assert 0 !in ReadMemo(records);
    } else if Multipart(memo) {
      CStringOfFull(memo[..MEMO_MAIN_SIZE]);
      CStringOfPadded(Take(memo[MEMO_MAIN_SIZE..], MEMO_PART_SIZE - 1), MEMO_PART_SIZE);
      assert ReadMemo(records) == memo[..MEMO_MAIN_SIZE] + Take(memo[MEMO_MAIN_SIZE..], MEMO_PART_SIZE - 1);
    } else {
      CStringOfPadded(memo, MEMO_MAIN_SIZE);
      assert !BigMemo(records);
    }
  }

  lemma SigPartsSplit(sigs: seq<Signature>)
    requires |sigs| > SIGNATURES_PER_RECORD
    ensures SigParts(sigs) == [Signatures(sigs[..SIGNATURES_PER_RECORD])] + SigParts(sigs[SIGNATURES_PER_RECORD..])
  {
  }

  lemma SigPartsOne(sigs: seq<Signature>)
    requires |sigs| <= SIGNATURES_PER_RECORD
    ensures SigParts(sigs) == if sigs == [] then [] else [Signatures(PaddedSigs(sigs))] + []
  {
  }

  lemma AllSignaturesFirst(sigs: seq<Signature>, rest: seq<GradidoRecord>)
    ensures AllSignatures([Signatures(sigs)] + rest) == sigs + AllSignatures(rest)
    ensures AllSignatures([]) == []
  {
    assert ([Signatures(sigs)] + rest)[1..] == rest;
  }

  lemma FrontOfJoined<T>(first: seq<T>, front: seq<T>, all: seq<T>)
    requires |front| <= |all| && all[..|front|] == front
    ensures |first + front| <= |first + all| && (first + all)[..|first + front|] == first + front
  {
  }

  lemma {:induction false} SignaturesOfParts(sigs: seq<Signature>)
    ensures |sigs| <= |AllSignatures(SigParts(sigs))| && AllSignatures(SigParts(sigs))[..|sigs|] == sigs
  {
    hide SigParts, AllSignatures, PaddedSigs;
    if |sigs| > SIGNATURES_PER_RECORD {
      var first, rest := sigs[..SIGNATURES_PER_RECORD], sigs[SIGNATURES_PER_RECORD..];
      SignaturesOfParts(rest);
      SigPartsSplit(sigs);
      AllSignaturesFirst(first, SigParts(rest));
      FrontOfJoined(first, rest, AllSignatures(SigParts(rest)));
      assert sigs == first + rest;
    } else if sigs != [] {
      SigPartsOne(sigs);
      AllSignaturesFirst(PaddedSigs(sigs), []);
      assert PaddedSigs(sigs) + [] == PaddedSigs(sigs);
    }
  }

  /** The records of an accepted message. */
  function Packed(msg: Message): seq<GradidoRecord>
    requires CountAllowed(msg)
  {
    [Main(MainRecord(msg))] + MemoParts(msg.memo) + SigParts(msg.sigs[1..SignatureCount(msg)])
  }

  lemma PackedShape(msg: Message)
    requires CountAllowed(msg)
    ensures WellFormedBatch(Packed(msg)) && Packed(msg)[0].tr.parts == |Packed(msg)| <= MAX_RECORD_PARTS
  {
    hide SigParts;
    var count := SignatureCount(msg);
    SigPartsCount(msg.sigs[1..count]);
    Constants();
  }

  lemma PackedSignatures(msg: Message)
    requires CountAllowed(msg)
    ensures ReadSignatures(Packed(msg)) == msg.sigs[..SignatureCount(msg)]
  {
    hide SigParts, AllSignatures, MemoParts, Take, MainMemo, SigPartCount;
    var count := SignatureCount(msg);
    var sigs := msg.sigs[1..count];
    var parts, records := SigParts(sigs), Packed(msg);
    SignaturesOfParts(sigs);
    assert records[1..] == MemoParts(msg.memo) + parts;
    NoSignaturesInMemo(msg.memo, parts);
    TakeFront(msg.sigs[0], AllSignatures(parts), sigs);
    assert msg.sigs[..count] == [msg.sigs[0]] + sigs;
  }

  lemma TakeFront<T>(first: T, all: seq<T>, front: seq<T>)
    requires |front| <= |all| && all[..|front|] == front
    ensures Take([first] + all, |front| + 1) == [first] + front
  {
    assert ([first] + all)[..|front| + 1] == [first] + all[..|front|];
  }

  lemma NoSignaturesInMemo(memo: seq<Byte>, parts: seq<GradidoRecord>)
    ensures AllSignatures(MemoParts(memo) + parts) == AllSignatures(parts)
  {
    var all := MemoParts(memo) + parts;
    if Multipart(memo) {
      assert all[0].Memo? && all[1..] == parts;
      assert AllSignatures(all) == [] + AllSignatures(parts);
    } else {
      assert all == parts;
    }
  }

  /** The records of every accepted message: they form a well-formed batch of `parts` records, at
      most five; the first `signature_count` signatures are read back in order, and these are all
      signatures of the message if and only if it has fewer than 256; the memo is read back if
      and only if it has no zero byte and fits one extra part. */
  lemma RoundTrip(msg: Message)
    requires CountAllowed(msg)
    ensures WellFormedBatch(Packed(msg)) && Packed(msg)[0].tr.parts == |Packed(msg)| <= MAX_RECORD_PARTS
    ensures ReadSignatures(Packed(msg)) == msg.sigs[..SignatureCount(msg)]
    ensures ReadSignatures(Packed(msg)) == msg.sigs <==> |msg.sigs| < 256
    ensures ReadMemo(Packed(msg)) == msg.memo <==> 0 !in msg.memo && |msg.memo| <= LONGEST_MEMO
  {
    PackedShape(msg);
    PackedSignatures(msg);
    SigPartsCount(msg.sigs[1..SignatureCount(msg)]);
    ReadBackMemo(msg, SigParts(msg.sigs[1..SignatureCount(msg)]));
    hide SigParts, MemoParts, ReadMemo, ReadSignatures;
    assert |msg.sigs| < 256 ==> msg.sigs[..SignatureCount(msg)] == msg.sigs;
  }
}
