/**
 The checksum that a block ends up with, as a function of the payloads appended to it
 and of when the block was read in between.

 `append` takes the previous checksum from the cached copy of the tail block, and that
 copy follows the file only when the block is read. `Tail` keeps the number of payloads
 that the cached copy shows (`seen`).
 */
module Checksums {

  /** The left fold of the hash: what the checksum of a block is meant to be. */
  function Fold<T, D>(hash: (D, T) -> D, zero: D, payloads: seq<T>): D
  {
    if payloads == [] then zero
    else hash(Fold(hash, zero, payloads[..|payloads| - 1]), payloads[|payloads| - 1])
  }

  datatype Tail<T, D> = Tail(payloads: seq<T>, sum: D, seen: nat)

  datatype Op<T> = Put(payload: T) | Read

  function OpenTail<T, D>(hash: (D, T) -> D, zero: D, payload: T): Tail<T, D>
  {
    Tail([payload], hash(zero, payload), 1)
  }

  predicate Current<T, D>(t: Tail<T, D>)
  {
    t.seen == |t.payloads|
  }

  /** A stale cached copy shows an EMPTY record, all zero, where the checksum is. */
  function PutTail<T, D>(hash: (D, T) -> D, zero: D, t: Tail<T, D>, payload: T): Tail<T, D>
  {
    Tail(t.payloads + [payload], hash(if Current(t) then t.sum else zero, payload), t.seen)
  }

  function ReadTail<T, D>(t: Tail<T, D>): Tail<T, D>
  {
    t.(seen := |t.payloads|)
  }

  function Apply<T, D>(hash: (D, T) -> D, zero: D, t: Tail<T, D>, op: Op<T>): Tail<T, D>
  {
    match op
    case Put(payload) => PutTail(hash, zero, t, payload)
    case Read => ReadTail(t)
  }

  /** The tail after a block was opened with `first` and then went through `ops`. */
  function Run<T, D>(hash: (D, T) -> D, zero: D, first: T, ops: seq<Op<T>>): Tail<T, D>
  {
    if ops == [] then OpenTail(hash, zero, first)
    else Apply(hash, zero, Run(hash, zero, first, ops[..|ops| - 1]), ops[|ops| - 1])
  }

  /** The number of payloads of a block after `ops`, and how many of them its copy shows. */
  function Sizes<T>(ops: seq<Op<T>>): (n: (nat, nat))
    ensures n.1 <= n.0
  {
    if ops == [] then (1, 1)
    else
      var (all, seen) := Sizes(ops[..|ops| - 1]);
      match ops[|ops| - 1]
      case Put(_) => (all + 1, seen)
      case Read => (all, all)
  }

  /** Every append found the cached copy up to date. */
  predicate AllFresh<T>(ops: seq<Op<T>>)
  {
    ops != [] ==>
      && AllFresh(ops[..|ops| - 1])
      && (ops[|ops| - 1].Put? ==> Sizes(ops[..|ops| - 1]).0 == Sizes(ops[..|ops| - 1]).1)
  }

  /** The number of the payload from which the checksum counts: the last one whose append
      found a stale copy, or 0. */
  function Start<T>(ops: seq<Op<T>>): nat
  {
    if ops == [] then 0
    else
      var before := ops[..|ops| - 1];
      if ops[|ops| - 1].Put? && Sizes(before).0 != Sizes(before).1 then Sizes(before).0
      else Start(before)
  }

  lemma {:induction false} FoldSnoc<T, D>(hash: (D, T) -> D, zero: D, payloads: seq<T>, last: T)
    ensures Fold(hash, zero, payloads + [last]) == hash(Fold(hash, zero, payloads), last)
  {
    assert (payloads + [last])[..|payloads|] == payloads;
  }

  lemma {:induction false} RunSizes<T, D>(hash: (D, T) -> D, zero: D, first: T, ops: seq<Op<T>>)
    ensures |Run(hash, zero, first, ops).payloads| == Sizes(ops).0
    ensures Run(hash, zero, first, ops).seen == Sizes(ops).1
    ensures Start(ops) < Sizes(ops).0
  {
    if ops != [] {
      RunSizes(hash, zero, first, ops[..|ops| - 1]);
    }
  }

  /** For every hash and every order of appends and reads, the stored checksum is the fold
      over the payloads since the last stale append. */
  lemma {:induction false} ChecksumLaw<T, D>(hash: (D, T) -> D, zero: D, first: T, ops: seq<Op<T>>)
    ensures Start(ops) < |Run(hash, zero, first, ops).payloads|
    ensures var t := Run(hash, zero, first, ops);
      t.sum == Fold(hash, zero, t.payloads[Start(ops)..])
  {
    RunSizes(hash, zero, first, ops);
    var t := Run(hash, zero, first, ops);
    if ops == [] {
      FoldSnoc(hash, zero, [], first);
      assert [] + [first] == t.payloads[0..];
    } else {
      var before, op := ops[..|ops| - 1], ops[|ops| - 1];
      var u := Run(hash, zero, first, before);
      RunSizes(hash, zero, first, before);
      ChecksumLaw(hash, zero, first, before);
      if op.Put? {
        if Current(u) {
          FoldSnoc(hash, zero, u.payloads[Start(before)..], op.payload);
          assert u.payloads[Start(before)..] + [op.payload] == t.payloads[Start(before)..];
        } else {
          FoldSnoc(hash, zero, [], op.payload);
          assert [] + [op.payload] == t.payloads[Start(ops)..];
        }
      }
    }
  }

  lemma {:induction false} FreshFromStart<T>(ops: seq<Op<T>>)
    ensures AllFresh(ops) <==> Start(ops) == 0
    ensures Sizes(ops).0 >= 1
  {
    if ops != [] {
      FreshFromStart(ops[..|ops| - 1]);
    }
  }

  /** If every append found the copy up to date, the checksum is the fold over the block. */
  lemma FreshChecksum<T, D>(hash: (D, T) -> D, zero: D, first: T, ops: seq<Op<T>>)
    requires AllFresh(ops)
    ensures var t := Run(hash, zero, first, ops); t.sum == Fold(hash, zero, t.payloads)
  {
    ChecksumLaw(hash, zero, first, ops);
    FreshFromStart(ops);
    var t := Run(hash, zero, first, ops);
    assert t.payloads[0..] == t.payloads;
  }

  /** A hash without collisions: the digest is the list of what was hashed. */
  function Trace<T>(digest: seq<T>, payload: T): seq<T> { digest + [payload] }

  lemma {:induction false} TraceFold<T>(payloads: seq<T>)
    ensures Fold(Trace, [], payloads) == payloads
  {
    if payloads != [] {
      TraceFold(payloads[..|payloads| - 1]);
    }
  }

  /** The condition is exact: with a collision-free hash the checksum covers the block if
      and only if no append found a stale copy. */
  lemma ChecksumCoversBlockIff<T>(first: T, ops: seq<Op<T>>)
    ensures var t := Run(Trace, [], first, ops);
      t.sum == Fold(Trace, [], t.payloads) <==> AllFresh(ops)
  {
    var t := Run(Trace, [], first, ops);
    ChecksumLaw(Trace, [], first, ops);
    FreshFromStart(ops);
    TraceFold(t.payloads);
    TraceFold(t.payloads[Start(ops)..]);
    if Start(ops) > 0 {
      assert |t.payloads[Start(ops)..]| < |t.payloads|;
    } else {
      assert t.payloads[0..] == t.payloads;
    }
  }

  /** The shortest failing case: three appends to one block with no read in between. */
  lemma ThreeAppendsLoseThePrefix<T>(a: T, b: T, c: T)
    ensures Run(Trace, [], a, [Put(b), Put(c)]).sum == [c]
    ensures Fold(Trace, [], [a, b, c]) == [a, b, c]
  {
    var ops := [Put(b), Put(c)];
    assert ops[..1] == [Put(b)] && [Put(b)][..0] == [];
    assert Trace([], a) == [a] && Trace([a], b) == [a, b] && Trace([], c) == [c];
    assert Run(Trace, [], a, []) == Tail([a], [a], 1);
    assert Run(Trace, [], a, [Put(b)]) == Tail([a, b], [a, b], 1);
    assert [a, b] + [c] == [a, b, c];
    assert Run(Trace, [], a, ops) == Tail([a, b, c], [c], 1);
    TraceFold([a, b, c]);
  }
}
