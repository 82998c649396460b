/**
 How a sequence of payloads is laid out over fixed-size blocks of records.

 A block holds up to `r - 1` payloads, then one CHECKSUM record, then EMPTY records.
 `blocks` below always means "the payloads of each block, in order"; `Image` turns
 the payloads of one block into the records that the block's file holds.
 */
module Layout {

  /** GRADIDO_BLOCK_SIZE: the records per block of every chain of the node. */
  const R: nat := 1000

  /** One record of a block: a type byte and a union of a payload and a checksum.
      `Unknown` is any type byte other than the three that the program writes. */
  datatype Record<T, D> = Empty | Payload(payload: T) | Checksum(checksum: D) | Unknown(tag: nat)

  /** Every block but the last is full, and no block is without payload. */
  predicate Packed<T>(blocks: seq<seq<T>>, r: nat)
  {
    && (forall b :: 0 <= b < |blocks| - 1 ==> |blocks[b]| == r - 1)
    && (blocks != [] ==> 1 <= |blocks[|blocks| - 1]| <= r - 1)
  }

  /** The payloads of all blocks, in the order they were appended. */
  function Flatten<T>(blocks: seq<seq<T>>): seq<T>
  {
    if blocks == [] then [] else Flatten(blocks[..|blocks| - 1]) + blocks[|blocks| - 1]
  }

  /** The next payload opens a new block when there is no block or the last one is full. */
  predicate Opens<T>(blocks: seq<seq<T>>, r: nat)
  {
    blocks == [] || |blocks[|blocks| - 1]| == r - 1
  }

  /** Where one more payload goes. */
  function Extend<T>(blocks: seq<seq<T>>, payload: T, r: nat): (extended: seq<seq<T>>)
    requires 2 <= r && Packed(blocks, r)
    ensures Packed(extended, r)
    ensures Flatten(extended) == Flatten(blocks) + [payload]
    ensures |extended| == |blocks| + if Opens(blocks, r) then 1 else 0
  {
    if Opens(blocks, r) then
      assert (blocks + [[payload]])[..|blocks|] == blocks;
      blocks + [[payload]]
    else
      var n := |blocks| - 1;
      var extended := blocks[n := blocks[n] + [payload]];
      assert extended[..n] == blocks[..n];
      assert Flatten(extended) == Flatten(blocks[..n]) + (blocks[n] + [payload]);
      extended
  }

  function ExtendAll<T>(blocks: seq<seq<T>>, payloads: seq<T>, r: nat): (extended: seq<seq<T>>)
    requires 2 <= r && Packed(blocks, r)
    ensures Packed(extended, r)
    ensures Flatten(extended) == Flatten(blocks) + payloads
    decreases |payloads|
  {
    if payloads == [] then blocks
    else
      hide Flatten, Packed, Opens, Extend;
      var n := |payloads| - 1;
      assert payloads[..n] + [payloads[n]] == payloads;
      Extend(ExtendAll(blocks, payloads[..n], r), payloads[n], r)
  }

  /** The number of records in use, checksums included. */
  function RecCount<T>(blocks: seq<seq<T>>, r: nat): nat
  {
    if blocks == [] then 0 else (|blocks| - 1) * r + |blocks[|blocks| - 1]| + 1
  }

  /** The record index at which payload number `i` sits. */
  function RecPos(i: nat, r: nat): nat
    requires 2 <= r
  {
    (i / (r - 1)) * r + i % (r - 1)
  }

  /** How many payloads lie before record number `n` of a chain with `R` records per block. */
  function PayloadsBefore(n: nat): nat
  {
    n - n / R
  }

  /** The records of a block that holds `payloads` and the checksum `sum`. */
  function Image<T, D>(payloads: seq<T>, sum: D, r: nat): (records: seq<Record<T, D>>)
    ensures |records| == r
  {
    seq(r, k requires 0 <= k < r =>
      if k < |payloads| then Payload(payloads[k])
      else if k == |payloads| then Checksum(sum)
      else Empty)
  }

  /** The records of a whole chain, block by block. */
  function Images<T, D>(blocks: seq<seq<T>>, sums: seq<D>, r: nat): (images: seq<seq<Record<T, D>>>)
    requires |blocks| == |sums|
    ensures |images| == |blocks|
  {
    seq(|blocks|, b requires 0 <= b < |blocks| => Image(blocks[b], sums[b], r))
  }

  // ----- arithmetic -----

  lemma MulMono(a: nat, b: nat, d: nat)
    requires a <= b
    ensures a * d <= b * d
  {
    assert b * d == a * d + (b - a) * d;
  }

  lemma SplitIsUnique(q: nat, m: nat, q': nat, m': nat, d: nat)
    requires m < d && m' < d && q * d + m == q' * d + m'
    ensures q == q' && m == m'
  {
    if q < q' {
      MulMono(q + 1, q', d);
      assert false;
    }
    if q' < q {
      MulMono(q' + 1, q, d);
      assert false;
    }
  }

  lemma DivMod(i: nat, d: nat)
    requires 0 < d
    ensures i == (i / d) * d + i % d && 0 <= i % d < d && 0 <= i / d
  {
  }

  lemma QuotientAndRest(q: nat, d: nat, m: nat)
    requires 0 <= m < d
    ensures (q * d + m) / d == q && (q * d + m) % d == m
  {
    var x := q * d + m;
    assert x == (x / d) * d + x % d;
    SplitIsUnique(x / d, x % d, q, m, d);
  }

  // ----- sizes and positions -----

  lemma {:induction false} FullPrefix<T>(blocks: seq<seq<T>>, r: nat, k: nat)
    requires 2 <= r && Packed(blocks, r) && k < |blocks|
    ensures |Flatten(blocks[..k])| == k * (r - 1)
  {
    if k > 0 {
      FullPrefix(blocks, r, k - 1);
      assert blocks[..k][..k - 1] == blocks[..k - 1];
    }
  }

  lemma SizeOf<T>(blocks: seq<seq<T>>, r: nat)
    requires 2 <= r && Packed(blocks, r) && blocks != []
    ensures |Flatten(blocks)| == (|blocks| - 1) * (r - 1) + |blocks[|blocks| - 1]|
  {
    FullPrefix(blocks, r, |blocks| - 1);
  }

  lemma {:induction false} FlattenAt<T>(blocks: seq<seq<T>>, b: nat, j: nat)
    requires b < |blocks| && j < |blocks[b]|
    ensures |Flatten(blocks[..b])| + j < |Flatten(blocks)|
    ensures Flatten(blocks)[|Flatten(blocks[..b])| + j] == blocks[b][j]
  {
    var n := |blocks| - 1;
    if b < n {
      FlattenAt(blocks[..n], b, j);
      assert blocks[..n][..b] == blocks[..b];
    }
  }

  /** `rec_count` counts one checksum per block on top of the payloads, and never stops
      right after an opening payload: its rest modulo the block size is never 1. */
  lemma CountLaws<T>(blocks: seq<seq<T>>, r: nat)
    requires 2 <= r && Packed(blocks, r)
    ensures RecCount(blocks, r) == |Flatten(blocks)| + |blocks|
    ensures RecCount(blocks, r) % r != 1
    ensures RecCount(blocks, r) % r == 0 <==> Opens(blocks, r)
    ensures !Opens(blocks, r) ==> RecCount(blocks, r) % r == |blocks[|blocks| - 1]| + 1
  {
    if blocks != [] {
      var n := |blocks| - 1;
      SizeOf(blocks, r);
      hide Flatten;
      assert n * r == n * (r - 1) + n;
      var used := |blocks[n]| + 1;
      if used == r {
        assert RecCount(blocks, r) == (n + 1) * r + 0;
        QuotientAndRest(n + 1, r, 0);
      } else {
        QuotientAndRest(n, r, used);
      }
    }
  }

  lemma InBlock<T>(blocks: seq<seq<T>>, r: nat, b: nat, j: nat)
    requires 2 <= r && Packed(blocks, r)
    requires j < r - 1 && b * (r - 1) + j < |Flatten(blocks)|
    ensures b < |blocks| && j < |blocks[b]|
    ensures blocks[b][j] == Flatten(blocks)[b * (r - 1) + j]
    ensures b * r + j < RecCount(blocks, r)
  {
    hide Flatten, RecCount;
    BlockOf(blocks, r, b, j);
    FullPrefix(blocks, r, b);
    FlattenAt(blocks, b, j);
    BelowCount(blocks, r, b, j);
  }

  lemma BelowCount<T>(blocks: seq<seq<T>>, r: nat, b: nat, j: nat)
    requires 2 <= r && Packed(blocks, r) && b < |blocks| && j <= |blocks[b]|
    ensures b * r + j < RecCount(blocks, r)
  {
    var n := |blocks| - 1;
    if b < n {
      MulMono(b + 1, n, r);
      assert (b + 1) * r == b * r + r;
    }
  }

  lemma BlockOf<T>(blocks: seq<seq<T>>, r: nat, b: nat, j: nat)
    requires 2 <= r && Packed(blocks, r)
    requires j < r - 1 && b * (r - 1) + j < |Flatten(blocks)|
    ensures b < |blocks| && j < |blocks[b]|
  {
    assert blocks != [];
    hide Flatten;
    var n := |blocks| - 1;
    SizeOf(blocks, r);
    if b > n {
      MulMono(n + 1, b, r - 1);
      assert false;
    }
  }

  /** Payload `i` is found in block `i / (r - 1)` at offset `i % (r - 1)`; as a record
      index this is `RecPos`, which division and rest by the block size take apart again. */
  lemma Position<T>(blocks: seq<seq<T>>, r: nat, i: nat)
    requires 2 <= r && Packed(blocks, r) && i < |Flatten(blocks)|
    ensures i / (r - 1) < |blocks| && i % (r - 1) < |blocks[i / (r - 1)]|
    ensures blocks[i / (r - 1)][i % (r - 1)] == Flatten(blocks)[i]
    ensures RecPos(i, r) / r == i / (r - 1) && RecPos(i, r) % r == i % (r - 1)
    ensures RecPos(i, r) < RecCount(blocks, r)
  {
    hide Flatten, Packed, RecCount;
    var b, j := i / (r - 1), i % (r - 1);
    DivMod(i, r - 1);
    InBlock(blocks, r, b, j);
    QuotientAndRest(b, r, j);
  }

  /** The inverse of `Position`: offset `j` of block `b` is payload `b * (r - 1) + j`. */
  lemma PositionOf<T>(blocks: seq<seq<T>>, r: nat, b: nat, j: nat)
    requires 2 <= r && Packed(blocks, r) && b < |blocks| && j < |blocks[b]|
    ensures b * (r - 1) + j < |Flatten(blocks)|
    ensures Flatten(blocks)[b * (r - 1) + j] == blocks[b][j]
    ensures RecPos(b * (r - 1) + j, r) == b * r + j
  {
    FullPrefix(blocks, r, b);
    FlattenAt(blocks, b, j);
    QuotientAndRest(b, r - 1, j);
  }

  /** The next payload lands at the record count when it opens a block, and otherwise takes the
      place of the last checksum. */
  lemma LandsAt<T>(blocks: seq<seq<T>>, r: nat)
    requires 2 <= r && Packed(blocks, r)
    ensures RecPos(|Flatten(blocks)|, r) == if Opens(blocks, r) then RecCount(blocks, r) else RecCount(blocks, r) - 1
  {
    if blocks == [] {
      QuotientAndRest(0, r - 1, 0);
    } else {
      var n := |blocks| - 1;
      FullPrefix(blocks, r, n);
      if Opens(blocks, r) {
        assert |Flatten(blocks)| == (n + 1) * (r - 1) + 0;
        QuotientAndRest(n + 1, r - 1, 0);
        assert (n + 1) * r == n * r + r;
      } else {
        QuotientAndRest(n, r - 1, |blocks[n]|);
      }
    }
  }

  /** Every record index below the count lies in some block, on a payload or on its checksum. */
  lemma InUse<T>(blocks: seq<seq<T>>, r: nat, index: nat)
    requires 2 <= r && Packed(blocks, r) && index < RecCount(blocks, r)
    ensures index / r < |blocks| && index % r <= |blocks[index / r]|
  {
    var b, j, n := index / r, index % r, |blocks| - 1;
    assert index == b * r + j;
    if b > n {
      MulMono(n + 1, b, r);
      assert false;
    }
  }

  /** The layout is canonical: the payload sequence alone determines the blocks. */
  lemma {:induction false} PackedIsUnique<T>(a: seq<seq<T>>, b: seq<seq<T>>, r: nat)
    requires 2 <= r && Packed(a, r) && Packed(b, r) && Flatten(a) == Flatten(b)
    ensures a == b
  {
    CountLaws(a, r);
    CountLaws(b, r);
    if a != [] && b != [] {
      SameBlockCount(a, b, r);
      forall k | 0 <= k < |a|
        ensures a[k] == b[k]
      {
        SameBlock(a, b, r, k);
      }
    }
  }

  lemma SameBlockCount<T>(a: seq<seq<T>>, b: seq<seq<T>>, r: nat)
    requires 2 <= r && Packed(a, r) && Packed(b, r) && |Flatten(a)| == |Flatten(b)|
    requires a != [] && b != []
    ensures |a| == |b| && |a[|a| - 1]| == |b[|a| - 1]|
  {
    hide Flatten;
    var m, n := |a| - 1, |b| - 1;
    SizeOf(a, r);
    SizeOf(b, r);
    SplitIsUnique(m, |a[m]| - 1, n, |b[n]| - 1, r - 1);
  }

  lemma SameBlock<T>(a: seq<seq<T>>, b: seq<seq<T>>, r: nat, k: nat)
    requires 2 <= r && Packed(a, r) && Packed(b, r) && Flatten(a) == Flatten(b)
    requires |a| == |b| && k < |a| && |a[|a| - 1]| == |b[|a| - 1]|
    ensures a[k] == b[k]
  {
    assert |a[k]| == |b[k]|;
    forall j | 0 <= j < |a[k]|
      ensures a[k][j] == b[k][j]
    {
      PositionOf(a, r, k, j);
      PositionOf(b, r, k, j);
    }
  }

  /** Appending the payloads of any packed chain to an empty chain rebuilds that chain. */
  lemma Rebuild<T>(blocks: seq<seq<T>>, r: nat)
    requires 2 <= r && Packed(blocks, r)
    ensures ExtendAll<T>([], Flatten(blocks), r) == blocks
  {
    var again := ExtendAll<T>([], Flatten(blocks), r);
    assert Flatten<T>([]) + Flatten(blocks) == Flatten(blocks);
    PackedIsUnique(again, blocks, r);
  }
}
