/**
 Block storage: a chain of tiles to which payloads are appended one by one, with one
 moving CHECKSUM record at the end of each block and a cache over the block files.

 Whether the flush interval has passed when an operation starts is the parameter `flush`.
 Every contract holds for both values, so flushing is never visible to callers.
 */
module BlockStorage {
  import opened Layout
  import opened Checksums
  import opened FileTile
  import opened BlockScan

  class Blockchain<T, D> {
    const r: nat                // records per block
    const optimalCacheSize: nat
    const hash: (D, T) -> D
    const zero: D
    const ft: FileTile<T, D>

    var validated: nat          // checksum_valid_block_count
    var recCount: nat

    ghost var blocks: seq<seq<T>>  // the payloads of each block file
    ghost var sums: seq<D>         // the checksum in each block file
    ghost var seen: nat            // how many payloads the cached copy of the tail shows
    ghost var seenSum: D           // the checksum that this copy shows

    // ----- invariant -----

    /** The files hold the packed payloads. */
    ghost predicate Stored()
      reads this, ft
    {
      && |ft.view| == |blocks| == |sums|
      && Packed(blocks, r)
      && forall i {:trigger ft.view[i]} :: 0 <= i < |blocks| ==> ft.view[i].file == Image(blocks[i], sums[i], r)
    }

    ghost predicate Complete()
      reads this, ft
    {
      validated == |ft.view|
    }

    /** The tail stays cached; its copy is what the file was when it last was read or opened. */
    ghost predicate TailCached()
      reads this, ft
    {
      |ft.view| > 0 && |blocks| == |sums| == |ft.view| ==>
        var n := |ft.view| - 1;
        && 1 <= seen <= |blocks[n]|
        && ft.view[n].copy == HasCopy(Image(blocks[n][..seen], seenSum, r))
        && (seen == |blocks[n]| ==> seenSum == sums[n])
    }

    /** What holds whatever the files contain. */
    ghost predicate Base()
      reads this, ft, ft.Repr, ft.tiles
    {
      && this !in ft.Repr && ft !in ft.Repr && 2 <= r && ft.size == r && ft.zero == zero
      && ft.Valid()
      && validated <= |ft.view|
    }

    ghost predicate Valid()
      reads this, ft, ft.Repr, ft.tiles
    {
      && Base()
      && Stored()
      && recCount == RecCount(blocks[..validated], r)
      && (Complete() ==> TailCached())
    }

    ghost function Payloads(): seq<T>
      reads this
    {
      Flatten(blocks)
    }

    ghost function TailState(): Tail<T, D>
      requires |blocks| == |sums| > 0
      reads this
    {
      Tail(blocks[|blocks| - 1], sums[|sums| - 1], seen)
    }

    /** The non-tail tiles that have a cached copy. */
    ghost function CachedTiles(): set<nat>
      reads ft
    {
      set i: nat | i < |ft.view| - 1 && ft.view[i].copy.HasCopy?
    }

    /** The checksum of every block is the fold over its payloads. */
    ghost predicate Folded()
      reads this
    {
      |blocks| == |sums| && forall b :: 0 <= b < |blocks| ==> sums[b] == Fold(hash, zero, blocks[b])
    }

    // ----- construction -----

    /** Opens the chain that the files of `disk` hold; nothing is validated or cached yet. */
    constructor (r: nat, optimalCacheSize: nat, hash: (D, T) -> D, zero: D, disk: Disk<T, D>,
                 ghost blocks: seq<seq<T>>, ghost sums: seq<D>)
      requires 2 <= r && |blocks| == |sums| && Packed(blocks, r)
      requires forall k :: k in disk.files <==> 0 <= k < |blocks|
      requires forall k :: 0 <= k < |blocks| ==> disk.files[k] == Image(blocks[k], sums[k], r)
      ensures Valid() && fresh(ft) && fresh(ft.Repr - {disk})
      ensures this.r == r && this.hash == hash && this.zero == zero
      ensures this.optimalCacheSize == optimalCacheSize
      ensures this.blocks == blocks && this.sums == sums && validated == 0 && recCount == 0
      ensures Unread()
    {
      this.r, this.optimalCacheSize, this.hash, this.zero := r, optimalCacheSize, hash, zero;
      this.blocks, this.sums, this.seen, this.seenSum := blocks, sums, 0, zero;
      validated, recCount := 0, 0;
      ft := new FileTile(r, zero, disk, Images(blocks, sums, r));
      new;
      assert blocks[..0] == [];
    }

    /** A chain that was opened is all there is on its disk, so that it can be opened anew. */
    lemma OnDisk()
      requires Valid()
      ensures 2 <= r && |blocks| == |sums| && Packed(blocks, r)
      ensures forall k :: k in ft.disk.files <==> 0 <= k < |blocks|
      ensures forall k :: 0 <= k < |blocks| ==> ft.disk.files[k] == Image(blocks[k], sums[k], r)
    {
      hide Image;
      forall k | 0 <= k < |blocks|
        ensures ft.disk.files[k] == Image(blocks[k], sums[k], r)
      {
        assert ft.TileOk(k);
        assert ft.view[k].file == Image(blocks[k], sums[k], r);
      }
    }

    // ----- the cache -----

    /** What a flush may do to the tiles: nothing changes in the files or at the tail, and
        other tiles may lose their handle and their copy. */
    static ghost predicate Flushed(before: seq<TileView<T, D>>, after: seq<TileView<T, D>>)
    {
      && |before| == |after|
      && (|before| > 0 ==> after[|before| - 1] == before[|before| - 1])
      && forall i {:trigger after[i]} :: 0 <= i < |before| ==>
        && after[i].file == before[i].file
        && (after[i].copy == before[i].copy || after[i].copy == NoCopy)
        && (after[i].handle == before[i].handle || after[i].handle == Closed)
    }

    /** Ordering by last use. Nothing ever writes `last_use`, so all keys are equal and the
        library sort may return any permutation; callers rely on this contract only. */
    method SortByLastUse(found: seq<nat>) returns (order: seq<nat>)
      ensures multiset(order) == multiset(found) && |order| == |found|
      ensures forall i :: i in order <==> i in found
    {
      order := found;
    }

    /** Closes all files but the tail's and drops cached copies beyond the optimal number. */
    method FlushCache()
      requires Base()
      modifies ft, ft.Repr
      ensures Base() && ft.Repr == old(ft.Repr) && ft.disk.files == old(ft.disk.files)
      ensures Flushed(old(ft.view), ft.view)
      ensures forall i :: 0 <= i < |ft.view| - 1 ==> ft.view[i].handle == Closed
      ensures CachedTiles() <= old(CachedTiles()) && |CachedTiles()| == Capped(|old(CachedTiles())|)
    {
      if |ft.tiles| > 0 {
        var found := CloseAll();
        if |found| > optimalCacheSize {
          var order := SortByLastUse(found);
          ghost var cached := CachedTiles();
          var n := |order| - optimalCacheSize;
          assert forall i :: 0 <= i < n ==> order[..n][i] in order;
          ReleaseAll(order[..n]);
          LeftOver(order, n, cached, CachedTiles());
        }
      }
    }

    method CloseAll() returns (found: seq<nat>)
      requires Base() && |ft.tiles| > 0
      modifies ft, ft.Repr
      ensures Base() && ft.Repr == old(ft.Repr) && ft.disk.files == old(ft.disk.files)
      ensures Flushed(old(ft.view), ft.view)
      ensures forall i :: 0 <= i < |ft.view| - 1 ==> ft.view[i].handle == Closed
      ensures forall i :: i in found <==> i in CachedTiles()
      ensures CachedTiles() == old(CachedTiles()) && |found| == |CachedTiles()|
    {
      hide FileTile.Valid, Lists, ClosedUpTo;
      found := [];
      var i := 0;
      ft.SameCount();
      NoneListed(ft.view);
      while i < |ft.tiles| - 1
        invariant Base() && ft.Repr == old(ft.Repr) && ft.disk.files == old(ft.disk.files)
        invariant 0 <= i <= |ft.view| - 1 && |ft.tiles| == |ft.view| == |old(ft.view)|
        invariant ClosedUpTo(old(ft.view), ft.view, i) && Lists(found, old(ft.view), i)
      {
        OneMoreListed(found, old(ft.view), ft.view, i);
        var cached := CloseOne(i);
        if cached {
          found := found + [i];
        }
        i := i + 1;
      }
      AllClosed(found, old(ft.view), ft.view);
    }

    /** The first `n` tiles have been closed, and nothing else has changed. */
    static ghost predicate ClosedUpTo(before: seq<TileView<T, D>>, after: seq<TileView<T, D>>, n: nat)
    {
      && |before| == |after|
      && forall k :: 0 <= k < |after| ==> after[k] == if k < n then before[k].(handle := Closed) else before[k]
    }

    static ghost function CopiesBelow(view: seq<TileView<T, D>>, n: nat): set<nat>
      requires n <= |view|
    {
      set k: nat | k < n && view[k].copy.HasCopy?
    }

    /** Exactly the tiles with a copy among the first `n`, each once. */
    static ghost predicate Lists(found: seq<nat>, view: seq<TileView<T, D>>, n: nat)
    {
      && n <= |view| && |found| == |CopiesBelow(view, n)|
      && forall k :: k in found <==> k in CopiesBelow(view, n)
    }

    static lemma NoneListed(view: seq<TileView<T, D>>)
      ensures Lists([], view, 0) && ClosedUpTo(view, view, 0)
    {
      assert CopiesBelow(view, 0) == {};
    }

    static lemma OneMoreListed(found: seq<nat>, before: seq<TileView<T, D>>, after: seq<TileView<T, D>>, n: nat)
      requires n < |before| && Lists(found, before, n) && ClosedUpTo(before, after, n)
      ensures n < |after| && after[n] == before[n]
      ensures ClosedUpTo(before, after[n := after[n].(handle := Closed)], n + 1)
      ensures Lists(if before[n].copy.HasCopy? then found + [n] else found, before, n + 1)
    {
      if before[n].copy.HasCopy? {
        assert CopiesBelow(before, n + 1) == CopiesBelow(before, n) + {n};
      } else {
        assert CopiesBelow(before, n + 1) == CopiesBelow(before, n);
      }
    }

    lemma AllClosed(found: seq<nat>, before: seq<TileView<T, D>>, after: seq<TileView<T, D>>)
      requires |before| > 0 && after == ft.view
      requires ClosedUpTo(before, after, |before| - 1) && Lists(found, before, |before| - 1)
      ensures Flushed(before, after) && forall i :: 0 <= i < |after| - 1 ==> after[i].handle == Closed
      ensures CachedTiles() == CopiesBelow(before, |before| - 1) && |found| == |CachedTiles()|
      ensures forall i :: i in found <==> i in CachedTiles()
    {
      assert CachedTiles() == CopiesBelow(before, |before| - 1);
    }

    method CloseOne(i: nat) returns (cached: bool)
      requires Base() && i < |ft.view|
      modifies ft, ft.Repr
      ensures Base() && ft.Repr == old(ft.Repr) && ft.disk.files == old(ft.disk.files) && |ft.tiles| == |ft.view|
      ensures ft.view == old(ft.view)[i := old(ft.view)[i].(handle := Closed)]
      ensures cached <==> old(ft.view)[i].copy.HasCopy?
    {
      assert ft.TileOk(i);
      cached := ft.tiles[i].fetched != null;
      ft.Close(i);
    }

    method ReleaseAll(victims: seq<nat>)
      requires Base() && |ft.view| > 0
      requires forall i :: 0 <= i < |ft.view| - 1 ==> ft.view[i].handle == Closed
      requires forall i :: i in victims ==> i < |ft.view| - 1
      modifies ft, ft.Repr
      ensures Base() && ft.Repr == old(ft.Repr) && ft.disk.files == old(ft.disk.files) && |ft.view| == |old(ft.view)|
      ensures forall k :: 0 <= k < |ft.view| ==>
        ft.view[k] == if k in victims then old(ft.view)[k].(copy := NoCopy) else old(ft.view)[k]
    {
      var i := 0;
      while i < |victims|
        invariant Base() && ft.Repr == old(ft.Repr) && ft.disk.files == old(ft.disk.files) && 0 <= i <= |victims| && |ft.view| == |old(ft.view)|
        invariant forall k :: 0 <= k < |ft.view| ==>
          ft.view[k] == if k in victims[..i] then old(ft.view)[k].(copy := NoCopy) else old(ft.view)[k]
      {
        assert victims[i] in victims;
        ft.Release(victims[i]);
        assert victims[..i + 1] == victims[..i] + [victims[i]];
        i := i + 1;
      }
      assert victims[..i] == victims;
    }

    /** As many copies as are kept of `n` cached ones. */
    function Capped(n: nat): nat
    {
      if n <= optimalCacheSize then n else optimalCacheSize
    }

    /** Dropping the first `n` copies of a list without repeats leaves exactly the others. */
    static lemma LeftOver(order: seq<nat>, n: nat, before: set<nat>, after: set<nat>)
      requires n <= |order| == |before| && (forall k :: k in before <==> k in order)
      requires forall k :: k in after <==> k in before && k !in order[..n]
      ensures |after| == |order| - n
    {
      assert order == order[..n] + order[n..];
      SeqBoundsSet(order[n..], after);
      SeqBoundsSet(order[..n], before - after);
    }

    static lemma {:induction false} SeqBoundsSet(s: seq<nat>, x: set<nat>)
      requires forall k :: k in x ==> k in s
      ensures |x| <= |s|
    {
      if s != [] {
        assert s == [s[0]] + s[1..];
        SeqBoundsSet(s[1..], x - {s[0]});
      }
    }

    method MaybeFlushCache(flush: bool)
      requires Base()
      modifies ft, ft.Repr
      ensures Base() && ft.Repr == old(ft.Repr) && ft.disk.files == old(ft.disk.files)
      ensures Flushed(old(ft.view), ft.view)
      ensures if flush then |CachedTiles()| == Capped(|old(CachedTiles())|) else ft.view == old(ft.view)
      ensures flush ==> forall i :: 0 <= i < |ft.view| - 1 ==> ft.view[i].handle == Closed
    {
      if flush {
        FlushCache();
      }
    }

    // ----- appending -----

    /** The checksum that a block starts from. The supplement it is taken from is zeroed when
        a tile is created and never written, so this is the zero digest for every block. */
    method GetPrevChecksum(block: nat) returns (threw: bool, sum: D)
      requires Base() && block <= |ft.view|
      ensures !threw && sum == zero
    {
      sum := zero;
      if block != 0 {
        assert ft.TileOk(block - 1);
        if ft.tiles[block - 1].state == Ok {
          sum := ft.tiles[block - 1].checksum;
        } else {
          return true, sum;
        }
      }
      return false, sum;
    }

    method Append(payload: T, flush: bool) returns (ok: bool, ec: ExitCode)
      requires Valid() && Complete()
      modifies this, ft, ft.Repr
      ensures Valid() && Complete() && fresh(ft.Repr - old(ft.Repr))
      ensures ok && ec == OK
      ensures blocks == Extend(old(blocks), payload, r)
      ensures recCount == RecCount(blocks, r)
      ensures Opens(old(blocks), r) ==> sums[..|old(sums)|] == old(sums) && TailState() == OpenTail(hash, zero, payload)
      ensures !Opens(old(blocks), r) ==>
        && sums[..|sums| - 1] == old(sums)[..|sums| - 1]
        && TailState() == PutTail(hash, zero, old(TailState()), payload)
      ensures old(Folded()) && (Opens(old(blocks), r) || Current(old(TailState()))) ==> Folded()
    {
      AppendRecord(payload, flush);
      if old(Folded()) && (Opens(old(blocks), r) || Current(old(TailState()))) {
        FoldsKept(old(blocks), old(sums), payload, sums);
      }
      return true, OK;
    }

    method AppendRecord(payload: T, flush: bool)
      requires Valid() && Complete()
      modifies this, ft, ft.Repr
      ensures Valid() && Complete() && fresh(ft.Repr - old(ft.Repr))
      ensures blocks == Extend(old(blocks), payload, r)
      ensures recCount == RecCount(blocks, r)
      ensures Opens(old(blocks), r) ==> sums == old(sums) + [hash(zero, payload)] && seen == 1
      ensures !Opens(old(blocks), r) ==>
        && sums[..|sums| - 1] == old(sums)[..|sums| - 1]
        && TailState() == PutTail(hash, zero, old(TailState()), payload)
    {
      hide FileTile.Valid, Flatten, Image;
      MaybeFlushCache(flush);
      assert blocks[..validated] == blocks;
      CountLaws(blocks, r);
      hide RecCount;
      if recCount % r == 0 {
        OpenBlock(payload);
      } else {
        PutInTail(payload);
      }
    }

    lemma FoldsKept(blocks: seq<seq<T>>, sums: seq<D>, payload: T, newSums: seq<D>)
      requires 2 <= r && Packed(blocks, r) && |sums| == |blocks| && |newSums| == |Extend(blocks, payload, r)|
      requires forall b :: 0 <= b < |newSums| - 1 ==> newSums[b] == sums[b]
      requires forall b :: 0 <= b < |blocks| ==> sums[b] == Fold(hash, zero, blocks[b])
      requires newSums[|newSums| - 1] == hash(if Opens(blocks, r) then zero else sums[|sums| - 1], payload)
      ensures forall b :: 0 <= b < |newSums| ==> newSums[b] == Fold(hash, zero, Extend(blocks, payload, r)[b])
    {
      var extended, n := Extend(blocks, payload, r), |newSums| - 1;
      forall b | 0 <= b < |newSums|
        ensures newSums[b] == Fold(hash, zero, extended[b])
      {
        if b < n {
          assert extended[b] == blocks[b];
        } else if Opens(blocks, r) {
          FoldSnoc(hash, zero, [], payload);
          assert extended[b] == [] + [payload];
        } else {
          FoldSnoc(hash, zero, blocks[n], payload);
        }
      }
    }

    method OpenBlock(payload: T)
      requires Valid() && Complete() && Opens(blocks, r)
      modifies this, ft, ft.Repr
      ensures Valid() && Complete() && fresh(ft.Repr - old(ft.Repr))
      ensures blocks == Extend(old(blocks), payload, r)
      ensures recCount == RecCount(blocks, r)
      ensures sums == old(sums) + [hash(zero, payload)] && seen == 1
    {
      hide Flatten;
      ghost var n := |ft.view|;
      var sum := OpenTile(payload);
      OpenedCount(blocks, payload, r);
      assert blocks[..n] == blocks && [payload][..1] == [payload];
      if |ft.tiles| - 1 == validated {
        validated := validated + 1;
      }
      recCount, blocks, sums, seen, seenSum := recCount + 2, blocks + [[payload]], sums + [sum], 1, sum;
      assert blocks[..validated] == blocks;
    }

    method OpenTile(payload: T) returns (sum: D)
      requires Valid()
      modifies ft, ft.Repr
      ensures ft.Valid() && this !in ft.Repr && ft !in ft.Repr && fresh(ft.Repr - old(ft.Repr))
      ensures sum == hash(zero, payload)
      ensures |ft.view| == |old(ft.view)| + 1
      ensures forall i :: 0 <= i < |old(ft.view)| ==> ft.view[i].file == old(ft.view)[i].file
      ensures var v := ft.view[|old(ft.view)|];
        v.file == Image([payload], sum, r) && v.copy == HasCopy(v.file)
    {
      var n := |ft.tiles|;
      if n > 0 {
        ft.Close(n - 1);
      }
      var threw, prev := GetPrevChecksum(n);
      sum := hash(prev, payload);
      ft.AppendTile(Payload(payload), Checksum(sum));
      ImageOfOne(ft.view[n].file, payload, sum, r);
      assert forall i :: 0 <= i < n ==> ft.view[i] == ft.view[..n][i];
    }

    static lemma OpenedCount(blocks: seq<seq<T>>, payload: T, r: nat)
      requires 2 <= r && Packed(blocks, r) && Opens(blocks, r)
      ensures RecCount(blocks + [[payload]], r) == RecCount(blocks, r) + 2
    {
    }

    static lemma ImageOfOne(records: seq<Record<T, D>>, payload: T, sum: D, r: nat)
      requires 2 <= r == |records| && records[0] == Payload(payload) && records[1] == Checksum(sum)
      requires forall j :: 2 <= j < r ==> records[j] == Empty
      ensures records == Image([payload], sum, r)
    {
    }

    /** The checksum bytes of a record; an EMPTY record is all zero. */
    function ChecksumField(rec: Record<T, D>): D
    {
      match rec
      case Checksum(sum) => sum
      case _ => zero
    }

    method PutInTail(payload: T)
      requires Valid() && Complete() && !Opens(blocks, r)
      modifies this, ft, ft.Repr
      ensures Valid() && Complete() && fresh(ft.Repr - old(ft.Repr))
      ensures blocks == Extend(old(blocks), payload, r)
      ensures recCount == RecCount(blocks, r)
      ensures sums[..|sums| - 1] == old(sums)[..|sums| - 1]
      ensures TailState() == PutTail(hash, zero, old(TailState()), payload)
    {
      hide FileTile.Valid, Flatten, Image, RecCount, Opens;
      var sum := PutInFile(payload);
      ghost var n := |blocks| - 1;
      assert blocks[..validated] == blocks;
      assert (blocks[n] + [payload])[..seen] == blocks[n][..seen];
      recCount, blocks, sums := recCount + 1, blocks[n := blocks[n] + [payload]], sums[n := sum];
      assert blocks[..validated] == blocks;
    }

    method PutInFile(payload: T) returns (sum: D)
      requires Valid() && Complete() && !Opens(blocks, r)
      modifies ft, ft.Repr
      ensures ft.Valid() && ft.Repr == old(ft.Repr)
      ensures var n := |blocks| - 1;
        var blocks', sums' := blocks[n := blocks[n] + [payload]], sums[n := sum];
        && blocks' == Extend(blocks, payload, r) && RecCount(blocks', r) == RecCount(blocks, r) + 1
        && sum == PutTail(hash, zero, TailState(), payload).sum
        && |ft.view| == n + 1 && ft.view[n].copy == old(ft.view)[n].copy
        && forall i {:trigger ft.view[i]} :: 0 <= i <= n ==> ft.view[i].file == Image(blocks'[i], sums'[i], r)
    {
      ft.SameCount();
      hide FileTile.Valid, Flatten;
      var n := |ft.tiles| - 1;
      assert blocks[..validated] == blocks;
      CountLaws(blocks, r);
      ShownChecksum(blocks[n], seen, seenSum, r);
      sum := WriteTail(payload, recCount % r);
      PutKeepsFiles(old(ft.view), ft.view, blocks, sums, payload, sum, r);
    }

    static lemma PutKeepsFiles(before: seq<TileView<T, D>>, after: seq<TileView<T, D>>,
                               blocks: seq<seq<T>>, sums: seq<D>, payload: T, sum: D, r: nat)
      requires 2 <= r && |before| == |after| == |blocks| == |sums| && Packed(blocks, r) && !Opens(blocks, r)
      requires forall i :: 0 <= i < |blocks| ==> before[i].file == Image(blocks[i], sums[i], r)
      requires var n := |blocks| - 1;
        && after[..n] == before[..n]
        && |blocks[n]| + 1 < |before[n].file|
        && after[n].file == before[n].file[|blocks[n]| := Payload(payload)][|blocks[n]| + 1 := Checksum(sum)]
      ensures var n := |blocks| - 1;
        var blocks', sums' := blocks[n := blocks[n] + [payload]], sums[n := sum];
        && blocks' == Extend(blocks, payload, r) && RecCount(blocks', r) == RecCount(blocks, r) + 1
        && forall i {:trigger after[i]} :: 0 <= i < |blocks| ==> after[i].file == Image(blocks'[i], sums'[i], r)
    {
      var n := |blocks| - 1;
      ImagePut(blocks[n], sums[n], payload, sum, r);
      hide Image, Flatten;
      assert forall i :: 0 <= i < n ==> after[i] == after[..n][i] == before[..n][i] == before[i];
    }

    method WriteTail(payload: T, pos: nat) returns (sum: D)
      requires Valid() && 1 <= pos < r && |ft.view| > 0 && ft.view[|ft.view| - 1].copy.HasCopy?
      modifies ft, ft.Repr
      ensures ft.Valid() && ft.Repr == old(ft.Repr)
      ensures var n := |old(ft.view)| - 1; var v := old(ft.view)[n];
        && |v.copy.records| == |v.file| == r
        && sum == hash(ChecksumField(v.copy.records[pos - 1]), payload)
        && |ft.view| == n + 1 && ft.view[..n] == old(ft.view)[..n] && ft.view[n].copy == v.copy
        && ft.view[n].file == v.file[pos - 1 := Payload(payload)][pos := Checksum(sum)]
    {
      var n := |ft.tiles| - 1;
      ft.AtEndMeansEqual(n);
      var shown := ft.CopyAt(n, pos - 1);
      sum := hash(ChecksumField(shown), payload);
      ft.Write(n, Payload(payload), pos - 1);
      ft.Write(n, Checksum(sum), pos);
    }

    static lemma ImagePut(block: seq<T>, sum: D, payload: T, newSum: D, r: nat)
      requires |block| + 1 < r
      ensures Image(block, sum, r)[|block| := Payload(payload)][|block| + 1 := Checksum(newSum)] ==
        Image(block + [payload], newSum, r)
    {
    }

    /** Where the last checksum is, a copy of an earlier state of the block shows EMPTY. */
    static lemma ShownChecksum(block: seq<T>, seen: nat, sum: D, r: nat)
      requires seen <= |block| < r
      ensures Image(block[..seen], sum, r)[|block|] == if seen == |block| then Checksum(sum) else Empty
    {
    }

    /** `append` of a multi-part batch; the validator accepts everything. A single record keeps
        the checksums right if the copy of the tail is up to date when the batch is appended. */
    method AppendAll(payloads: seq<T>, flush: bool) returns (ok: bool, ec: ExitCode)
      requires Valid() && Complete()
      modifies this, ft, ft.Repr
      ensures Valid() && Complete() && fresh(ft.Repr - old(ft.Repr))
      ensures ok && Payloads() == old(Payloads()) + payloads
      ensures blocks == ExtendAll(old(blocks), payloads, r)
      ensures old(Folded()) && |payloads| <= 1 && (Opens(old(blocks), r) || Current(old(TailState()))) ==> Folded()
    {
      hide FileTile.Valid, Flatten, Fold;
      ok, ec := true, OK;
      var i := 0;
      while i < |payloads|
        invariant 0 <= i <= |payloads| && Valid() && Complete() && fresh(ft.Repr - old(ft.Repr)) && ok
        invariant Payloads() == old(Payloads()) + payloads[..i]
        invariant i == 0 ==> blocks == old(blocks) && sums == old(sums) && seen == old(seen)
        invariant i <= 1 && old(Folded()) && (Opens(old(blocks), r) || Current(old(TailState()))) ==> Folded()
      {
        ok, ec := Append(payloads[i], flush);
        assert payloads[..i] + [payloads[i]] == payloads[..i + 1];
        i := i + 1;
      }
      assert payloads[..i] == payloads;
      PackedIsUnique(blocks, ExtendAll(old(blocks), payloads, r), r);
    }

    // ----- validation of existing files -----

    /** The handle of the next block to validate stands at the end of its file, and a flush that
        is due will not close it. */
    ghost predicate NextAtEnd(flush: bool)
      reads this, ft
    {
      && validated < |ft.view| && ft.view[validated].handle == Open(r)
      && !(flush && validated < |ft.view| - 1)
    }

    /** No handle of a block that is still to be validated stands at the end of its file. */
    ghost predicate Unread()
      reads this, ft
    {
      forall k :: validated <= k < |ft.view| ==> ft.view[k].handle != Open(r)
    }

    /** Scans the next block. A block that fails the scan is moved out of the way. The tests for
        full blocks hand back a nonzero exit code as their verdict, so they never refuse. Reading
        fails, and an exception is thrown, exactly when the block's handle is at the end of its
        file because somebody has read the block before. */
    method ValidateNextChecksum(flush: bool) returns (threw: bool, ok: bool, ec: ExitCode)
      requires Base()
      modifies this, ft, ft.Repr
      ensures fresh(ft.Repr - old(ft.Repr)) && blocks == old(blocks) && sums == old(sums)
      ensures threw <==> old(NextAtEnd(flush))
      ensures threw ==> !ok
      ensures old(Complete()) ==> !ok && ec == OK
      ensures !threw && !old(Complete()) ==> Explains(old(ft.view)[old(validated)].file, ec) && ok == (ec == OK)
      ensures ok ==>
        && Base() && validated == old(validated) + 1
        && old(recCount) <= recCount && CountsTo(old(ft.view)[old(validated)].file, recCount - old(recCount))
      ensures !ok ==> validated == old(validated) && recCount == old(recCount)
      ensures !ok && !threw && !old(Complete()) ==> ft.disk.files == old(ft.disk.files) - {validated}
      ensures !threw && old(Valid() && !Complete()) ==> ok && Valid() && (Complete() ==> Current(TailState()))
      ensures ok && old(Unread()) ==> Unread()
    {
      hide CountsTo, Explains;
      threw, ok, ec := false, false, OK;
      if validated >= |ft.tiles| {
        MaybeFlushCache(flush);
        return;
      }
      var recs;
      threw, recs := FetchNext(flush);
      if threw {
        return;
      }
      var hasEmpty;
      ok, ec, hasEmpty := Scan(recs);
      if old(Valid()) {
        ImageAccepted(blocks[validated], sums[validated], r);
      }
      if !ok {
        ft.disk.files := ft.disk.files - {validated};
        return;
      }
      var _, _ := GetPrevChecksum(validated);
      var n := CountRecords(recs);
      AcceptBlock(n);
    }

    method AcceptBlock(n: nat)
      requires Base() && !Complete() && CountsTo(ft.view[validated].file, n)
      requires ft.view[validated].copy == HasCopy(ft.view[validated].file)
      modifies this
      ensures Base() && validated == old(validated) + 1 && recCount == old(recCount) + n
      ensures blocks == old(blocks) && sums == old(sums)
      ensures old(Valid()) ==> Valid() && (Complete() ==> Current(TailState()))
    {
      if Valid() {
        ImageCount(blocks[validated], sums[validated], r, n);
        NextCount(blocks, validated, r);
        assert blocks[validated][..|blocks[validated]|] == blocks[validated];
        seen, seenSum := |blocks[validated]|, sums[validated];
      }
      validated, recCount := validated + 1, recCount + n;
    }

    method FetchNext(flush: bool) returns (threw: bool, recs: seq<Record<T, D>>)
      requires Base() && !Complete()
      modifies ft, ft.Repr
      ensures Base() && fresh(ft.Repr - old(ft.Repr)) && ft.disk.files == old(ft.disk.files)
      ensures |ft.view| == |old(ft.view)| && forall i :: 0 <= i < |ft.view| ==> ft.view[i].file == old(ft.view)[i].file
      ensures recs == ft.view[validated].file && ft.view[validated].copy == HasCopy(recs)
      ensures threw <==> old(NextAtEnd(flush))
      ensures forall k :: validated < k < |ft.view| ==>
        ft.view[k].handle == old(ft.view)[k].handle || ft.view[k].handle == Closed
      ensures old(Valid()) ==> Valid()
    {
      MaybeFlushCache(flush);
      var ok, data := ft.Fetch(validated);
      return !ok, data[..];
    }

    static lemma NextCount(blocks: seq<seq<T>>, n: nat, r: nat)
      requires 2 <= r && Packed(blocks, r) && n < |blocks|
      ensures RecCount(blocks[..n + 1], r) == RecCount(blocks[..n], r) + |blocks[n]| + 1
    {
      if n > 0 {
        assert blocks[..n][n - 1] == blocks[n - 1];
        assert n * r == (n - 1) * r + r;
      }
    }

    // ----- reading -----

    /** Reading a block gives exactly what its file holds, whatever was cached, evicted, written
        or read before. Reading the tail also brings its cached copy up to date. */
    method GetBlock(index: nat, flush: bool) returns (threw: bool, data: array?<Record<T, D>>)
      requires Valid()
      modifies this, ft, ft.Repr
      ensures Valid() && fresh(ft.Repr - old(ft.Repr))
      ensures blocks == old(blocks) && sums == old(sums) && recCount == old(recCount) && validated == old(validated)
      ensures threw <==> index >= |blocks|
      ensures !threw ==> data != null && data in ft.Repr && data[..] == Image(blocks[index], sums[index], r)
      ensures seen == if !threw && index == |blocks| - 1 && Complete() then |blocks[index]| else old(seen)
      ensures forall k :: 0 <= k < |ft.view| && k != index ==>
        ft.view[k].handle == if flush && k < |ft.view| - 1 then Closed else old(ft.view)[k].handle
      ensures !threw ==> ft.view[index].handle == Open(r)
    {
      MaybeFlushCache(flush);
      if index >= |ft.tiles| {
        return true, null;
      }
      var read;
      read, data := ft.Fetch(index);
      if index == |ft.tiles| - 1 && Complete() {
        assert blocks[index][..|blocks[index]|] == blocks[index];
        seen, seenSum := |blocks[index]|, sums[index];
      }
      return false, data;
    }

    /** Reading a record by its index, for a chain whose block size is `R`. */
    method GetRecord(index: nat, flush: bool) returns (rec: Record<T, D>, ec: ExitCode)
      requires Valid() && Complete() && r == R
      modifies this, ft, ft.Repr
      ensures Valid() && Complete() && fresh(ft.Repr - old(ft.Repr))
      ensures blocks == old(blocks) && sums == old(sums) && recCount == old(recCount) && validated == old(validated)
      ensures ec == if index < RecCount(blocks, r) then OK else IndexTooLarge
      ensures ec == OK ==>
        && index / r < |blocks| && rec == Image(blocks[index / r], sums[index / r], r)[index % r]
        && (rec.Payload? || rec.Checksum?)
      ensures ec == OK ==> seen == if index / r == |blocks| - 1 then |blocks[index / r]| else old(seen)
    {
      assert blocks[..validated] == blocks;
      if index >= recCount {
        return Empty, IndexTooLarge;
      }
      InUse(blocks, r, index);
      var threw, data := GetBlock(index / R, flush);
      return data[index % R], OK;
    }

    /** Reading back payload number `i` at its record position. */
    method GetPayload(i: nat, flush: bool) returns (payload: T)
      requires Valid() && Complete() && r == R && i < |Payloads()|
      modifies this, ft, ft.Repr
      ensures Valid() && Complete() && fresh(ft.Repr - old(ft.Repr)) && Payloads() == old(Payloads())
      ensures payload == Payloads()[i]
    {
      Position(blocks, r, i);
      var rec, ec := GetRecord(RecPos(i, r), flush);
      payload := rec.payload;
    }

    method GetBlockCount() returns (n: nat)
      requires Valid()
      ensures n == |blocks|
    {
      n := |ft.tiles|;
    }

    /** `get_transaction_count`: the records in use without the checksums. */
    method GetTransactionCount() returns (n: nat)
      requires Valid() && Complete()
      ensures n == |Payloads()|
    {
      assert blocks[..validated] == blocks;
      CountLaws(blocks, r);
      if recCount == 0 {
        return 0;
      }
      n := recCount - |ft.tiles|;
    }
  }

  /** Reopening: validating all files of a chain one by one restores the chain with its
      record count, ready for further appends. */
  method Reopen<T, D>(r: nat, optimalCacheSize: nat, hash: (D, T) -> D, zero: D, disk: Disk<T, D>,
                      ghost blocks: seq<seq<T>>, ghost sums: seq<D>) returns (chain: Blockchain<T, D>)
    requires 2 <= r && |blocks| == |sums| && Packed(blocks, r)
    requires forall k :: k in disk.files <==> 0 <= k < |blocks|
    requires forall k :: 0 <= k < |blocks| ==> disk.files[k] == Image(blocks[k], sums[k], r)
    modifies disk
    ensures chain.Valid() && chain.Complete() && fresh(chain) && fresh(chain.ft) && fresh(chain.ft.Repr - {disk})
    ensures chain.r == r && chain.hash == hash && chain.zero == zero
    ensures chain.blocks == blocks && chain.sums == sums && chain.recCount == RecCount(blocks, r)
    ensures blocks != [] ==> Current(chain.TailState())
  {
    chain := new Blockchain(r, optimalCacheSize, hash, zero, disk, blocks, sums);
    while chain.validated < |chain.ft.tiles|
      invariant chain.Valid() && fresh(chain.ft.Repr - {disk})
      invariant chain.blocks == blocks && chain.sums == sums && chain.Unread()
      invariant chain.Complete() && blocks != [] ==> Current(chain.TailState())
      decreases |blocks| - chain.validated
    {
      var threw, ok, ec := chain.ValidateNextChecksum(false);
    }
    assert chain.blocks[..chain.validated] == chain.blocks;
  }

  /** A read of the next block before it is validated: the validation then throws, unless a flush
      is due and the block is not the last one. */
  method ReadThenValidate<T, D>(chain: Blockchain<T, D>, flushRead: bool, flush: bool) returns (threw: bool)
    requires chain.Valid() && !chain.Complete()
    modifies chain, chain.ft, chain.ft.Repr
    ensures threw <==> !flush || old(chain.validated) == |old(chain.blocks)| - 1
  {
    var _, _ := chain.GetBlock(chain.validated, flushRead);
    var ok, ec;
    threw, ok, ec := chain.ValidateNextChecksum(flush);
  }
}
