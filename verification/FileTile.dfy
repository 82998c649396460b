/**
 Tiles: one file of `size` records per block, a cached copy of it, and a file handle
 with a position. I/O is taken to succeed; what the code does with positions, lengths
 and missing files is kept.
 */
module FileTile {
  import opened Layout

  datatype TileState =
    | Ok
    | CannotOpenFile
    | ErrorWhileReading
    | CannotSyncNoRawData
    | RecIndexExceedsBounds

  datatype Handle = Closed | Open(pos: nat)

  /** The block files of one chain, by block number. */
  class Disk<T, D> {
    var files: map<nat, seq<Record<T, D>>>

    constructor (files: map<nat, seq<Record<T, D>>>)
      ensures this.files == files
    {
      this.files := files;
    }
  }

  /** Writing one record at offset `at`; a gap before it reads as zero. */
  function PutAt<T, D>(file: seq<Record<T, D>>, at: nat, rec: Record<T, D>): (written: seq<Record<T, D>>)
    ensures |written| == if at < |file| then |file| else at + 1
    ensures written[at] == rec
  {
    if at < |file| then file[at := rec] else file + seq(at - |file|, _ => Empty) + [rec]
  }

  /** Writing `data` from offset `pos` on. */
  function Overwrite<T, D>(file: seq<Record<T, D>>, pos: nat, data: seq<Record<T, D>>): (written: seq<Record<T, D>>)
    requires pos <= |file|
    ensures |written| == if pos + |data| < |file| then |file| else pos + |data|
    ensures written[pos..pos + |data|] == data
  {
    file[..pos] + data + (if pos + |data| < |file| then file[pos + |data|..] else [])
  }

  class TileDesc<T, D> {
    const index: nat
    const size: nat
    const disk: Disk<T, D>

    var state: TileState
    var fetched: array?<Record<T, D>>
    var handle: Handle

    // the supplement that `Blockchain` keeps with each tile
    var checksum: D
    var lastUse: nat

    constructor (index: nat, size: nat, disk: Disk<T, D>, zero: D)
      ensures this.index == index && this.size == size && this.disk == disk
      ensures state == Ok && fetched == null && handle == Closed
      ensures checksum == zero && lastUse == 0
    {
      this.index, this.size, this.disk := index, size, disk;
      state, fetched, handle := Ok, null, Closed;
      checksum, lastUse := zero, 0;
    }

    /** The file is there and complete, an open handle stands at its start or at its end,
        and a handle at the end means that the cached copy equals the file. */
    ghost predicate Sound()
      reads this, disk, fetched
    {
      && 0 < size
      && index in disk.files && |disk.files[index]| == size
      && (fetched != null ==> fetched.Length == size)
      && (handle.Open? ==> handle.pos == 0 || handle.pos == size)
      && (handle.Open? && handle.pos == size ==> fetched != null && fetched[..] == disk.files[index])
    }

    /** A missing file is created empty; a file of another length is refused. */
    method OpenFile() returns (ok: bool)
      modifies this`handle, this`state, disk
      ensures ok <==> old(handle).Open? || index !in old(disk.files) || |old(disk.files)[index]| == size
      ensures handle == if ok && old(handle).Closed? then Open(0) else old(handle)
      ensures disk.files ==
        if old(handle).Closed? && index !in old(disk.files) then old(disk.files)[index := []] else old(disk.files)
      ensures state == if ok then Ok else CannotOpenFile
    {
      if handle.Closed? {
        if index !in disk.files {
          disk.files := disk.files[index := []];
          handle := Open(0);
        } else if |disk.files[index]| == size {
          handle := Open(0);
        }
        if handle.Closed? {
          state := CannotOpenFile;
          return false;
        }
      }
      state := Ok;
      return true;
    }

    method CloseFile()
      modifies this`handle, this`state
      ensures handle == Closed && state == Ok
    {
      if handle.Open? {
        handle := Closed;
      }
      state := Ok;
    }

    /** Writes one record to the file only; the cached copy keeps its old contents. */
    method Write(rec: Record<T, D>, at: nat, closeOnExit: bool) returns (ok: bool)
      requires Sound()
      modifies this`handle, this`state, disk
      ensures ok <==> at < size
      ensures Sound()
      ensures disk.files == if ok then old(disk.files)[index := old(disk.files)[index][at := rec]] else old(disk.files)
      ensures handle == if !ok then old(handle) else if closeOnExit then Closed else Open(0)
      ensures state == if ok then Ok else RecIndexExceedsBounds
    {
      if at >= size {
        state := RecIndexExceedsBounds;
        return false;
      }
      var isOpen := OpenFile();
      disk.files := disk.files[index := PutAt(disk.files[index], at, rec)];
      handle := Open(0);
      if closeOnExit {
        CloseFile();
      }
      return true;
    }

    /** Writes the cached copy at the handle's position. Right after `append_tile`, when there
        is no file yet, this makes the file equal to the copy and leaves the handle at its end. */
    method SyncToFile(closeOnExit: bool) returns (ok: bool)
      requires 0 < size && (fetched != null ==> fetched.Length == size)
      requires handle.Open? ==> index in disk.files && handle.pos <= |disk.files[index]|
      modifies this`handle, this`state, disk
      ensures ok <==>
        && fetched != null
        && (old(handle).Open? || index !in old(disk.files) || |old(disk.files)[index]| == size)
      ensures ok ==>
        var pos := if old(handle).Open? then old(handle).pos else 0;
        var file := if index in old(disk.files) then old(disk.files)[index] else [];
        && disk.files == old(disk.files)[index := Overwrite(file, pos, fetched[..])]
        && handle == if closeOnExit then Closed else Open(pos + size)
      ensures !ok ==> disk.files == old(disk.files) && handle == old(handle)
      ensures state == if fetched == null then CannotSyncNoRawData else if ok then Ok else CannotOpenFile
      ensures ok && old(handle).Closed? ==> Sound() && disk.files[index] == fetched[..]
    {
      if fetched == null {
        state := CannotSyncNoRawData;
        return false;
      }
      var isOpen := OpenFile();
      if !isOpen {
        return false;
      }
      disk.files := disk.files[index := Overwrite(disk.files[index], handle.pos, fetched[..])];
      handle := Open(handle.pos + size);
      state := Ok;
      if closeOnExit {
        CloseFile();
      }
      return true;
    }

    /** Reads from the handle's position on. At the end of the file nothing is read and the
        call fails, yet the cached copy it leaves behind is the file in both cases. */
    method SyncFromFile() returns (ok: bool)
      requires Sound()
      modifies this`handle, this`state, this`fetched, disk, fetched
      ensures Sound() && disk.files == old(disk.files)
      ensures ok <==> old(handle) != Open(size)
      ensures fetched != null && fetched[..] == disk.files[index] && handle == Open(size)
      ensures if old(fetched) == null then fresh(fetched) else fetched == old(fetched)
      ensures state == if ok then Ok else ErrorWhileReading
    {
      var isOpen := OpenFile();
      AllocTileData();
      var file, pos := disk.files[index], handle.pos;
      var count := if |file| - pos < size then |file| - pos else size;
      forall j | 0 <= j < count {
        fetched[j] := file[pos + j];
      }
      handle := Open(pos + count);
      if count != size {
        state := ErrorWhileReading;
        return false;
      }
      state := Ok;
      return true;
    }

    method AllocTileData()
      modifies this`fetched
      ensures if old(fetched) == null then fresh(fetched) else fetched == old(fetched)
      ensures old(fetched) == null ==> fetched != null && fetched.Length == size
      ensures old(fetched) == null ==> forall j :: 0 <= j < size ==> fetched[j] == Empty
    {
      if fetched == null {
        fetched := new Record<T, D>[size](_ => Empty);
      }
    }

    method GetTileData() returns (data: array?<Record<T, D>>)
      modifies this`state
      ensures data == fetched && state == Ok
    {
      state := Ok;
      data := fetched;
    }

    method ReleaseFetchedData()
      modifies this`fetched, this`state
      ensures fetched == null && state == Ok
    {
      fetched := null;
      state := Ok;
    }
  }

  /** What can be said of one tile without its heap objects: the records of its file, the
      records of its cached copy if there is one, and its file handle. */
  datatype TileView<T, D> = TileView(file: seq<Record<T, D>>, copy: Copy<T, D>, handle: Handle)

  datatype Copy<T, D> = NoCopy | HasCopy(records: seq<Record<T, D>>)

  /** All tiles of a chain. `view` is their state as values; every operation states what it
      does to the view of its tile, and that it leaves the other tiles alone. */
  class FileTile<T, D> {
    const size: nat
    const zero: D
    const disk: Disk<T, D>
    var tiles: seq<TileDesc<T, D>>

    ghost var view: seq<TileView<T, D>>
    ghost var Repr: set<object>

    ghost predicate TileOk(i: nat)
      requires i < |tiles| && i < |view|
      reads this, Repr
    {
      var t, v := tiles[i], view[i];
      && t in Repr && disk in Repr && t.disk == disk && t.index == i && t.size == size
      && (t.fetched != null ==> t.fetched in Repr)
      && t.Sound()
      && t.state == Ok && t.checksum == zero && t.lastUse == 0
      && v.file == disk.files[i] && v.handle == t.handle
      && v.copy == if t.fetched == null then NoCopy else HasCopy(t.fetched[..])
    }

    static ghost predicate Apart(t: TileDesc<T, D>, u: TileDesc<T, D>)
      reads t`fetched, u`fetched
    {
      t != u && (t.fetched != null ==> t.fetched != u.fetched)
    }

    ghost predicate Valid()
      reads this, Repr, tiles
    {
      Core() && forall k :: k in disk.files <==> 0 <= k < |tiles|
    }

    ghost predicate Core()
      reads this, Repr, tiles
    {
      && this !in Repr && disk in Repr && 0 < size && |tiles| == |view|
      && (forall i {:trigger TileOk(i)} :: 0 <= i < |tiles| ==> TileOk(i))
      && (forall i, j :: 0 <= i < j < |tiles| ==> Apart(tiles[i], tiles[j]))
    }

    /** One tile per file; nothing is open or cached. */
    constructor (size: nat, zero: D, disk: Disk<T, D>, ghost files: seq<seq<Record<T, D>>>)
      requires 0 < size
      requires forall k :: k in disk.files <==> 0 <= k < |files|
      requires forall k :: 0 <= k < |files| ==> disk.files[k] == files[k] && |files[k]| == size
      ensures Valid() && fresh(Repr - {disk})
      ensures this.size == size && this.zero == zero && this.disk == disk
      ensures |view| == |files|
      ensures forall k :: 0 <= k < |files| ==> view[k] == TileView(files[k], NoCopy, Closed)
    {
      this.size, this.zero, this.disk := size, zero, disk;
      tiles, view, Repr := [], [], {disk};
      new;
      var fileCount := |disk.files|;
      KeyCount(disk.files, |files|);
      var i := 0;
      while i < fileCount
        invariant 0 <= i <= fileCount == |files| && i == |tiles|
        invariant Core() && fresh(Repr - {disk}) && disk.files == old(disk.files)
        invariant forall k :: 0 <= k < i ==> view[k] == TileView(files[k], NoCopy, Closed)
      {
        var t := new TileDesc(i, size, disk, zero);
        Push(t);
        i := i + 1;
      }
    }

    /** `tiles.push_back` of a tile that shares nothing with the others. */
    method Push(t: TileDesc<T, D>)
      requires Core() && t !in tiles
      requires t.index == |tiles| && t.size == size && t.disk == disk && t.Sound()
      requires t.state == Ok && t.checksum == zero && t.lastUse == 0
      requires t.fetched != null ==> forall k :: 0 <= k < |tiles| ==> tiles[k].fetched != t.fetched
      modifies this
      ensures Core() && tiles == old(tiles) + [t]
      ensures view == old(view) +
        [TileView(disk.files[t.index], if t.fetched == null then NoCopy else HasCopy(t.fetched[..]), t.handle)]
      ensures Repr == old(Repr) + {t} + if t.fetched == null then {} else {t.fetched}
    {
      ghost var v := TileView(disk.files[t.index], if t.fetched == null then NoCopy else HasCopy(t.fetched[..]), t.handle);
      tiles, view, Repr := tiles + [t], view + [v], Repr + {t} + if t.fetched == null then {} else {t.fetched};
      forall k | 0 <= k < |tiles| - 1
        ensures TileOk(k)
      {
        assert old(TileOk(k));
        Kept(k);
      }
    }

    static lemma {:induction false} KeyCount(files: map<nat, seq<Record<T, D>>>, n: nat)
      requires forall k :: k in files <==> 0 <= k < n
      ensures |files| == n
    {
      if n > 0 {
        KeyCount(files - {n - 1}, n - 1);
        assert files.Keys == (files - {n - 1}).Keys + {n - 1};
      } else {
        assert files == map[];
      }
    }

    /** In every valid state a handle at the end of its file means a copy equal to the file. */
    lemma AtEndMeansEqual(i: nat)
      requires Valid() && i < |view|
      ensures |view[i].file| == size
      ensures view[i].handle == Open(size) ==> view[i].copy == HasCopy(view[i].file)
      ensures view[i].copy.HasCopy? ==> |view[i].copy.records| == size
    {
      assert TileOk(i);
    }

    lemma SameCount()
      requires Valid()
      ensures |tiles| == |view|
    {
    }

    method Close(i: nat)
      requires Valid() && i < |view|
      modifies this, Repr
      ensures Valid() && Repr == old(Repr) && disk.files == old(disk.files)
      ensures view == old(view)[i := old(view)[i].(handle := Closed)]
    {
      var t := tiles[i];
      assert TileOk(i);
      t.CloseFile();
      view := view[i := view[i].(handle := Closed)];
      Others(i);
    }

    /** An operation that changes nothing of tile `k` keeps what is known of it. */
    twostate lemma Kept(k: nat)
      requires k < |old(tiles)| && k < |old(view)| && old(TileOk(k)) && old(Repr) <= Repr
      requires k < |tiles| && k < |view| && tiles[k] == old(tiles)[k] && view[k] == old(view)[k]
      requires unchanged(old(tiles)[k])
      requires old(tiles[k].fetched) != null ==> unchanged(old(tiles[k].fetched))
      requires k in disk.files && disk.files[k] == old(disk.files[k])
      ensures TileOk(k)
    {
      var t := tiles[k];
      assert t.fetched != null ==> t.fetched[..] == old(t.fetched[..]);
      assert t.Sound();
    }

    twostate lemma Others(i: nat)
      requires old(Valid()) && i < |tiles| && tiles == old(tiles) && |view| == |old(view)| && old(Repr) <= Repr
      requires forall k :: 0 <= k < |tiles| && k != i ==> view[k] == old(view)[k]
      requires forall k :: 0 <= k < |tiles| && k != i ==> unchanged(tiles[k])
      requires forall k :: 0 <= k < |tiles| && k != i && old(tiles[k].fetched) != null ==> unchanged(old(tiles[k].fetched))
      requires forall k :: 0 <= k < |tiles| && k != i ==> k in disk.files && disk.files[k] == old(disk.files)[k]
      ensures forall k :: 0 <= k < |tiles| && k != i ==> TileOk(k)
    {
      forall k | 0 <= k < |tiles| && k != i
        ensures TileOk(k)
      {
        assert old(TileOk(k));
        Kept(k);
      }
    }

    /** Drops the copy of a tile whose file is closed. */
    method Release(i: nat)
      requires Valid() && i < |view| && view[i].handle == Closed
      modifies this, Repr
      ensures Valid() && Repr == old(Repr) && disk.files == old(disk.files)
      ensures view == old(view)[i := old(view)[i].(copy := NoCopy)]
    {
      var t := tiles[i];
      assert TileOk(i);
      t.ReleaseFetchedData();
      view := view[i := view[i].(copy := NoCopy)];
      Others(i);
    }

    /** Writes a record to the file of tile `i`; its copy is not written. */
    method Write(i: nat, rec: Record<T, D>, at: nat)
      requires Valid() && i < |view| && at < size
      modifies this, Repr
      ensures Valid() && Repr == old(Repr) && at < |old(view)[i].file|
      ensures view == old(view)[i := old(view)[i].(file := old(view)[i].file[at := rec], handle := Open(0))]
    {
      var t := tiles[i];
      assert TileOk(i);
      var ok := t.Write(rec, at, false);
      view := view[i := view[i].(file := disk.files[i], handle := Open(0))];
      Others(i);
    }

    /** Brings the copy of tile `i` up to date with its file and returns it. The reading reports
        a failure if the handle was already at the end; the copy equals the file all the same. */
    method Fetch(i: nat) returns (ok: bool, data: array<Record<T, D>>)
      requires Valid() && i < |view|
      modifies this, Repr
      ensures Valid() && fresh(Repr - old(Repr)) && disk.files == old(disk.files)
      ensures ok <==> old(view)[i].handle != Open(size)
      ensures data in Repr && data[..] == old(view)[i].file
      ensures view == old(view)[i := TileView(old(view)[i].file, HasCopy(old(view)[i].file), Open(size))]
    {
      var t := tiles[i];
      assert TileOk(i);
      ok := t.SyncFromFile();
      data := t.GetTileData();
      view, Repr := view[i := TileView(view[i].file, HasCopy(view[i].file), Open(size))], Repr + {data};
      Others(i);
    }

    /** One record of the copy of tile `i`, as it was when the copy was made. */
    method CopyAt(i: nat, at: nat) returns (rec: Record<T, D>)
      requires Valid() && i < |view| && at < size && view[i].copy.HasCopy?
      ensures |view[i].copy.records| == size && rec == view[i].copy.records[at]
    {
      assert TileOk(i);
      rec := tiles[i].fetched[at];
    }

    /** A new tile whose copy starts with `rec` and `cr`, written to a new file. */
    method AppendTile(rec: Record<T, D>, cr: Record<T, D>)
      requires Valid() && 2 <= size
      modifies this, disk
      ensures Valid() && fresh(Repr - old(Repr))
      ensures |view| == |old(view)| + 1 && view[..|old(view)|] == old(view)
      ensures var v := view[|old(view)|];
        && v.copy == HasCopy(v.file) && v.handle == Open(size) && |v.file| == size
        && v.file[0] == rec && v.file[1] == cr && (forall j :: 2 <= j < size ==> v.file[j] == Empty)
    {
      var t := CreateTile(rec, cr);
      Push(t);
    }

    method CreateTile(rec: Record<T, D>, cr: Record<T, D>) returns (t: TileDesc<T, D>)
      requires Valid() && 2 <= size
      modifies disk
      ensures Core() && fresh(t) && t.fetched != null && fresh(t.fetched)
      ensures t.index == |tiles| && t.size == size && t.disk == disk && t.Sound() && t.handle == Open(size)
      ensures t.state == Ok && t.checksum == zero && t.lastUse == 0
      ensures disk.files == old(disk.files)[|tiles| := t.fetched[..]]
      ensures t.fetched[0] == rec && t.fetched[1] == cr && (forall j :: 2 <= j < size ==> t.fetched[j] == Empty)
    {
      t := NewTile(|tiles|, rec, cr);
      var ok := t.SyncToFile(false);
      forall k | 0 <= k < |tiles|
        ensures TileOk(k)
      {
        assert old(TileOk(k));
        Kept(k);
      }
    }

    method NewTile(index: nat, rec: Record<T, D>, cr: Record<T, D>) returns (t: TileDesc<T, D>)
      requires 2 <= size
      ensures fresh(t) && t.fetched != null && fresh(t.fetched) && t.fetched.Length == size
      ensures t.index == index && t.size == size && t.disk == disk && t.handle == Closed
      ensures t.state == Ok && t.checksum == zero && t.lastUse == 0
      ensures t.fetched[0] == rec && t.fetched[1] == cr && (forall j :: 2 <= j < size ==> t.fetched[j] == Empty)
    {
      t := new TileDesc(index, size, disk, zero);
      t.AllocTileData();
      t.fetched[0] := rec;
      t.fetched[1] := cr;
    }
  }
}
