/**
 The pool of large arrays: three singly linked lists of items that are relinked in place.
 An item is without payload, or ready with the array it keeps, or stands for an array that
 is in use.
 */
module MemoryPool {

  class Item<T> {
    var next: Item?<T>
    var payload: array?<T>

    constructor ()
      ensures next == null && payload == null
    {
      next, payload := null, null;
    }
  }

  class ItemList<T> {
    var first: Item?<T>
    var count: nat

    ghost var nodes: seq<Item<T>>  // the items along the links

    /** The links run through `nodes` and end; no item occurs twice. */
    ghost predicate Valid()
      reads this, nodes
      ensures Valid() ==> count == |nodes| && first == if nodes == [] then null else nodes[0]
      ensures Valid() && nodes != [] ==> nodes[0] !in nodes[1..]
    {
      && count == |nodes|
      && (first == if nodes == [] then null else nodes[0])
      && (forall i, j :: 0 <= i < j < |nodes| && j == i + 1 ==> nodes[i].next == nodes[j])
      && (nodes != [] ==> nodes[|nodes| - 1].next == null)
      && (forall i, j :: 0 <= i < j < |nodes| ==> nodes[i] != nodes[j])
    }

    constructor ()
      ensures Valid() && nodes == []
    {
      first, count, nodes := null, 0, [];
    }

    method Push(item: Item<T>)
      requires Valid() && item !in nodes
      modifies this, item`next
      ensures Valid() && nodes == [item] + old(nodes)
    {
      if first != null {
        item.next := first;
      } else {
        item.next := null;
      }
      first, count := item, count + 1;
      nodes := [item] + nodes;
      assert forall i :: 0 < i < |nodes| ==> nodes[i] == old(nodes)[i - 1] && nodes[i].next == old(nodes[i - 1].next);
    }

    method Pop() returns (item: Item<T>)
      requires Valid() && nodes != []
      modifies this, first
      ensures Valid() && item == old(nodes)[0] && nodes == old(nodes)[1..]
      ensures item !in nodes && item.next == null && item.payload == old(nodes[0].payload)
    {
      assert nodes[0].next == if 1 < |nodes| then nodes[1] else null;
      item := first;
      first := first.next;
      item.next := null;
      count := count - 1;
      nodes := nodes[1..];
      assert forall i :: 0 <= i < |nodes| ==> nodes[i] == old(nodes)[i + 1] && nodes[i].next == old(nodes[i + 1].next);
    }

    /** Deletes the payload of the first item and moves the item to another list. */
    method DisposeFirst(into: ItemList<T>)
      requires Valid() && into.Valid() && this != into && nodes != []
      requires forall x :: x in nodes ==> x !in into.nodes
      modifies this, into, first
      ensures Valid() && nodes == old(nodes)[1..]
      ensures into.Valid() && into.nodes == [old(nodes)[0]] + old(into.nodes)
      ensures old(nodes)[0].payload == null
    {
      assert nodes[0].next == if 1 < |nodes| then nodes[1] else null;
      var p := first.next;
      first.payload := null;
      into.Push(first);
      first := p;
      count := count - 1;
      nodes := nodes[1..];
      assert forall i :: 0 <= i < |nodes| ==> nodes[i] == old(nodes)[i + 1] && nodes[i].next == old(nodes[i + 1].next);
    }
  }

  /** Following the links for up to `n` steps, within a set of items. */
  ghost function Follow<T>(item: Item?<T>, n: nat, items: set<Item<T>>): Item?<T>
    reads items
  {
    if n == 0 || item == null || item !in items then item else Follow(item.next, n - 1, items)
  }

  /** Acyclic: from any item of a valid list the links come to an end. */
  lemma {:induction false} ListEnds<T>(list: ItemList<T>, i: nat)
    requires list.Valid() && i < |list.nodes|
    ensures Follow(list.nodes[i], |list.nodes| - i, set x | x in list.nodes) == null
    decreases |list.nodes| - i
  {
    assert list.nodes[i].next == if i + 1 < |list.nodes| then list.nodes[i + 1] else null;
    if i + 1 < |list.nodes| {
      ListEnds(list, i + 1);
    }
  }

  class Pool<T> {
    const tcount: nat
    const blockSize: nat
    const zero: T

    const noPayload: ItemList<T>
    const ready: ItemList<T>
    const used: ItemList<T>

    ghost var readyArrays: seq<array<T>>    // the payloads of the ready items
    ghost var outstanding: set<array<T>>    // handed out and not released
    ghost var freed: set<array<T>>          // deleted
    ghost var allItems: set<Item<T>>        // all items ever allocated

    ghost predicate Lists()
      reads `allItems, noPayload, ready, used, noPayload.nodes, ready.nodes, used.nodes
    {
      && noPayload != ready && noPayload != used && ready != used
      && noPayload.Valid() && ready.Valid() && used.Valid()
      && Partition(noPayload.nodes, ready.nodes, used.nodes, allItems)
    }

    ghost predicate Payloads()
      reads `readyArrays, noPayload, ready, used, noPayload.nodes, ready.nodes, used.nodes
    {
      && (forall x :: x in noPayload.nodes ==> x.payload == null)
      && (forall x :: x in used.nodes ==> x.payload == null)
      && |readyArrays| == |ready.nodes|
      && (forall i :: 0 <= i < |readyArrays| ==> ready.nodes[i].payload == readyArrays[i])
    }

    ghost predicate Valid()
      reads this, noPayload, ready, used, noPayload.nodes, ready.nodes, used.nodes
    {
      && 0 < blockSize && Lists() && Payloads()
      && ReadyOk(readyArrays, outstanding, freed)
      && |used.nodes| == |outstanding|
      && outstanding !! freed
    }

    /** The ready items keep different arrays, none of which is handed out or deleted. */
    ghost predicate ReadyOk(arrays: seq<array<T>>, outstanding: set<array<T>>, freed: set<array<T>>)
    {
      && (forall i :: 0 <= i < |arrays| ==>
          arrays[i].Length == tcount && arrays[i] !in outstanding && arrays[i] !in freed)
      && (forall i, j :: 0 <= i < j < |arrays| ==> arrays[i] != arrays[j])
    }

    constructor (tcount: nat, blockSize: nat, zero: T)
      requires 0 < tcount && 0 < blockSize
      ensures Valid() && outstanding == {} && freed == {} && readyArrays == []
      ensures this.tcount == tcount && this.zero == zero
      ensures fresh(noPayload) && fresh(ready) && fresh(used) && allItems == {}
    {
      this.tcount, this.blockSize, this.zero := tcount, blockSize, zero;
      noPayload := new ItemList();
      ready := new ItemList();
      used := new ItemList();
      readyArrays, outstanding, freed, allItems := [], {}, {}, {};
    }

    method ResetToZero(a: array<T>)
      modifies a
      ensures forall i :: 0 <= i < a.Length ==> a[i] == zero
    {
      for i := 0 to a.Length
        invariant forall j :: 0 <= j < i ==> a[j] == zero
      {
        a[i] := zero;
      }
    }

    /** An array of zeros that is not in use anywhere else: the first ready one, or else a new one. A
        block of items is allocated exactly when there is no item to use. */
    method Get() returns (res: array<T>)
      requires Valid()
      modifies this, noPayload, ready, used, allItems, readyArrays
      ensures Valid()
      ensures res !in old(outstanding) && res !in old(freed) && outstanding == old(outstanding) + {res}
      ensures freed == old(freed)
      ensures res.Length == tcount && forall i :: 0 <= i < tcount ==> res[i] == zero
      ensures if old(readyArrays) != [] then res == old(readyArrays)[0] else fresh(res)
      ensures readyArrays == if old(readyArrays) != [] then old(readyArrays)[1..] else []
      ensures old(allItems) <= allItems && fresh(allItems - old(allItems))
      ensures |allItems| == |old(allItems)| +
        if old(readyArrays) == [] && old(noPayload.nodes) == [] then blockSize else 0
      decreases noPayload.count == 0 && ready.count == 0
    {
      hide ItemList.Valid;
      if ready.count > 0 {
        assert readyArrays[0] in readyArrays && readyArrays[0] !in outstanding;
        res := GetReady();
      } else if noPayload.count > 0 {
        res := GetNew();
      } else {
        AllocateItems();
        res := Get();
      }
    }

    method GetReady() returns (res: array<T>)
      requires Valid() && ready.nodes != []
      modifies this, ready, used, allItems, readyArrays
      ensures Valid()
      ensures res == old(readyArrays)[0] && outstanding == old(outstanding) + {res} && freed == old(freed)
      ensures res.Length == tcount && forall i :: 0 <= i < tcount ==> res[i] == zero
      ensures allItems == old(allItems) && readyArrays == old(readyArrays)[1..]
    {
      hide ItemList.Valid;
      ResetToZero(ready.first.payload);
      res := Relink(ready, used, null);
      PartitionMoved(old(noPayload.nodes), old(ready.nodes), old(used.nodes), allItems);
      readyArrays, outstanding := readyArrays[1..], outstanding + {res};
    }

    method GetNew() returns (res: array<T>)
      requires Valid() && noPayload.nodes != []
      modifies this, noPayload, used, allItems
      ensures Valid()
      ensures fresh(res) && outstanding == old(outstanding) + {res} && freed == old(freed)
      ensures res.Length == tcount && forall i :: 0 <= i < tcount ==> res[i] == zero
      ensures allItems == old(allItems) && readyArrays == old(readyArrays)
    {
      hide ItemList.Valid, Pool.Lists, Pool.Payloads;
      UseEmptyItem();
      res := new T[tcount](_ => zero);
      outstanding := outstanding + {res};
    }

    method UseEmptyItem()
      requires Lists() && Payloads() && noPayload.nodes != []
      modifies noPayload, used, allItems
      ensures Lists() && Payloads() && |used.nodes| == |old(used.nodes)| + 1
    {
      hide ItemList.Valid;
      var was := Relink(noPayload, used, null);
      PartitionTurned(old(noPayload.nodes), old(ready.nodes), old(used.nodes), allItems);
      PartitionMoved(old(ready.nodes), old(noPayload.nodes), old(used.nodes), allItems);
      PartitionTurned(ready.nodes, noPayload.nodes, used.nodes, allItems);
    }

    /** Takes the first item of one list, gives it another payload and puts it on another list. */
    method Relink(from: ItemList<T>, to: ItemList<T>, payload: array?<T>) returns (was: array?<T>)
      requires from != to && from.Valid() && to.Valid() && from.nodes != []
      requires forall x :: x in from.nodes ==> x !in to.nodes
      modifies from, to, from.first
      ensures from.Valid() && to.Valid()
      ensures from.nodes == old(from.nodes)[1..] && to.nodes == [old(from.nodes)[0]] + old(to.nodes)
      ensures was == old(from.nodes[0].payload) && to.nodes[0].payload == payload
    {
      hide ItemList.Valid;
      assert from.nodes[0] in from.nodes;
      var item := from.Pop();
      was := item.payload;
      item.payload := payload;
      to.Push(item);
    }

    method AllocateItems()
      requires Valid()
      modifies this, noPayload, allItems
      ensures Valid() && noPayload.nodes != []
      ensures outstanding == old(outstanding) && freed == old(freed) && readyArrays == old(readyArrays)
      ensures old(allItems) <= allItems && fresh(allItems - old(allItems))
      ensures |allItems| == |old(allItems)| + blockSize
    {
      hide ItemList.Valid, Pool.ReadyOk;
      var i := 0;
      while i < blockSize
        invariant 0 <= i <= blockSize && Valid() && (i > 0 ==> noPayload.nodes != [])
        invariant outstanding == old(outstanding) && freed == old(freed) && readyArrays == old(readyArrays)
        invariant old(allItems) <= allItems && fresh(allItems - old(allItems)) && |allItems| == |old(allItems)| + i
      {
        AddItem();
        i := i + 1;
      }
    }

    method AddItem()
      requires Valid()
      modifies this, noPayload
      ensures Valid() && noPayload.nodes != []
      ensures outstanding == old(outstanding) && freed == old(freed) && readyArrays == old(readyArrays)
      ensures old(allItems) <= allItems && fresh(allItems - old(allItems)) && |allItems| == |old(allItems)| + 1
    {
      hide ItemList.Valid, Pool.ReadyOk;
      var item := new Item<T>();
      PartitionAdded(noPayload.nodes, ready.nodes, used.nodes, allItems, item);
      noPayload.Push(item);
      allItems := allItems + {item};
    }

    /** Takes back an array. Any used item may stand for it. */
    method Release(obj: array<T>) returns (threw: bool)
      requires Valid() && obj.Length == tcount && (outstanding != {} ==> obj in outstanding)
      modifies this, ready, used, allItems
      ensures Valid() && threw == (old(outstanding) == {})
      ensures threw ==> outstanding == {} && readyArrays == old(readyArrays)
      ensures !threw ==> outstanding == old(outstanding) - {obj} && readyArrays == [obj] + old(readyArrays)
      ensures freed == old(freed) && allItems == old(allItems)
    {
      hide ItemList.Valid;
      if used.count == 0 {
        return true;
      }
      var was := Relink(used, ready, obj);
      PartitionTurned(old(noPayload.nodes), old(ready.nodes), old(used.nodes), allItems);
      PartitionMoved(old(noPayload.nodes), old(used.nodes), old(ready.nodes), allItems);
      PartitionTurned(noPayload.nodes, used.nodes, ready.nodes, allItems);
      readyArrays, outstanding := [obj] + readyArrays, outstanding - {obj};
      return false;
    }

    /** Deletes ready arrays until at most `ratio` times the number of used ones are left. */
    method ReleaseUnused(ratio: real)
      requires Valid()
      modifies this, noPayload, ready, allItems
      ensures Valid() && outstanding == old(outstanding) && allItems == old(allItems)
      ensures var keep := Keep(ratio, |outstanding|);
        var gone := if keep < |old(readyArrays)| then |old(readyArrays)| - keep else 0;
        && readyArrays == old(readyArrays)[gone..]
        && freed == old(freed) + Firsts(old(readyArrays), gone)
    {
      hide ItemList.Valid, Partition, Pool.ReadyOk;
      var keep := Keep(ratio, used.count);
      var gone := 0;
      var n := ready.count;
      while keep + gone < n
        invariant 0 <= gone <= n == |old(readyArrays)| && Valid()
        invariant gone == 0 || keep + gone <= n
        invariant outstanding == old(outstanding) && allItems == old(allItems)
        invariant readyArrays == old(readyArrays)[gone..]
        invariant freed == old(freed) + Firsts(old(readyArrays), gone)
      {
        OneMoreGone(old(readyArrays), gone);
        DisposeFirstReady();
        gone := gone + 1;
      }
    }

    static ghost function Firsts(arrays: seq<array<T>>, n: nat): set<array<T>>
      requires n <= |arrays|
    {
      set a | a in arrays[..n]
    }

    static lemma OneMoreGone(arrays: seq<array<T>>, gone: nat)
      requires gone < |arrays|
      ensures arrays[gone..][0] == arrays[gone] && arrays[gone..][1..] == arrays[gone + 1..]
      ensures Firsts(arrays, gone + 1) == Firsts(arrays, gone) + {arrays[gone]}
    {
      assert arrays[..gone + 1] == arrays[..gone] + [arrays[gone]];
    }

    /** `(int)(not_exceed_ratio * used.count)`, with a negative ratio taken as zero. */
    static function Keep(ratio: real, count: nat): (keep: nat)
      ensures ratio >= 0.0 ==> keep as real <= ratio * count as real < keep as real + 1.0
      ensures ratio <= 0.0 ==> keep == 0
    {
      if ratio < 0.0 then 0 else (ratio * count as real).Floor
    }

    method DisposeFirstReady()
      requires Valid() && ready.nodes != []
      modifies this, noPayload, ready, allItems
      ensures Valid() && outstanding == old(outstanding) && allItems == old(allItems)
      ensures readyArrays == old(readyArrays)[1..] && freed == old(freed) + {old(readyArrays)[0]}
    {
      hide ItemList.Valid;
      PartitionTurned(noPayload.nodes, ready.nodes, used.nodes, allItems);
      PartitionTurned(ready.nodes, used.nodes, noPayload.nodes, allItems);
      PartitionMoved(used.nodes, ready.nodes, noPayload.nodes, allItems);
      ready.DisposeFirst(noPayload);
      PartitionTurned(used.nodes, ready.nodes, noPayload.nodes, allItems);
      PartitionTurned(ready.nodes, noPayload.nodes, used.nodes, allItems);
      freed, readyArrays := freed + {readyArrays[0]}, readyArrays[1..];
    }
  }

  /** Three lists are disjoint and hold all items. */
  ghost predicate Partition<T>(a: seq<Item<T>>, b: seq<Item<T>>, c: seq<Item<T>>, items: set<Item<T>>)
  {
    && (forall x :: x in a ==> x in items && x !in b && x !in c)
    && (forall x :: x in b ==> x in items && x !in c)
    && (forall x :: x in c ==> x in items)
    && (forall x :: x in items ==> x in a || x in b || x in c)
  }

  lemma PartitionTurned<T>(a: seq<Item<T>>, b: seq<Item<T>>, c: seq<Item<T>>, items: set<Item<T>>)
    requires Partition(a, b, c, items)
    ensures Partition(b, c, a, items) && Partition(b, a, c, items) && Partition(a, c, b, items)
  {
  }

  /** Moving the first item of `b` to `c`. */
  lemma PartitionMoved<T>(a: seq<Item<T>>, b: seq<Item<T>>, c: seq<Item<T>>, items: set<Item<T>>)
    requires Partition(a, b, c, items) && b != [] && b[0] !in b[1..]
    ensures Partition(a, b[1..], [b[0]] + c, items)
  {
    assert forall x :: x in b[1..] ==> x in b;
    assert forall x :: x in b ==> x == b[0] || x in b[1..] by {
      forall x | x in b
        ensures x == b[0] || x in b[1..]
      {
        var i :| 0 <= i < |b| && b[i] == x;
        assert i > 0 ==> b[1..][i - 1] == x;
      }
    }
  }

  lemma PartitionAdded<T>(a: seq<Item<T>>, b: seq<Item<T>>, c: seq<Item<T>>, items: set<Item<T>>, item: Item<T>)
    requires Partition(a, b, c, items) && item !in items
    ensures Partition([item] + a, b, c, items + {item})
  {
  }
}
