/**
 The subcluster chain: which admins, nodes and blockchains a subcluster has. Its records are
 taken into the indexes when they are appended, and again when stored blocks are read back.
 */
module Subcluster {
  import opened Values
  import opened GradidoTypes
  import opened Layout
  import opened BlockScan
  import opened BlockStorage
  import opened FileTile

  datatype NodeType = Ordering | GradidoNode | Login | Backup | Logger | Pinger

  datatype Admin = Admin(key: Key, name: string, email: string)

  datatype NodeInfo = NodeInfo(nodeType: NodeType, key: Key, endpoint: string)

  datatype Entry =
    | Header(key: Key)
    | AddAdmin(admin: Admin)
    | AddNode(node: NodeInfo)
    | AddBlockchain(chain: Key)
    | SbSignatures(sigs: seq<Signature>)
    | OtherEntry(tag: nat)

  datatype SbResult = SbSuccess | DuplicatePubKey | OtherSbResult(code: Byte)

  datatype SbRecord = SbRecord(sequenceNumber: nat, result: SbResult, entry: Entry)

  datatype SbIndex = SbIndex(
    initialKey: Key,
    admins: map<Key, Admin>,
    nodes: map<Key, NodeInfo>,
    nodesByType: map<NodeType, map<Key, NodeInfo>>,
    blockchains: map<Key, Key>)

  /** Every node type has its map. */
  predicate HasTypes(ix: SbIndex)
  {
    forall t: NodeType :: t in ix.nodesByType
  }

  function NoNodes(): map<NodeType, map<Key, NodeInfo>>
  {
    map[Ordering := map[], GradidoNode := map[], Login := map[], Backup := map[], Logger := map[], Pinger := map[]]
  }

  lemma NoNodesAtAll()
    ensures forall t: NodeType :: t in NoNodes() && NoNodes()[t] == map[]
  {
    forall t: NodeType
      ensures t in NoNodes() && NoNodes()[t] == map[]
    {
      match t { case Ordering => case GradidoNode => case Login => case Backup => case Logger => case Pinger => }
    }
  }

  /** The indexes after `init`. */
  function StartIndex(): (ix: SbIndex)
    ensures HasTypes(ix) && forall place :: At(ix, place).None?
  {
    NoNodesAtAll();
    SbIndex("", map[], map[], NoNodes(), map[])
  }

  /** `insert` keeps an entry that is already there. */
  function Insert<V>(m: map<Key, V>, key: Key, value: V): map<Key, V>
  {
    if key in m then m else m[key := value]
  }

  function Take(ix: SbIndex, entry: Entry): (ix': SbIndex)
    requires HasTypes(ix)
    ensures HasTypes(ix')
  {
    match entry
    case Header(key) => ix.(initialKey := key)
    case AddAdmin(admin) => ix.(admins := Insert(ix.admins, admin.key, admin))
    case AddNode(node) =>
      var typed := Insert(ix.nodesByType[node.nodeType], node.key, node);
      ix.(nodes := Insert(ix.nodes, node.key, node), nodesByType := ix.nodesByType[node.nodeType := typed])
    case AddBlockchain(chain) => ix.(blockchains := Insert(ix.blockchains, chain, chain))
    case SbSignatures(_) => ix
    case OtherEntry(_) => ix
  }

  function TakeStored(ix: SbIndex, rec: SbRecord): (ix': SbIndex)
    requires HasTypes(ix)
    ensures HasTypes(ix')
  {
    if rec.result == SbSuccess then Take(ix, rec.entry) else ix
  }

  /** Reading stored records back into the indexes `ix`. */
  function Replay(ix: SbIndex, records: seq<SbRecord>): (ix': SbIndex)
    requires HasTypes(ix)
    ensures HasTypes(ix')
  {
    if records == [] then ix else TakeStored(Replay(ix, records[..|records| - 1]), records[|records| - 1])
  }

  lemma {:induction false} ReplayJoin(ix: SbIndex, a: seq<SbRecord>, b: seq<SbRecord>)
    requires HasTypes(ix)
    ensures Replay(ix, a + b) == Replay(Replay(ix, a), b)
  {
    if b == [] {
      assert a + b == a;
    } else {
      var n := |b| - 1;
      assert (a + b)[..|a + b| - 1] == a + b[..n];
      ReplayJoin(ix, a, b[..n]);
    }
  }

  // ----- what the indexes hold -----

  /** One place of the indexes. */
  datatype Place = AdminAt(key: Key) | NodeAt(key: Key) | TypedAt(nodeType: NodeType, key: Key) | ChainAt(key: Key)

  /** What the indexes hold at a place. */
  function At(ix: SbIndex, place: Place): Option<Entry>
    requires HasTypes(ix)
  {
    match place
    case AdminAt(key) => if key in ix.admins then Some(AddAdmin(ix.admins[key])) else None
    case NodeAt(key) => if key in ix.nodes then Some(AddNode(ix.nodes[key])) else None
    case TypedAt(t, key) => if key in ix.nodesByType[t] then Some(AddNode(ix.nodesByType[t][key])) else None
    case ChainAt(key) => if key in ix.blockchains then Some(AddBlockchain(ix.blockchains[key])) else None
  }

  /** The record was accepted and names the place. */
  predicate Claims(rec: SbRecord, place: Place)
  {
    rec.result == SbSuccess &&
    match place
    case AdminAt(key) => rec.entry.AddAdmin? && rec.entry.admin.key == key
    case NodeAt(key) => rec.entry.AddNode? && rec.entry.node.key == key
    case TypedAt(t, key) => rec.entry.AddNode? && rec.entry.node.key == key && rec.entry.node.nodeType == t
    case ChainAt(key) => rec.entry.AddBlockchain? && rec.entry.chain == key
  }

  /** The entry of the first record that claims the place. */
  function FirstClaim(records: seq<SbRecord>, place: Place): Option<Entry>
  {
    if records == [] then None
    else if Claims(records[0], place) then Some(records[0].entry)
    else FirstClaim(records[1..], place)
  }

  lemma {:induction false} FirstClaimSnoc(records: seq<SbRecord>, rec: SbRecord, place: Place)
    ensures FirstClaim(records + [rec], place) ==
      if FirstClaim(records, place).Some? then FirstClaim(records, place)
      else if Claims(rec, place) then Some(rec.entry) else None
  {
    if records == [] {
      assert (records + [rec])[1..] == [];
    } else {
      assert (records + [rec])[1..] == records[1..] + [rec];
      FirstClaimSnoc(records[1..], rec, place);
    }
  }

  ghost predicate Claimed(records: seq<SbRecord>, place: Place)
  {
    exists i :: 0 <= i < |records| && Claims(records[i], place)
  }

  lemma FirstClaimIff(records: seq<SbRecord>, place: Place)
    ensures FirstClaim(records, place).Some? <==> Claimed(records, place)
  {
    if records != [] {
      FirstClaimIff(records[1..], place);
      if FirstClaim(records[1..], place).Some? {
        var i :| 0 <= i < |records[1..]| && Claims(records[1..][i], place);
        assert Claims(records[i + 1], place);
      }
      if i :| 0 <= i < |records| && Claims(records[i], place) {
        assert i > 0 ==> records[1..][i - 1] == records[i];
      }
    }
  }

  lemma TakenAt(ix: SbIndex, rec: SbRecord, place: Place)
    requires HasTypes(ix)
    ensures At(TakeStored(ix, rec), place) ==
      if At(ix, place).Some? then At(ix, place) else if Claims(rec, place) then Some(rec.entry) else None
  {
    if rec.result == SbSuccess {
      match rec.entry {
        case Header(_) =>
        case AddAdmin(_) =>
        case AddNode(_) =>
        case AddBlockchain(_) =>
        case SbSignatures(_) =>
        case OtherEntry(_) =>
      }
    }
  }

  /** Whatever the records, each place of the rebuilt indexes holds what it held before, or
      else the first accepted claim. */
  lemma {:induction false} HeldIsFirstClaim(ix: SbIndex, records: seq<SbRecord>, place: Place)
    requires HasTypes(ix)
    ensures At(Replay(ix, records), place) ==
      if At(ix, place).Some? then At(ix, place) else FirstClaim(records, place)
  {
    hide At, Claims, TakeStored;
    if records != [] {
      var n := |records| - 1;
      assert records == records[..n] + [records[n]];
      TakenAt(Replay(ix, records[..n]), records[n], place);
      HeldIsFirstClaim(ix, records[..n], place);
      FirstClaimSnoc(records[..n], records[n], place);
    }
  }

  /** The key of the last accepted header. */
  function LastHeader(records: seq<SbRecord>): Option<Key>
  {
    if records == [] then None
    else
      var last := records[|records| - 1];
      if last.result == SbSuccess && last.entry.Header? then Some(last.entry.key)
      else LastHeader(records[..|records| - 1])
  }

  /** The initial key, unlike the entries of the maps, is the one that came last. */
  lemma {:induction false} InitialKeyIsLastHeader(ix: SbIndex, records: seq<SbRecord>)
    requires HasTypes(ix)
    ensures Replay(ix, records).initialKey ==
      match LastHeader(records) case Some(key) => key case None => ix.initialKey
  {
    if records != [] {
      InitialKeyIsLastHeader(ix, records[..|records| - 1]);
    }
  }

  /** Some map by type has the key. */
  ghost predicate IsTyped(ix: SbIndex, key: Key)
    requires HasTypes(ix)
  {
    exists t :: key in ix.nodesByType[t]
  }

  ghost predicate SameNodeKeys(ix: SbIndex)
    requires HasTypes(ix)
  {
    forall key :: IsTyped(ix, key) <==> key in ix.nodes
  }

  /** `clear_indexes`: the loop over the maps by type clears copies of them. */
  function Cleared(ix: SbIndex): (ix': SbIndex)
  {
    SbIndex(ix.initialKey, map[], map[], ix.nodesByType, map[])
  }

  lemma NothingTyped(ix: SbIndex)
    requires HasTypes(ix)
    ensures ix.nodesByType == NoNodes() <==> forall key :: !IsTyped(ix, key)
  {
    NoNodesAtAll();
    if forall key :: !IsTyped(ix, key) {
      forall t: NodeType
        ensures ix.nodesByType[t] == map[]
      {
        if key :| key in ix.nodesByType[t] {
          assert IsTyped(ix, key);
        }
      }
    }
  }

  /** A key that some record adds as a node is typed, and the other way round unless it was
      typed before. */
  lemma TypedKeys(ix: SbIndex, records: seq<SbRecord>, key: Key)
    requires HasTypes(ix)
    ensures IsTyped(Replay(ix, records), key) <==> IsTyped(ix, key) || FirstClaim(records, NodeAt(key)).Some?
  {
    var ix' := Replay(ix, records);
    forall t: NodeType
      ensures key in ix'.nodesByType[t] <==> key in ix.nodesByType[t] || FirstClaim(records, TypedAt(t, key)).Some?
    {
      HeldIsFirstClaim(ix, records, TypedAt(t, key));
    }
    if FirstClaim(records, NodeAt(key)).Some? {
      var t := NodeClaimTyped(records, key);
      assert key in ix'.nodesByType[t];
    }
    if IsTyped(ix', key) && !IsTyped(ix, key) {
      var t :| key in ix'.nodesByType[t];
      TypedClaimIsNode(records, t, key);
    }
  }

  lemma {:induction false} NodeClaimTyped(records: seq<SbRecord>, key: Key) returns (t: NodeType)
    requires FirstClaim(records, NodeAt(key)).Some?
    ensures FirstClaim(records, NodeAt(key)) == FirstClaim(records, TypedAt(t, key))
    ensures FirstClaim(records, NodeAt(key)).value.AddNode? && FirstClaim(records, NodeAt(key)).value.node.nodeType == t
  {
    if Claims(records[0], NodeAt(key)) {
      t := records[0].entry.node.nodeType;
    } else {
      t := NodeClaimTyped(records[1..], key);
    }
  }

  lemma {:induction false} TypedClaimIsNode(records: seq<SbRecord>, t: NodeType, key: Key)
    ensures FirstClaim(records, TypedAt(t, key)).Some? ==> FirstClaim(records, NodeAt(key)).Some?
  {
    if records != [] {
      TypedClaimIsNode(records[1..], t, key);
    }
  }

  /** After clearing and reading records back, the maps by type have the keys of `nodes` if and
      only if every node that was typed before is added again by these records. */
  lemma NodeKeysAfterClearIff(ix: SbIndex, records: seq<SbRecord>)
    requires HasTypes(ix)
    ensures SameNodeKeys(Replay(Cleared(ix), records)) <==>
      forall key :: IsTyped(ix, key) ==> Claimed(records, NodeAt(key))
  {
    var ix' := Replay(Cleared(ix), records);
    forall key
      ensures IsTyped(ix', key) <==> IsTyped(ix, key) || FirstClaim(records, NodeAt(key)).Some?
      ensures key in ix'.nodes <==> FirstClaim(records, NodeAt(key)).Some?
      ensures FirstClaim(records, NodeAt(key)).Some? <==> Claimed(records, NodeAt(key))
    {
      TypedKeys(Cleared(ix), records, key);
      assert IsTyped(Cleared(ix), key) <==> IsTyped(ix, key);
      HeldIsFirstClaim(Cleared(ix), records, NodeAt(key));
      FirstClaimIff(records, NodeAt(key));
    }
  }

  lemma StartHasNoNodes()
    ensures forall key :: !IsTyped(StartIndex(), key)
  {
    NothingTyped(StartIndex());
  }

  /** From the start, the maps by type always have the keys of `nodes`, and every node lies under
      its own type as it lies in `nodes`. */
  lemma NodesAreTyped(records: seq<SbRecord>)
    ensures var ix := Replay(StartIndex(), records);
      && SameNodeKeys(ix)
      && forall key :: key in ix.nodes ==> At(ix, TypedAt(ix.nodes[key].nodeType, key)) == Some(AddNode(ix.nodes[key]))
  {
    hide Replay, StartIndex, FirstClaim, IsTyped;
    var ix := Replay(StartIndex(), records);
    StartHasNoNodes();
    forall key
      ensures IsTyped(ix, key) <==> key in ix.nodes
      ensures key in ix.nodes ==> At(ix, TypedAt(ix.nodes[key].nodeType, key)) == Some(AddNode(ix.nodes[key]))
    {
      TypedKeys(StartIndex(), records, key);
      HeldIsFirstClaim(StartIndex(), records, NodeAt(key));
      if key in ix.nodes {
        var t := NodeClaimTyped(records, key);
        HeldIsFirstClaim(StartIndex(), records, TypedAt(t, key));
      }
    }
  }

  /** All accepted records agree on the type of this node. */
  ghost predicate TypeAgreed(records: seq<SbRecord>, key: Key)
  {
    forall i, j | 0 <= i < |records| && 0 <= j < |records| ::
      Claims(records[i], NodeAt(key)) && Claims(records[j], NodeAt(key)) ==>
      records[i].entry.node.nodeType == records[j].entry.node.nodeType
  }

  lemma TypedIff(records: seq<SbRecord>, t: NodeType, key: Key)
    ensures key in Replay(StartIndex(), records).nodesByType[t] <==>
      exists i :: 0 <= i < |records| && Claims(records[i], NodeAt(key)) && records[i].entry.node.nodeType == t
  {
    HeldIsFirstClaim(StartIndex(), records, TypedAt(t, key));
    FirstClaimIff(records, TypedAt(t, key));
    if i :| 0 <= i < |records| && Claims(records[i], TypedAt(t, key)) {
      assert Claims(records[i], NodeAt(key));
    }
    if i :| 0 <= i < |records| && Claims(records[i], NodeAt(key)) && records[i].entry.node.nodeType == t {
      assert Claims(records[i], TypedAt(t, key));
    }
  }

  ghost predicate UnderOneType(ix: SbIndex, key: Key)
    requires HasTypes(ix)
  {
    forall t, u :: key in ix.nodesByType[t] && key in ix.nodesByType[u] ==> t == u
  }

  /** A node lies under one type only if and only if all accepted records agree on its type. */
  lemma OneTypeIff(records: seq<SbRecord>, key: Key)
    ensures UnderOneType(Replay(StartIndex(), records), key) <==> TypeAgreed(records, key)
  {
    hide Replay, StartIndex;
    var ix := Replay(StartIndex(), records);
    if UnderOneType(ix, key) {
      forall i, j | 0 <= i < |records| && 0 <= j < |records| && Claims(records[i], NodeAt(key)) && Claims(records[j], NodeAt(key))
        ensures records[i].entry.node.nodeType == records[j].entry.node.nodeType
      {
        TypedIff(records, records[i].entry.node.nodeType, key);
        TypedIff(records, records[j].entry.node.nodeType, key);
      }
    }
    if TypeAgreed(records, key) {
      forall t, u | key in ix.nodesByType[t] && key in ix.nodesByType[u]
        ensures t == u
      {
        TypedIff(records, t, key);
        TypedIff(records, u, key);
      }
    }
  }

  // ----- live -----

  /** The first record of a batch with its calculated result. */
  function Decide(ix: SbIndex, rec: SbRecord): SbRecord
  {
    rec.(result := if rec.entry.AddAdmin? && rec.entry.admin.key in ix.admins then DuplicatePubKey else SbSuccess)
  }

  /** Every record is accepted but an admin with a known key, and nothing but the result is changed. */
  lemma AllButKnownAdminsAccepted(ix: SbIndex, rec: SbRecord)
    ensures var decided := Decide(ix, rec);
      && decided.entry == rec.entry && decided.sequenceNumber == rec.sequenceNumber
      && (decided.result != SbSuccess <==> rec.entry.AddAdmin? && rec.entry.admin.key in ix.admins)
      && (decided.result != SbSuccess ==> decided.result == DuplicatePubKey)
  {
  }

  /** A batch as it is stored. */
  function Decided(ix: SbIndex, batch: seq<SbRecord>): seq<SbRecord>
  {
    if batch == [] then [] else [Decide(ix, batch[0])] + batch[1..]
  }

  predicate OnlySignaturesFollow(batch: seq<SbRecord>)
  {
    forall i :: 1 <= i < |batch| ==> batch[i].entry.SbSignatures?
  }

  lemma {:induction false} SignaturesChangeNothing(ix: SbIndex, records: seq<SbRecord>)
    requires HasTypes(ix)
    requires forall i :: 0 <= i < |records| ==> records[i].entry.SbSignatures?
    ensures Replay(ix, records) == ix
  {
    if records != [] {
      SignaturesChangeNothing(ix, records[..|records| - 1]);
    }
  }

  /** A batch that was taken live leaves the indexes as reading its records back would. */
  lemma LiveThenReplay(ix: SbIndex, stored: seq<SbRecord>, batch: seq<SbRecord>)
    requires OnlySignaturesFollow(batch) && batch != []
    requires HasTypes(ix) && ix == Replay(StartIndex(), stored)
    ensures TakeStored(ix, Decide(ix, batch[0])) == Replay(StartIndex(), stored + Decided(ix, batch))
  {
    var first := [Decide(ix, batch[0])];
    ReplayJoin(StartIndex(), stored, first + batch[1..]);
    ReplayJoin(ix, first, batch[1..]);
    assert first[..0] == [] && Replay(ix, []) == ix;
    SignaturesChangeNothing(TakeStored(ix, first[0]), batch[1..]);
  }

  /** The records of the chain after a run of live batches on top of the records `was`. */
  function Stored(was: seq<SbRecord>, batches: seq<seq<SbRecord>>): (records: seq<SbRecord>)
    ensures was <= records
    decreases |batches|, 1
  {
    if batches == [] then was
    else
      var n := |batches| - 1;
      Stored(was, batches[..n]) + Decided(LiveIndex(was, batches[..n]), batches[n])
  }

  /** The indexes after such a run, when those of `was` had been read back before it. */
  function LiveIndex(was: seq<SbRecord>, batches: seq<seq<SbRecord>>): (ix: SbIndex)
    ensures HasTypes(ix)
    decreases |batches|, 0
  {
    if batches == [] then Replay(StartIndex(), was)
    else
      var n := |batches| - 1;
      var ix := LiveIndex(was, batches[..n]);
      if batches[n] == [] then ix else TakeStored(ix, Decide(ix, batches[n][0]))
  }

  ghost predicate AllFollowed(batches: seq<seq<SbRecord>>)
  {
    forall k :: 0 <= k < |batches| ==> OnlySignaturesFollow(batches[k])
  }

  /** After any run of live batches the indexes are what reading the stored records back gives. */
  lemma {:induction false} LiveIsReplay(was: seq<SbRecord>, batches: seq<seq<SbRecord>>)
    requires AllFollowed(batches)
    ensures LiveIndex(was, batches) == Replay(StartIndex(), Stored(was, batches))
    decreases |batches|
  {
    hide Replay, TakeStored, Decide;
    if batches != [] {
      var n := |batches| - 1;
      LiveIsReplay(was, batches[..n]);
      if batches[n] == [] {
        assert Stored(was, batches[..n]) + [] == Stored(was, batches[..n]);
      } else {
        LiveThenReplay(LiveIndex(was, batches[..n]), Stored(was, batches[..n]), batches[n]);
      }
    }
  }

  /** An added admin is accepted exactly when no stored record has added the same key. */
  lemma AdminAcceptedIff(was: seq<SbRecord>, batches: seq<seq<SbRecord>>, rec: SbRecord)
    requires AllFollowed(batches) && rec.entry.AddAdmin?
    ensures Decide(LiveIndex(was, batches), rec).result == SbSuccess <==>
      !Claimed(Stored(was, batches), AdminAt(rec.entry.admin.key))
  {
    var place := AdminAt(rec.entry.admin.key);
    LiveIsReplay(was, batches);
    HeldIsFirstClaim(StartIndex(), Stored(was, batches), place);
    FirstClaimIff(Stored(was, batches), place);
  }

  ghost predicate ClaimedOnce(records: seq<SbRecord>, place: Place)
  {
    forall i, j :: 0 <= i < j < |records| ==> !(Claims(records[i], place) && Claims(records[j], place))
  }

  /** A run of live batches never makes a second accepted record for an admin key. */
  lemma {:induction false} AdminAddedOnce(was: seq<SbRecord>, batches: seq<seq<SbRecord>>, key: Key)
    requires AllFollowed(batches)
    ensures ClaimedOnce(Stored(was, batches), AdminAt(key)) <==> ClaimedOnce(was, AdminAt(key))
    decreases |batches|
  {
    hide LiveIndex, Decided, ClaimedOnce;
    if batches != [] {
      var n := |batches| - 1;
      AdminAddedOnce(was, batches[..n], key);
      AdminStep(was, batches[..n], batches[n], key);
    }
  }

  lemma AdminStep(was: seq<SbRecord>, batches: seq<seq<SbRecord>>, batch: seq<SbRecord>, key: Key)
    requires AllFollowed(batches) && OnlySignaturesFollow(batch)
    ensures var stored := Stored(was, batches);
      ClaimedOnce(stored + Decided(LiveIndex(was, batches), batch), AdminAt(key)) <==> ClaimedOnce(stored, AdminAt(key))
  {
    hide LiveIndex, Stored, ClaimedOnce, Claimed;
    var stored, ix := Stored(was, batches), LiveIndex(was, batches);
    if batch == [] {
      assert stored + [] == stored;
    } else {
      var first := Decide(ix, batch[0]);
      if Claims(first, AdminAt(key)) {
        AdminAcceptedIff(was, batches, batch[0]);
      }
      assert forall i :: 0 <= i < |batch[1..]| ==> batch[1..][i].entry.SbSignatures?;
      ClaimedOnceJoin(stored, first, batch[1..], AdminAt(key));
      assert stored + ([first] + batch[1..]) == stored + [first] + batch[1..];
    }
  }

  lemma ClaimedOnceJoin(before: seq<SbRecord>, first: SbRecord, rest: seq<SbRecord>, place: Place)
    requires Claims(first, place) ==> !Claimed(before, place)
    requires forall i :: 0 <= i < |rest| ==> !Claims(rest[i], place)
    ensures ClaimedOnce(before + [first] + rest, place) <==> ClaimedOnce(before, place)
  {
    hide Claims;
    var all := before + [first] + rest;
    assert forall i :: 0 <= i < |before| ==> all[i] == before[i];
    assert forall i :: |before| < i < |all| ==> all[i] == rest[i - |before| - 1];
  }

  // ----- the chain -----

  lemma NothingReplayed(ix: SbIndex, blocks: seq<seq<SbRecord>>, i: nat)
    requires HasTypes(ix) && i <= |blocks|
    ensures Replay(ix, Flatten(blocks[i..i])) == ix
  {
    FlattenNothing(blocks, i);
  }

  lemma FlattenNext<T>(blocks: seq<seq<T>>, a: nat, i: nat)
    requires a <= i < |blocks|
    ensures Flatten(blocks[a..i + 1]) == Flatten(blocks[a..i]) + blocks[i]
  {
    assert blocks[a..i + 1][..i - a] == blocks[a..i];
  }

  lemma FlattenNothing<T>(blocks: seq<seq<T>>, i: nat)
    requires i <= |blocks|
    ensures Flatten(blocks[i..i]) == []
  {
    assert blocks[i..i] == [];
  }

  lemma FlattenLast<T>(blocks: seq<seq<T>>, i: nat)
    requires 0 < i <= |blocks|
    ensures Flatten(blocks[..i]) == Flatten(blocks[..i - 1]) + blocks[i - 1]
  {
    assert blocks[..i][..i - 1] == blocks[..i - 1];
  }

  lemma Append<T>(all: seq<T>, before: seq<T>, middle: seq<T>, last: seq<T>)
    requires all == before + middle
    ensures all + last == before + (middle + last)
  {
  }

  lemma {:induction false} FlattenSplit<T>(blocks: seq<seq<T>>, a: nat, i: nat)
    requires a <= i <= |blocks|
    ensures Flatten(blocks[..i]) == Flatten(blocks[..a]) + Flatten(blocks[a..i])
    decreases i
  {
    hide Flatten;
    if a == i {
      FlattenNothing(blocks, i);
    } else {
      FlattenSplit(blocks, a, i - 1);
      Append(Flatten(blocks[..i - 1]), Flatten(blocks[..a]), Flatten(blocks[a..i - 1]), blocks[i - 1]);
      FlattenNext(blocks, a, i - 1);
      FlattenLast(blocks, i);
    }
  }

  class SubclusterBlockchain<D> {
    const storage: Blockchain<SbRecord, D>

    var initialKey: Key
    var admins: map<Key, Admin>
    var nodes: map<Key, NodeInfo>
    var nodesByType: map<NodeType, map<Key, NodeInfo>>
    var blockchains: map<Key, Key>
    var indexedBlocks: nat

    function Ix(): SbIndex
      reads `initialKey, `admins, `nodes, `nodesByType, `blockchains
    {
      SbIndex(initialKey, admins, nodes, nodesByType, blockchains)
    }

    ghost predicate Valid()
      reads this, storage, storage.ft, storage.ft.Repr, storage.ft.tiles
      ensures Valid() ==> this !in storage.ft.Repr
    {
      && this !in storage.ft.Repr && storage.Valid() && storage.r == R
      && HasTypes(Ix())
    }

    /** The indexes are the replay of the first `n` blocks. */
    ghost predicate Indexed(n: nat)
      requires n <= |storage.blocks|
      reads this, storage
    {
      Replay(StartIndex(), Flatten(storage.blocks[..n])) == Ix()
    }

    constructor (storage: Blockchain<SbRecord, D>)
      requires storage.Valid() && storage.r == R
      ensures Valid() && this.storage == storage && Ix() == StartIndex() && indexedBlocks == 0
    {
      this.storage := storage;
      initialKey, admins, nodes, nodesByType, blockchains := "", map[], map[], NoNodes(), map[];
      indexedBlocks := 0;
      NoNodesAtAll();
    }

    /** `clear_indexes`, as the chain is validated anew. */
    method ClearIndexes()
      requires Valid()
      modifies this
      ensures Valid() && Ix() == Cleared(old(Ix())) && indexedBlocks == 0
      ensures Ix() == StartIndex() <==> old(initialKey) == "" && forall key :: !IsTyped(old(Ix()), key)
    {
      admins, nodes, blockchains := map[], map[], map[];
      indexedBlocks := 0;
      NothingTyped(old(Ix()));
    }

    method DoAddIndexData(rec: SbRecord)
      requires HasTypes(Ix())
      modifies `initialKey, `admins, `nodes, `nodesByType, `blockchains
      ensures HasTypes(Ix()) && Ix() == Take(old(Ix()), rec.entry)
    {
      match rec.entry {
        case Header(key) =>
          initialKey := key;
        case AddAdmin(admin) =>
          if admin.key !in admins {
            admins := admins[admin.key := admin];
          }
        case AddNode(node) =>
          if node.key !in nodes {
            nodes := nodes[node.key := node];
          }
          var typed := nodesByType[node.nodeType];
          if node.key !in typed {
            typed := typed[node.key := node];
          }
          nodesByType := nodesByType[node.nodeType := typed];
        case AddBlockchain(chain) =>
          if chain !in blockchains {
            blockchains := blockchains[chain := chain];
          }
        case SbSignatures(_) =>
        case OtherEntry(_) =>
      }
    }

    /** Takes the validated blocks that are not indexed yet into the indexes, whatever these hold. */
    method AddIndexData(flush: bool) returns (ok: bool)
      requires Valid() && indexedBlocks <= storage.validated <= |storage.blocks|
      modifies this, storage, storage.ft, storage.ft.Repr
      ensures Valid() && fresh(storage.ft.Repr - old(storage.ft.Repr))
      ensures storage.blocks == old(storage.blocks) && storage.validated == old(storage.validated)
      ensures ok && indexedBlocks == old(indexedBlocks) <= storage.validated <= |storage.blocks|
      ensures Ix() == Replay(old(Ix()), Flatten(storage.blocks[indexedBlocks..storage.validated]))
      ensures old(Indexed(indexedBlocks)) ==> Indexed(storage.validated)
    {
      hide Replay, Flatten, Blockchain.Valid;
      var i := indexedBlocks;
      ghost var start := Ix();
      NothingReplayed(start, storage.blocks, i);
      while i < storage.validated
        invariant Valid() && fresh(storage.ft.Repr - old(storage.ft.Repr))
        invariant storage.blocks == old(storage.blocks) && storage.validated == old(storage.validated)
        invariant indexedBlocks == old(indexedBlocks) <= i <= storage.validated
        invariant Ix() == Replay(start, Flatten(storage.blocks[indexedBlocks..i]))
      {
        IndexBlock(i, start, Flatten(storage.blocks[indexedBlocks..i]), flush);
        FlattenNext(storage.blocks, indexedBlocks, i);
        i := i + 1;
      }
      FlattenSplit(storage.blocks, indexedBlocks, i);
      ReplayJoin(StartIndex(), Flatten(storage.blocks[..indexedBlocks]), Flatten(storage.blocks[indexedBlocks..i]));
      ok := true;
    }

    method IndexBlock(i: nat, ghost start: SbIndex, ghost done: seq<SbRecord>, flush: bool)
      requires Valid() && i < storage.validated && HasTypes(start) && Replay(start, done) == Ix()
      modifies `initialKey, `admins, `nodes, `nodesByType, `blockchains, storage, storage.ft, storage.ft.Repr
      ensures Valid() && fresh(storage.ft.Repr - old(storage.ft.Repr))
      ensures storage.blocks == old(storage.blocks) && storage.validated == old(storage.validated) <= |storage.blocks|
      ensures Replay(start, done + storage.blocks[i]) == Ix()
    {
      hide Replay, Flatten, FileTile.Valid;
      var threw, data := storage.GetBlock(i, flush);
      IndexRecords(data[..], start, done, storage.blocks[i], storage.sums[i]);
    }

    /** The inner loop: the records of a block up to its checksum. */
    method IndexRecords(records: seq<Record<SbRecord, D>>, ghost start: SbIndex,
                        ghost done: seq<SbRecord>, ghost block: seq<SbRecord>, ghost sum: D)
      requires |block| < R && records == Image(block, sum, R)
      requires HasTypes(Ix()) && HasTypes(start) && Replay(start, done) == Ix()
      modifies `initialKey, `admins, `nodes, `nodesByType, `blockchains
      ensures HasTypes(Ix()) && Replay(start, done + block) == Ix()
    {
      hide Flatten, Take;
      assert done + block[..0] == done;
      var j := 0;
      while j < R
        invariant 0 <= j <= |block|
        invariant HasTypes(Ix()) && Replay(start, done + block[..j]) == Ix()
      {
        var rec := records[j];
        if rec.Checksum? {
          break;
        }
        var next := done + block[..j + 1];
        assert next[..|next| - 1] == done + block[..j] && next[|next| - 1] == block[j] == rec.payload;
        j := j + 1;
        if rec.payload.result != SbSuccess {
          continue;
        }
        DoAddIndexData(rec.payload);
      }
      assert block[..j] == block;
    }

    /** `calc_fields_and_update_indexes_for`: decides the first record of a batch. */
    method CalcFields(batch: seq<SbRecord>) returns (ok: bool, out: seq<SbRecord>)
      requires HasTypes(Ix())
      modifies `initialKey, `admins, `nodes, `nodesByType, `blockchains
      ensures ok <==> batch != []
      ensures out == Decided(old(Ix()), batch)
      ensures HasTypes(Ix()) && Ix() == if ok then TakeStored(old(Ix()), out[0]) else old(Ix())
    {
      if |batch| == 0 {
        return false, batch;
      }
      var result := SbSuccess;
      var rec := batch[0];
      if rec.entry.AddAdmin? && rec.entry.admin.key in admins {
        result := DuplicatePubKey;
      }
      rec := rec.(result := result);
      out := batch[0 := rec];
      if result == SbSuccess {
        DoAddIndexData(rec);
      }
      return true, out;
    }

    /** One live batch: decided, indexed and stored. Indexes that are the replay of the whole
        chain stay so. */
    method TakeBatch(batch: seq<SbRecord>, flush: bool) returns (ok: bool)
      requires Valid() && storage.Complete()
      modifies this, storage, storage.ft, storage.ft.Repr
      ensures Valid() && storage.Complete() && fresh(storage.ft.Repr - old(storage.ft.Repr))
      ensures ok <==> batch != []
      ensures storage.Payloads() == old(storage.Payloads()) + Decided(old(Ix()), batch)
      ensures Ix() == if ok then TakeStored(old(Ix()), Decided(old(Ix()), batch)[0]) else old(Ix())
      ensures OnlySignaturesFollow(batch) && old(Indexed(|storage.blocks|)) ==> Indexed(|storage.blocks|)
    {
      hide Replay, Flatten, Blockchain.Valid, Take, TakeStored;
      ghost var was, stored := Ix(), storage.Payloads();
      assert storage.blocks[..|storage.blocks|] == storage.blocks;
      var out;
      ok, out := CalcFields(batch);
      if ok {
        var _, _ := storage.AppendAll(out, flush);
        if OnlySignaturesFollow(batch) && was == Replay(StartIndex(), stored) {
          LiveThenReplay(was, stored, batch);
        }
      } else {
        assert stored + [] == stored;
      }
      assert storage.blocks[..|storage.blocks|] == storage.blocks;
    }
  }
}
