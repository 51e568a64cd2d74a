/** What a batch hands to the log and to the graph, repeated keys and refused vectors included. */
module VectorBatch {
  import opened Wrappers
  import opened Bytes
  import opened Seqs
  import opened LayerSearch
  import opened HnswGraph
  import opened HnswOps
  import opened CollectionModel
  import opened VectorStore
  import KeywordIndex
  import KeywordRuns

  predicate DistinctPuts(puts: seq<Put>) {
    forall i, j :: 0 <= i < j < |puts| ==> puts[i].key != puts[j].key
  }

  /** The i-th block of a batch encodes. */
  predicate Encodes(env: Setup, puts: seq<Put>, ids: seq<nat>, i: nat)
    requires |ids| == |puts| && i < |puts|
  {
    PayloadOf(env, puts[i].key, puts[i].block, ids[i]).Some?
  }

  /** The payload map that BatchAppendBlocks hands to the log, compressed. */
  function BatchPayloads(env: Setup, name: Bytes, puts: seq<Put>, ids: seq<nat>): map<Bytes, Bytes>
    requires |ids| == |puts|
  {
    if puts == [] then map[]
    else
      var n := |puts| - 1;
      var m := BatchPayloads(env, name, puts[..n], ids[..n]);
      match PayloadOf(env, puts[n].key, puts[n].block, ids[n])
      case None => m
      case Some(p) => m[StorageKey(name, puts[n].key) := p]
  }

  lemma SameName(name: Bytes, k: Bytes, l: Bytes)
    ensures StorageKey(name, k) == StorageKey(name, l) <==> k == l
  {
    var n := |name| + 1;
    assert StorageKey(name, k)[n..] == k && StorageKey(name, l)[n..] == l;
  }

  /** A batch that repeats a key stores one record for it: the last block that encodes. */
  lemma {:induction false} BatchKeepsLast(env: Setup, name: Bytes, puts: seq<Put>, ids: seq<nat>, n: nat)
    requires |ids| == |puts| && n < |puts| && KeptLast(env, puts, ids, n)
    ensures StorageKey(name, puts[n].key) in BatchPayloads(env, name, puts, ids)
    ensures BatchPayloads(env, name, puts, ids)[StorageKey(name, puts[n].key)]
            == PayloadOf(env, puts[n].key, puts[n].block, ids[n]).value
    decreases |puts|
  {
    hide PayloadOf, StorageKey;
    var last := |puts| - 1;
    if n < last {
      assert KeptLast(env, puts[..last], ids[..last], n);
      BatchKeepsLast(env, name, puts[..last], ids[..last], n);
      SameName(name, puts[n].key, puts[last].key);
      assert puts[last].key == puts[n].key ==> !Encodes(env, puts, ids, last);
    }
  }

  /** The i-th block encodes and no later block of its key does: it is the one the log gets. */
  predicate KeptLast(env: Setup, puts: seq<Put>, ids: seq<nat>, i: nat)
    requires |ids| == |puts| && i < |puts|
  {
    Encodes(env, puts, ids, i) && forall j :: i < j < |puts| && puts[j].key == puts[i].key ==>
        !Encodes(env, puts, ids, j)
  }

  /** The log gets a record for a key exactly when some block of the key encodes; and then one is last. */
  lemma {:induction false} BatchMember(env: Setup, name: Bytes, puts: seq<Put>, ids: seq<nat>, sk: Bytes)
    requires |ids| == |puts|
    ensures sk in BatchPayloads(env, name, puts, ids) ==>
            exists j :: 0 <= j < |puts| && sk == StorageKey(name, puts[j].key) && KeptLast(env, puts, ids, j)
    decreases |puts|
  {
    hide PayloadOf, StorageKey;
    if puts != [] && sk in BatchPayloads(env, name, puts, ids) {
      var n := |puts| - 1;
      if Encodes(env, puts, ids, n) && sk == StorageKey(name, puts[n].key) {
        assert KeptLast(env, puts, ids, n);
      } else {
        BatchMember(env, name, puts[..n], ids[..n], sk);
        var j :| 0 <= j < n && sk == StorageKey(name, puts[..n][j].key) && KeptLast(env, puts[..n], ids[..n], j);
        LastStays(env, name, puts, ids, j);
      }
    }
  }

  lemma LastStays(env: Setup, name: Bytes, puts: seq<Put>, ids: seq<nat>, j: nat)
    requires |ids| == |puts| > 0 && j < |puts| - 1 && KeptLast(env, puts[..|puts| - 1], ids[..|puts| - 1], j)
    requires puts[|puts| - 1].key == puts[j].key ==> !Encodes(env, puts, ids, |puts| - 1)
    ensures KeptLast(env, puts, ids, j)
  {
    hide PayloadOf;
    var n := |puts| - 1;
    forall k | j < k < |puts| && puts[k].key == puts[j].key ensures !Encodes(env, puts, ids, k) {
      if k < n { assert !Encodes(env, puts[..n], ids[..n], k); }
    }
  }

  /** Every block of the batch encodes. */
  ghost predicate AllEncode(env: Setup, puts: seq<Put>, ids: seq<nat>)
    requires |ids| == |puts|
  {
    forall i :: 0 <= i < |puts| ==> Encodes(env, puts, ids, i)
  }

  lemma OneMoreKey(m: map<Bytes, Bytes>, k: Bytes, v: Bytes)
    ensures |m[k := v]| == if k in m then |m| else |m| + 1
  {
    assert m[k := v].Keys == m.Keys + {k};
    assert |m| == |m.Keys| && |m[k := v]| == |m[k := v].Keys|;
  }

  /** A batch stores every block if and only if its keys are distinct and every block encodes. */
  lemma {:induction false} StoresAllIff(env: Setup, name: Bytes, puts: seq<Put>, ids: seq<nat>)
    requires |ids| == |puts|
    ensures |BatchPayloads(env, name, puts, ids)| <= |puts|
    ensures |BatchPayloads(env, name, puts, ids)| == |puts| <==> DistinctPuts(puts) && AllEncode(env, puts, ids)
    decreases |puts|
  {
    hide PayloadOf, StorageKey;
    if puts != [] {
      var n := |puts| - 1;
      StoresAllIff(env, name, puts[..n], ids[..n]);
      FrontAll(env, puts, ids);
      LastKeyNew(env, name, puts, ids);
      if Encodes(env, puts, ids, n) {
        OneMoreKey(BatchPayloads(env, name, puts[..n], ids[..n]), StorageKey(name, puts[n].key),
                   PayloadOf(env, puts[n].key, puts[n].block, ids[n]).value);
      }
      hide DistinctPuts, AllEncode;
    }
  }

  lemma FrontAll(env: Setup, puts: seq<Put>, ids: seq<nat>)
    requires |ids| == |puts| > 0
    ensures var n := |puts| - 1;
      AllEncode(env, puts, ids) <==> AllEncode(env, puts[..n], ids[..n]) && Encodes(env, puts, ids, n)
  {
    hide PayloadOf;
    var n := |puts| - 1;
    assert forall i :: 0 <= i < n ==> (Encodes(env, puts[..n], ids[..n], i) <==> Encodes(env, puts, ids, i));
  }

  /** The last key is new to the map exactly when it is new to the batch, if all before it encode. */
  lemma LastKeyNew(env: Setup, name: Bytes, puts: seq<Put>, ids: seq<nat>)
    requires |ids| == |puts| > 0
    ensures var n := |puts| - 1;
      AllEncode(env, puts[..n], ids[..n]) && DistinctPuts(puts[..n]) ==>
        (StorageKey(name, puts[n].key) !in BatchPayloads(env, name, puts[..n], ids[..n]) <==> DistinctPuts(puts))
    ensures DistinctPuts(puts) ==> DistinctPuts(puts[..|puts| - 1])
  {
    hide PayloadOf, StorageKey, BatchPayloads;
    var n := |puts| - 1;
    var front, sk := puts[..n], StorageKey(name, puts[n].key);
    if AllEncode(env, front, ids[..n]) && DistinctPuts(front) {
      BatchMember(env, name, front, ids[..n], sk);
      if j :| 0 <= j < n && sk == StorageKey(name, front[j].key) { SameName(name, puts[n].key, front[j].key); }
      forall j | 0 <= j < n && puts[j].key == puts[n].key ensures sk in BatchPayloads(env, name, front, ids[..n]) {
        assert front[j] == puts[j];
        assert KeptLast(env, front, ids[..n], j);
        BatchKeepsLast(env, name, front, ids[..n], j);
      }
    }
  }

  // ---------- the blocks of one key ----------

  /** What the collection takes from a batch for one key, with the marks `flags`. */
  function TakenFor(puts: seq<Put>, ids: seq<nat>, flags: seq<bool>, key: Bytes): seq<Taken>
    requires |ids| == |flags| == |puts|
  {
    if puts == [] then []
    else
      var n := |puts| - 1;
      var front := TakenFor(puts[..n], ids[..n], flags[..n], key);
      if puts[n].key == key then front + [Taken(puts[n].block, ids[n], flags[n])] else front
  }

  function Flags(env: Setup, puts: seq<Put>, ids: seq<nat>): (flags: seq<bool>)
    requires |ids| == |puts|
    ensures |flags| == |puts| && forall i :: 0 <= i < |puts| ==> flags[i] == KeptLast(env, puts, ids, i)
  {
    seq(|puts|, i requires 0 <= i < |puts| => KeptLast(env, puts, ids, i))
  }

  lemma StoredSnoc(hist: seq<Taken>, t: Taken)
    ensures StoredOf(hist + [t]) == StoredOf(hist) + (if t.stored then [t] else [])
  {
    assert (hist + [t])[..|hist|] == hist;
    assert StoredOf(hist) + [] == StoredOf(hist);
  }

  lemma {:induction false} StoredConcat(a: seq<Taken>, b: seq<Taken>)
    ensures StoredOf(a + b) == StoredOf(a) + StoredOf(b)
  {
    if b == [] {
      assert a + b == a;
    } else {
      hide StoredOf;
      var front, t := b[..|b| - 1], b[|b| - 1];
      StoredConcat(a, front);
      SplitLast(b);
      assert a + b == a + front + [t];
      StoredSnoc(a + front, t);
      StoredSnoc(front, t);
    }
  }

  lemma {:induction false} NoneStored(puts: seq<Put>, ids: seq<nat>, flags: seq<bool>, key: Bytes)
    requires |ids| == |flags| == |puts| && forall j :: 0 <= j < |puts| && puts[j].key == key ==> !flags[j]
    ensures StoredOf(TakenFor(puts, ids, flags, key)) == []
    decreases |puts|
  {
    if puts != [] {
      hide StoredOf;
      var n := |puts| - 1;
      NoneStored(puts[..n], ids[..n], flags[..n], key);
      StoredSnoc(TakenFor(puts[..n], ids[..n], flags[..n], key), Taken(puts[n].block, ids[n], flags[n]));
    } else {
      assert StoredOf([]) == [];
    }
  }

  lemma {:induction false} OneStored(puts: seq<Put>, ids: seq<nat>, flags: seq<bool>, key: Bytes, j: nat)
    requires |ids| == |flags| == |puts| && j < |puts| && puts[j].key == key && flags[j]
    requires forall i :: 0 <= i < |puts| && i != j && puts[i].key == key ==> !flags[i]
    ensures StoredOf(TakenFor(puts, ids, flags, key)) == [Taken(puts[j].block, ids[j], true)]
    decreases |puts|
  {
    hide StoredOf;
    var n := |puts| - 1;
    StoredSnoc(TakenFor(puts[..n], ids[..n], flags[..n], key), Taken(puts[n].block, ids[n], flags[n]));
    if j < n {
      OneStored(puts[..n], ids[..n], flags[..n], key, j);
    } else {
      NoneStored(puts[..n], ids[..n], flags[..n], key);
    }
  }

  /** The record of a key that a batch adds is the one block it takes and stores for the key. */
  lemma BatchRecord(env: Setup, name: Bytes, puts: seq<Put>, ids: seq<nat>, key: Bytes)
    requires |ids| == |puts|
    ensures var stored, sk := StoredOf(TakenFor(puts, ids, Flags(env, puts, ids), key)), StorageKey(name, key);
      var payloads := BatchPayloads(env, name, puts, ids);
      if sk in payloads then
        && |stored| == 1 && PayloadOf(env, key, stored[0].block, stored[0].id) == Some(payloads[sk])
        && exists j :: 0 <= j < |puts| && puts[j].key == key && stored[0] == Taken(puts[j].block, ids[j], true)
      else stored == []
  {
    hide PayloadOf, StorageKey, BatchPayloads, TakenFor, StoredOf;
    var flags, sk := Flags(env, puts, ids), StorageKey(name, key);
    if j :| 0 <= j < |puts| && puts[j].key == key && flags[j] {
      BatchKeepsLast(env, name, puts, ids, j);
      forall i | 0 <= i < |puts| && i != j && puts[i].key == key ensures !flags[i] {
        assert KeptLast(env, puts, ids, j) && (KeptLast(env, puts, ids, i) ==> i < j || j < i);
      }
      OneStored(puts, ids, flags, key, j);
    } else {
      NoneStored(puts, ids, flags, key);
      BatchMember(env, name, puts, ids, sk);
      if j :| 0 <= j < |puts| && sk == StorageKey(name, puts[j].key) && KeptLast(env, puts, ids, j) {
        SameName(name, key, puts[j].key);
      }
    }
  }

  // ---------- the collection after a batch ----------

  ghost predicate BlocksKept(c: Coll, c1: Coll) {
    forall x :: x in c.blocks ==> x in c1.blocks && c1.blocks[x] == c.blocks[x]
  }

  ghost predicate BlocksNew(c: Coll, puts: seq<Put>, ids: seq<nat>, c1: Coll) {
    && |ids| == |puts|
    && forall j :: 0 <= j < |puts| ==> ids[j] in c1.blocks && c1.blocks[ids[j]] == puts[j].block && ids[j] !in c.blocks
  }

  lemma PutBlocks(c: Coll, puts: seq<Put>, ids: seq<nat>, c0: Coll, put: Put, id: nat, c1: Coll)
    requires BlocksKept(c, c0) && BlocksNew(c, puts, ids, c0) && id !in c0.blocks
    requires c1.blocks == c0.blocks[id := put.block]
    ensures BlocksKept(c, c1) && BlocksNew(c, puts + [put], ids + [id], c1)
  {
  }

  lemma PutFacts(cfg: Config, c0: Coll, items0: seq<Item>, put: Put, id: nat, c1: Coll, items: seq<Item>, key: Bytes)
    requires PutStep(c0, items0, put, id, c1, items)
    ensures c1.blocks == c0.blocks[id := put.block] && IsNext(c0.dir.docMap, id)
    ensures KeyList(c1.dir, key) == KeyList(c0.dir, key) + (if put.key == key then [id] else [])
  {
    assert KeyList(c0.dir, key) + [] == KeyList(c0.dir, key);
    IndexedList(c0, c0.graph, put.key, put.block, id, key);
  }

  lemma {:induction false} BatchBlocks(cfg: Config, c: Coll, puts: seq<Put>, items: seq<Item>, ids: seq<nat>, c1: Coll)
    requires CollInv(cfg, c) && BatchIndexed(c, puts, items, ids, c1)
    ensures BlocksKept(c, c1) && BlocksNew(c, puts, ids, c1)
    decreases |puts|
  {
    if puts != [] {
      hide CollInv, FreshItems, PutStep, BlocksKept, BlocksNew, IsNext, KeyList;
      var front, last := puts[..|puts| - 1], puts[|puts| - 1];
      var frontIds, id := ids[..|puts| - 1], ids[|puts| - 1];
      var c0, items0 :| BatchIndexed(c, front, items0, frontIds, c0) && PutStep(c0, items0, last, id, c1, items);
      BatchBlocks(cfg, c, front, items0, frontIds, c0);
      BatchIndexedKeeps(cfg, c, front, items0, frontIds, c0);
      PutFacts(cfg, c0, items0, last, id, c1, items, []);
      KeywordRuns.FreshBlock(cfg, c0, id);
      PutBlocks(c, front, frontIds, c0, last, id, c1);
      SplitLast(puts);
      SplitLast(ids);
    }
  }

  function IdsOf(hist: seq<Taken>): (ids: seq<nat>)
    ensures |ids| == |hist| && forall i :: 0 <= i < |hist| ==> ids[i] == hist[i].id
  {
    seq(|hist|, i requires 0 <= i < |hist| => hist[i].id)
  }

  lemma Reassociate(a: seq<nat>, b: seq<nat>, c: seq<nat>)
    ensures a + b + c == a + (b + c) && b + [] == b
  {
  }

  lemma {:induction false} BatchList(cfg: Config, c: Coll, puts: seq<Put>, items: seq<Item>, ids: seq<nat>,
                                     flags: seq<bool>, c1: Coll, key: Bytes)
    requires BatchIndexed(c, puts, items, ids, c1) && |flags| == |puts|
    ensures |ids| == |puts| && KeyList(c1.dir, key) == KeyList(c.dir, key) + IdsOf(TakenFor(puts, ids, flags, key))
    decreases |puts|
  {
    hide PutStep, KeyList, IsNext;
    if puts == [] {
      assert KeyList(c.dir, key) + [] == KeyList(c.dir, key);
    } else {
      var c0, items0 := BatchLast(c, puts, items, ids, c1);
      hide BatchIndexed;
      var n := |puts| - 1;
      BatchList(cfg, c, puts[..n], items0, ids[..n], flags[..n], c0, key);
      PutFacts(cfg, c0, items0, puts[n], ids[n], c1, items, key);
      var front, last := TakenFor(puts[..n], ids[..n], flags[..n], key), Taken(puts[n].block, ids[n], flags[n]);
      IdsSnoc(front, last);
      Reassociate(KeyList(c.dir, key), IdsOf(front), if puts[n].key == key then [ids[n]] else []);
    }
  }

  lemma IdsSnoc(hist: seq<Taken>, t: Taken)
    ensures IdsOf(hist + [t]) == IdsOf(hist) + [t.id]
  {
  }

  lemma {:induction false} TakenFrom(puts: seq<Put>, ids: seq<nat>, flags: seq<bool>, key: Bytes, t: Taken)
    requires |ids| == |flags| == |puts| && t in TakenFor(puts, ids, flags, key)
    ensures exists j :: 0 <= j < |puts| && puts[j].key == key && t == Taken(puts[j].block, ids[j], flags[j])
    decreases |puts|
  {
    var n := |puts| - 1;
    if t in TakenFor(puts[..n], ids[..n], flags[..n], key) {
      TakenFrom(puts[..n], ids[..n], flags[..n], key, t);
      var j :| 0 <= j < n && puts[..n][j].key == key && t == Taken(puts[..n][j].block, ids[..n][j], flags[..n][j]);
      assert puts[j].key == key && t == Taken(puts[j].block, ids[j], flags[j]);
    }
  }

  lemma TailMore(c: Coll, c': Coll, key: Bytes, hist: seq<Taken>, more: seq<Taken>)
    requires LiveTail(c, key, hist) && KeyList(c'.dir, key) == KeyList(c.dir, key) + IdsOf(more) && BlocksKept(c, c')
    requires forall i :: 0 <= i < |more| ==> more[i].id in c'.blocks && c'.blocks[more[i].id] == more[i].block
    ensures LiveTail(c', key, hist + more)
  {
    hide KeyList;
    var ids, ids' := KeyList(c.dir, key), KeyList(c'.dir, key);
    var all := hist + more;
    forall j | 0 <= j < |ids'|
      ensures var t := all[|all| - |ids'| + j]; t.id == ids'[j] && ids'[j] in c'.blocks && c'.blocks[ids'[j]] == t.block
    {
      if j < |ids| {
        assert all[|all| - |ids'| + j] == hist[|hist| - |ids| + j];
      } else {
        assert all[|all| - |ids'| + j] == more[j - |ids|];
      }
    }
  }

  lemma BatchTail(cfg: Config, c: Coll, puts: seq<Put>, items: seq<Item>, ids: seq<nat>, flags: seq<bool>, c1: Coll,
                  key: Bytes, hist: seq<Taken>)
    requires CollInv(cfg, c) && LiveTail(c, key, hist) && BatchIndexed(c, puts, items, ids, c1) && |flags| == |puts|
    ensures |ids| == |puts| && LiveTail(c1, key, hist + TakenFor(puts, ids, flags, key))
    ensures |KeyList(c1.dir, key)| == |KeyList(c.dir, key)| + |TakenFor(puts, ids, flags, key)|
  {
    hide CollInv, LiveTail, BatchIndexed, KeyList, TakenFor;
    BatchBlocks(cfg, c, puts, items, ids, c1);
    BatchList(cfg, c, puts, items, ids, flags, c1, key);
    var more := TakenFor(puts, ids, flags, key);
    forall i | 0 <= i < |more| ensures more[i].id in c1.blocks && c1.blocks[more[i].id] == more[i].block {
      TakenFrom(puts, ids, flags, key, more[i]);
    }
    TailMore(c, c1, key, hist, more);
  }

  // ---------- vectors of a batch ----------

  /** The graph items are exactly the new blocks that have a vector. */
  ghost predicate ItemsMatch(c: Coll, items: seq<Item>, c1: Coll) {
    && (forall i :: 0 <= i < |items| ==>
          && items[i].id in c1.blocks && items[i].id !in c.blocks && |items[i].vector| > 0
          && c1.blocks[items[i].id].vector == items[i].vector)
    && (forall x :: x in c1.blocks && x !in c.blocks && |c1.blocks[x].vector| > 0 ==>
          exists i :: 0 <= i < |items| && items[i].id == x)
  }

  lemma PutItems(c: Coll, items0: seq<Item>, c0: Coll, put: Put, id: nat, c1: Coll, items: seq<Item>)
    requires ItemsMatch(c, items0, c0) && BlocksKept(c, c0) && id !in c0.blocks
    requires PutStep(c0, items0, put, id, c1, items)
    ensures ItemsMatch(c, items, c1)
  {
    hide DirAppend, KeywordIndex.Post, IsNext;
    forall x | x in c1.blocks && x !in c.blocks && |c1.blocks[x].vector| > 0
      ensures exists i :: 0 <= i < |items| && items[i].id == x
    {
      if x == id {
        assert items[|items0|].id == x;
      } else {
        var i :| 0 <= i < |items0| && items0[i].id == x;
        assert items[i].id == x;
      }
    }
  }

  lemma {:induction false} BatchItems(cfg: Config, c: Coll, puts: seq<Put>, items: seq<Item>, ids: seq<nat>, c1: Coll)
    requires CollInv(cfg, c) && BatchIndexed(c, puts, items, ids, c1)
    ensures ItemsMatch(c, items, c1)
    decreases |puts|
  {
    if puts != [] {
      hide CollInv, FreshItems, PutStep, BlocksKept, BlocksNew, ItemsMatch, IsNext, KeyList;
      var front, last := puts[..|puts| - 1], puts[|puts| - 1];
      var frontIds, id := ids[..|puts| - 1], ids[|puts| - 1];
      var c0, items0 :| BatchIndexed(c, front, items0, frontIds, c0) && PutStep(c0, items0, last, id, c1, items);
      BatchItems(cfg, c, front, items0, frontIds, c0);
      BatchBlocks(cfg, c, front, items0, frontIds, c0);
      BatchIndexedKeeps(cfg, c, front, items0, frontIds, c0);
      PutFacts(cfg, c0, items0, last, id, c1, items, []);
      KeywordRuns.FreshBlock(cfg, c0, id);
      PutItems(c, items0, c0, last, id, c1, items);
    }
  }

  ghost predicate Rising(items: seq<Item>) {
    forall i, j :: 0 <= i < j < |items| ==> items[i].id < items[j].id
  }

  lemma AddedNode(cfg: Config, g: Graph, id: nat, vector: Vector, level: nat, g': Graph, x: nat)
    requires GraphInv(cfg, g) && AddStep(cfg, g, id, vector, level, g') && AllBelow(g.nodes, id)
    ensures id in g'.nodes <==> |vector| == cfg.dimensions
    ensures id in g'.nodes ==> g'.nodes[id].vector == vector
    ensures x != id ==> (x in g'.nodes <==> x in g.nodes) && (x in g.nodes ==> g'.nodes[x].vector == g.nodes[x].vector)
  {
    if |vector| == cfg.dimensions {
      AddNodes(cfg, g, id, vector, level, g');
      hide GraphInv, AddStep;
      assert x in g'.nodes.Keys <==> x in g.nodes.Keys || x == id;
      assert id in g'.nodes.Keys;
    } else {
      RejectedAdd(cfg, g, id, vector, level, g');
    }
  }

  /** An item of a batch is in the graph afterwards exactly when its vector has the right dimension. */
  lemma {:induction false} BatchedPresent(cfg: Config, g: Graph, items: seq<Item>, g': Graph, i: nat)
    requires GraphInv(cfg, g) && Batched(cfg, g, items, g') && Rising(items) && i < |items|
    requires forall j :: 0 <= j < |items| ==> AllBelow(g.nodes, items[j].id)
    ensures items[i].id in g'.nodes <==> |items[i].vector| == cfg.dimensions
    ensures items[i].id in g'.nodes ==> g'.nodes[items[i].id].vector == items[i].vector
    decreases |items|
  {
    hide GraphInv, AddStep;
    var front, last := items[..|items| - 1], items[|items| - 1];
    var g1 :| Batched(cfg, g, front, g1) && AddStep(cfg, g1, last.id, last.vector, last.level, g');
    BatchedKeeps(cfg, g, front, g1);
    forall u | u in g1.nodes ensures u < last.id {
      if u !in g.nodes {
        var k :| 0 <= k < |front| && front[k].id == u;
        assert items[k] == front[k];
      } else {
        assert AllBelow(g.nodes, items[|items| - 1].id);
      }
    }
    AddedNode(cfg, g1, last.id, last.vector, last.level, g', items[i].id);
    if i < |front| {
      BatchedPresent(cfg, g, front, g1, i);
      assert front[i] == items[i];
    }
  }

  lemma VectorOfBlock(cfg: Config, c: Coll, items: seq<Item>, c1: Coll, c': Coll, x: nat)
    requires CollInv(cfg, c) && VectorsMatch(cfg, c) && ItemsMatch(c, items, c1) && BlocksKept(c, c1) && Rising(items)
    requires c1.graph == c.graph && Batched(cfg, c1.graph, items, c'.graph) && c' == c1.(graph := c'.graph)
    requires forall i :: 0 <= i < |items| ==> AllBelow(c.graph.nodes, items[i].id)
    requires forall u :: u in c'.graph.nodes ==> u in c.graph.nodes || exists i :: 0 <= i < |items| && items[i].id == u
    requires forall u :: u in c.graph.nodes ==>
             u in c'.graph.nodes && c'.graph.nodes[u].vector == c.graph.nodes[u].vector
    requires x in c'.blocks
    ensures x in c'.graph.nodes <==> Indexable(cfg, c'.blocks[x])
    ensures x in c'.graph.nodes ==> c'.graph.nodes[x].vector == c'.blocks[x].vector
  {
    hide GraphInv, Batched, DirInv;
    if x in c.blocks {
      assert forall i :: 0 <= i < |items| ==> items[i].id != x;
    } else {
      assert x !in c.graph.nodes.Keys;
      if |c1.blocks[x].vector| > 0 {
        var i :| 0 <= i < |items| && items[i].id == x;
        BatchedPresent(cfg, c.graph, items, c'.graph, i);
      }
    }
  }

  lemma ManyVectors(cfg: Config, c: Coll, items: seq<Item>, c1: Coll, c': Coll)
    requires CollInv(cfg, c) && VectorsMatch(cfg, c) && ItemsMatch(c, items, c1) && BlocksKept(c, c1)
    requires FreshItems(c, items, c1)
    requires c1.graph == c.graph && Batched(cfg, c1.graph, items, c'.graph) && c' == c1.(graph := c'.graph)
    ensures VectorsMatch(cfg, c')
  {
    hide GraphInv, Batched, DirInv, Indexable;
    forall i | 0 <= i < |items| ensures AllBelow(c.graph.nodes, items[i].id) {
      forall u | u in c.graph.nodes ensures u < items[i].id { assert u in c.dir.docMap.Keys; }
    }
    BatchedKeeps(cfg, c.graph, items, c'.graph);
    forall x | x in c'.blocks
      ensures (x in c'.graph.nodes <==> Indexable(cfg, c'.blocks[x]))
              && (x in c'.graph.nodes ==> c'.graph.nodes[x].vector == c'.blocks[x].vector)
    {
      VectorOfBlock(cfg, c, items, c1, c', x);
    }
  }

  /** A batch keeps the invariant of the collection and its vectors, whatever it holds. */
  lemma ManyColl(cfg: Config, c: Coll, puts: seq<Put>, items: seq<Item>, ids: seq<nat>, c1: Coll, c': Coll)
    requires CollInv(cfg, c) && VectorsMatch(cfg, c) && BatchStep(cfg, c, puts, items, ids, c1, c')
    ensures CollInv(cfg, c') && VectorsMatch(cfg, c')
  {
    BatchKeeps(cfg, c, puts, items, ids, c1, c');
    hide CollInv, VectorsMatch, BatchIndexed, Batched;
    BatchIndexedKeeps(cfg, c, puts, items, ids, c1);
    BatchBlocks(cfg, c, puts, items, ids, c1);
    BatchItems(cfg, c, puts, items, ids, c1);
    ManyVectors(cfg, c, items, c1, c');
  }
}
