/** The linked indexes of a collection: the document map, its inverse by key, the graph and the
    keyword postings, and what every run of appends, batches and deletes keeps. */
module CollectionModel {
  import opened Bytes
  import opened Seqs
  import opened LayerSearch
  import opened HnswGraph
  import opened HnswOps
  import KeywordIndex

  datatype Loc = Loc(key: Bytes, index: nat)

  datatype Block = Block(vector: Vector, keywords: seq<Bytes>, primary: Bytes)

  /** DocMap, KeyLengths and KeyIndex. */
  datatype Dir = Dir(docMap: map<nat, Loc>, keyLengths: map<Bytes, nat>, keyIndex: map<Bytes, seq<nat>>)

  function KeyList(d: Dir, key: Bytes): seq<nat> {
    if key in d.keyIndex then d.keyIndex[key] else []
  }

  function Length(d: Dir, key: Bytes): nat {
    if key in d.keyLengths then d.keyLengths[key] else 0
  }

  /** GetNextVectorID: one more than the greatest id, or 1. */
  ghost predicate IsNext(docMap: map<nat, Loc>, id: nat) {
    && id >= 1 && (forall x :: x in docMap ==> x < id) && (id == 1 || id - 1 in docMap)
  }

  function DirAppend(d: Dir, key: Bytes, id: nat): Dir {
    Dir(d.docMap[id := Loc(key, Length(d, key))], d.keyLengths[key := Length(d, key) + 1],
        d.keyIndex[key := KeyList(d, key) + [id]])
  }

  function DirDelete(d: Dir, key: Bytes): Dir {
    Dir(d.docMap - Elems(KeyList(d, key)), d.keyLengths - {key}, d.keyIndex - {key})
  }

  // ---------- the directory invariant ----------

  /** The i-th id of a key maps back to (key, i). */
  ghost predicate IndexToMap(d: Dir) {
    forall key, i :: key in d.keyIndex && 0 <= i < |d.keyIndex[key]| ==>
      d.keyIndex[key][i] in d.docMap && d.docMap[d.keyIndex[key][i]] == Loc(key, i)
  }

  /** Every mapped id stands in its key's list at its index. */
  ghost predicate MapToIndex(d: Dir) {
    forall id :: id in d.docMap ==>
      var loc := d.docMap[id]; loc.index < |KeyList(d, loc.key)| && KeyList(d, loc.key)[loc.index] == id
  }

  ghost predicate Lengths(d: Dir) {
    && d.keyLengths.Keys == d.keyIndex.Keys
    && forall key :: key in d.keyIndex ==>
        d.keyIndex[key] != [] && d.keyLengths[key] == |d.keyIndex[key]| && Increasing(d.keyIndex[key])
  }

  /** DocMap and KeyIndex are inverse to each other, and the lengths agree. */
  ghost predicate DirInv(d: Dir) {
    IndexToMap(d) && MapToIndex(d) && Lengths(d)
  }

  lemma AppendKeepsDir(d: Dir, key: Bytes, id: nat)
    requires DirInv(d) && forall x :: x in d.docMap ==> x < id
    ensures DirInv(DirAppend(d, key, id))
  {
    AppendIndexToMap(d, key, id);
    AppendMapToIndex(d, key, id);
    AppendLengths(d, key, id);
    hide *;
    assert DirInv(DirAppend(d, key, id)) by { DirParts(DirAppend(d, key, id)); }
  }

  lemma DirParts(d: Dir)
    requires IndexToMap(d) && MapToIndex(d) && Lengths(d)
    ensures DirInv(d)
  {
  }

  lemma AppendMapToIndex(d: Dir, key: Bytes, id: nat)
    requires DirInv(d)
    ensures MapToIndex(DirAppend(d, key, id))
  {
    hide IndexToMap;
    var d' := DirAppend(d, key, id);
    assert Length(d, key) == |KeyList(d, key)|;
    forall x | x in d'.docMap
      ensures var loc := d'.docMap[x]; loc.index < |KeyList(d', loc.key)| && KeyList(d', loc.key)[loc.index] == x
    {
      if x != id { assert x in d.docMap; }
    }
  }

  lemma AppendLengths(d: Dir, key: Bytes, id: nat)
    requires DirInv(d) && forall x :: x in d.docMap ==> x < id
    ensures Lengths(DirAppend(d, key, id))
  {
    hide MapToIndex;
    assert Length(d, key) == |KeyList(d, key)|;
    forall i | 0 <= i < |KeyList(d, key)| ensures KeyList(d, key)[i] < id {
      assert d.keyIndex[key][i] in d.docMap;
    }
    assert Increasing(KeyList(d, key) + [id]);
  }

  lemma AppendIndexToMap(d: Dir, key: Bytes, id: nat)
    requires DirInv(d) && forall x :: x in d.docMap ==> x < id
    ensures IndexToMap(DirAppend(d, key, id))
  {
    var d' := DirAppend(d, key, id);
    assert Length(d, key) == |KeyList(d, key)|;
    forall k, i | k in d'.keyIndex && 0 <= i < |d'.keyIndex[k]|
      ensures d'.keyIndex[k][i] in d'.docMap && d'.docMap[d'.keyIndex[k][i]] == Loc(k, i)
    {
      if k != key || i < |KeyList(d, key)| {
        assert d.keyIndex[k][i] in d.docMap;
      }
    }
  }

  lemma DeleteKeepsDir(d: Dir, key: Bytes)
    requires DirInv(d) && key in d.keyIndex
    ensures DirInv(DirDelete(d, key))
    ensures forall id :: id in d.docMap ==> (id in DirDelete(d, key).docMap <==> d.docMap[id].key != key)
  {
    forall id | id in d.docMap ensures id in DirDelete(d, key).docMap <==> d.docMap[id].key != key {
      KeyOfListed(d, key, id);
    }
    DeleteIndexToMap(d, key);
    DeleteMapToIndex(d, key);
    assert Lengths(DirDelete(d, key));
    hide *;
    DirParts(DirDelete(d, key));
  }

  lemma DeleteIndexToMap(d: Dir, key: Bytes)
    requires DirInv(d) && key in d.keyIndex
    ensures IndexToMap(DirDelete(d, key))
  {
    var d' := DirDelete(d, key);
    forall k, i | k in d'.keyIndex && 0 <= i < |d'.keyIndex[k]|
      ensures d'.keyIndex[k][i] in d'.docMap && d'.docMap[d'.keyIndex[k][i]] == Loc(k, i)
    {
      var id := d.keyIndex[k][i];
      assert id in d.docMap && d.docMap[id] == Loc(k, i);
      KeyOfListed(d, key, id);
    }
  }

  lemma DeleteMapToIndex(d: Dir, key: Bytes)
    requires DirInv(d) && key in d.keyIndex
    ensures MapToIndex(DirDelete(d, key))
  {
    var d' := DirDelete(d, key);
    forall id | id in d'.docMap
      ensures var loc := d'.docMap[id]; loc.index < |KeyList(d', loc.key)| && KeyList(d', loc.key)[loc.index] == id
    {
      assert id in d.docMap && d'.docMap[id] == d.docMap[id];
      KeyOfListed(d, key, id);
    }
  }

  lemma KeyOfListed(d: Dir, key: Bytes, id: nat)
    requires DirInv(d) && key in d.keyIndex && id in d.docMap
    ensures id in KeyList(d, key) <==> d.docMap[id].key == key
  {
    if id in KeyList(d, key) {
      var i :| 0 <= i < |d.keyIndex[key]| && d.keyIndex[key][i] == id;
    }
  }

  // ---------- the collection ----------

  /** `blocks` is the history: the block appended under each live id. */
  datatype Coll = Coll(graph: Graph, dir: Dir, postings: KeywordIndex.Postings, blocks: map<nat, Block>)

  const NEW := Coll(EMPTY, Dir(map[], map[], map[]), map[], map[])

  function Indexed(c: Coll, graph: Graph, key: Bytes, block: Block, id: nat): Coll {
    Coll(graph, DirAppend(c.dir, key, id), KeywordIndex.Post(c.postings, KeywordIndex.DocKeys(block.keywords), id),
         c.blocks[id := block])
  }

  /** The vector is refused by the graph. */
  predicate Refused(cfg: Config, c: Coll, block: Block, id: nat) {
    |block.vector| > 0 && (|block.vector| != cfg.dimensions || id in c.graph.nodes)
  }

  /** Collection.AppendBlock; a refused vector leaves everything as it was. */
  ghost predicate AppendStep(cfg: Config, c: Coll, key: Bytes, block: Block, level: nat, c': Coll) {
    exists id :: IsNext(c.dir.docMap, id) && AppendStepAs(cfg, c, key, block, level, id, c')
  }

  ghost predicate AppendStepAs(cfg: Config, c: Coll, key: Bytes, block: Block, level: nat, id: nat, c': Coll) {
    if Refused(cfg, c, block, id) then c' == c
    else
      && (if |block.vector| > 0 then AddStep(cfg, c.graph, id, block.vector, level, c'.graph) else c'.graph == c.graph)
      && c' == Indexed(c, c'.graph, key, block, id)
  }

  datatype Put = Put(key: Bytes, block: Block, level: nat)

  /** One round of the loop of BatchAppendBlocks: everything but the graph. */
  ghost predicate PutStep(c: Coll, items: seq<Item>, put: Put, id: nat, c': Coll, items': seq<Item>) {
    && IsNext(c.dir.docMap, id)
    && items' == items + (if |put.block.vector| > 0 then [Item(id, put.block.vector, put.level)] else [])
    && c' == Indexed(c, c.graph, put.key, put.block, id)
  }

  /** The first phase of BatchAppendBlocks, which collects the vectors for the graph. */
  ghost predicate BatchIndexed(c: Coll, puts: seq<Put>, items: seq<Item>, ids: seq<nat>, c': Coll)
    decreases |puts|
  {
    if puts == [] then c' == c && items == [] && ids == []
    else
      && |ids| == |puts|
      && var front, last := puts[..|puts| - 1], puts[|puts| - 1];
        var frontIds, id := ids[..|puts| - 1], ids[|puts| - 1];
        exists c1, items1 :: BatchIndexed(c, front, items1, frontIds, c1) && PutStep(c1, items1, last, id, c', items)
  }

  ghost predicate BatchStep(cfg: Config, c: Coll, puts: seq<Put>, items: seq<Item>, ids: seq<nat>, c1: Coll, c': Coll) {
    && BatchIndexed(c, puts, items, ids, c1)
    && Batched(cfg, c1.graph, items, c'.graph)
    && c' == c1.(graph := c'.graph)
  }

  ghost predicate DeletedAll(g: Graph, ids: seq<nat>, g': Graph) {
    if ids == [] then g' == g
    else
      var front, last := ids[..|ids| - 1], ids[|ids| - 1];
      exists g1 :: DeletedAll(g, front, g1) && DeleteStep(g1, last, g')
  }

  /** Collection.DeleteKey; the keyword postings are left alone. */
  ghost predicate DeleteKeyStep(c: Coll, key: Bytes, c': Coll) {
    if key !in c.dir.keyIndex then c' == c
    else
      && DeletedAll(c.graph, c.dir.keyIndex[key], c'.graph)
      && c' == Coll(c'.graph, DirDelete(c.dir, key), c.postings, c.blocks - Elems(c.dir.keyIndex[key]))
  }

  // ---------- the invariant of a collection ----------

  ghost predicate CollInv(cfg: Config, c: Coll) {
    && GraphInv(cfg, c.graph) && DirInv(c.dir)
    && c.graph.nodes.Keys <= c.dir.docMap.Keys
    && c.blocks.Keys == c.dir.docMap.Keys
  }

  /** The next id is new to the document map and to the graph. */
  lemma NextIsFresh(cfg: Config, c: Coll, id: nat)
    requires CollInv(cfg, c) && IsNext(c.dir.docMap, id)
    ensures id !in c.dir.docMap && id !in c.graph.nodes && AllBelow(c.graph.nodes, id)
  {
    forall u | u in c.graph.nodes ensures u < id { assert u in c.dir.docMap.Keys; }
  }

  ghost predicate Above(docMap: map<nat, Loc>, id: nat) {
    id >= 1 && forall x :: x in docMap ==> x < id
  }

  /** It is the least positive id above all that are taken. */
  lemma NextIsLeast(docMap: map<nat, Loc>, id: nat)
    ensures IsNext(docMap, id) <==> Above(docMap, id) && forall y :: Above(docMap, y) ==> id <= y
  {
    if Above(docMap, id) && id > 1 && id - 1 !in docMap { assert Above(docMap, id - 1); }
  }

  /** An append is refused, and changes nothing, exactly for a vector of a wrong dimension; otherwise the
      block is the key's last, and in the graph exactly if it has a vector. */
  lemma AppendTakes(cfg: Config, c: Coll, key: Bytes, block: Block, level: nat, id: nat, c': Coll)
    requires CollInv(cfg, c) && IsNext(c.dir.docMap, id) && AppendStepAs(cfg, c, key, block, level, id, c')
    ensures if |block.vector| != 0 && |block.vector| != cfg.dimensions then c' == c
      else
        && c'.dir.docMap == c.dir.docMap[id := Loc(key, |KeyList(c.dir, key)|)]
        && KeyList(c'.dir, key) == KeyList(c.dir, key) + [id]
        && c'.blocks == c.blocks[id := block] && (id in c'.graph.nodes <==> block.vector != [])
  {
    NextIsFresh(cfg, c, id);
    assert Length(c.dir, key) == |KeyList(c.dir, key)| by {
      assert key in c.dir.keyLengths.Keys <==> key in c.dir.keyIndex.Keys;
    }
    hide GraphInv, AddStep, DirInv, KeywordIndex.Post;
    if |block.vector| == cfg.dimensions > 0 {
      AddNodes(cfg, c.graph, id, block.vector, level, c'.graph);
      assert id in c'.graph.nodes.Keys;
    }
  }

  lemma AppendKeeps(cfg: Config, c: Coll, key: Bytes, block: Block, level: nat, c': Coll)
    requires CollInv(cfg, c) && AppendStep(cfg, c, key, block, level, c')
    ensures CollInv(cfg, c')
  {
    hide GraphInv, AddStep, DirInv, DirAppend;
    var id :| IsNext(c.dir.docMap, id) && AppendStepAs(cfg, c, key, block, level, id, c');
    NextIsFresh(cfg, c, id);
    if !Refused(cfg, c, block, id) {
      AppendKeepsDir(c.dir, key, id);
      DirAppendKeys(c.dir, key, id);
      if |block.vector| > 0 {
        HnswGraph.AddKeeps(cfg, c.graph, id, block.vector, level, c'.graph);
        AddNodes(cfg, c.graph, id, block.vector, level, c'.graph);
      }
    }
  }

  lemma DirAppendKeys(d: Dir, key: Bytes, id: nat)
    ensures DirAppend(d, key, id).docMap.Keys == d.docMap.Keys + {id}
  {
  }

  lemma {:induction false} DeletedAllKeeps(cfg: Config, g: Graph, ids: seq<nat>, g': Graph)
    requires GraphInv(cfg, g) && DeletedAll(g, ids, g')
    ensures GraphInv(cfg, g') && g'.nodes.Keys == g.nodes.Keys - Elems(ids)
    ensures forall u :: u in g'.nodes ==> u in g.nodes && g'.nodes[u].vector == g.nodes[u].vector
  {
    if ids == [] {
      assert Elems(ids) == {};
    } else {
      hide GraphInv, DeleteStep;
      var front, last := ids[..|ids| - 1], ids[|ids| - 1];
      var g1 :| DeletedAll(g, front, g1) && DeleteStep(g1, last, g');
      DeletedAllKeeps(cfg, g, front, g1);
      HnswGraph.DeleteKeeps(cfg, g1, last, g');
      assert ids == front + [last];
      assert Elems(ids) == Elems(front) + {last};
      forall u | u in g'.nodes ensures u in g.nodes && g'.nodes[u].vector == g.nodes[u].vector {
        assert u in g'.nodes.Keys && u in g1.nodes.Keys;
      }
    }
  }

  lemma DeleteKeyKeeps(cfg: Config, c: Coll, key: Bytes, c': Coll)
    requires CollInv(cfg, c) && DeleteKeyStep(c, key, c')
    ensures CollInv(cfg, c')
  {
    if key in c.dir.keyIndex {
      hide GraphInv, DirInv, DeletedAll;
      var ids := c.dir.keyIndex[key];
      DeletedAllKeeps(cfg, c.graph, ids, c'.graph);
      DeleteKeepsDir(c.dir, key);
      assert c'.dir.docMap.Keys == c.dir.docMap.Keys - Elems(ids);
    }
  }

  /** The graph items of a batch have increasing ids above the old ones, all in the new map. */
  ghost predicate FreshItems(c: Coll, items: seq<Item>, c1: Coll) {
    && (forall i :: 0 <= i < |items| ==> items[i].id in c1.dir.docMap && items[i].id !in c.dir.docMap
                                         && forall x :: x in c.dir.docMap ==> x < items[i].id)
    && (forall i, j :: 0 <= i < j < |items| ==> items[i].id < items[j].id)
  }

  lemma PutKeeps(cfg: Config, c: Coll, c0: Coll, items0: seq<Item>, put: Put, id: nat, c1: Coll, items: seq<Item>)
    requires CollInv(cfg, c0) && c.dir.docMap.Keys <= c0.dir.docMap.Keys && FreshItems(c, items0, c0)
    requires PutStep(c0, items0, put, id, c1, items)
    ensures CollInv(cfg, c1) && c1.graph == c0.graph && c.dir.docMap.Keys <= c1.dir.docMap.Keys
    ensures FreshItems(c, items, c1)
  {
    hide GraphInv, DirInv, DirAppend;
    NextIsFresh(cfg, c0, id);
    AppendKeepsDir(c0.dir, put.key, id);
    DirAppendKeys(c0.dir, put.key, id);
    assert forall x :: x in c.dir.docMap ==> x in c0.dir.docMap;
    assert forall x :: x in c0.dir.docMap ==> x in c1.dir.docMap;
    assert id in c1.dir.docMap;
  }

  /** The last round of a batch. */
  lemma BatchLast(c: Coll, puts: seq<Put>, items: seq<Item>, ids: seq<nat>, c1: Coll)
      returns (c0: Coll, items0: seq<Item>)
    requires BatchIndexed(c, puts, items, ids, c1) && puts != []
    ensures |ids| == |puts|
    ensures BatchIndexed(c, puts[..|puts| - 1], items0, ids[..|puts| - 1], c0)
    ensures PutStep(c0, items0, puts[|puts| - 1], ids[|puts| - 1], c1, items)
  {
    hide PutStep;
    c0, items0 :| BatchIndexed(c, puts[..|puts| - 1], items0, ids[..|puts| - 1], c0)
                  && PutStep(c0, items0, puts[|puts| - 1], ids[|puts| - 1], c1, items);
  }

  lemma {:induction false} BatchIndexedKeeps(cfg: Config, c: Coll, puts: seq<Put>, items: seq<Item>, ids: seq<nat>,
                                             c1: Coll)
    requires CollInv(cfg, c) && BatchIndexed(c, puts, items, ids, c1)
    ensures CollInv(cfg, c1) && c1.graph == c.graph && c.dir.docMap.Keys <= c1.dir.docMap.Keys
    ensures FreshItems(c, items, c1)
    decreases |puts|
  {
    if puts != [] {
      hide CollInv, PutStep, FreshItems;
      var front, last := puts[..|puts| - 1], puts[|puts| - 1];
      var frontIds, id := ids[..|puts| - 1], ids[|puts| - 1];
      var c0, items0 :| BatchIndexed(c, front, items0, frontIds, c0) && PutStep(c0, items0, last, id, c1, items);
      BatchIndexedKeeps(cfg, c, front, items0, frontIds, c0);
      PutKeeps(cfg, c, c0, items0, last, id, c1, items);
    }
  }

  lemma {:induction false} BatchedKeeps(cfg: Config, g: Graph, items: seq<Item>, g': Graph)
    requires GraphInv(cfg, g) && Batched(cfg, g, items, g')
    requires forall i :: 0 <= i < |items| ==> AllBelow(g.nodes, items[i].id)
    requires forall i, j :: 0 <= i < j < |items| ==> items[i].id < items[j].id
    ensures GraphInv(cfg, g')
    ensures forall u :: u in g'.nodes ==> u in g.nodes || exists i :: 0 <= i < |items| && items[i].id == u
    ensures forall u :: u in g.nodes ==> u in g'.nodes && g'.nodes[u].vector == g.nodes[u].vector
  {
    if items != [] {
      hide GraphInv, AddStep;
      var front, last := items[..|items| - 1], items[|items| - 1];
      var g1 :| Batched(cfg, g, front, g1) && AddStep(cfg, g1, last.id, last.vector, last.level, g');
      BatchedKeeps(cfg, g, front, g1);
      forall u | u in g1.nodes ensures u < last.id {
        if u !in g.nodes {
          var i :| 0 <= i < |front| && front[i].id == u;
          assert items[i] == front[i];
        } else {
          assert AllBelow(g.nodes, items[|items| - 1].id);
        }
      }
      HnswGraph.AddKeeps(cfg, g1, last.id, last.vector, last.level, g');
      BatchedNodes(cfg, g1, last, g');
      forall u | u in g'.nodes && u !in g.nodes ensures exists i :: 0 <= i < |items| && items[i].id == u {
        if u in g1.nodes {
          var i :| 0 <= i < |front| && front[i].id == u;
          assert items[i].id == u;
        } else {
          assert items[|items| - 1].id == u;
        }
      }
    }
  }

  lemma BatchedNodes(cfg: Config, g: Graph, item: Item, g': Graph)
    requires GraphInv(cfg, g) && AddStep(cfg, g, item.id, item.vector, item.level, g') && AllBelow(g.nodes, item.id)
    ensures forall u :: u in g'.nodes ==> u in g.nodes || u == item.id
    ensures forall u :: u in g.nodes ==> u in g'.nodes && g'.nodes[u].vector == g.nodes[u].vector
  {
    if |item.vector| == cfg.dimensions {
      AddNodes(cfg, g, item.id, item.vector, item.level, g');
      hide GraphInv, AddStep;
      forall u | u in g'.nodes ensures u in g.nodes || u == item.id { assert u in g'.nodes.Keys; }
      forall u | u in g.nodes ensures u in g'.nodes { assert u in g'.nodes.Keys; }
    }
  }

  lemma BatchKeeps(cfg: Config, c: Coll, puts: seq<Put>, items: seq<Item>, ids: seq<nat>, c1: Coll, c': Coll)
    requires CollInv(cfg, c) && BatchStep(cfg, c, puts, items, ids, c1, c')
    ensures CollInv(cfg, c')
  {
    hide GraphInv, DirInv, Batched, BatchIndexed;
    BatchIndexedKeeps(cfg, c, puts, items, ids, c1);
    forall i | 0 <= i < |items| ensures AllBelow(c1.graph.nodes, items[i].id) {
      forall u | u in c1.graph.nodes ensures u < items[i].id { assert u in c.graph.nodes.Keys; }
    }
    BatchedKeeps(cfg, c1.graph, items, c'.graph);
    forall u | u in c'.graph.nodes ensures u in c'.dir.docMap {
      if u in c1.graph.nodes { assert u in c1.graph.nodes.Keys; }
    }
  }

  // ---------- runs ----------

  datatype Op = Append(key: Bytes, block: Block, level: nat) | Batch(puts: seq<Put>) | DeleteKey(key: Bytes)

  ghost predicate Step(cfg: Config, c: Coll, op: Op, c': Coll) {
    match op
    case Append(key, block, level) => AppendStep(cfg, c, key, block, level, c')
    case Batch(puts) => exists items, ids, c1 :: BatchStep(cfg, c, puts, items, ids, c1, c')
    case DeleteKey(key) => DeleteKeyStep(c, key, c')
  }

  ghost predicate Runs(cfg: Config, ops: seq<Op>, c: Coll) {
    if ops == [] then c == NEW
    else
      var front, last := ops[..|ops| - 1], ops[|ops| - 1];
      exists c0 :: Runs(cfg, front, c0) && Step(cfg, c0, last, c)
  }

  lemma StepKeeps(cfg: Config, c: Coll, op: Op, c': Coll)
    requires CollInv(cfg, c) && Step(cfg, c, op, c')
    ensures CollInv(cfg, c')
  {
    hide CollInv, AppendStep, BatchStep, DeleteKeyStep;
    match op
    case Append(key, block, level) => AppendKeeps(cfg, c, key, block, level, c');
    case Batch(puts) =>
      var items, ids, c1 :| BatchStep(cfg, c, puts, items, ids, c1, c');
      BatchKeeps(cfg, c, puts, items, ids, c1, c');
    case DeleteKey(key) => DeleteKeyKeeps(cfg, c, key, c');
  }

  /** Every run, failed appends included, keeps the indexes in agreement. */
  lemma {:induction false} RunKeeps(cfg: Config, ops: seq<Op>, c: Coll)
    requires Runs(cfg, ops, c)
    ensures CollInv(cfg, c)
  {
    if ops != [] {
      hide CollInv, Step;
      var front, last := ops[..|ops| - 1], ops[|ops| - 1];
      var c0 :| Runs(cfg, front, c0) && Step(cfg, c0, last, c);
      RunKeeps(cfg, front, c0);
      StepKeeps(cfg, c0, last, c);
    }
  }
}
