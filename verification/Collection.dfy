/** The collection object: its methods, each proved against the steps of the model. */
module Collection {
  import opened Wrappers
  import opened Bytes
  import opened Seqs
  import opened Heap
  import opened LayerSearch
  import opened HnswGraph
  import opened HnswOps
  import opened HnswIndex
  import opened CollectionModel
  import opened CollectionRuns
  import HnswExact
  import KeywordIndex

  datatype Filter = Filter(keys: seq<Bytes>, keywords: seq<Bytes>, mode: KeywordIndex.Mode)

  datatype Hit = Hit(key: Bytes, index: nat, distance: real)

  class Collection {
    const hnsw: Index
    const kwIndex: KeywordIndex.InvertedIndex
    var docMap: map<nat, Loc>
    var keyLengths: map<Bytes, nat>
    var keyIndex: map<Bytes, seq<nat>>
    ghost var blocks: map<nat, Block>

    constructor (cfg: Config)
      ensures fresh(hnsw) && fresh(kwIndex) && hnsw.cfg == cfg && State() == NEW
    {
      hnsw := new Index(cfg);
      kwIndex := new KeywordIndex.InvertedIndex();
      docMap, keyLengths, keyIndex, blocks := map[], map[], map[], map[];
    }

    ghost function State(): Coll
      reads this, hnsw, kwIndex
    {
      Coll(hnsw.State(), Dir(docMap, keyLengths, keyIndex), kwIndex.index, blocks)
    }

    /** GetNextVectorID. */
    method GetNextVectorId() returns (id: nat)
      ensures IsNext(docMap, id)
    {
      var maxId := 0;
      var rest := docMap.Keys;
      while rest != {}
        invariant rest <= docMap.Keys
        invariant forall x :: x in docMap && x !in rest ==> x <= maxId
        invariant maxId == 0 || maxId in docMap
        decreases rest
      {
        var x :| x in rest;
        rest := rest - {x};
        if x > maxId { maxId := x; }
      }
      return maxId + 1;
    }

    /** The part of an append after the graph: DocMap, postings, KeyLengths, KeyIndex. */
    method Record(key: Bytes, block: Block, id: nat) returns (index: nat)
      modifies this`docMap, this`keyLengths, this`keyIndex, this`blocks, kwIndex
      ensures State() == Indexed(old(State()), old(State()).graph, key, block, id)
      ensures index == Length(old(State()).dir, key)
    {
      hide KeywordIndex.Post, KeywordIndex.DocKeys;
      NoKeywords(kwIndex.index, id);
      index := if key in keyLengths then keyLengths[key] else 0;
      docMap := docMap[id := Loc(key, index)];
      if |block.keywords| > 0 {
        kwIndex.Add(block.keywords, id);
      }
      keyLengths := keyLengths[key := index + 1];
      keyIndex := keyIndex[key := (if key in keyIndex then keyIndex[key] else []) + [id]];
      blocks := blocks[id := block];
    }

    /** AppendBlock. */
    method AppendBlock(key: Bytes, block: Block, level: nat) returns (r: Outcome<nat>, ghost id: nat)
      requires hnsw.EntryLive()
      modifies this, hnsw, kwIndex
      ensures hnsw.EntryLive()
      ensures IsNext(old(docMap), id) && AppendStepAs(hnsw.cfg, old(State()), key, block, level, id, State())
      ensures r == if Refused(hnsw.cfg, old(State()), block, id) then Err else Ok(Length(old(State()).dir, key))
    {
      var vectorId := GetNextVectorId();
      id := vectorId;
      if |block.vector| > 0 {
        var ok := hnsw.Add(vectorId, block.vector, level);
        if !ok {
          RejectedAdd(hnsw.cfg, old(hnsw.State()), vectorId, block.vector, level, hnsw.State());
          return Err, id;
        }
      }
      hide AddStep;
      var index := Record(key, block, vectorId);
      return Ok(index), id;
    }

    /** One round of the loop of BatchAppendBlocks. */
    method RecordPut(put: Put, hnswItems: seq<Item>) returns (items: seq<Item>, vectorId: nat, index: nat)
      modifies this`docMap, this`keyLengths, this`keyIndex, this`blocks, kwIndex
      ensures PutStep(old(State()), hnswItems, put, vectorId, State(), items)
      ensures index == Length(old(State()).dir, put.key)
    {
      vectorId := GetNextVectorId();
      items := hnswItems;
      if |put.block.vector| > 0 {
        items := items + [Item(vectorId, put.block.vector, put.level)];
      }
      hide Indexed, Length;
      index := Record(put.key, put.block, vectorId);
    }

    /** The loop of BatchAppendBlocks: everything but the graph, collecting its vectors. */
    method RecordBatch(puts: seq<Put>) returns (results: seq<(nat, nat)>, hnswItems: seq<Item>, ghost ids: seq<nat>)
      modifies this`docMap, this`keyLengths, this`keyIndex, this`blocks, kwIndex
      ensures BatchIndexed(old(State()), puts, hnswItems, ids, State())
      ensures Placed(docMap, puts, ids, results)
    {
      hide BatchIndexed, PutStep, Placed, Length;
      hnswItems, results, ids := [], [], [];
      NoPuts(State(), puts[..0]);
      for n := 0 to |puts|
        invariant |ids| == n && Placed(State().dir.docMap, puts[..n], ids, results)
        invariant BatchIndexed(old(State()), puts[..n], hnswItems, ids, State())
      {
        ghost var c0, items0 := State(), hnswItems;
        var vectorId, index;
        hnswItems, vectorId, index := RecordPut(puts[n], hnswItems);
        SplitPrefix(puts, n);
        PutNext(old(State()), puts[..n], puts[n], items0, ids, vectorId, c0, hnswItems, State());
        PlacedNext(c0, puts[..n], ids, results, puts[n], vectorId, items0, State(), hnswItems);
        results := results + [(vectorId, index)];
        ids := ids + [vectorId];
      }
      assert puts[..|puts|] == puts;
    }

    /** BatchAppendBlocks. */
    method BatchAppendBlocks(puts: seq<Put>)
        returns (results: seq<(nat, nat)>, ghost items: seq<Item>, ghost ids: seq<nat>, ghost c1: Coll)
      requires hnsw.EntryLive()
      modifies this, hnsw, kwIndex
      ensures hnsw.EntryLive()
      ensures BatchStep(hnsw.cfg, old(State()), puts, items, ids, c1, State())
      ensures Placed(docMap, puts, ids, results)
    {
      hide BatchIndexed, Batched, Placed;
      var hnswItems;
      results, hnswItems, ids := RecordBatch(puts);
      items, c1 := hnswItems, State();
      if |hnswItems| > 0 {
        hnsw.BatchAdd(hnswItems);
      } else {
        EmptyBatch(hnsw.cfg, c1.graph);
      }
    }

    /** DeleteKey. */
    method DeleteKey(key: Bytes) returns (ok: bool)
      modifies this, hnsw
      ensures ok <==> key in old(keyIndex)
      ensures DeleteKeyStep(old(State()), key, State())
    {
      if key !in keyIndex { return false; }
      var ids := keyIndex[key];
      for i := 0 to |ids|
        invariant DeletedAll(old(hnsw.State()), ids[..i], hnsw.State())
        invariant docMap == old(docMap) - Elems(ids[..i])
        invariant unchanged(this`keyLengths, this`keyIndex, this`blocks)
      {
        hide DeleteStep, DeletedAll, Elems;
        ghost var g1 := hnsw.State();
        var _ := hnsw.Delete(ids[i]);
        docMap := docMap - {ids[i]};
        DeletedNext(old(hnsw.State()), ids, i, g1, hnsw.State());
      }
      assert ids[..|ids|] == ids;
      keyLengths := keyLengths - {key};
      keyIndex := keyIndex - {key};
      blocks := blocks - Elems(ids);
      return true;
    }

    /** The ids of the listed keys, as the key filter collects them. */
    method KeyFilter(keys: seq<Bytes>) returns (r: set<nat>)
      ensures r == KeyIds(State().dir, keys)
    {
      r := {};
      for n := 0 to |keys|
        invariant r == KeyIds(State().dir, keys[..n])
      {
        KeyIdsNext(State().dir, keys, n);
        if keys[n] in keyIndex {
          var ids := KeywordIndex.FromSlice(keyIndex[keys[n]]);
          r := r + ids;
        }
      }
      assert keys[..|keys|] == keys;
    }

    /** The bit set handed to the graph search. */
    method BuildFilter(filter: Filter) returns (r: Option<set<nat>>)
      ensures r == FilterIds(State(), filter.keys, filter.keywords, filter.mode)
      ensures r.None? <==> filter.keys == [] && filter.keywords == []
      ensures r.Some? ==> forall id :: id in r.value <==>
        && (filter.keys != [] ==>
            exists n :: 0 <= n < |filter.keys| && filter.keys[n] in keyIndex && id in keyIndex[filter.keys[n]])
        && (filter.keywords != [] ==> id in KeywordIndex.Result(kwIndex.index, filter.mode, filter.keywords).value)
    {
      hide KeywordIndex.MeetAll;
      r := None;
      if |filter.keywords| > 0 {
        var found := kwIndex.Search(filter.mode, filter.keywords);
        r := Some(found.value);
      }
      if |filter.keys| > 0 {
        var ids := KeyFilter(filter.keys);
        if r.None? {
          r := Some(ids);
        } else {
          var both := KeywordIndex.Intersect(r.value, ids);
          r := Some(both);
        }
      }
      forall id
        ensures id in KeyIds(State().dir, filter.keys) <==>
          exists n :: 0 <= n < |filter.keys| && filter.keys[n] in keyIndex && id in keyIndex[filter.keys[n]]
      {
        KeyIdsMember(State().dir, filter.keys, id);
      }
    }

    /** Search: every graph result becomes a hit, orphans being dropped. */
    method Search(query: Vector, topK: nat, filter: Filter)
      returns (r: Outcome<seq<Hit>>, ghost ep: nat, ghost found: seq<Candidate>, ghost results: seq<Candidate>)
      ensures |query| != hnsw.cfg.dimensions ==> r == Err
      ensures |query| == hnsw.cfg.dimensions && (!hnsw.hasEntry || hnsw.entryPoint !in hnsw.nodes) ==> r == Ok([])
      ensures |query| == hnsw.cfg.dimensions && hnsw.hasEntry && hnsw.entryPoint in hnsw.nodes ==>
                && SearchOutcome(hnsw.cfg, hnsw.State(), query, topK,
                                 FilterIds(State(), filter.keys, filter.keywords, filter.mode), ep, found, results)
                && r == Ok(Located(docMap, results))
    {
      var bits := BuildFilter(filter);
      hide SearchOutcome, FilterIds;
      var raw;
      raw, ep, found := hnsw.Search(query, topK, bits);
      results := [];
      if raw.Err? { return Err, ep, found, results; }
      results := raw.value;
      var hits: seq<Hit> := [];
      for i := 0 to |raw.value|
        invariant hits == Located(docMap, raw.value[..i])
      {
        assert raw.value[..i + 1][..i] == raw.value[..i];
        var c := raw.value[i];
        if c.id in docMap {
          hits := hits + [Hit(docMap[c.id].key, docMap[c.id].index, c.distance)];
        }
      }
      assert raw.value[..|raw.value|] == raw.value;
      return Ok(hits), ep, found, results;
    }

    /** KeywordSearch: the keys of the found ids that are still mapped. */
    method KeywordSearch(keywords: seq<Bytes>, mode: KeywordIndex.Mode) returns (keys: set<Bytes>)
      ensures keys == FoundKeys(State(), mode, keywords)
    {
      var bits := kwIndex.Search(mode, keywords);
      keys := {};
      if bits.None? || bits.value == {} { return; }
      var rest := bits.value;
      while rest != {}
        invariant rest <= bits.value && keys == KeysOf(docMap, bits.value - rest)
        decreases rest
      {
        var id :| id in rest;
        assert bits.value - (rest - {id}) == bits.value - rest + {id};
        KeysOfNext(docMap, bits.value - rest, id);
        rest := rest - {id};
        if id in docMap { keys := keys + {docMap[id].key}; }
      }
      assert bits.value - rest == bits.value;
    }

    /** GetBlockVectorID: the first listed id whose index matches. */
    method GetBlockVectorId(key: Bytes, index: nat) returns (r: Outcome<nat>)
      ensures r == FirstAt(docMap, if key in keyIndex then keyIndex[key] else [], index)
    {
      if key !in keyIndex { return Err; }
      var ids := keyIndex[key];
      for i := 0 to |ids|
        invariant FirstAt(docMap, ids, index) == FirstAt(docMap, ids[i..], index)
      {
        if ids[i] in docMap && docMap[ids[i]].index == index { return Ok(ids[i]); }
        assert ids[i..][1..] == ids[i + 1..];
      }
      return Err;
    }

    /** rebuildMemoryIndexes: walk DocMap in any order. */
    method RebuildMemoryIndexes()
      requires keyLengths == map[] && keyIndex == map[]
      modifies this`keyLengths, this`keyIndex
      ensures Rebuilt(docMap, docMap.Keys, keyLengths, keyIndex)
    {
      var rest := docMap.Keys;
      hide Rebuilt;
      RebuiltNothing(docMap);
      assert docMap.Keys - rest == {};
      while rest != {}
        invariant rest <= docMap.Keys && Rebuilt(docMap, docMap.Keys - rest, keyLengths, keyIndex)
        decreases rest
      {
        var id :| id in rest;
        var loc := docMap[id];
        RebuiltNext(docMap, docMap.Keys - rest, keyLengths, keyIndex, id);
        assert docMap.Keys - rest + {id} == docMap.Keys - (rest - {id});
        rest := rest - {id};
        keyIndex := NextIds(keyIndex, loc.key, id);
        if loc.index >= (if loc.key in keyLengths then keyLengths[loc.key] else 0) {
          keyLengths := keyLengths[loc.key := loc.index + 1];
        }
      }
      assert docMap.Keys - rest == docMap.Keys;
    }
  }

  function Located(docMap: map<nat, Loc>, results: seq<Candidate>): seq<Hit> {
    if results == [] then []
    else
      var front, c := Located(docMap, results[..|results| - 1]), results[|results| - 1];
      if c.id in docMap then front + [Hit(docMap[c.id].key, docMap[c.id].index, c.distance)] else front
  }

  /** The first id of the list whose location has the index. */
  function FirstAt(docMap: map<nat, Loc>, ids: seq<nat>, index: nat): Outcome<nat> {
    if ids == [] then Err
    else if ids[0] in docMap && docMap[ids[0]].index == index then Ok(ids[0])
    else FirstAt(docMap, ids[1..], index)
  }

  lemma {:induction false} LocatedAll(docMap: map<nat, Loc>, results: seq<Candidate>, i: nat)
    requires forall c :: c in results ==> c.id in docMap
    ensures |Located(docMap, results)| == |results|
    ensures i < |results| ==>
            Located(docMap, results)[i]
                == Hit(docMap[results[i].id].key, docMap[results[i].id].index, results[i].distance)
  {
    if results != [] {
      LocatedAll(docMap, results[..|results| - 1], i);
    }
  }

  // ---------- what the lookups mean ----------

  /** In every reachable state, Search drops no graph result as an orphan. */
  lemma NoOrphans(cfg: Config, ops: seq<CollectionModel.Op>, c: Coll, query: Vector, k: nat, filter: Option<set<nat>>,
                  ep: nat, found: seq<Candidate>, results: seq<Candidate>, i: nat)
    requires CollectionModel.Runs(cfg, ops, c)
    requires SearchOutcome(cfg, c.graph, query, k, filter, ep, found, results)
    ensures |Located(c.dir.docMap, results)| == |results|
    ensures i < |results| ==>
              && results[i].id in c.dir.docMap
              && (filter.Some? && filter.value != {} ==> results[i].id in filter.value)
              && Located(c.dir.docMap, results)[i]
                 == Hit(c.dir.docMap[results[i].id].key, c.dir.docMap[results[i].id].index, results[i].distance)
  {
    CollectionModel.RunKeeps(cfg, ops, c);
    HnswExact.SoundSearch(cfg, c.graph, query, k, filter, ep, found, results);
    hide CollectionModel.Runs, SearchOutcome, GraphInv, DirInv;
    forall x | x in results ensures x.id in c.dir.docMap { assert x.id in c.graph.nodes.Keys; }
    LocatedAll(c.dir.docMap, results, i);
    if i < |results| { assert results[i] in results; }
  }

  lemma {:induction false} FirstAtFinds(docMap: map<nat, Loc>, ids: seq<nat>, index: nat, id: nat)
    requires id in ids && id in docMap && docMap[id].index == index
    requires forall x :: x in ids && x in docMap && docMap[x].index == index ==> x == id
    ensures FirstAt(docMap, ids, index) == Ok(id)
  {
    if ids[0] != id {
      assert ids[0] in ids && id in ids[1..];
      FirstAtFinds(docMap, ids[1..], index, id);
    }
  }

  lemma {:induction false} FirstAtFails(docMap: map<nat, Loc>, ids: seq<nat>, index: nat)
    requires forall x :: x in ids && x in docMap ==> docMap[x].index != index
    ensures FirstAt(docMap, ids, index) == Err
  {
    if ids != [] {
      assert ids[0] in ids;
      FirstAtFails(docMap, ids[1..], index);
    }
  }

  /** GetBlockVectorID on any list with a key's ids, in whatever order. */
  lemma BlockIdOf(d: Dir, key: Bytes, ids: seq<nat>, index: nat)
    requires DirInv(d) && forall x :: x in ids <==> x in KeyList(d, key)
    ensures FirstAt(d.docMap, ids, index) == if index < |KeyList(d, key)| then Ok(KeyList(d, key)[index]) else Err
  {
    forall x | x in ids ensures x in d.docMap && d.docMap[x].key == key && d.docMap[x].index < |KeyList(d, key)|
                                && x == KeyList(d, key)[d.docMap[x].index]
    {
      var i :| 0 <= i < |d.keyIndex[key]| && d.keyIndex[key][i] == x;
    }
    if index < |KeyList(d, key)| {
      assert d.keyIndex[key][index] in d.docMap;
      FirstAtFinds(d.docMap, ids, index, KeyList(d, key)[index]);
    } else {
      FirstAtFails(d.docMap, ids, index);
    }
  }

  /** GetBlockVectorID answers the same before and after a rebuild. */
  lemma RebuildKeepsAnswers(d: Dir, keyLengths: map<Bytes, nat>, keyIndex: map<Bytes, seq<nat>>, key: Bytes, index: nat)
    requires DirInv(d) && Rebuilt(d.docMap, d.docMap.Keys, keyLengths, keyIndex)
    ensures FirstAt(d.docMap, if key in keyIndex then keyIndex[key] else [], index)
            == FirstAt(d.docMap, KeyList(d, key), index)
  {
    hide DirInv, Rebuilt;
    RebuildRestores(d, keyLengths, keyIndex);
    var ids := if key in keyIndex then keyIndex[key] else [];
    forall x ensures x in ids <==> x in KeyList(d, key) {
      assert key in keyIndex <==> key in d.keyIndex;
      if key in keyIndex {
        assert x in multiset(keyIndex[key]) <==> x in multiset(d.keyIndex[key]);
      }
    }
    BlockIdOf(d, key, ids, index);
    BlockIdOf(d, key, KeyList(d, key), index);
  }
}
