/** What a filtered vector search of a collection returns, said in terms of the document map and of the
    documents ever posted. */
module CollectionSearch {
  import opened Wrappers
  import opened Bytes
  import opened Heap
  import opened LayerSearch
  import opened HnswGraph
  import opened HnswOps
  import opened CollectionRuns
  import Collection
  import CollectionModel
  import opened HnswExact
  import HnswUnlisted
  import KeywordIndex
  import KeywordRuns
  import opened KeywordHistory

  type Coll = CollectionModel.Coll

  // ---------- the set of ids ----------

  lemma KeyListed(d: CollectionModel.Dir, key: Bytes, id: nat)
    requires CollectionModel.DirInv(d)
    ensures id in CollectionModel.KeyList(d, key) <==> id in d.docMap && d.docMap[id].key == key
  {
    if id in CollectionModel.KeyList(d, key) {
      var i :| 0 <= i < |d.keyIndex[key]| && d.keyIndex[key][i] == id;
      assert d.docMap[d.keyIndex[key][i]] == CollectionModel.Loc(key, i);
    }
  }

  lemma KeyIdsAre(d: CollectionModel.Dir, keys: seq<Bytes>, id: nat)
    requires CollectionModel.DirInv(d)
    ensures id in KeyIds(d, keys) <==> id in d.docMap && d.docMap[id].key in keys
  {
    hide CollectionModel.DirInv, CollectionModel.KeyList;
    if id in KeyIds(d, keys) {
      var n :| 0 <= n < |keys| && id in CollectionModel.KeyList(d, keys[n]);
      KeyListed(d, keys[n], id);
    }
    if id in d.docMap && d.docMap[id].key in keys {
      var n :| 0 <= n < |keys| && keys[n] == d.docMap[id].key;
      KeyListed(d, keys[n], id);
    }
  }

  lemma RunDir(cfg: Config, ops: seq<CollectionModel.Op>, docs: seq<KeywordIndex.Doc>, c: Coll)
    requires RunPosts(cfg, ops, docs, c)
    ensures CollectionModel.DirInv(c.dir) && c.postings == KeywordIndex.IndexAfter(docs)
  {
    hide RunPosts;
    PostsIsRun(cfg, ops, docs, c);
    CollectionModel.RunKeeps(cfg, ops, c);
    RunPosted(cfg, ops, docs, c);
  }

  /** In every run: no set is given exactly when neither keys nor keywords are; otherwise an id is in the
      set exactly when it is live under one of the keys, if there are keys, and every keyword finds it by
      the documents ever posted under it, if there are keywords. */
  lemma FilterInRuns(cfg: Config, ops: seq<CollectionModel.Op>, docs: seq<KeywordIndex.Doc>, c: Coll, keys: seq<Bytes>,
                     keywords: seq<Bytes>, mode: KeywordIndex.Mode)
    requires RunPosts(cfg, ops, docs, c)
    ensures FilterIds(c, keys, keywords, mode).None? <==> keys == [] && keywords == []
    ensures FilterIds(c, keys, keywords, mode).Some? ==>
      forall id :: id in FilterIds(c, keys, keywords, mode).value <==>
        && (keys != [] ==> id in c.dir.docMap && c.dir.docMap[id].key in keys)
        && (keywords != [] ==> forall i :: 0 <= i < |keywords| ==> KeywordIndex.Answers(docs, mode, keywords[i], id))
  {
    hide RunPosts, KeywordIndex.IndexAfter, KeywordIndex.MeetAll, KeywordIndex.Answers, KeyIds, CollectionModel.DirInv;
    RunDir(cfg, ops, docs, c);
    forall id
      ensures id in KeyIds(c.dir, keys) <==> id in c.dir.docMap && c.dir.docMap[id].key in keys
      ensures keywords != [] ==> (id in KeywordIndex.Result(c.postings, mode, keywords).value <==>
                forall i :: 0 <= i < |keywords| ==> KeywordIndex.Answers(docs, mode, keywords[i], id))
    {
      KeyIdsAre(c.dir, keys, id);
      if keywords != [] { IdFound(docs, c.postings, mode, keywords, id); }
    }
  }

  // ---------- hits ----------

  /** As long as some id passes, every hit of a search is a live block under one of the keys that every
      keyword finds, at the true distance of its vector. */
  lemma HitsPass(cfg: Config, ops: seq<CollectionModel.Op>, docs: seq<KeywordIndex.Doc>, c: Coll, query: Vector,
                 k: nat, keys: seq<Bytes>, keywords: seq<Bytes>, mode: KeywordIndex.Mode, ep: nat,
                 found: seq<Candidate>, results: seq<Candidate>, i: nat, some: nat)
    requires RunPosts(cfg, ops, docs, c)
    requires SearchOutcome(cfg, c.graph, query, k, FilterIds(c, keys, keywords, mode), ep, found, results)
    requires keys != [] ==> some in c.dir.docMap && c.dir.docMap[some].key in keys
    requires keywords != [] ==>
      forall j :: 0 <= j < |keywords| ==> KeywordIndex.Answers(docs, mode, keywords[j], some)
    requires i < |results|
    ensures |Collection.Located(c.dir.docMap, results)| == |results|
    ensures var hit, id := Collection.Located(c.dir.docMap, results)[i], results[i].id;
      && id in c.dir.docMap && c.dir.docMap[id] == CollectionModel.Loc(hit.key, hit.index)
      && (keys != [] ==> hit.key in keys)
      && (forall j :: 0 <= j < |keywords| ==> KeywordIndex.Answers(docs, mode, keywords[j], id))
      && id in c.graph.nodes && hit.distance == cfg.metric(query, c.graph.nodes[id].vector)
  {
    hide RunPosts, KeywordIndex.Answers, FilterIds, SearchOutcome;
    var filter := FilterIds(c, keys, keywords, mode);
    FilterInRuns(cfg, ops, docs, c, keys, keywords, mode);
    if filter.Some? { assert some in filter.value; }
    PostsIsRun(cfg, ops, docs, c);
    hide CollectionModel.Runs, Collection.Located;
    Collection.NoOrphans(cfg, ops, c, query, k, filter, ep, found, results, i);
    SoundSearch(cfg, c.graph, query, k, filter, ep, found, results);
    assert results[i] in results;
  }

  /** If no id passes, the filter is ignored: the search is the unfiltered one. */
  lemma FilterIgnored(cfg: Config, ops: seq<CollectionModel.Op>, docs: seq<KeywordIndex.Doc>, c: Coll, query: Vector,
                      k: nat, keys: seq<Bytes>, keywords: seq<Bytes>, mode: KeywordIndex.Mode, ep: nat,
                      found: seq<Candidate>, results: seq<Candidate>)
    requires RunPosts(cfg, ops, docs, c)
    requires forall id ::
      || (keys != [] && (id in c.dir.docMap ==> c.dir.docMap[id].key !in keys))
      || exists i :: 0 <= i < |keywords| && !KeywordIndex.Answers(docs, mode, keywords[i], id)
    ensures SearchOutcome(cfg, c.graph, query, k, FilterIds(c, keys, keywords, mode), ep, found, results) <==>
            SearchOutcome(cfg, c.graph, query, k, None, ep, found, results)
  {
    hide RunPosts, KeywordIndex.Answers, FilterIds, LayerResult, Descended;
    FilterInRuns(cfg, ops, docs, c, keys, keywords, mode);
    if FilterIds(c, keys, keywords, mode).Some? {
      assert FilterIds(c, keys, keywords, mode).value == {};
      EmptyMatches(found);
    }
  }

  lemma {:induction false} EmptyMatches(found: seq<Candidate>)
    ensures Matching(found, Some({})) == Matching(found, None)
  {
    if found != [] { EmptyMatches(found[..|found| - 1]); }
  }

  // ---------- the graph of a collection without deletes ----------

  /** The levels are among those that randomLevel draws. */
  predicate DrawnLevels(ops: seq<CollectionModel.Op>) {
    forall i :: 0 <= i < |ops| ==> Drawn(ops[i])
  }

  predicate Drawn(op: CollectionModel.Op) {
    match op
    case Append(_, _, level) => level <= 32
    case Batch(puts) => forall j :: 0 <= j < |puts| ==> puts[j].level <= 32
    case DeleteKey(_) => true
  }

  ghost predicate IdsFit(c: Coll) {
    forall id :: id in c.dir.docMap ==> id < ID_LIMIT
  }

  ghost predicate LevelsFit(items: seq<Item>) {
    forall i :: 0 <= i < |items| ==> items[i].level <= 32
  }

  lemma {:induction false} BatchLevels(c: Coll, puts: seq<CollectionModel.Put>, items: seq<Item>, ids: seq<nat>,
                                       c1: Coll)
    requires CollectionModel.BatchIndexed(c, puts, items, ids, c1) && forall j :: 0 <= j < |puts| ==>
             puts[j].level <= 32
    ensures LevelsFit(items)
    decreases |puts|
  {
    if puts != [] {
      hide CollectionModel.PutStep, LevelsFit;
      var n := |puts| - 1;
      var c0, items0 :| CollectionModel.BatchIndexed(c, puts[..n], items0, ids[..n], c0)
          && CollectionModel.PutStep(c0, items0, puts[n], ids[n], c1, items);
      BatchLevels(c, puts[..n], items0, ids[..n], c0);
      PutLevel(c0, items0, puts[n], ids[n], c1, items);
    }
  }

  lemma PutLevel(c: Coll, items: seq<Item>, put: CollectionModel.Put, id: nat, c': Coll, items': seq<Item>)
    requires CollectionModel.PutStep(c, items, put, id, c', items') && LevelsFit(items) && put.level <= 32
    ensures LevelsFit(items')
  {
    hide CollectionModel.IsNext, CollectionModel.Indexed;
  }

  lemma {:induction false} BatchGraphRun(cfg: Config, gops: seq<Op>, g: Graph, items: seq<Item>, g': Graph)
      returns (gops': seq<Op>)
    requires Runs(cfg, gops, g) && InsertOnly(gops) && Batched(cfg, g, items, g') && LevelsFit(items)
    requires forall i :: 0 <= i < |items| ==> AllBelow(g.nodes, items[i].id) && items[i].id < ID_LIMIT
    requires forall i, j :: 0 <= i < j < |items| ==> items[i].id < items[j].id
    ensures Runs(cfg, gops', g') && InsertOnly(gops')
    decreases |items|
  {
    hide AddStep, Runs, GraphInv;
    if items == [] {
      gops' := gops;
    } else {
      var front, last := items[..|items| - 1], items[|items| - 1];
      var g1 :| Batched(cfg, g, front, g1) && AddStep(cfg, g1, last.id, last.vector, last.level, g');
      var gops1 := BatchGraphRun(cfg, gops, g, front, g1);
      RunKeeps(cfg, gops, g);
      CollectionModel.BatchedKeeps(cfg, g, front, g1);
      hide Batched;
      forall u | u in g1.nodes ensures u < last.id {
        if u !in g.nodes {
          var i :| 0 <= i < |front| && front[i].id == u;
          assert items[i].id < items[|items| - 1].id;
        } else {
          assert AllBelow(g.nodes, items[|items| - 1].id);
        }
      }
      var op := Insert(last.id, last.vector, last.level);
      HnswUnlisted.RunMore(cfg, gops1, g1, op, g');
      gops' := gops1 + [op];
    }
  }

  lemma AppendGraphRun(cfg: Config, gops: seq<Op>, c: Coll, key: Bytes, block: CollectionModel.Block, level: nat,
                       id: nat, c': Coll) returns (gops': seq<Op>)
    requires Runs(cfg, gops, c.graph) && InsertOnly(gops) && CollectionModel.CollInv(cfg, c) && level <= 32
    requires CollectionModel.IsNext(c.dir.docMap, id) && IdsFit(c')
    requires CollectionModel.AppendStepAs(cfg, c, key, block, level, id, c')
    ensures Runs(cfg, gops', c'.graph) && InsertOnly(gops') && IdsFit(c)
  {
    hide Runs, AddStep;
    CollectionModel.NextIsFresh(cfg, c, id);
    hide CollectionModel.CollInv, CollectionModel.IsNext, KeywordIndex.Post;
    gops' := gops;
    if !CollectionModel.Refused(cfg, c, block, id) {
      assert c'.dir.docMap == c.dir.docMap[id := c'.dir.docMap[id]];
      if |block.vector| > 0 {
        var op := Insert(id, block.vector, level);
        HnswUnlisted.RunMore(cfg, gops, c.graph, op, c'.graph);
        gops' := gops + [op];
      }
    }
  }

  lemma ManyGraphRun(cfg: Config, gops: seq<Op>, c: Coll, puts: seq<CollectionModel.Put>, items: seq<Item>,
                     ids: seq<nat>, c1: Coll, c': Coll) returns (gops': seq<Op>)
    requires Runs(cfg, gops, c.graph) && InsertOnly(gops) && CollectionModel.CollInv(cfg, c)
    requires IdsFit(c') && CollectionModel.BatchStep(cfg, c, puts, items, ids, c1, c')
    requires forall j :: 0 <= j < |puts| ==> puts[j].level <= 32
    ensures Runs(cfg, gops', c'.graph) && InsertOnly(gops')
  {
    BatchLevels(c, puts, items, ids, c1);
    CollectionModel.BatchIndexedKeeps(cfg, c, puts, items, ids, c1);
    hide Runs, Batched, InsertOnly, GraphInv, CollectionModel.DirInv, CollectionModel.BatchIndexed;
    forall i | 0 <= i < |items| ensures AllBelow(c.graph.nodes, items[i].id) && items[i].id < ID_LIMIT {
      forall u | u in c.graph.nodes ensures u < items[i].id { assert u in c.dir.docMap.Keys; }
    }
    gops' := BatchGraphRun(cfg, gops, c.graph, items, c'.graph);
  }

  lemma FitsBefore(cfg: Config, c: Coll, puts: seq<CollectionModel.Put>, items: seq<Item>, ids: seq<nat>, c1: Coll,
                   c': Coll)
    requires CollectionModel.CollInv(cfg, c) && IdsFit(c')
    requires CollectionModel.BatchStep(cfg, c, puts, items, ids, c1, c')
    ensures IdsFit(c)
  {
    CollectionModel.BatchIndexedKeeps(cfg, c, puts, items, ids, c1);
    hide CollectionModel.CollInv, CollectionModel.BatchIndexed, Batched;
    forall id | id in c.dir.docMap ensures id < ID_LIMIT { assert id in c1.dir.docMap.Keys; }
  }

  /** The graph of a collection without deletes is that of an insert-only run of the index. */
  lemma {:induction false} GraphRun(cfg: Config, ops: seq<CollectionModel.Op>, c: Coll) returns (gops: seq<Op>)
    requires CollectionModel.Runs(cfg, ops, c) && KeywordRuns.NoDeletes(ops) && DrawnLevels(ops) && IdsFit(c)
    ensures Runs(cfg, gops, c.graph) && InsertOnly(gops)
  {
    if ops == [] {
      gops := [];
    } else {
      hide Runs, InsertOnly, CollectionModel.CollInv, IdsFit, CollectionModel.AppendStepAs, CollectionModel.BatchStep,
          CollectionModel.IsNext, CollectionModel.DeleteKeyStep;
      var n := |ops| - 1;
      var c0 :| CollectionModel.Runs(cfg, ops[..n], c0) && CollectionModel.Step(cfg, c0, ops[n], c);
      CollectionModel.RunKeeps(cfg, ops[..n], c0);
      assert Drawn(ops[n]) && !ops[n].DeleteKey?;
      match ops[n]
      case Append(key, block, level) =>
        var id :| CollectionModel.IsNext(c0.dir.docMap, id)
            && CollectionModel.AppendStepAs(cfg, c0, key, block, level, id, c);
        FitsBeforeAppend(cfg, c0, key, block, level, id, c);
        gops := GraphRun(cfg, ops[..n], c0);
        gops := AppendGraphRun(cfg, gops, c0, key, block, level, id, c);
      case Batch(puts) =>
        var items, ids, c1 :| CollectionModel.BatchStep(cfg, c0, puts, items, ids, c1, c);
        FitsBefore(cfg, c0, puts, items, ids, c1, c);
        gops := GraphRun(cfg, ops[..n], c0);
        gops := ManyGraphRun(cfg, gops, c0, puts, items, ids, c1, c);
    }
  }

  lemma FitsBeforeAppend(cfg: Config, c: Coll, key: Bytes, block: CollectionModel.Block, level: nat, id: nat, c': Coll)
    requires CollectionModel.AppendStepAs(cfg, c, key, block, level, id, c') && IdsFit(c')
    ensures IdsFit(c)
  {
    hide AddStep, KeywordIndex.Post, CollectionModel.DirAppend;
    CollectionModel.DirAppendKeys(c.dir, key, id);
    forall x | x in c.dir.docMap ensures x < ID_LIMIT { assert x in c'.dir.docMap.Keys; }
  }

  // ---------- exact search of a small collection ----------

  lemma PassingNodes(cfg: Config, ops: seq<CollectionModel.Op>, docs: seq<KeywordIndex.Doc>, c: Coll, keys: seq<Bytes>,
                     keywords: seq<Bytes>, mode: KeywordIndex.Mode, wanted: set<nat>)
    requires RunPosts(cfg, ops, docs, c)
    requires forall id :: id in wanted <==>
      && id in c.graph.nodes
      && (keys != [] ==> id in c.dir.docMap && c.dir.docMap[id].key in keys)
      && (keywords != [] ==> forall i :: 0 <= i < |keywords| ==> KeywordIndex.Answers(docs, mode, keywords[i], id))
    ensures FilterIds(c, keys, keywords, mode).None? ==> wanted == c.graph.nodes.Keys
    ensures FilterIds(c, keys, keywords, mode).Some? ==>
      wanted == c.graph.nodes.Keys * FilterIds(c, keys, keywords, mode).value
  {
    hide RunPosts, KeywordIndex.Answers, FilterIds;
    FilterInRuns(cfg, ops, docs, c, keys, keywords, mode);
  }

  /** In a collection without deletes and with at most 2M+1 vectors, Search is brute force over the vectors
      under the keys that every keyword finds, as long as some vector passes and the search is wide enough. */
  lemma HitsExact(cfg: Config, ops: seq<CollectionModel.Op>, docs: seq<KeywordIndex.Doc>, c: Coll, query: Vector,
                  k: nat, keys: seq<Bytes>, keywords: seq<Bytes>, mode: KeywordIndex.Mode, ep: nat,
                  found: seq<Candidate>, results: seq<Candidate>, wanted: set<nat>)
    requires cfg.m >= 1 && RunPosts(cfg, ops, docs, c) && KeywordRuns.NoDeletes(ops) && DrawnLevels(ops) && IdsFit(c)
    requires c.graph.hasEntry && |c.graph.nodes| <= 2 * cfg.m + 1
    requires || |c.graph.nodes| <= 1 || |c.graph.nodes| <= cfg.efSearch || |c.graph.nodes| <= k
             || ((keys != [] || keywords != []) && |c.graph.nodes| <= 10 * k)
    requires SearchOutcome(cfg, c.graph, query, k, FilterIds(c, keys, keywords, mode), ep, found, results)
    requires wanted != {} && forall id :: id in wanted <==>
      && id in c.graph.nodes
      && (keys != [] ==> id in c.dir.docMap && c.dir.docMap[id].key in keys)
      && (keywords != [] ==> forall i :: 0 <= i < |keywords| ==> KeywordIndex.Answers(docs, mode, keywords[i], id))
    ensures wanted <= c.graph.nodes.Keys
    ensures BruteForce(Layer(c.graph.nodes, cfg.metric, query, 0), k, wanted, results)
  {
    hide RunPosts, KeywordIndex.Answers, FilterIds, SearchOutcome, BruteForce, DrawnLevels, IdsFit,
        KeywordRuns.NoDeletes;
    PassingNodes(cfg, ops, docs, c, keys, keywords, mode, wanted);
    FilterGiven(c, keys, keywords, mode);
    PostsIsRun(cfg, ops, docs, c);
    hide CollectionModel.Runs, Runs, InsertOnly;
    var gops := GraphRun(cfg, ops, c);
    SmallSearchExact(cfg, gops, c.graph, query, k, FilterIds(c, keys, keywords, mode), ep, found, results);
  }

  lemma FilterGiven(c: Coll, keys: seq<Bytes>, keywords: seq<Bytes>, mode: KeywordIndex.Mode)
    ensures FilterIds(c, keys, keywords, mode).None? <==> keys == [] && keywords == []
  {
    hide KeywordIndex.Result, KeyIds;
  }

  // ---------- a filter that nothing passes ----------

  lemma OneNodeResult(cfg: Config, g: Graph, v: Vector)
    requires g == Graph(map[1 := Node(v, 0, [[]])], 1, true, 0)
    ensures var l := Layer(g.nodes, cfg.metric, v, 0);
      forall cap :: cap >= 1 ==> LayerResult(l, 1, cap, [l.Cand(1)])
  {
    var l := Layer(g.nodes, cfg.metric, v, 0);
    ReachSelf(l, 1);
    forall cap | cap >= 1 ensures LayerResult(l, 1, cap, [l.Cand(1)]) {
      assert multiset([l.Cand(1)]) == multiset{l.Cand(1)};
      assert forall u, x :: !l.Edge(u, x);
    }
  }

  lemma OneBlock(cfg: Config, key: Bytes, v: Vector) returns (ops: seq<CollectionModel.Op>, c: Coll)
    requires |v| == cfg.dimensions > 0
    ensures CollectionModel.Runs(cfg, ops, c) && c.graph == Graph(map[1 := Node(v, 0, [[]])], 1, true, 0)
    ensures c.dir == CollectionModel.Dir(map[1 := CollectionModel.Loc(key, 0)], map[key := 1], map[key := [1]])
  {
    var block := CollectionModel.Block(v, [], []);
    var g := Graph(map[1 := Node(v, 0, [[]])], 1, true, 0);
    assert NoLinks(0) == [[]];
    assert AddStep(cfg, EMPTY, 1, v, 0, g);
    hide AddStep;
    c := CollectionModel.Indexed(CollectionModel.NEW, g, key, block, 1);
    assert CollectionModel.AppendStepAs(cfg, CollectionModel.NEW, key, block, 0, 1, c);
    assert CollectionModel.IsNext(map[], 1);
    var op := CollectionModel.Append(key, block, 0);
    assert CollectionModel.Step(cfg, CollectionModel.NEW, op, c);
    KeywordRuns.RunMore(cfg, [], CollectionModel.NEW, op, c);
    ops := [] + [op];
    assert [] + [1] == [1];
  }

  /** A search limited to a key that does not exist returns the block of another key. */
  lemma AbsentKeyFindsOthers(cfg: Config)
    requires cfg.dimensions > 0
    ensures exists ops, c: Coll, query, ep, found, results, key: Bytes, other: Bytes, distance ::
      && CollectionModel.Runs(cfg, ops, c) && key != other && key !in c.dir.keyIndex
      && SearchOutcome(cfg, c.graph, query, 1, FilterIds(c, [key], [], KeywordIndex.Exact), ep, found, results)
      && Collection.Located(c.dir.docMap, results) == [Collection.Hit(other, 0, distance)]
  {
    var v: Vector, key: Bytes, other: Bytes := seq(cfg.dimensions, _ => 0), [98], [97];
    assert key[0] != other[0];
    hide *;
    var ops, c := OneBlock(cfg, other, v);
    AbsentKey(c, key);
    var l := Layer(c.graph.nodes, cfg.metric, v, 0);
    OneHit(cfg, c, other, v);
    assert SearchOutcome(cfg, c.graph, v, 1, FilterIds(c, [key], [], KeywordIndex.Exact), 1, [l.Cand(1)], [l.Cand(1)]);
  }

  lemma AbsentKey(c: Coll, key: Bytes)
    requires key !in c.dir.keyIndex
    ensures FilterIds(c, [key], [], KeywordIndex.Exact) == Some({})
  {
    hide KeywordIndex.Result;
    assert CollectionModel.KeyList(c.dir, key) == [];
    assert forall n :: 0 <= n < |[key]| ==> [key][n] == key;
    assert KeyIds(c.dir, [key]) == {};
  }

  lemma OneHit(cfg: Config, c: Coll, other: Bytes, v: Vector)
    requires c.graph == Graph(map[1 := Node(v, 0, [[]])], 1, true, 0)
    requires c.dir.docMap == map[1 := CollectionModel.Loc(other, 0)]
    ensures var l := Layer(c.graph.nodes, cfg.metric, v, 0);
      && SearchOutcome(cfg, c.graph, v, 1, Some({}), 1, [l.Cand(1)], [l.Cand(1)])
      && Collection.Located(c.dir.docMap, [l.Cand(1)]) == [Collection.Hit(other, 0, l.Dist(1))]
  {
    hide LayerResult;
    OneNodeResult(cfg, c.graph, v);
    var l := Layer(c.graph.nodes, cfg.metric, v, 0);
    var results := [l.Cand(1)];
    assert results[..0] == [] && Matching([], Some({})) == [] && Collection.Located(c.dir.docMap, []) == [];
  }
}
