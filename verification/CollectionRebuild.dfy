/** Runs in which the per-key lists are rebuilt from the document map at any time, as when a
    collection is opened again, and the collection then goes on working with permuted lists. */
module CollectionRebuild {
  import opened Wrappers
  import opened Bytes
  import opened Seqs
  import opened Heap
  import opened LayerSearch
  import opened HnswGraph
  import opened HnswOps
  import opened CollectionModel
  import opened CollectionRuns
  import Collection
  import HnswExact
  import KeywordIndex

  datatype Op = Plain(op: CollectionModel.Op) | Rebuild

  /** The same directory up to the order of the lists. */
  ghost predicate Permuted(d: Dir, d0: Dir) {
    && d.docMap == d0.docMap && d.keyLengths == d0.keyLengths && d.keyIndex.Keys == d0.keyIndex.Keys
    && forall key :: key in d.keyIndex ==> multiset(d.keyIndex[key]) == multiset(d0.keyIndex[key])
  }

  ghost predicate RebuildStep(c: Coll, keyLengths: map<Bytes, nat>, keyIndex: map<Bytes, seq<nat>>, c': Coll) {
    && Rebuilt(c.dir.docMap, c.dir.docMap.Keys, keyLengths, keyIndex)
    && c' == c.(dir := Dir(c.dir.docMap, keyLengths, keyIndex))
  }

  ghost predicate Step(cfg: Config, c: Coll, op: Op, c': Coll) {
    match op
    case Plain(op) => CollectionModel.Step(cfg, c, op, c')
    case Rebuild => exists keyLengths, keyIndex :: RebuildStep(c, keyLengths, keyIndex, c')
  }

  ghost predicate Runs(cfg: Config, ops: seq<Op>, c: Coll) {
    if ops == [] then c == NEW
    else
      var front, last := ops[..|ops| - 1], ops[|ops| - 1];
      exists c0 :: Runs(cfg, front, c0) && Step(cfg, c0, last, c)
  }

  /** With its lists put in order, by `d`, the collection satisfies its invariant. */
  ghost predicate PermInv(cfg: Config, c: Coll, d: Dir) {
    Permuted(c.dir, d) && CollInv(cfg, c.(dir := d))
  }

  // ---------- appending to permuted lists ----------

  lemma SameList(d: Dir, d0: Dir, key: Bytes)
    requires Permuted(d, d0)
    ensures multiset(KeyList(d, key)) == multiset(KeyList(d0, key)) && Length(d, key) == Length(d0, key)
    ensures Elems(KeyList(d, key)) == Elems(KeyList(d0, key))
  {
    var a, b := KeyList(d, key), KeyList(d0, key);
    assert key in d.keyIndex <==> key in d0.keyIndex;
    forall x ensures x in a <==> x in b { assert x in multiset(a) <==> x in multiset(b); }
  }

  lemma SnocSame(a: seq<nat>, b: seq<nat>, id: nat)
    requires multiset(a) == multiset(b)
    ensures multiset(a + [id]) == multiset(b + [id])
  {
  }

  lemma AppendedList(d: Dir, d0: Dir, key: Bytes, id: nat, k: Bytes)
    requires Permuted(d, d0) && k in DirAppend(d, key, id).keyIndex
    ensures k in DirAppend(d0, key, id).keyIndex.Keys
    ensures multiset(DirAppend(d, key, id).keyIndex[k]) == multiset(DirAppend(d0, key, id).keyIndex[k])
  {
    if k == key {
      SameList(d, d0, key);
      hide KeyList, Length;
      SnocSame(KeyList(d, key), KeyList(d0, key), id);
    } else {
      hide KeyList, Length;
      assert k in d.keyIndex.Keys;
    }
  }

  lemma AppendedMaps(d: Dir, d0: Dir, key: Bytes, id: nat)
    requires d.docMap == d0.docMap && d.keyLengths == d0.keyLengths && d.keyIndex.Keys == d0.keyIndex.Keys
    requires Length(d, key) == Length(d0, key)
    ensures var e, e0 := DirAppend(d, key, id), DirAppend(d0, key, id);
      e.docMap == e0.docMap && e.keyLengths == e0.keyLengths && e.keyIndex.Keys == e0.keyIndex.Keys
  {
    hide KeyList, Length;
    assert DirAppend(d, key, id).keyIndex.Keys == d.keyIndex.Keys + {key};
    assert DirAppend(d0, key, id).keyIndex.Keys == d0.keyIndex.Keys + {key};
  }

  lemma AppendPermuted(d: Dir, d0: Dir, key: Bytes, id: nat)
    requires Permuted(d, d0)
    ensures Permuted(DirAppend(d, key, id), DirAppend(d0, key, id))
  {
    hide DirAppend, KeyList, Length;
    SameList(d, d0, key);
    AppendedMaps(d, d0, key, id);
    forall k | k in DirAppend(d, key, id).keyIndex
      ensures multiset(DirAppend(d, key, id).keyIndex[k]) == multiset(DirAppend(d0, key, id).keyIndex[k])
    {
      AppendedList(d, d0, key, id, k);
    }
  }

  lemma IndexedPermuted(c: Coll, d: Dir, graph: Graph, key: Bytes, block: Block, id: nat)
    requires Permuted(c.dir, d)
    ensures var c' := Indexed(c, graph, key, block, id);
      && Permuted(c'.dir, DirAppend(d, key, id))
      && Indexed(c.(dir := d), graph, key, block, id) == c'.(dir := DirAppend(d, key, id))
  {
    hide Permuted, DirAppend, KeywordIndex.Post, KeywordIndex.DocKeys;
    AppendPermuted(c.dir, d, key, id);
  }

  lemma AppendKeepsPerm(cfg: Config, c: Coll, d: Dir, key: Bytes, block: Block, level: nat, c': Coll) returns (d': Dir)
    requires PermInv(cfg, c, d) && AppendStep(cfg, c, key, block, level, c')
    ensures PermInv(cfg, c', d')
  {
    hide CollInv, AddStep, Permuted, Indexed;
    var id :| IsNext(c.dir.docMap, id) && AppendStepAs(cfg, c, key, block, level, id, c');
    if Refused(cfg, c, block, id) {
      d' := d;
    } else {
      d' := DirAppend(d, key, id);
      IndexedPermuted(c, d, c'.graph, key, block, id);
      var e, e' := c.(dir := d), c'.(dir := d');
      assert IsNext(e.dir.docMap, id) by { SameDocMap(c.dir, d); }
      assert AppendStepAs(cfg, e, key, block, level, id, e');
      AppendKeeps(cfg, e, key, block, level, e');
    }
  }

  lemma SameDocMap(d: Dir, d0: Dir)
    requires Permuted(d, d0)
    ensures d.docMap == d0.docMap
  {
  }

  /** The first phase of a batch does the same to the lists in order. */
  lemma {:induction false} BatchPermuted(c: Coll, d: Dir, puts: seq<Put>, items: seq<Item>, ids: seq<nat>, c1: Coll)
      returns (d1: Dir)
    requires Permuted(c.dir, d) && BatchIndexed(c, puts, items, ids, c1)
    ensures Permuted(c1.dir, d1) && BatchIndexed(c.(dir := d), puts, items, ids, c1.(dir := d1))
    decreases |puts|
  {
    hide Permuted, Indexed, IsNext;
    if puts == [] {
      d1 := d;
    } else {
      var front, last := puts[..|puts| - 1], puts[|puts| - 1];
      var frontIds, id := ids[..|puts| - 1], ids[|puts| - 1];
      var c0, items0 :| BatchIndexed(c, front, items0, frontIds, c0) && PutStep(c0, items0, last, id, c1, items);
      var d0 := BatchPermuted(c, d, front, items0, frontIds, c0);
      d1 := DirAppend(d0, last.key, id);
      IndexedPermuted(c0, d0, c0.graph, last.key, last.block, id);
      SameDocMap(c0.dir, d0);
      assert PutStep(c0.(dir := d0), items0, last, id, c1.(dir := d1), items);
    }
  }

  lemma BatchKeepsPerm(cfg: Config, c: Coll, d: Dir, puts: seq<Put>, items: seq<Item>, ids: seq<nat>, c1: Coll,
                       c': Coll)
    returns (d': Dir)
    requires PermInv(cfg, c, d) && BatchStep(cfg, c, puts, items, ids, c1, c')
    ensures PermInv(cfg, c', d')
  {
    hide CollInv, Permuted, BatchIndexed, Batched;
    d' := BatchPermuted(c, d, puts, items, ids, c1);
    BatchKeeps(cfg, c.(dir := d), puts, items, ids, c1.(dir := d'), c'.(dir := d'));
  }

  // ---------- deleting and rebuilding ----------

  lemma DeletePermuted(d: Dir, d0: Dir, key: Bytes)
    requires Permuted(d, d0) && key in d.keyIndex
    ensures Permuted(DirDelete(d, key), DirDelete(d0, key))
  {
    SameList(d, d0, key);
  }

  lemma DeleteKeepsPerm(cfg: Config, c: Coll, d: Dir, key: Bytes, c': Coll) returns (d': Dir)
    requires PermInv(cfg, c, d) && DeleteKeyStep(c, key, c')
    ensures PermInv(cfg, c', d')
  {
    if key !in c.dir.keyIndex {
      d' := d;
    } else {
      hide GraphInv, DirInv, DeletedAll;
      d' := DirDelete(d, key);
      DeletePermuted(c.dir, d, key);
      SameList(c.dir, d, key);
      DeletedAllKeeps(cfg, c.graph, c.dir.keyIndex[key], c'.graph);
      assert key in d.keyIndex.Keys;
      DeleteKeepsDir(d, key);
      hide Permuted;
      assert d'.docMap.Keys == d.docMap.Keys - Elems(KeyList(d, key));
    }
  }

  lemma RebuildKeepsPerm(cfg: Config, c: Coll, d: Dir, keyLengths: map<Bytes, nat>, keyIndex: map<Bytes, seq<nat>>,
                         c': Coll)
    requires PermInv(cfg, c, d) && RebuildStep(c, keyLengths, keyIndex, c')
    ensures PermInv(cfg, c', d)
  {
    hide GraphInv, DirInv, Rebuilt;
    RebuildRestores(d, keyLengths, keyIndex);
  }

  // ---------- runs ----------

  lemma StepKeeps(cfg: Config, c: Coll, d: Dir, op: Op, c': Coll) returns (d': Dir)
    requires PermInv(cfg, c, d) && Step(cfg, c, op, c')
    ensures PermInv(cfg, c', d')
  {
    hide PermInv, AppendStep, BatchStep, DeleteKeyStep, RebuildStep;
    match op
    case Plain(Append(key, block, level)) => d' := AppendKeepsPerm(cfg, c, d, key, block, level, c');
    case Plain(Batch(puts)) =>
      var items, ids, c1 :| BatchStep(cfg, c, puts, items, ids, c1, c');
      d' := BatchKeepsPerm(cfg, c, d, puts, items, ids, c1, c');
    case Plain(DeleteKey(key)) => d' := DeleteKeepsPerm(cfg, c, d, key, c');
    case Rebuild =>
      var keyLengths, keyIndex :| RebuildStep(c, keyLengths, keyIndex, c');
      RebuildKeepsPerm(cfg, c, d, keyLengths, keyIndex, c');
      d' := d;
  }

  /** Every run with rebuilds keeps the invariant up to the order of the lists. */
  lemma {:induction false} RunKeeps(cfg: Config, ops: seq<Op>, c: Coll) returns (d: Dir)
    requires Runs(cfg, ops, c)
    ensures PermInv(cfg, c, d)
  {
    if ops == [] {
      d := NEW.dir;
      assert c.(dir := d) == NEW;
    } else {
      hide PermInv, Step;
      var front, last := ops[..|ops| - 1], ops[|ops| - 1];
      var c0 :| Runs(cfg, front, c0) && Step(cfg, c0, last, c);
      var d0 := RunKeeps(cfg, front, c0);
      d := StepKeeps(cfg, c0, d0, last, c);
    }
  }

  /** A key's list has each id once, and its length is their number. */
  ghost predicate ListsOnce(d: Dir) {
    && d.keyLengths.Keys == d.keyIndex.Keys
    && forall key :: key in d.keyIndex ==> NoDup(d.keyIndex[key]) && |d.keyIndex[key]| == d.keyLengths[key] > 0
  }

  /** A key's list holds exactly the ids located under the key. */
  ghost predicate ListsLocated(d: Dir) {
    forall key, id :: id in KeyList(d, key) <==> id in d.docMap && d.docMap[id].key == key
  }

  /** The locations of a key are below its length and in the order of the ids, hence 0, 1, .. */
  ghost predicate LocationsOrdered(d: Dir) {
    && (forall id :: id in d.docMap ==> d.docMap[id].index < Length(d, d.docMap[id].key))
    && (forall x, y :: x in d.docMap && y in d.docMap && d.docMap[x].key == d.docMap[y].key ==>
          (x < y <==> d.docMap[x].index < d.docMap[y].index))
  }

  ghost predicate Agree(c: Coll) {
    && ListsOnce(c.dir) && ListsLocated(c.dir) && LocationsOrdered(c.dir)
    && c.graph.nodes.Keys <= c.dir.docMap.Keys
  }

  lemma OrderedLocations(d: Dir, x: nat, y: nat)
    requires DirInv(d) && x in d.docMap && y in d.docMap && d.docMap[x].key == d.docMap[y].key
    ensures x < y <==> d.docMap[x].index < d.docMap[y].index
  {
    hide IndexToMap, Increasing;
    var ids, i, j := KeyList(d, d.docMap[x].key), d.docMap[x].index, d.docMap[y].index;
    assert ids[i] == x && ids[j] == y && Increasing(ids);
    ByPosition(ids, i, j);
  }

  lemma ByPosition(ids: seq<nat>, i: nat, j: nat)
    requires Increasing(ids) && i < |ids| && j < |ids|
    ensures ids[i] < ids[j] <==> i < j
  {
  }

  lemma ListedIff(d: Dir, key: Bytes, id: nat)
    requires DirInv(d)
    ensures id in KeyList(d, key) <==> id in d.docMap && d.docMap[id].key == key
  {
    if key in d.keyIndex && id in d.docMap { KeyOfListed(d, key, id); }
    if id in KeyList(d, key) {
      var i :| 0 <= i < |d.keyIndex[key]| && d.keyIndex[key][i] == id;
      assert d.docMap[id] == Loc(key, i);
    }
  }

  lemma IncreasingNoDup(ids: seq<nat>)
    requires Increasing(ids)
    ensures NoDup(ids)
  {
  }

  lemma PermutedList(d: Dir, d0: Dir, key: Bytes)
    requires Permuted(d, d0) && DirInv(d0) && key in d.keyIndex
    ensures NoDup(d.keyIndex[key]) && |d.keyIndex[key]| == d.keyLengths[key] > 0
  {
    var a, b := d.keyIndex[key], d0.keyIndex[key];
    assert key in d0.keyIndex.Keys && key in d0.keyLengths.Keys;
    IncreasingNoDup(b);
    assert |multiset(a)| == |a| && |multiset(b)| == |b|;
    hide DirInv;
    forall i, j | 0 <= i < j < |a| ensures a[i] != a[j] {
      if a[i] == a[j] {
        OncePosition(a, i, j);
        assert a[i] in multiset(b);
        CountNoDup(b, a[i]);
      }
    }
  }

  lemma PermutedOnce(d: Dir, d0: Dir)
    requires Permuted(d, d0) && DirInv(d0)
    ensures ListsOnce(d)
  {
    assert d0.keyLengths.Keys == d0.keyIndex.Keys;
    hide DirInv, NoDup;
    forall key | key in d.keyIndex ensures NoDup(d.keyIndex[key]) && |d.keyIndex[key]| == d.keyLengths[key] > 0 {
      PermutedList(d, d0, key);
    }
  }

  lemma PermutedLocated(d: Dir, d0: Dir)
    requires Permuted(d, d0) && DirInv(d0)
    ensures ListsLocated(d)
  {
    SameDocMap(d, d0);
    hide Permuted, DirInv, KeyList;
    forall key, id ensures id in KeyList(d, key) <==> id in d.docMap && d.docMap[id].key == key {
      SameList(d, d0, key);
      assert id in Elems(KeyList(d, key)) <==> id in Elems(KeyList(d0, key));
      ListedIff(d0, key, id);
    }
  }

  lemma PermutedOrdered(d: Dir, d0: Dir)
    requires Permuted(d, d0) && DirInv(d0)
    ensures LocationsOrdered(d)
  {
    SameDocMap(d, d0);
    hide Permuted, DirInv, KeyList, Length;
    forall id | id in d.docMap ensures d.docMap[id].index < Length(d, d.docMap[id].key) {
      SameList(d, d0, d.docMap[id].key);
      IndexBelow(d0, id);
    }
    forall x, y | x in d.docMap && y in d.docMap && d.docMap[x].key == d.docMap[y].key
      ensures x < y <==> d.docMap[x].index < d.docMap[y].index
    {
      OrderedLocations(d0, x, y);
    }
  }

  /** What every run with rebuilds keeps. */
  lemma RunAgrees(cfg: Config, ops: seq<Op>, c: Coll)
    requires Runs(cfg, ops, c)
    ensures Agree(c) && GraphInv(cfg, c.graph)
  {
    hide Runs, GraphInv, DirInv, ListsOnce, ListsLocated, LocationsOrdered, Permuted;
    var d := RunKeeps(cfg, ops, c);
    SameDocMap(c.dir, d);
    PermutedOnce(c.dir, d);
    PermutedLocated(c.dir, d);
    PermutedOrdered(c.dir, d);
  }

  lemma IndexBelow(d: Dir, id: nat)
    requires DirInv(d) && id in d.docMap
    ensures d.docMap[id].index < Length(d, d.docMap[id].key)
  {
    var key := d.docMap[id].key;
    assert key in d.keyIndex.Keys && key in d.keyLengths.Keys;
  }

  /** In every such run GetBlockVectorID finds exactly the id located at that index of the key. */
  lemma BlockIdInRuns(cfg: Config, ops: seq<Op>, c: Coll, key: Bytes, index: nat, id: nat)
    requires Runs(cfg, ops, c)
    ensures Collection.FirstAt(c.dir.docMap, KeyList(c.dir, key), index) == Ok(id) <==>
            id in c.dir.docMap && c.dir.docMap[id] == Loc(key, index)
    ensures Collection.FirstAt(c.dir.docMap, KeyList(c.dir, key), index).Ok? <==> index < Length(c.dir, key)
  {
    hide Runs;
    var d := RunKeeps(cfg, ops, c);
    assert DirInv(d) && c.dir.docMap == d.docMap;
    hide CollInv, Permuted, Collection.FirstAt;
    SameList(c.dir, d, key);
    forall x ensures x in KeyList(c.dir, key) <==> x in KeyList(d, key) {
      assert x in Elems(KeyList(c.dir, key)) <==> x in Elems(KeyList(d, key));
    }
    Collection.BlockIdOf(d, key, KeyList(c.dir, key), index);
    assert Length(d, key) == |KeyList(d, key)| by { assert key in d.keyIndex.Keys <==> key in d.keyLengths.Keys; }
  }

  /** In every such run Search drops no result, and the next id is new. */
  lemma SearchInRuns(cfg: Config, ops: seq<Op>, c: Coll, query: Vector, k: nat, filter: Option<set<nat>>, ep: nat,
                     found: seq<Candidate>, results: seq<Candidate>, id: nat)
    requires Runs(cfg, ops, c)
    ensures SearchOutcome(cfg, c.graph, query, k, filter, ep, found, results) ==>
              |Collection.Located(c.dir.docMap, results)| == |results|
    ensures IsNext(c.dir.docMap, id) ==> id !in c.dir.docMap && id !in c.graph.nodes
  {
    RunAgrees(cfg, ops, c);
    assert c.graph.nodes.Keys <= c.dir.docMap.Keys;
    hide Runs, Agree, GraphInv, SearchOutcome, Collection.Located;
    assert forall x :: x in c.graph.nodes.Keys ==> x in c.dir.docMap.Keys;
    if SearchOutcome(cfg, c.graph, query, k, filter, ep, found, results) {
      HnswExact.SoundSearch(cfg, c.graph, query, k, filter, ep, found, results);
      forall x | x in results ensures x.id in c.dir.docMap { assert x.id in c.graph.nodes.Keys; }
      Collection.LocatedAll(c.dir.docMap, results, 0);
    }
  }
}
