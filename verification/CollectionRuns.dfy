/** What the collection's lookups mean, over every run. */
module CollectionRuns {
  import opened Wrappers
  import opened Bytes
  import opened Seqs
  import opened HnswGraph
  import opened HnswOps
  import opened CollectionModel
  import KeywordIndex

  lemma PutNext(c: Coll, puts: seq<Put>, put: Put, items0: seq<Item>, ids0: seq<nat>, id: nat, c0: Coll,
                items: seq<Item>, c1: Coll)
    requires BatchIndexed(c, puts, items0, ids0, c0) && |ids0| == |puts| && PutStep(c0, items0, put, id, c1, items)
    ensures BatchIndexed(c, puts + [put], items, ids0 + [id], c1)
  {
    assert (puts + [put])[..|puts|] == puts && (ids0 + [id])[..|puts|] == ids0;
  }

  lemma SplitPrefix(puts: seq<Put>, n: nat)
    requires n < |puts|
    ensures puts[..n + 1] == puts[..n] + [puts[n]]
  {
  }

  /** Each result names the id and index under which its block is now mapped. */
  ghost predicate Placed(docMap: map<nat, Loc>, puts: seq<Put>, ids: seq<nat>, results: seq<(nat, nat)>) {
    && |results| == |ids| == |puts|
    && forall i :: 0 <= i < |puts| ==>
        results[i].0 == ids[i] && ids[i] in docMap && docMap[ids[i]] == Loc(puts[i].key, results[i].1)
  }

  lemma PlacedNext(c: Coll, puts: seq<Put>, ids: seq<nat>, results: seq<(nat, nat)>, put: Put, id: nat,
                   items: seq<Item>, c': Coll, items': seq<Item>)
    requires Placed(c.dir.docMap, puts, ids, results) && PutStep(c, items, put, id, c', items')
    ensures Placed(c'.dir.docMap, puts + [put], ids + [id], results + [(id, Length(c.dir, put.key))])
  {
  }

  lemma NoPuts(c: Coll, puts: seq<Put>)
    requires puts == []
    ensures BatchIndexed(c, puts, [], [], c) && Placed(c.dir.docMap, puts, [], [])
  {
  }

  lemma DeletedNext(g: Graph, ids: seq<nat>, i: nat, g1: Graph, g': Graph)
    requires i < |ids| && DeletedAll(g, ids[..i], g1) && DeleteStep(g1, ids[i], g')
    ensures DeletedAll(g, ids[..i + 1], g') && Elems(ids[..i + 1]) == Elems(ids[..i]) + {ids[i]}
  {
    hide DeleteStep;
    assert ids[..i + 1][..i] == ids[..i];
  }

  lemma EmptyBatch(cfg: Config, g: Graph)
    ensures Batched(cfg, g, [], g)
  {
  }

  // ---------- filters ----------

  function KeyIds(d: Dir, keys: seq<Bytes>): set<nat> {
    set n, id | 0 <= n < |keys| && id in KeyList(d, keys[n]) :: id
  }

  lemma KeyIdsNext(d: Dir, keys: seq<Bytes>, n: nat)
    requires n < |keys|
    ensures KeyIds(d, keys[..n + 1]) == KeyIds(d, keys[..n]) + Elems(KeyList(d, keys[n]))
  {
    var a, b := KeyIds(d, keys[..n + 1]), KeyIds(d, keys[..n]) + Elems(KeyList(d, keys[n]));
    forall id | id in a ensures id in b {
      var i :| 0 <= i < n + 1 && id in KeyList(d, keys[..n + 1][i]);
      if i < n { assert keys[..n][i] == keys[i]; }
    }
    forall id | id in b ensures id in a {
      if id in Elems(KeyList(d, keys[n])) {
        assert keys[..n + 1][n] == keys[n];
      } else {
        var i :| 0 <= i < n && id in KeyList(d, keys[..n][i]);
        assert keys[..n + 1][i] == keys[..n][i];
      }
    }
  }

  lemma KeyIdsMember(d: Dir, keys: seq<Bytes>, id: nat)
    ensures id in KeyIds(d, keys) <==>
            exists n :: 0 <= n < |keys| && keys[n] in d.keyIndex && id in d.keyIndex[keys[n]]
  {
    if id in KeyIds(d, keys) {
      var n :| 0 <= n < |keys| && id in KeyList(d, keys[n]);
      assert keys[n] in d.keyIndex;
    }
    if n :| 0 <= n < |keys| && keys[n] in d.keyIndex && id in d.keyIndex[keys[n]] {
      assert id in KeyList(d, keys[n]);
    }
  }

  function FilterIds(c: Coll, keys: seq<Bytes>, keywords: seq<Bytes>, mode: KeywordIndex.Mode): Option<set<nat>> {
    if |keywords| > 0 && |keys| > 0
        then Some(KeywordIndex.Result(c.postings, mode, keywords).value * KeyIds(c.dir, keys))
    else if |keywords| > 0 then Some(KeywordIndex.Result(c.postings, mode, keywords).value)
    else if |keys| > 0 then Some(KeyIds(c.dir, keys))
    else None
  }

  function KeysOf(docMap: map<nat, Loc>, ids: set<nat>): set<Bytes> {
    set id | id in ids && id in docMap :: docMap[id].key
  }

  lemma KeysOfNext(docMap: map<nat, Loc>, ids: set<nat>, id: nat)
    ensures KeysOf(docMap, ids + {id}) == KeysOf(docMap, ids) + (if id in docMap then {docMap[id].key} else {})
  {
  }

  function FoundKeys(c: Coll, mode: KeywordIndex.Mode, keywords: seq<Bytes>): set<Bytes> {
    match KeywordIndex.Result(c.postings, mode, keywords)
    case None => {}
    case Some(ids) => KeysOf(c.dir.docMap, ids)
  }

  // ---------- rebuilding ----------

  /** The id lists collected from the ids `done`. */
  ghost predicate RebuiltLists(docMap: map<nat, Loc>, done: set<nat>, keyIndex: map<Bytes, seq<nat>>) {
    && (forall key :: key in keyIndex ==> NoDup(keyIndex[key]))
    && (forall id :: id in done && id in docMap ==> docMap[id].key in keyIndex)
    && (forall key, id :: key in keyIndex ==>
        (id in keyIndex[key] <==> id in done && id in docMap && docMap[id].key == key))
  }

  /** The lengths collected: one more than the greatest index. */
  ghost predicate RebuiltLengths(docMap: map<nat, Loc>, done: set<nat>, keyLengths: map<Bytes, nat>) {
    && (forall id :: id in done && id in docMap ==>
          docMap[id].key in keyLengths && docMap[id].index < keyLengths[docMap[id].key])
    && (forall key :: key in keyLengths ==>
          exists id :: id in done && id in docMap && docMap[id].key == key && docMap[id].index + 1 == keyLengths[key])
  }

  /** What the rebuild has collected from the ids `done`. */
  ghost predicate Rebuilt(docMap: map<nat, Loc>, done: set<nat>, keyLengths: map<Bytes, nat>,
                          keyIndex: map<Bytes, seq<nat>>) {
    && keyLengths.Keys == keyIndex.Keys
    && RebuiltLists(docMap, done, keyIndex) && RebuiltLengths(docMap, done, keyLengths)
  }

  lemma RebuiltNothing(docMap: map<nat, Loc>)
    ensures Rebuilt(docMap, {}, map[], map[])
  {
  }

  function NextLengths(keyLengths: map<Bytes, nat>, loc: Loc): map<Bytes, nat> {
    if loc.index >= (if loc.key in keyLengths then keyLengths[loc.key] else 0) then keyLengths[loc.key := loc.index + 1]
    else keyLengths
  }

  function NextIds(keyIndex: map<Bytes, seq<nat>>, key: Bytes, id: nat): map<Bytes, seq<nat>> {
    keyIndex[key := (if key in keyIndex then keyIndex[key] else []) + [id]]
  }

  lemma ListsNext(docMap: map<nat, Loc>, done: set<nat>, keyIndex: map<Bytes, seq<nat>>, id: nat)
    requires RebuiltLists(docMap, done, keyIndex) && id in docMap && id !in done
    ensures RebuiltLists(docMap, done + {id}, NextIds(keyIndex, docMap[id].key, id))
  {
    var index' := NextIds(keyIndex, docMap[id].key, id);
    forall key, x | key in index'
      ensures x in index'[key] <==> x in done + {id} && x in docMap && docMap[x].key == key
    {
      if key == docMap[id].key && key !in keyIndex { assert index'[key] == [id]; }
    }
  }

  lemma LengthsNext(docMap: map<nat, Loc>, done: set<nat>, keyLengths: map<Bytes, nat>, id: nat)
    requires RebuiltLengths(docMap, done, keyLengths) && id in docMap && id !in done
    ensures RebuiltLengths(docMap, done + {id}, NextLengths(keyLengths, docMap[id]))
  {
    var lengths' := NextLengths(keyLengths, docMap[id]);
    forall key | key in lengths'
      ensures exists x :: x in done + {id} && x in docMap && docMap[x].key == key &&
                          docMap[x].index + 1 == lengths'[key]
    {
      if key == docMap[id].key && lengths'[key] == docMap[id].index + 1 {
        assert id in done + {id};
      } else {
        var x :| x in done && x in docMap && docMap[x].key == key && docMap[x].index + 1 == keyLengths[key];
        assert x in done + {id};
      }
    }
  }

  lemma RebuiltNext(docMap: map<nat, Loc>, done: set<nat>, keyLengths: map<Bytes, nat>, keyIndex: map<Bytes, seq<nat>>,
                    id: nat)
    requires Rebuilt(docMap, done, keyLengths, keyIndex) && id in docMap && id !in done
    ensures Rebuilt(docMap, done + {id}, NextLengths(keyLengths, docMap[id]), NextIds(keyIndex, docMap[id].key, id))
  {
    hide RebuiltLists, RebuiltLengths;
    ListsNext(docMap, done, keyIndex, id);
    LengthsNext(docMap, done, keyLengths, id);
  }

  /** Rebuilding from the document map restores the lengths, and the id lists up to order. */
  lemma RebuildRestores(d: Dir, keyLengths: map<Bytes, nat>, keyIndex: map<Bytes, seq<nat>>)
    requires DirInv(d) && Rebuilt(d.docMap, d.docMap.Keys, keyLengths, keyIndex)
    ensures keyLengths == d.keyLengths
    ensures keyIndex.Keys == d.keyIndex.Keys
    ensures forall key :: key in keyIndex ==> multiset(keyIndex[key]) == multiset(d.keyIndex[key])
  {
    hide DirInv, Rebuilt;
    RebuiltKeys(d, keyLengths, keyIndex);
    SameKeys(d, keyLengths, keyIndex);
    forall key | key in keyIndex
      ensures keyLengths[key] == d.keyLengths[key] && multiset(keyIndex[key]) == multiset(d.keyIndex[key])
    {
      RebuiltLength(d, keyLengths, keyIndex, key);
      RebuiltIds(d, keyLengths, keyIndex, key);
    }
  }

  lemma SameKeys(d: Dir, keyLengths: map<Bytes, nat>, keyIndex: map<Bytes, seq<nat>>)
    requires DirInv(d) && Rebuilt(d.docMap, d.docMap.Keys, keyLengths, keyIndex)
    ensures keyLengths.Keys == keyIndex.Keys && d.keyLengths.Keys == d.keyIndex.Keys
  {
  }

  lemma RebuiltKeys(d: Dir, keyLengths: map<Bytes, nat>, keyIndex: map<Bytes, seq<nat>>)
    requires DirInv(d) && Rebuilt(d.docMap, d.docMap.Keys, keyLengths, keyIndex)
    ensures keyIndex.Keys == d.keyIndex.Keys
  {
    KeysBack(d, keyLengths, keyIndex);
    KeysForth(d, keyLengths, keyIndex);
    hide *;
  }

  lemma KeysBack(d: Dir, keyLengths: map<Bytes, nat>, keyIndex: map<Bytes, seq<nat>>)
    requires DirInv(d) && Rebuilt(d.docMap, d.docMap.Keys, keyLengths, keyIndex)
    ensures keyIndex.Keys <= d.keyIndex.Keys
  {
    hide IndexToMap, Lengths, RebuiltLists;
    forall key | key in keyIndex ensures key in d.keyIndex {
      assert key in keyLengths.Keys;
      var id :| id in d.docMap && d.docMap[id].key == key && d.docMap[id].index + 1 == keyLengths[key];
      assert d.docMap[id].index < |KeyList(d, key)|;
    }
  }

  lemma KeysForth(d: Dir, keyLengths: map<Bytes, nat>, keyIndex: map<Bytes, seq<nat>>)
    requires DirInv(d) && Rebuilt(d.docMap, d.docMap.Keys, keyLengths, keyIndex)
    ensures d.keyIndex.Keys <= keyIndex.Keys
  {
    hide MapToIndex, RebuiltLengths;
    forall key | key in d.keyIndex ensures key in keyIndex {
      var id := d.keyIndex[key][0];
      assert d.docMap[id] == Loc(key, 0);
      assert id in d.docMap.Keys;
    }
  }

  lemma RebuiltLength(d: Dir, keyLengths: map<Bytes, nat>, keyIndex: map<Bytes, seq<nat>>, key: Bytes)
    requires DirInv(d) && Rebuilt(d.docMap, d.docMap.Keys, keyLengths, keyIndex) && key in keyIndex && key in d.keyIndex
    ensures keyLengths[key] == d.keyLengths[key]
  {
    var id :| id in d.docMap && d.docMap[id].key == key && d.docMap[id].index + 1 == keyLengths[key];
    assert d.docMap[id].index < |KeyList(d, key)|;
    var n := |d.keyIndex[key]|;
    var last := d.keyIndex[key][n - 1];
    assert d.docMap[last] == Loc(key, n - 1);
    assert last in d.docMap.Keys;
  }

  lemma RebuiltIds(d: Dir, keyLengths: map<Bytes, nat>, keyIndex: map<Bytes, seq<nat>>, key: Bytes)
    requires DirInv(d) && Rebuilt(d.docMap, d.docMap.Keys, keyLengths, keyIndex) && key in keyIndex && key in d.keyIndex
    ensures multiset(keyIndex[key]) == multiset(d.keyIndex[key])
  {
    var a, b := keyIndex[key], d.keyIndex[key];
    assert NoDup(a) && NoDup(b);
    hide DirInv, Rebuilt;
    forall id ensures id in a <==> id in b { SameMember(d, keyLengths, keyIndex, key, id); }
    SameElements(a, b);
  }

  lemma SameMember(d: Dir, keyLengths: map<Bytes, nat>, keyIndex: map<Bytes, seq<nat>>, key: Bytes, id: nat)
    requires DirInv(d) && Rebuilt(d.docMap, d.docMap.Keys, keyLengths, keyIndex) && key in keyIndex && key in d.keyIndex
    ensures id in keyIndex[key] <==> id in d.keyIndex[key]
  {
    hide RebuiltLengths, Lengths, NoDup;
    var a, b := keyIndex[key], d.keyIndex[key];
    if id in b {
      var i :| 0 <= i < |b| && b[i] == id;
      assert d.docMap[b[i]] == Loc(key, i);
      assert id in d.docMap.Keys;
    }
    if id in a {
      assert d.docMap[id].key == key;
      assert b[d.docMap[id].index] == id;
    }
  }

  lemma SameElements(a: seq<nat>, b: seq<nat>)
    requires NoDup(a) && NoDup(b) && forall id :: id in a <==> id in b
    ensures multiset(a) == multiset(b)
  {
    forall id ensures multiset(a)[id] == multiset(b)[id] {
      if id in a {
        CountNoDup(a, id);
        CountNoDup(b, id);
      }
    }
  }

  lemma NoKeywords(p: KeywordIndex.Postings, id: nat)
    ensures KeywordIndex.Post(p, KeywordIndex.DocKeys([]), id) == p
  {
  }
}
