/** Keyword search over runs of a collection: never a miss; exact as long as nothing is deleted. */
module KeywordRuns {
  import opened Bytes
  import opened Seqs
  import opened HnswGraph
  import opened HnswOps
  import opened CollectionModel
  import opened CollectionRuns
  import KeywordIndex
  import EntryCodec

  /** Every live block is posted under all its keys. */
  ghost predicate PostedLive(c: Coll) {
    forall id, k :: id in c.blocks && k in KeywordIndex.DocKeys(c.blocks[id].keywords) ==>
      id in KeywordIndex.Lookup(c.postings, k)
  }

  /** Nothing else is posted. */
  ghost predicate PostedOnly(c: Coll) {
    forall id, k :: id in KeywordIndex.Lookup(c.postings, k) ==>
      id in c.blocks && k in KeywordIndex.DocKeys(c.blocks[id].keywords)
  }

  lemma LiveIndexed(c: Coll, graph: Graph, key: Bytes, block: Block, id: nat)
    requires PostedLive(c)
    ensures PostedLive(Indexed(c, graph, key, block, id))
  {
    var c' := Indexed(c, graph, key, block, id);
    hide KeywordIndex.Post, KeywordIndex.DocKeys;
    forall x, k | x in c'.blocks && k in KeywordIndex.DocKeys(c'.blocks[x].keywords)
      ensures x in KeywordIndex.Lookup(c'.postings, k)
    {
      KeywordIndex.PostMember(c.postings, KeywordIndex.DocKeys(block.keywords), id, k, x);
    }
  }

  lemma OnlyIndexed(c: Coll, graph: Graph, key: Bytes, block: Block, id: nat)
    requires PostedOnly(c) && id !in c.blocks
    ensures PostedOnly(Indexed(c, graph, key, block, id))
  {
    var c' := Indexed(c, graph, key, block, id);
    hide KeywordIndex.Post, KeywordIndex.DocKeys;
    forall x, k | x in KeywordIndex.Lookup(c'.postings, k)
      ensures x in c'.blocks && k in KeywordIndex.DocKeys(c'.blocks[x].keywords)
    {
      KeywordIndex.PostMember(c.postings, KeywordIndex.DocKeys(block.keywords), id, k, x);
    }
  }

  /** Both facts, the second only while `clean`. */
  ghost predicate PostingsInv(clean: bool, c: Coll) {
    PostedLive(c) && (clean ==> PostedOnly(c))
  }

  lemma {:induction false} BatchPostings(cfg: Config, clean: bool, c: Coll, puts: seq<Put>, items: seq<Item>,
                                         ids: seq<nat>, c1: Coll)
    requires CollInv(cfg, c) && PostingsInv(clean, c) && BatchIndexed(c, puts, items, ids, c1)
    ensures PostingsInv(clean, c1)
    decreases |puts|
  {
    if puts != [] {
      hide CollInv, PostedLive, PostedOnly, FreshItems, Indexed;
      var front, last := puts[..|puts| - 1], puts[|puts| - 1];
      var frontIds, id := ids[..|puts| - 1], ids[|puts| - 1];
      var c0, items0 :| BatchIndexed(c, front, items0, frontIds, c0) && PutStep(c0, items0, last, id, c1, items);
      BatchPostings(cfg, clean, c, front, items0, frontIds, c0);
      BatchIndexedKeeps(cfg, c, front, items0, frontIds, c0);
      FreshBlock(cfg, c0, id);
      LiveIndexed(c0, c0.graph, last.key, last.block, id);
      if clean { OnlyIndexed(c0, c0.graph, last.key, last.block, id); }
    }
  }

  lemma FreshBlock(cfg: Config, c: Coll, id: nat)
    requires CollInv(cfg, c) && IsNext(c.dir.docMap, id)
    ensures id !in c.blocks
  {
    assert id !in c.dir.docMap.Keys;
  }

  lemma AppendPostings(cfg: Config, clean: bool, c: Coll, key: Bytes, block: Block, level: nat, c': Coll)
    requires CollInv(cfg, c) && PostingsInv(clean, c) && AppendStep(cfg, c, key, block, level, c')
    ensures PostingsInv(clean, c')
  {
    hide CollInv, PostedLive, PostedOnly, Indexed, AddStep;
    var id :| IsNext(c.dir.docMap, id) && AppendStepAs(cfg, c, key, block, level, id, c');
    FreshBlock(cfg, c, id);
    LiveIndexed(c, c'.graph, key, block, id);
    if clean { OnlyIndexed(c, c'.graph, key, block, id); }
  }

  predicate NoDeletes(ops: seq<CollectionModel.Op>) {
    forall i :: 0 <= i < |ops| ==> !ops[i].DeleteKey?
  }

  lemma StepPostings(cfg: Config, clean: bool, c: Coll, op: CollectionModel.Op, c': Coll)
    requires CollInv(cfg, c) && PostingsInv(clean, c) && CollectionModel.Step(cfg, c, op, c')
    requires clean ==> !op.DeleteKey?
    ensures PostingsInv(clean, c')
  {
    hide CollInv, PostingsInv, AppendStep, BatchStep, DeleteKeyStep;
    match op
    case Append(key, block, level) => AppendPostings(cfg, clean, c, key, block, level, c');
    case Batch(puts) =>
      var items, ids, c1 :| BatchStep(cfg, c, puts, items, ids, c1, c');
      BatchStepPostings(cfg, clean, c, puts, items, ids, c1, c');
    case DeleteKey(key) => DeletePostings(c, key, c');
  }

  lemma BatchStepPostings(cfg: Config, clean: bool, c: Coll, puts: seq<Put>, items: seq<Item>, ids: seq<nat>, c1: Coll,
                          c': Coll)
    requires CollInv(cfg, c) && PostingsInv(clean, c) && BatchStep(cfg, c, puts, items, ids, c1, c')
    ensures PostingsInv(clean, c')
  {
    hide CollInv, BatchIndexed, Batched, KeywordIndex.DocKeys;
    BatchPostings(cfg, clean, c, puts, items, ids, c1);
  }

  lemma DeletePostings(c: Coll, key: Bytes, c': Coll)
    requires PostingsInv(false, c) && DeleteKeyStep(c, key, c')
    ensures PostingsInv(false, c')
  {
    hide DeletedAll, KeywordIndex.DocKeys, DirDelete;
  }

  lemma {:induction false} RunPostings(cfg: Config, ops: seq<CollectionModel.Op>, c: Coll)
    requires CollectionModel.Runs(cfg, ops, c)
    ensures CollInv(cfg, c) && PostingsInv(NoDeletes(ops), c)
  {
    CollectionModel.RunKeeps(cfg, ops, c);
    if ops != [] {
      hide CollInv, PostingsInv, CollectionModel.Step;
      var front, last := ops[..|ops| - 1], ops[|ops| - 1];
      var c0 :| CollectionModel.Runs(cfg, front, c0) && CollectionModel.Step(cfg, c0, last, c);
      RunPostings(cfg, front, c0);
      if NoDeletes(ops) {
        assert NoDeletes(front);
      } else {
        Weaken(NoDeletes(front), c0);
      }
      StepPostings(cfg, NoDeletes(ops), c0, last, c);
    }
  }

  lemma Weaken(clean: bool, c: Coll)
    requires PostingsInv(clean, c)
    ensures PostingsInv(false, c)
  {
  }

  // ---------- exact keyword search ----------

  /** The block carries every query keyword, ignoring case. */
  ghost predicate HasAll(block: Block, terms: seq<Bytes>) {
    forall i :: 0 <= i < |terms| ==> HasKeyword(block, terms[i])
  }

  ghost predicate HasKeyword(block: Block, term: Bytes) {
    exists j :: 0 <= j < |block.keywords| && EntryCodec.Lower(block.keywords[j]) == EntryCodec.Lower(term)
  }

  lemma CarriedIsPosted(block: Block, term: Bytes)
    requires HasKeyword(block, term)
    ensures KeywordIndex.KwKey(EntryCodec.Lower(term)) in KeywordIndex.DocKeys(block.keywords)
  {
    var key := KeywordIndex.KwKey(EntryCodec.Lower(term));
    KeywordIndex.DocKeysMember(block.keywords, key);
    var j :| 0 <= j < |block.keywords| && EntryCodec.Lower(block.keywords[j]) == EntryCodec.Lower(term);
    var keys := KeywordIndex.KeywordKeys(block.keywords[j]);
    assert keys[|keys| - 1] == key;
  }

  lemma PostedIsCarried(block: Block, term: Bytes)
    requires term != []
    requires KeywordIndex.KwKey(EntryCodec.Lower(term)) in KeywordIndex.DocKeys(block.keywords)
    ensures HasKeyword(block, term)
  {
    var key := KeywordIndex.KwKey(EntryCodec.Lower(term));
    KeywordIndex.DocKeysMember(block.keywords, key);
    var j :| 0 <= j < |block.keywords| && key in KeywordIndex.KeywordKeys(block.keywords[j]);
    KeywordIndex.KwKeyParts(EntryCodec.Lower(term));
    KeywordIndex.KeysOfLower(block.keywords[j], key);
    if key in KeywordIndex.Trigrams(EntryCodec.Lower(block.keywords[j])) {
      KeywordIndex.TrigramSize(EntryCodec.Lower(block.keywords[j]), key);
    }
  }

  lemma TermPosted(c: Coll, term: Bytes, id: nat)
    requires PostedLive(c) && id in c.blocks && HasKeyword(c.blocks[id], term)
    ensures id in KeywordIndex.TermSet(c.postings, KeywordIndex.Exact, term)
  {
    hide HasKeyword, KeywordIndex.DocKeys;
    CarriedIsPosted(c.blocks[id], term);
  }

  /** In every run, deletes and reused ids included, exact search misses no key that has a live
      block with all the query keywords. */
  lemma ExactNeverMisses(cfg: Config, ops: seq<CollectionModel.Op>, c: Coll, terms: seq<Bytes>, id: nat)
    requires CollectionModel.Runs(cfg, ops, c) && terms != []
    requires id in c.dir.docMap && id in c.blocks && HasAll(c.blocks[id], terms)
    ensures c.dir.docMap[id].key in FoundKeys(c, KeywordIndex.Exact, terms)
  {
    hide CollInv, CollectionModel.Runs, HasKeyword, PostedLive, PostedOnly, KeywordIndex.TermSet, KeywordIndex.MeetAll;
    RunPostings(cfg, ops, c);
    forall i | 0 <= i < |terms| ensures id in KeywordIndex.TermSet(c.postings, KeywordIndex.Exact, terms[i]) {
      TermPosted(c, terms[i], id);
    }
    KeywordIndex.MeetMember(c.postings, KeywordIndex.Exact, terms, id);
  }

  ghost predicate NoEmptyTerm(terms: seq<Bytes>) {
    forall i :: 0 <= i < |terms| ==> terms[i] != []
  }

  /** Without deletes it also returns no other key, whatever keywords the blocks have. */
  lemma ExactSoundWithoutDeletes(cfg: Config, ops: seq<CollectionModel.Op>, c: Coll, terms: seq<Bytes>, key: Bytes)
    requires CollectionModel.Runs(cfg, ops, c) && NoDeletes(ops) && terms != [] && NoEmptyTerm(terms)
    requires key in FoundKeys(c, KeywordIndex.Exact, terms)
    ensures exists id :: id in c.dir.docMap && c.dir.docMap[id].key == key && id in c.blocks &&
                         HasAll(c.blocks[id], terms)
  {
    RunPostings(cfg, ops, c);
    hide CollInv, CollectionModel.Runs, HasKeyword, KeywordIndex.DocKeys;
    var ids := KeywordIndex.Result(c.postings, KeywordIndex.Exact, terms).value;
    var id :| id in ids && id in c.dir.docMap && c.dir.docMap[id].key == key;
    KeywordIndex.MeetMember(c.postings, KeywordIndex.Exact, terms, id);
    forall i | 0 <= i < |terms| ensures id in c.blocks && HasKeyword(c.blocks[id], terms[i]) {
      assert id in KeywordIndex.TermSet(c.postings, KeywordIndex.Exact, terms[i]);
      PostedIsCarried(c.blocks[id], terms[i]);
    }
    assert id in KeywordIndex.TermSet(c.postings, KeywordIndex.Exact, terms[0]);
  }

  lemma PostedKw(postings: KeywordIndex.Postings)
    requires postings == KeywordIndex.Post(map[], KeywordIndex.DocKeys([KeywordIndex.KW]), 1)
    ensures 1 in KeywordIndex.MeetAll(postings, KeywordIndex.Exact, [[]])
  {
    var kw := KeywordIndex.KW;
    assert EntryCodec.Lower(kw) == kw && EntryCodec.Lower([]) == [] && kw[0..3] == kw;
    assert KeywordIndex.Windows(kw)[0] == kw;
    assert kw in KeywordIndex.Trigrams(kw);
    assert [kw][0] == kw && kw in KeywordIndex.KeywordKeys(kw);
    KeywordIndex.DocKeysMember([kw], kw);
    KeywordIndex.PostMember(map[], KeywordIndex.DocKeys([kw]), 1, kw, 1);
    assert KeywordIndex.KwKey([]) == kw;
    hide KeywordIndex.Post, KeywordIndex.DocKeys;
  }

  /** For an empty term that is false: a block with the keyword "kw:" answers for it. */
  lemma EmptyTermUnsound(cfg: Config)
    ensures exists ops, c, key ::
      && CollectionModel.Runs(cfg, ops, c) && NoDeletes(ops) && key in FoundKeys(c, KeywordIndex.Exact, [[]])
      && forall id :: id in c.blocks ==> !HasAll(c.blocks[id], [[]])
  {
    hide CollectionModel.Runs, KeywordIndex.Post, KeywordIndex.DocKeys, KeywordIndex.MeetAll, NoDeletes;
    var key: Bytes, block := [97], Block([], [KeywordIndex.KW], []);
    var ops, c := OneBlockRun(cfg, key, block);
    PostedKw(c.postings);
    assert c.dir.docMap[1].key == key;
    assert key in FoundKeys(c, KeywordIndex.Exact, [[]]);
    forall id | id in c.blocks ensures !HasAll(c.blocks[id], [[]]) {
      assert !HasKeyword(block, [[]][0]);
    }
  }

  lemma OneBlockRun(cfg: Config, key: Bytes, block: Block) returns (ops: seq<CollectionModel.Op>, c: Coll)
    requires block.vector == []
    ensures CollectionModel.Runs(cfg, ops, c) && NoDeletes(ops)
    ensures c.dir.docMap == map[1 := Loc(key, 0)] && c.blocks == map[1 := block]
    ensures c.postings == KeywordIndex.Post(map[], KeywordIndex.DocKeys(block.keywords), 1)
  {
    hide KeywordIndex.Post, KeywordIndex.DocKeys;
    ops, c := [CollectionModel.Append(key, block, 0)], Indexed(NEW, NEW.graph, key, block, 1);
    assert CollectionModel.Runs(cfg, [], NEW);
    hide CollectionModel.Runs;
    AppendPlain(cfg, [], NEW, key, block, 1);
    assert [] + ops == ops;
  }

  // ---------- deletes leave stale postings ----------

  lemma IndexedGraph(c: Coll, graph: Graph, key: Bytes, block: Block, id: nat)
    ensures Indexed(c, graph, key, block, id).graph == graph
  {
  }

  lemma AppendPlain(cfg: Config, ops: seq<CollectionModel.Op>, c: Coll, key: Bytes, block: Block, id: nat)
    requires CollectionModel.Runs(cfg, ops, c) && IsNext(c.dir.docMap, id) && block.vector == []
    ensures CollectionModel.Runs(cfg, ops + [CollectionModel.Append(key, block, 0)],
                                 Indexed(c, c.graph, key, block, id))
  {
    hide CollectionModel.Runs, Indexed, IsNext;
    var c' := Indexed(c, c.graph, key, block, id);
    assert c'.graph == c.graph by { IndexedGraph(c, c.graph, key, block, id); }
    assert AppendStepAs(cfg, c, key, block, 0, id, c');
    RunMore(cfg, ops, c, CollectionModel.Append(key, block, 0), c');
  }

  /** Append a block with one keyword, delete its key, append a block without keywords. */
  lemma ReuseRun(cfg: Config, a: Bytes, b: Bytes, term: Bytes) returns (ops: seq<CollectionModel.Op>, c: Coll)
    ensures CollectionModel.Runs(cfg, ops, c)
    ensures c.dir.docMap == map[1 := Loc(b, 0)] && c.blocks == map[1 := Block([], [], [])]
    ensures c.postings == KeywordIndex.Post(map[], KeywordIndex.DocKeys([term]), 1)
  {
    hide KeywordIndex.Post, KeywordIndex.DocKeys;
    var first, second := Block([], [term], []), Block([], [], []);
    ops := [];
    assert CollectionModel.Runs(cfg, ops, NEW);
    hide CollectionModel.Runs;
    AppendPlain(cfg, ops, NEW, a, first, 1);
    ops := ops + [CollectionModel.Append(a, first, 0)];
    c := Indexed(NEW, NEW.graph, a, first, 1);
    assert KeyList(NEW.dir, a) + [1] == [1];
    assert c.dir == Dir(map[1 := Loc(a, 0)], map[a := 1], map[a := [1]]);
    var c2 := Coll(EMPTY, Dir(map[], map[], map[]), c.postings, map[]);
    DeleteOnly(cfg, ops, c, a, c2);
    ops := ops + [CollectionModel.DeleteKey(a)];
    AppendPlain(cfg, ops, c2, b, second, 1);
    ops := ops + [CollectionModel.Append(b, second, 0)];
    NoKeywords(c2.postings, 1);
    c := Indexed(c2, c2.graph, b, second, 1);
  }

  /** A deleted block's id is given to the next block, which then answers for its keywords. */
  lemma StaleAfterDelete(cfg: Config)
    ensures exists ops, c, key, term ::
      && CollectionModel.Runs(cfg, ops, c) && key in FoundKeys(c, KeywordIndex.Exact, [term])
      && forall id :: id in c.blocks ==> !HasAll(c.blocks[id], [term])
  {
    var term: Bytes, key: Bytes := [120], [98];
    var ops, c := ReuseRun(cfg, [97], key, term);
    hide CollectionModel.Runs, KeywordIndex.Post, KeywordIndex.DocKeys, KeywordIndex.MeetAll;
    StalePosting(term, c.postings);
    assert c.dir.docMap[1].key == key;
    assert key in FoundKeys(c, KeywordIndex.Exact, [term]);
    forall id | id in c.blocks ensures !HasAll(c.blocks[id], [term]) {
      assert !HasKeyword(Block([], [], []), [term][0]);
    }
  }

  lemma StalePosting(term: Bytes, postings: KeywordIndex.Postings)
    requires postings == KeywordIndex.Post(map[], KeywordIndex.DocKeys([term]), 1)
    ensures 1 in KeywordIndex.MeetAll(postings, KeywordIndex.Exact, [term])
  {
    var key := KeywordIndex.KwKey(EntryCodec.Lower(term));
    assert [term][0] == term;
    assert HasKeyword(Block([], [term], []), term);
    CarriedIsPosted(Block([], [term], []), term);
    KeywordIndex.PostMember(map[], KeywordIndex.DocKeys([term]), 1, key, 1);
  }

  lemma DeleteOnlyStep(c: Coll, key: Bytes, c': Coll)
    requires c.graph == EMPTY && c.blocks.Keys == {1}
    requires c.dir == Dir(map[1 := Loc(key, 0)], map[key := 1], map[key := [1]])
    requires c' == Coll(EMPTY, Dir(map[], map[], map[]), c.postings, map[])
    ensures DeleteKeyStep(c, key, c')
  {
    assert DeletedAll(EMPTY, [], EMPTY) && [1][..0] == [];
    assert DeleteStep(EMPTY, 1, EMPTY);
    assert DeletedAll(EMPTY, [1], EMPTY);
    assert Elems([1]) == {1};
    assert DirDelete(c.dir, key) == c'.dir;
    assert c.blocks - {1} == map[];
  }

  lemma DeleteOnly(cfg: Config, ops: seq<CollectionModel.Op>, c: Coll, key: Bytes, c': Coll)
    requires CollectionModel.Runs(cfg, ops, c) && c.graph == EMPTY
    requires c.dir == Dir(map[1 := Loc(key, 0)], map[key := 1], map[key := [1]]) && c.blocks.Keys == {1}
    requires c' == Coll(EMPTY, Dir(map[], map[], map[]), c.postings, map[])
    ensures CollectionModel.Runs(cfg, ops + [CollectionModel.DeleteKey(key)], c')
  {
    hide CollectionModel.Runs, DeleteKeyStep, DirDelete;
    DeleteOnlyStep(c, key, c');
    RunMore(cfg, ops, c, CollectionModel.DeleteKey(key), c');
  }

  lemma RunMore(cfg: Config, ops: seq<CollectionModel.Op>, c: Coll, op: CollectionModel.Op, c': Coll)
    requires CollectionModel.Runs(cfg, ops, c) && CollectionModel.Step(cfg, c, op, c')
    ensures CollectionModel.Runs(cfg, ops + [op], c')
  {
    hide CollectionModel.Step;
    var all := ops + [op];
    assert all[..|all| - 1] == ops && all[|all| - 1] == op;
  }
}
