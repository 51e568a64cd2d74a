/** Keyword search over every run of a collection, in every mode: which keys it returns is decided
    by all documents ever posted, those of deleted blocks included. */
module KeywordHistory {
  import opened Bytes
  import opened HnswGraph
  import opened HnswOps
  import opened CollectionModel
  import opened CollectionRuns
  import opened KeywordRuns
  import KeywordIndex
  import EntryCodec

  /** The documents a batch posts. */
  function BatchDocs(puts: seq<Put>, ids: seq<nat>): seq<KeywordIndex.Doc>
    requires |ids| == |puts|
  {
    seq(|puts|, i requires 0 <= i < |puts| => KeywordIndex.Doc(puts[i].block.keywords, ids[i]))
  }

  /** A step that posts `docs`: one per block taken in, none for a refused block or a delete. */
  ghost predicate StepPosts(cfg: Config, c: Coll, op: CollectionModel.Op, docs: seq<KeywordIndex.Doc>, c': Coll) {
    match op
    case Append(key, block, level) => exists id :: AppendPosts(cfg, c, key, block, level, id, docs, c')
    case Batch(puts) => exists items, ids, c1 :: BatchPosts(cfg, c, puts, items, ids, c1, docs, c')
    case DeleteKey(key) => DeleteKeyStep(c, key, c') && docs == []
  }

  ghost predicate AppendPosts(cfg: Config, c: Coll, key: Bytes, block: Block, level: nat, id: nat,
                              docs: seq<KeywordIndex.Doc>, c': Coll) {
    && IsNext(c.dir.docMap, id) && AppendStepAs(cfg, c, key, block, level, id, c')
    && docs == if Refused(cfg, c, block, id) then [] else [KeywordIndex.Doc(block.keywords, id)]
  }

  ghost predicate BatchPosts(cfg: Config, c: Coll, puts: seq<Put>, items: seq<Item>, ids: seq<nat>, c1: Coll,
                             docs: seq<KeywordIndex.Doc>, c': Coll) {
    BatchStep(cfg, c, puts, items, ids, c1, c') && |ids| == |puts| && docs == BatchDocs(puts, ids)
  }

  /** A run of `ops` ends in `c` after posting `docs`, oldest first. */
  ghost predicate RunPosts(cfg: Config, ops: seq<CollectionModel.Op>, docs: seq<KeywordIndex.Doc>, c: Coll) {
    if ops == [] then c == NEW && docs == []
    else
      var front, last := ops[..|ops| - 1], ops[|ops| - 1];
      exists c0, docs0, docs1 :: RunPosts(cfg, front, docs0, c0) && StepPosts(cfg, c0, last, docs1, c)
          && docs == docs0 + docs1
  }

  // ---------- every run has its documents ----------

  lemma {:induction false} BatchSizes(c: Coll, puts: seq<Put>, items: seq<Item>, ids: seq<nat>, c1: Coll)
    requires BatchIndexed(c, puts, items, ids, c1)
    ensures |ids| == |puts|
  {
  }

  lemma StepHasDocs(cfg: Config, c: Coll, op: CollectionModel.Op, c': Coll) returns (docs: seq<KeywordIndex.Doc>)
    requires CollectionModel.Step(cfg, c, op, c')
    ensures StepPosts(cfg, c, op, docs, c')
  {
    hide AppendStepAs, BatchIndexed, Batched, DeleteKeyStep;
    match op
    case Append(key, block, level) =>
      var id :| IsNext(c.dir.docMap, id) && AppendStepAs(cfg, c, key, block, level, id, c');
      docs := if Refused(cfg, c, block, id) then [] else [KeywordIndex.Doc(block.keywords, id)];
      assert AppendPosts(cfg, c, key, block, level, id, docs, c');
    case Batch(puts) =>
      var items, ids, c1 :| BatchStep(cfg, c, puts, items, ids, c1, c');
      BatchSizes(c, puts, items, ids, c1);
      docs := BatchDocs(puts, ids);
      assert BatchPosts(cfg, c, puts, items, ids, c1, docs, c');
    case DeleteKey(key) =>
      docs := [];
  }

  /** Every run posts some list of documents, and a run that posts documents is a run. */
  lemma {:induction false} RunHasDocs(cfg: Config, ops: seq<CollectionModel.Op>, c: Coll)
      returns (docs: seq<KeywordIndex.Doc>)
    requires CollectionModel.Runs(cfg, ops, c)
    ensures RunPosts(cfg, ops, docs, c)
  {
    docs := [];
    if ops != [] {
      hide CollectionModel.Step, StepPosts;
      var front, last := ops[..|ops| - 1], ops[|ops| - 1];
      var c0 :| CollectionModel.Runs(cfg, front, c0) && CollectionModel.Step(cfg, c0, last, c);
      var docs0 := RunHasDocs(cfg, front, c0);
      var docs1 := StepHasDocs(cfg, c0, last, c);
      docs := docs0 + docs1;
    }
  }

  // ---------- the postings are those of the documents ----------

  lemma PostOne(h: seq<KeywordIndex.Doc>, d: KeywordIndex.Doc)
    ensures KeywordIndex.IndexAfter(h + [d])
            == KeywordIndex.Post(KeywordIndex.IndexAfter(h), KeywordIndex.DocKeys(d.keywords), d.id)
  {
    assert (h + [d])[..|h|] == h;
  }

  lemma NoDocs(h: seq<KeywordIndex.Doc>, puts: seq<Put>, ids: seq<nat>)
    requires puts == [] && ids == []
    ensures h + BatchDocs(puts, ids) == h
  {
  }

  lemma DocsSnoc(h: seq<KeywordIndex.Doc>, puts: seq<Put>, ids: seq<nat>)
    requires |ids| == |puts| > 0
    ensures var n := |puts| - 1;
      h + BatchDocs(puts, ids)
          == h + BatchDocs(puts[..n], ids[..n]) + [KeywordIndex.Doc(puts[n].block.keywords, ids[n])]
  {
  }

  lemma {:induction false} BatchPosted(h: seq<KeywordIndex.Doc>, c: Coll, puts: seq<Put>, items: seq<Item>,
                                       ids: seq<nat>, c1: Coll)
    requires BatchIndexed(c, puts, items, ids, c1) && |ids| == |puts| && c.postings == KeywordIndex.IndexAfter(h)
    ensures c1.postings == KeywordIndex.IndexAfter(h + BatchDocs(puts, ids))
    decreases |puts|
  {
    hide KeywordIndex.IndexAfter, KeywordIndex.Post, KeywordIndex.DocKeys, IsNext, DirAppend, BatchDocs;
    if puts == [] {
      NoDocs(h, puts, ids);
    } else {
      var n := |puts| - 1;
      var c0, items0 :| BatchIndexed(c, puts[..n], items0, ids[..n], c0)
          && PutStep(c0, items0, puts[n], ids[n], c1, items);
      BatchPosted(h, c, puts[..n], items0, ids[..n], c0);
      var d := KeywordIndex.Doc(puts[n].block.keywords, ids[n]);
      PostOne(h + BatchDocs(puts[..n], ids[..n]), d);
      DocsSnoc(h, puts, ids);
    }
  }

  lemma AppendPosted(cfg: Config, h: seq<KeywordIndex.Doc>, c: Coll, key: Bytes, block: Block, level: nat, id: nat,
                     docs: seq<KeywordIndex.Doc>, c': Coll)
    requires AppendPosts(cfg, c, key, block, level, id, docs, c') && c.postings == KeywordIndex.IndexAfter(h)
    ensures c'.postings == KeywordIndex.IndexAfter(h + docs)
  {
    hide AddStep, KeywordIndex.IndexAfter, KeywordIndex.Post, KeywordIndex.DocKeys, IsNext, DirAppend;
    if Refused(cfg, c, block, id) {
      assert h + docs == h;
    } else {
      PostOne(h, KeywordIndex.Doc(block.keywords, id));
    }
  }

  lemma StepPosted(cfg: Config, h: seq<KeywordIndex.Doc>, c: Coll, op: CollectionModel.Op, docs: seq<KeywordIndex.Doc>,
                   c': Coll)
    requires StepPosts(cfg, c, op, docs, c') && c.postings == KeywordIndex.IndexAfter(h)
    ensures c'.postings == KeywordIndex.IndexAfter(h + docs)
  {
    hide AppendPosts, BatchIndexed, Batched, DeletedAll, KeywordIndex.IndexAfter, BatchDocs;
    match op
    case Append(key, block, level) =>
      var id :| AppendPosts(cfg, c, key, block, level, id, docs, c');
      AppendPosted(cfg, h, c, key, block, level, id, docs, c');
    case Batch(puts) =>
      var items, ids, c1 :| BatchPosts(cfg, c, puts, items, ids, c1, docs, c');
      BatchPosted(h, c, puts, items, ids, c1);
    case DeleteKey(key) =>
      assert h + docs == h;
  }

  /** The postings of a collection are those of its documents: deletes remove none. */
  lemma {:induction false} RunPosted(cfg: Config, ops: seq<CollectionModel.Op>, docs: seq<KeywordIndex.Doc>, c: Coll)
    requires RunPosts(cfg, ops, docs, c)
    ensures c.postings == KeywordIndex.IndexAfter(docs)
  {
    if ops != [] {
      hide StepPosts, KeywordIndex.IndexAfter;
      var front, last := ops[..|ops| - 1], ops[|ops| - 1];
      var c0, docs0, docs1 :| RunPosts(cfg, front, docs0, c0) && StepPosts(cfg, c0, last, docs1, c)
          && docs == docs0 + docs1;
      RunPosted(cfg, front, docs0, c0);
      StepPosted(cfg, docs0, c0, last, docs1, c);
    }
  }

  // ---------- what KeywordSearch returns ----------

  /** Every query term finds `id` by what was ever posted for it. */
  ghost predicate AllAnswer(docs: seq<KeywordIndex.Doc>, mode: KeywordIndex.Mode, terms: seq<Bytes>, id: nat) {
    forall i :: 0 <= i < |terms| ==> KeywordIndex.Answers(docs, mode, terms[i], id)
  }

  lemma FoundIff(c: Coll, mode: KeywordIndex.Mode, terms: seq<Bytes>, key: Bytes)
    requires terms != []
    ensures key in FoundKeys(c, mode, terms) <==>
            exists id :: Located(c, key, id) && id in KeywordIndex.Result(c.postings, mode, terms).value
  {
    hide KeywordIndex.MeetAll;
    var ids := KeywordIndex.Result(c.postings, mode, terms).value;
    if key in FoundKeys(c, mode, terms) {
      var id :| id in ids && id in c.dir.docMap && c.dir.docMap[id].key == key;
      assert Located(c, key, id);
    }
  }

  /** `id` is live and belongs to the key. */
  predicate Located(c: Coll, key: Bytes, id: nat) {
    id in c.dir.docMap && c.dir.docMap[id].key == key
  }

  lemma IdFound(docs: seq<KeywordIndex.Doc>, postings: KeywordIndex.Postings, mode: KeywordIndex.Mode,
                terms: seq<Bytes>, id: nat)
    requires postings == KeywordIndex.IndexAfter(docs) && terms != []
    ensures id in KeywordIndex.Result(postings, mode, terms).value <==> AllAnswer(docs, mode, terms, id)
  {
    hide KeywordIndex.IndexAfter, KeywordIndex.Answers, KeywordIndex.MeetAll;
    KeywordIndex.SearchAnswers(docs, mode, terms, id);
  }

  /** In every run and every mode, a key is returned exactly when one of its live ids satisfies every
      term by the documents ever posted under that id. */
  lemma SearchInRuns(cfg: Config, ops: seq<CollectionModel.Op>, docs: seq<KeywordIndex.Doc>, c: Coll,
                     mode: KeywordIndex.Mode, terms: seq<Bytes>, key: Bytes)
    requires RunPosts(cfg, ops, docs, c) && terms != []
    ensures key in FoundKeys(c, mode, terms) <==> exists id :: Located(c, key, id) && AllAnswer(docs, mode, terms, id)
  {
    hide RunPosts, KeywordIndex.IndexAfter, KeywordIndex.MeetAll, FoundKeys, Located, AllAnswer;
    RunPosted(cfg, ops, docs, c);
    FoundIff(c, mode, terms, key);
    forall id ensures id in KeywordIndex.Result(c.postings, mode, terms).value <==> AllAnswer(docs, mode, terms, id) {
      IdFound(docs, c.postings, mode, terms, id);
    }
  }

  // ---------- when exact search is sound ----------

  lemma StepIsStep(cfg: Config, c: Coll, op: CollectionModel.Op, docs: seq<KeywordIndex.Doc>, c': Coll)
    requires StepPosts(cfg, c, op, docs, c')
    ensures CollectionModel.Step(cfg, c, op, c')
  {
    hide AppendStepAs, BatchStep, DeleteKeyStep, IsNext;
    match op
    case Append(key, block, level) =>
      var id :| AppendPosts(cfg, c, key, block, level, id, docs, c');
    case Batch(puts) =>
      var items, ids, c1 :| BatchPosts(cfg, c, puts, items, ids, c1, docs, c');
    case DeleteKey(key) =>
  }

  lemma {:induction false} PostsIsRun(cfg: Config, ops: seq<CollectionModel.Op>, docs: seq<KeywordIndex.Doc>, c: Coll)
    requires RunPosts(cfg, ops, docs, c)
    ensures CollectionModel.Runs(cfg, ops, c)
  {
    if ops != [] {
      hide StepPosts, CollectionModel.Step;
      var front, last := ops[..|ops| - 1], ops[|ops| - 1];
      var c0, docs0, docs1 :| RunPosts(cfg, front, docs0, c0) && StepPosts(cfg, c0, last, docs1, c)
          && docs == docs0 + docs1;
      PostsIsRun(cfg, front, docs0, c0);
      StepIsStep(cfg, c0, last, docs1, c);
    }
  }

  /** A live block of the key carries all the terms. */
  ghost predicate Deserved(c: Coll, terms: seq<Bytes>, key: Bytes) {
    exists id :: Located(c, key, id) && id in c.blocks && HasAll(c.blocks[id], terms)
  }

  /** Exact search returns no key that does not deserve it, whatever is asked. */
  ghost predicate AlwaysSound(c: Coll) {
    forall terms, key :: terms != [] && key in FoundKeys(c, KeywordIndex.Exact, terms) ==> Deserved(c, terms, key)
  }

  /** The block carries every keyword that stands in the index for `id`. */
  ghost predicate CarriesAllOf(docs: seq<KeywordIndex.Doc>, id: nat, block: Block) {
    forall k :: KeywordIndex.Named(docs, id, k) ==> HasKeyword(block, k)
  }

  /** For every live id, some live block of the same key carries all that was ever posted for the id. */
  ghost predicate Covered(docs: seq<KeywordIndex.Doc>, c: Coll) {
    forall id :: id in c.dir.docMap ==> HasCover(docs, c, c.dir.docMap[id].key, id)
  }

  ghost predicate HasCover(docs: seq<KeywordIndex.Doc>, c: Coll, key: Bytes, id: nat) {
    exists x :: Located(c, key, x) && x in c.blocks && CarriesAllOf(docs, id, c.blocks[x])
  }

  /** The lower-cased keywords of the documents of an id. */
  function NamesOf(docs: seq<KeywordIndex.Doc>, id: nat): seq<Bytes> {
    if docs == [] then []
    else
      var front, last := NamesOf(docs[..|docs| - 1], id), docs[|docs| - 1];
      if last.id == id then front + EntryCodec.LowerAll(last.keywords) else front
  }

  lemma {:induction false} NamesAre(docs: seq<KeywordIndex.Doc>, id: nat, k: Bytes)
    ensures k in NamesOf(docs, id) <==> KeywordIndex.Carries(docs, id, k)
  {
    if docs != [] {
      var n := |docs| - 1;
      var front, last := docs[..n], docs[n];
      NamesAre(front, id, k);
      if KeywordIndex.Carries(front, id, k) {
        var i, j :| 0 <= i < |front| && 0 <= j < |front[i].keywords| && front[i].id == id
            && EntryCodec.Lower(front[i].keywords[j]) == k;
        assert docs[i] == front[i];
      }
      if KeywordIndex.Carries(docs, id, k) {
        var i, j :| 0 <= i < |docs| && 0 <= j < |docs[i].keywords| && docs[i].id == id
            && EntryCodec.Lower(docs[i].keywords[j]) == k;
        if i < n { assert front[i] == docs[i]; } else { assert EntryCodec.LowerAll(last.keywords)[j] == k; }
      }
      if last.id == id && k in EntryCodec.LowerAll(last.keywords) {
        var j :| 0 <= j < |last.keywords| && EntryCodec.LowerAll(last.keywords)[j] == k;
        assert docs[n].keywords[j] == last.keywords[j];
      }
    }
  }

  /** All keywords that stand in the index for an id, as one query. */
  lemma AllNames(docs: seq<KeywordIndex.Doc>, id: nat) returns (terms: seq<Bytes>)
    ensures forall k :: k in terms <==> KeywordIndex.Named(docs, id, k)
    ensures forall k :: k in terms ==> EntryCodec.Lower(k) == k
  {
    hide KeywordIndex.CarriesTrigram;
    var empty: Bytes := [];
    terms := NamesOf(docs, id) + (if KeywordIndex.CarriesTrigram(docs, id, KeywordIndex.KW) then [empty] else []);
    forall k ensures k in terms <==> KeywordIndex.Named(docs, id, k) { NamesAre(docs, id, k); }
    forall k | k in terms ensures EntryCodec.Lower(k) == k {
      NamesAre(docs, id, k);
      if KeywordIndex.Carries(docs, id, k) { KeywordIndex.CarriedIsLower(docs, id, k); }
    }
  }

  lemma SameKeyword(block: Block, term: Bytes)
    ensures HasKeyword(block, EntryCodec.Lower(term)) <==> HasKeyword(block, term)
  {
    EntryCodec.LowerTwice(term);
  }

  lemma CoveredIsSound(cfg: Config, ops: seq<CollectionModel.Op>, docs: seq<KeywordIndex.Doc>, c: Coll,
                       terms: seq<Bytes>, key: Bytes)
    requires RunPosts(cfg, ops, docs, c) && Covered(docs, c)
    requires terms != [] && key in FoundKeys(c, KeywordIndex.Exact, terms)
    ensures Deserved(c, terms, key)
  {
    hide RunPosts, FoundKeys, AllAnswer, HasCover, Deserved;
    SearchInRuns(cfg, ops, docs, c, KeywordIndex.Exact, terms, key);
    var id :| Located(c, key, id) && AllAnswer(docs, KeywordIndex.Exact, terms, id);
    CoverDeserves(docs, c, id, terms, key);
  }

  lemma CoverDeserves(docs: seq<KeywordIndex.Doc>, c: Coll, id: nat, terms: seq<Bytes>, key: Bytes)
    requires HasCover(docs, c, key, id) && AllAnswer(docs, KeywordIndex.Exact, terms, id)
    ensures Deserved(c, terms, key)
  {
    hide AllAnswer, CarriesAllOf, HasAll, Located;
    var x :| Located(c, key, x) && x in c.blocks && CarriesAllOf(docs, id, c.blocks[x]);
    AnswersCarried(docs, id, terms, c.blocks[x]);
  }

  lemma AnswersCarried(docs: seq<KeywordIndex.Doc>, id: nat, terms: seq<Bytes>, block: Block)
    requires AllAnswer(docs, KeywordIndex.Exact, terms, id) && CarriesAllOf(docs, id, block)
    ensures HasAll(block, terms)
  {
    hide HasKeyword, KeywordIndex.Named;
    forall i | 0 <= i < |terms| ensures HasKeyword(block, terms[i]) {
      assert KeywordIndex.Answers(docs, KeywordIndex.Exact, terms[i], id);
      SameKeyword(block, terms[i]);
    }
  }

  lemma SoundIsCovered(cfg: Config, ops: seq<CollectionModel.Op>, docs: seq<KeywordIndex.Doc>, c: Coll, id: nat)
    requires RunPosts(cfg, ops, docs, c) && AlwaysSound(c) && id in c.dir.docMap
    ensures HasCover(docs, c, c.dir.docMap[id].key, id)
  {
    hide RunPosts, FoundKeys, HasKeyword, KeywordIndex.Named;
    var key := c.dir.docMap[id].key;
    var terms := AllNames(docs, id);
    PostsIsRun(cfg, ops, docs, c);
    LiveBlock(cfg, ops, c, id);
    if terms == [] {
      assert CarriesAllOf(docs, id, c.blocks[id]);
    } else {
      forall i | 0 <= i < |terms| ensures KeywordIndex.Answers(docs, KeywordIndex.Exact, terms[i], id) {
        assert terms[i] in terms;
      }
      assert Located(c, key, id) && AllAnswer(docs, KeywordIndex.Exact, terms, id);
      SearchInRuns(cfg, ops, docs, c, KeywordIndex.Exact, terms, key);
      assert Deserved(c, terms, key);
      var x :| Located(c, key, x) && x in c.blocks && HasAll(c.blocks[x], terms);
      forall k | KeywordIndex.Named(docs, id, k) ensures HasKeyword(c.blocks[x], k) {
        assert k in terms;
        var i :| 0 <= i < |terms| && terms[i] == k;
      }
    }
  }

  lemma LiveBlock(cfg: Config, ops: seq<CollectionModel.Op>, c: Coll, id: nat)
    requires CollectionModel.Runs(cfg, ops, c) && id in c.dir.docMap
    ensures id in c.blocks
  {
    CollectionModel.RunKeeps(cfg, ops, c);
    assert id in c.dir.docMap.Keys;
  }

  /** After any run, deletes included, exact search is sound for every query if and only if each live
      id's key has a live block with every keyword ever posted under that id. */
  lemma SoundIff(cfg: Config, ops: seq<CollectionModel.Op>, docs: seq<KeywordIndex.Doc>, c: Coll)
    requires RunPosts(cfg, ops, docs, c)
    ensures AlwaysSound(c) <==> Covered(docs, c)
  {
    hide RunPosts, FoundKeys, HasCover, Deserved;
    if Covered(docs, c) {
      forall terms, key | terms != [] && key in FoundKeys(c, KeywordIndex.Exact, terms)
          ensures Deserved(c, terms, key) {
        CoveredIsSound(cfg, ops, docs, c, terms, key);
      }
    }
    if AlwaysSound(c) {
      forall id | id in c.dir.docMap
        ensures HasCover(docs, c, c.dir.docMap[id].key, id)
      {
        SoundIsCovered(cfg, ops, docs, c, id);
      }
    }
  }
}
