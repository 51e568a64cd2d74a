/** The vector manager object: appends drive a collection and then the log; reads go back through
    log, codec and graph. */
module VectorManager {
  import opened Wrappers
  import opened Bytes
  import opened LayerSearch
  import opened HnswGraph
  import opened HnswOps
  import opened CollectionModel
  import opened Storage
  import opened VectorStore
  import opened VectorBatch
  import opened VectorRuns
  import VectorReads
  import Collection
  import RecordLog
  import EntryCodec

  // ---------- facts tying the methods to the steps ----------

  /** After an append the new block's id is found under its index. */
  lemma NewBlockId(cfg: Config, c: Coll, key: Bytes, block: Block, level: nat, id: nat, c': Coll)
    requires CollInv(cfg, c) && IsNext(c.dir.docMap, id) && !Refused(cfg, c, block, id)
    requires AppendStepAs(cfg, c, key, block, level, id, c')
    ensures Collection.FirstAt(c'.dir.docMap, KeyList(c'.dir, key), Length(c.dir, key)) == Ok(id)
  {
    VectorReads.LengthOf(cfg, c, key);
    IndexedList(c, c'.graph, key, block, id, key);
    AppendKeeps(cfg, c, key, block, level, c');
    InvDir(cfg, c');
    hide CollInv, AppendStepAs, DirInv, KeyList;
    Collection.BlockIdOf(c'.dir, key, KeyList(c'.dir, key), Length(c.dir, key));
  }

  lemma InvDir(cfg: Config, c: Coll)
    requires CollInv(cfg, c)
    ensures DirInv(c.dir)
  {
  }

  /** An entry that the log takes fits the fields of the codec. */
  predicate EntryFits(env: Setup, name: Bytes, put: Put, id: nat) {
    LogTakes(env, name, put.key, put.block, id) ==> |put.block.primary| < LIMIT32 && id < ID_LIMIT
  }

  lemma OneFromParts(env: Setup, cfg: Config, vm: Vm, name: Bytes, put: Put, id: nat, events: seq<Event>, c': Coll,
                     logs': seq<seq<RecordLog.Rec>>)
    requires name in vm.colls && IsNext(vm.colls[name].dir.docMap, id) && EntryFits(env, name, put, id)
    requires AppendStepAs(cfg, vm.colls[name], put.key, put.block, put.level, id, c')
    requires if Refused(cfg, vm.colls[name], put.block, id) then events == [] && logs' == vm.logs
             else
               var stored := LogTakes(env, name, put.key, put.block, id);
               && events == [Took(name, put.key, Taken(put.block, id, stored))]
               && if stored then StoredAs(env, vm.logs, name, put, id, logs') else logs' == vm.logs
    ensures OneStep(env, cfg, vm, name, put, id, events, Vm(vm.colls[name := c'], logs'))
  {
    hide IsNext, AppendStepAs, Added, PayloadOf, Good, StorageKey, LogTakes, Refused;
  }

  /** The log has one more record, that of the block. */
  ghost predicate StoredAs(env: Setup, logs: seq<seq<RecordLog.Rec>>, name: Bytes, put: Put, id: nat,
                           logs': seq<seq<RecordLog.Rec>>) {
    && |logs| == PARTITIONS && PayloadOf(env, put.key, put.block, id).Some?
    && Good(RecordLog.Rec(StorageKey(name, put.key), PayloadOf(env, put.key, put.block, id).value))
    && Added(env.store, logs, map[StorageKey(name, put.key) := PayloadOf(env, put.key, put.block, id).value], logs')
  }

  lemma ManyFromParts(env: Setup, cfg: Config, vm: Vm, name: Bytes, puts: seq<Put>, items: seq<Item>, ids: seq<nat>,
                      c1: Coll, c': Coll, logs': seq<seq<RecordLog.Rec>>)
    requires name in vm.colls && BatchFits(env, name, puts, ids)
    requires BatchStep(cfg, vm.colls[name], puts, items, ids, c1, c')
    requires |ids| == |puts| && Added(env.store, vm.logs, BatchPayloads(env, name, puts, ids), logs')
    ensures ManyStep(env, cfg, vm, name, puts, items, ids, c1, BatchEvents(env, name, puts, ids),
                     Vm(vm.colls[name := c'], logs'))
  {
    hide BatchStep, Added, BatchPayloads, BatchFits, BatchEvents;
  }

  lemma DropFromParts(vm: Vm, name: Bytes, key: Bytes, c': Coll)
    requires name in vm.colls && DeleteKeyStep(vm.colls[name], key, c')
    ensures DropStep(vm, name, key, [Dropped(name, key)], Vm(vm.colls[name := c'], vm.logs))
  {
    hide DeleteKeyStep;
  }

  /** The encoded entries of a batch by storage key; a repeated key keeps its last entry. */
  function EncodedBatch(crc: EntryCodec.Checksum, name: Bytes, puts: seq<Put>, ids: seq<nat>): map<Bytes, Bytes>
    requires |ids| == |puts|
  {
    if puts == [] then map[]
    else
      var n := |puts| - 1;
      var m := EncodedBatch(crc, name, puts[..n], ids[..n]);
      match EntryCodec.Encoded(EntryOf(puts[n].key, puts[n].block, ids[n]), crc)
      case None => m
      case Some(bytes) => m[StorageKey(name, puts[n].key) := bytes]
  }

  lemma {:induction false} BatchCompressed(env: Setup, name: Bytes, puts: seq<Put>, ids: seq<nat>)
    requires |ids| == |puts|
    ensures Compressed(env.store, EncodedBatch(env.crc, name, puts, ids)) == BatchPayloads(env, name, puts, ids)
  {
    if puts != [] {
      hide StorageKey, EntryOf, EntryCodec.Encoded;
      var n := |puts| - 1;
      BatchCompressed(env, name, puts[..n], ids[..n]);
    }
  }

  class VectorManager {
    const store: Manager
    const crc: EntryCodec.Checksum
    var collections: map<Bytes, Collection.Collection>

    constructor (store: Manager, crc: EntryCodec.Checksum)
      ensures this.store == store && this.crc == crc && collections == map[]
    {
      this.store, this.crc, collections := store, crc, map[];
    }

    ghost function Env(): Setup {
      Setup(store.env, crc)
    }

    /** Collections do not share their parts. */
    ghost predicate Separate()
      reads this
    {
      forall m, n :: m in collections && n in collections && m != n ==>
        && collections[m] != collections[n] && collections[m].hnsw != collections[n].hnsw
        && collections[m].kwIndex != collections[n].kwIndex
    }

    ghost function Parts(name: Bytes): set<object>
      reads this
    {
      if name in collections then {collections[name], collections[name].hnsw, collections[name].kwIndex, store} else {}
    }

    ghost function State(): Vm
      reads this, store, set n | n in collections :: collections[n], set n | n in collections :: collections[n].hnsw,
            set n | n in collections :: collections[n].kwIndex
    {
      Vm(map n | n in collections :: collections[n].State(), store.logs)
    }

    /** Encode the entry of a block and append it to the log. */
    method StoreBlock(name: Bytes, put: Put, id: nat) returns (ok: bool)
      requires store.Valid()
      modifies store
      ensures store.Valid()
      ensures ok <==> LogTakes(Env(), name, put.key, put.block, id)
      ensures !ok ==> store.logs == old(store.logs)
      ensures ok ==> StoredAs(Env(), old(store.logs), name, put, id, store.logs)
    {
      hide EntryCodec.Encoded, StorageKey, EntryOf;
      var encoded := EntryCodec.EncodeEntry(EntryOf(put.key, put.block, id), crc);
      if encoded.None? { return false; }
      var sk := StorageKey(name, put.key);
      AddedOne(store.env, store.logs, sk, store.env.compress(encoded.value));
      hide Added, Holds;
      ok := store.Append(sk, encoded.value);
    }

    /** The collection part of AppendBlock: append, then look the new id up again. */
    method AppendToCollection(coll: Collection.Collection, key: Bytes, block: Block, level: nat)
        returns (r: Outcome<(nat, nat)>, ghost id: nat)
      requires coll.hnsw.EntryLive() && CollInv(coll.hnsw.cfg, coll.State())
      modifies coll, coll.hnsw, coll.kwIndex
      ensures coll.hnsw.EntryLive() && IsNext(old(coll.docMap), id)
      ensures AppendStepAs(coll.hnsw.cfg, old(coll.State()), key, block, level, id, coll.State())
      ensures r.Ok? <==> !Refused(coll.hnsw.cfg, old(coll.State()), block, id)
      ensures r.Ok? ==> r.value == (old(Length(coll.State().dir, key)), id)
    {
      ghost var c := coll.State();
      var index;
      index, id := coll.AppendBlock(key, block, level);
      if index.Err? { return Err, id; }
      NewBlockId(coll.hnsw.cfg, c, key, block, level, id, coll.State());
      hide CollInv, AppendStepAs, IsNext;
      var found := coll.GetBlockVectorId(key, index.value);
      return Ok((index.value, found.value)), id;
    }

    /** AppendBlock after the write-ahead log: collection, entry, record. */
    method AppendBlock(name: Bytes, put: Put) returns (r: Outcome<nat>, ghost id: nat, ghost events: seq<Event>)
      requires store.Valid() && Separate()
      requires name in collections ==>
               collections[name].hnsw.EntryLive() && CollInv(collections[name].hnsw.cfg, collections[name].State())
      modifies Parts(name)
      ensures store.Valid()
      ensures name !in collections ==> r == Err
      ensures name in collections ==>
                && collections[name].hnsw.EntryLive() && IsNext(old(collections[name].docMap), id)
                && AppendStepAs(collections[name].hnsw.cfg, old(collections[name].State()), put.key, put.block,
                                put.level, id, collections[name].State())
                && (r.Ok? <==>
                    && !Refused(collections[name].hnsw.cfg, old(collections[name].State()), put.block, id)
                    && LogTakes(Env(), name, put.key, put.block, id))
      ensures r.Err? ==> store.logs == old(store.logs)
      ensures r.Ok? ==> r.value == old(Length(collections[name].State().dir, put.key))
      ensures name in collections && EntryFits(Env(), name, put, id) ==>
                OneStep(Env(), collections[name].hnsw.cfg, old(State()), name, put, id, events, State())
    {
      hide CollInv, AppendStepAs, IsNext, StoredAs, Length, Refused, LogTakes, EntryFits, OneStep;
      id, events := 0, [];
      if name !in collections { return Err, id, events; }
      var coll := collections[name];
      ghost var cfg := coll.hnsw.cfg;
      var appended, ok;
      appended, id := AppendToCollection(coll, put.key, put.block, put.level);
      if appended.Ok? {
        ok := StoreBlock(name, put, appended.value.1);
        events := [Took(name, put.key, Taken(put.block, id, ok))];
      } else {
        ok := false;
      }
      Untouched(name);
      if EntryFits(Env(), name, put, id) {
        OneFromParts(Env(), cfg, old(State()), name, put, id, events, coll.State(), store.logs);
      }
      return if ok then Ok(appended.value.0) else Err, id, events;
    }

    /** Only the collection of that name has changed. */
    twostate lemma Untouched(name: Bytes)
      requires name in collections && old(collections) == collections
      requires forall n :: n in collections && n != name ==>
        unchanged(collections[n]) && unchanged(collections[n].hnsw) && unchanged(collections[n].kwIndex)
      ensures State() == Vm(old(State()).colls[name := collections[name].State()], store.logs)
    {
      hide Collection.Collection.State;
      forall n | n in collections && n != name ensures collections[n].State() == old(collections[n].State()) {
        assert unchanged(collections[n]) && unchanged(collections[n].hnsw) && unchanged(collections[n].kwIndex);
      }
    }

    /** Encode the blocks of a batch; a block that does not encode is left out. */
    method EncodeBatch(name: Bytes, puts: seq<Put>, results: seq<(nat, nat)>, ghost ids: seq<nat>)
        returns (entries: map<Bytes, Bytes>, successes: seq<bool>)
      requires |results| == |ids| == |puts| && forall i :: 0 <= i < |puts| ==> results[i].0 == ids[i]
      ensures entries == EncodedBatch(crc, name, puts, ids) && |successes| == |puts|
      ensures forall i :: 0 <= i < |puts| ==>
              (successes[i] <==> EntryCodec.Encoded(EntryOf(puts[i].key, puts[i].block, ids[i]), crc).Some?)
    {
      hide EntryCodec.Encoded, StorageKey, EntryOf;
      entries, successes := map[], [];
      for n := 0 to |puts|
        invariant entries == EncodedBatch(crc, name, puts[..n], ids[..n]) && |successes| == n
        invariant forall i :: 0 <= i < n ==>
                  (successes[i] <==> EntryCodec.Encoded(EntryOf(puts[i].key, puts[i].block, ids[i]), crc).Some?)
      {
        assert puts[..n + 1][..n] == puts[..n] && ids[..n + 1][..n] == ids[..n];
        var encoded := EntryCodec.EncodeEntry(EntryOf(puts[n].key, puts[n].block, results[n].0), crc);
        if encoded.Some? {
          entries := entries[StorageKey(name, puts[n].key) := encoded.value];
        }
        successes := successes + [encoded.Some?];
      }
      assert puts[..|puts|] == puts && ids[..|ids|] == ids;
    }

    /** BatchAppendBlocks after the write-ahead log. */
    method BatchAppendBlocks(name: Bytes, puts: seq<Put>)
      returns (r: Outcome<seq<bool>>, ghost items: seq<Item>, ghost ids: seq<nat>, ghost c1: Coll)
      requires store.Valid() && Separate() && (name in collections ==> collections[name].hnsw.EntryLive())
      modifies Parts(name)
      ensures store.Valid()
      ensures r.Ok? <==> name in collections
      ensures r.Ok? ==> |ids| == |puts| == |r.value| && forall i :: 0 <= i < |puts| ==>
                (r.value[i] <==> EntryCodec.Encoded(EntryOf(puts[i].key, puts[i].block, ids[i]), crc).Some?)
      ensures r.Ok? ==>
                && collections[name].hnsw.EntryLive()
                && BatchStep(collections[name].hnsw.cfg, old(collections[name].State()), puts, items, ids, c1,
                             collections[name].State())
                && |old(store.logs)| == PARTITIONS
                && Added(store.env, old(store.logs), BatchPayloads(Env(), name, puts, ids), store.logs)
      ensures r.Ok? && BatchFits(Env(), name, puts, ids) ==>
                ManyStep(Env(), collections[name].hnsw.cfg, old(State()), name, puts, items, ids, c1,
                         BatchEvents(Env(), name, puts, ids), State())
    {
      items, ids, c1 := [], [], NEW;
      if name !in collections { return Err, items, ids, c1; }
      var coll := collections[name];
      var results;
      hide BatchStep, EntryCodec.Encoded, EntryOf, Storable, EncodedBatch, BatchPayloads, Added, Holds, ManyStep,
          BatchFits, BatchEvents, Compressed;
      results, items, ids, c1 := coll.BatchAppendBlocks(puts);
      var entries, successes := EncodeBatch(name, puts, results, ids);
      StoreEntries(entries);
      BatchCompressed(Env(), name, puts, ids);
      Untouched(name);
      if BatchFits(Env(), name, puts, ids) {
        ManyFromParts(Env(), coll.hnsw.cfg, old(State()), name, puts, items, ids, c1, coll.State(), store.logs);
      }
      return Ok(successes), items, ids, c1;
    }

    /** Hand a non-empty batch to the log. */
    method StoreEntries(entries: map<Bytes, Bytes>)
      requires store.Valid()
      modifies store
      ensures store.Valid() && |old(store.logs)| == PARTITIONS
      ensures Added(store.env, old(store.logs), Compressed(store.env, entries), store.logs)
    {
      if |entries| > 0 {
        store.BatchAppend(entries);
      } else {
        assert entries == map[];
        assert Compressed(store.env, entries) == map[];
        AddedNone(store.env, store.logs);
      }
    }

    /** DeleteKey after the write-ahead log: the log keeps the records. */
    method DeleteKey(name: Bytes, key: Bytes) returns (ok: bool)
      requires store.Valid() && Separate()
      modifies if name in collections then {collections[name], collections[name].hnsw} else {}
      ensures store.Valid() && store.logs == old(store.logs)
      ensures ok <==> name in collections && key in old(collections[name].keyIndex)
      ensures name in collections ==> DropStep(old(State()), name, key, [Dropped(name, key)], State())
    {
      if name !in collections { return false; }
      var coll := collections[name];
      hide DeleteKeyStep, DropStep;
      ok := coll.DeleteKey(key);
      Untouched(name);
      DropFromParts(old(State()), name, key, coll.State());
    }

    /** GetBlock. */
    method GetBlock(name: Bytes, key: Bytes, i: nat) returns (r: Option<Block>)
      requires store.Valid()
      ensures name !in collections ==> r == None
      ensures name in collections ==>
                r == GetBlockOf(Env(), name, collections[name].State(), store.logs, key, i)
    {
      hide ReadAt, StorageKey, EntryCodec.Decoded;
      if name !in collections { return None; }
      var coll := collections[name];
      if key !in coll.keyLengths { return None; }
      var payload := store.Get(StorageKey(name, key), i);
      if payload.None? { return None; }
      var entry := EntryCodec.DecodeEntry(payload.value, crc);
      if entry.None? { return None; }
      var vector: Vector := [];
      if |entry.value.secondary| == 8 {
        var vectorId := FromBigEndian(entry.value.secondary);
        if vectorId in coll.hnsw.nodes { vector := coll.hnsw.nodes[vectorId].vector; }
      }
      return Some(Block(vector, entry.value.keywords, entry.value.primary));
    }
  }
}
