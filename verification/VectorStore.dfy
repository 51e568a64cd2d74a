/** Collections, entry codec and append log together: a block read back is the block appended. */
module VectorStore {
  import opened Wrappers
  import opened Bytes
  import opened LayerSearch
  import opened HnswGraph
  import opened CollectionModel
  import opened Storage
  import RecordLog
  import EntryCodec

  datatype Setup = Setup(store: Storage.Env, crc: EntryCodec.Checksum)

  function StorageKey(name: Bytes, key: Bytes): Bytes {
    name + [COLON] + key
  }

  /** Names without a colon make storage keys unambiguous. */
  lemma StorageKeyInjective(a: Bytes, k: Bytes, b: Bytes, l: Bytes)
    requires NoColon(a) && NoColon(b) && StorageKey(a, k) == StorageKey(b, l)
    ensures a == b && k == l
  {
    var s := StorageKey(a, k);
    assert s[|a|] == COLON && s[|b|] == COLON;
    assert forall i :: 0 <= i < |a| ==> s[i] == a[i];
    assert forall i :: 0 <= i < |b| ==> s[i] == b[i];
    assert |a| == |b|;
    assert s[..|a|] == a && s[..|b|] == b && s[|a| + 1..] == k && s[|b| + 1..] == l;
  }

  /** The entry written for a block. */
  function EntryOf(key: Bytes, block: Block, id: nat): EntryCodec.Entry {
    EntryCodec.Entry(EntryCodec.Flags(if |block.vector| > 0 then 1 else 0, false, false), key, block.keywords,
                     block.primary,
                     EntryCodec.VectorIdToBytes(id))
  }

  /** The record payload of a block, if it encodes. */
  function PayloadOf(env: Setup, key: Bytes, block: Block, id: nat): Option<Bytes> {
    match EntryCodec.Encoded(EntryOf(key, block, id), env.crc)
    case None => None
    case Some(bytes) => Some(env.store.compress(bytes))
  }

  /** The block's entry encodes, and its record survives the log. */
  predicate Storable(env: Setup, name: Bytes, key: Bytes, block: Block, id: nat) {
    && PayloadOf(env, key, block, id).Some?
    && EntryCodec.Fits(EntryOf(key, block, id)) && id < ID_LIMIT
    && Good(RecordLog.Rec(StorageKey(name, key), PayloadOf(env, key, block, id).value))
  }

  /** The entry encodes, and the log accepts its key and its size. */
  predicate LogTakes(env: Setup, name: Bytes, key: Bytes, block: Block, id: nat) {
    && 0 < |StorageKey(name, key)| <= MAX_KEY
    && PayloadOf(env, key, block, id).Some? && |PayloadOf(env, key, block, id).value| < MAX_INT32
  }

  /** The log takes an entry exactly when the name, a colon and the key have at most 1024 bytes, the entry
      encodes and its compressed size is below 2^31 - 1. */
  lemma LogTakesIff(env: Setup, name: Bytes, key: Bytes, block: Block, id: nat)
    ensures LogTakes(env, name, key, block, id) <==>
      && |name| + 1 + |key| <= 1024
      && PayloadOf(env, key, block, id).Some? && |PayloadOf(env, key, block, id).value| < 0x7FFF_FFFF
  {
  }

  /** What a stored entry says: its key, whether the block had a vector, and the block's id. */
  lemma StoredEntry(env: Setup, key: Bytes, block: Block, id: nat)
    requires id < ID_LIMIT && EntryCodec.Fits(EntryOf(key, block, id))
    requires EntryCodec.Encoded(EntryOf(key, block, id), env.crc).Some?
    ensures var e := EntryCodec.Decoded(EntryCodec.Encoded(EntryOf(key, block, id), env.crc).value, env.crc);
      && e.Some? && e.value.key == key && e.value.primary == block.primary
      && (e.value.flags.dataType == if block.vector == [] then 0 else 1)
      && !e.value.flags.compressed && !e.value.flags.tombstone
      && |e.value.secondary| == 8 && FromBigEndian(e.value.secondary) == id
  {
    hide EntryCodec.Encoded, EntryCodec.Decoded;
    EntryCodec.EntryRoundTrip(EntryOf(key, block, id), env.crc);
    EntryCodec.VectorIdRoundTrip(id);
    assert |block.vector| == 0 <==> block.vector == [];
  }

  // ---------- agreement of collection and log ----------

  /** A block that a collection took under an id, and whether the log stored it. */
  datatype Taken = Taken(block: Block, id: nat, stored: bool)

  function StoredOf(hist: seq<Taken>): seq<Taken> {
    if hist == [] then []
    else
      var front, last := StoredOf(hist[..|hist| - 1]), hist[|hist| - 1];
      if last.stored then front + [last] else front
  }

  lemma IndexedList(c: Coll, graph: Graph, key: Bytes, block: Block, id: nat, k: Bytes)
    ensures KeyList(Indexed(c, graph, key, block, id).dir, k)
         == if k == key then KeyList(c.dir, k) + [id] else KeyList(c.dir, k)
  {
  }

  /** The records of a key are the blocks `taken`, encoded under their ids. */
  ghost predicate RecordsMatch(env: Setup, name: Bytes, logs: seq<seq<RecordLog.Rec>>, key: Bytes, taken: seq<Taken>)
    requires |logs| == PARTITIONS
  {
    var stored := Stored(env.store, logs, StorageKey(name, key));
    && |stored| == |taken|
    && forall i :: 0 <= i < |taken| ==>
        && Storable(env, name, key, taken[i].block, taken[i].id)
        && stored[i] == PayloadOf(env, key, taken[i].block, taken[i].id).value
  }

  /** The live blocks of a key are the last that the collection took. */
  ghost predicate LiveTail(c: Coll, key: Bytes, hist: seq<Taken>) {
    var ids := KeyList(c.dir, key);
    && |ids| <= |hist|
    && forall j :: 0 <= j < |ids| ==>
        var t := hist[|hist| - |ids| + j]; t.id == ids[j] && ids[j] in c.blocks && c.blocks[ids[j]] == t.block
  }

  /** A vector that the graph takes. */
  predicate Indexable(cfg: Config, block: Block) {
    0 < |block.vector| == cfg.dimensions
  }

  /** A block's vector is in the graph under its id, exactly when it has the right dimension. */
  ghost predicate VectorsMatch(cfg: Config, c: Coll) {
    forall id :: id in c.blocks ==>
      && (id in c.graph.nodes <==> Indexable(cfg, c.blocks[id]))
      && (id in c.graph.nodes ==> c.graph.nodes[id].vector == c.blocks[id].vector)
  }

  // ---------- reading a block ----------

  /** GetBlock on a collection and the log. */
  function GetBlockOf(env: Setup, name: Bytes, c: Coll, logs: seq<seq<RecordLog.Rec>>, key: Bytes,
                      i: nat): Option<Block>
    requires |logs| == PARTITIONS
  {
    if key !in c.dir.keyLengths then None
    else
      var sk := StorageKey(name, key);
      match ReadAt(env.store, logs[env.store.hash(sk)], sk, i)
      case None => None
      case Some(payload) => BlockFrom(env, c, payload)
  }

  function BlockFrom(env: Setup, c: Coll, payload: Bytes): Option<Block> {
    match EntryCodec.Decoded(payload, env.crc)
    case None => None
    case Some(e) => Some(Block(VectorFor(c, e.secondary), e.keywords, e.primary))
  }

  function VectorFor(c: Coll, secondary: Bytes): Vector {
    match EntryCodec.BytesToVectorId(secondary)
    case None => []
    case Some(id) => VectorUnder(c, id)
  }

  function VectorUnder(c: Coll, id: nat): Vector {
    if id in c.graph.nodes then c.graph.nodes[id].vector else []
  }

  /** What a block comes back as. */
  function Lowered(b: Block): Block {
    b.(keywords := EntryCodec.LowerAll(b.keywords))
  }

  lemma BlockReadBack(env: Setup, c: Coll, key: Bytes, block: Block, id: nat)
    requires id < ID_LIMIT && EntryCodec.Fits(EntryOf(key, block, id))
    requires EntryCodec.Encoded(EntryOf(key, block, id), env.crc).Some?
    ensures BlockFrom(env, c, EntryCodec.Encoded(EntryOf(key, block, id), env.crc).value)
         == Some(Lowered(block).(vector := VectorUnder(c, id)))
  {
    EntryCodec.EntryRoundTrip(EntryOf(key, block, id), env.crc);
    EntryCodec.VectorIdRoundTrip(id);
    hide EntryCodec.Encoded, EntryCodec.Decoded, EntryCodec.VectorIdToBytes, EntryCodec.BytesToVectorId;
  }

  /** With matching records, GetBlock on a live key returns primary data and keywords of the i-th
      record's block, deleted or not, with whatever vector its id now has, and refuses beyond. */
  lemma GetBlockReturns(env: Setup, cfg: Config, name: Bytes, c: Coll, logs: seq<seq<RecordLog.Rec>>, key: Bytes,
                        taken: seq<Taken>, i: nat)
    requires Lossless(env.store) && |logs| == PARTITIONS && CollInv(cfg, c)
    requires RecordsMatch(env, name, logs, key, taken)
    ensures GetBlockOf(env, name, c, logs, key, i) ==
            if KeyList(c.dir, key) == [] || i >= |taken| then None
            else Some(Lowered(taken[i].block).(vector := VectorUnder(c, taken[i].id)))
  {
    KeyKnown(c.dir, key);
    var sk := StorageKey(name, key);
    ReadBack(env.store, logs[env.store.hash(sk)], sk, i);
    hide CollInv, ReadAt, KeyList;
    if i < |taken| {
      var t := taken[i];
      assert Storable(env, name, key, t.block, t.id);
      var bytes := EntryCodec.Encoded(EntryOf(key, t.block, t.id), env.crc).value;
      assert env.store.decompress(env.store.compress(bytes)) == Some(bytes);
      hide BlockFrom, EntryCodec.Encoded, EntryCodec.Fits, Lowered, VectorUnder;
      BlockReadBack(env, c, key, t.block, t.id);
    }
  }

  /** The vector a collection keeps of a block. */
  function KeptVector(cfg: Config, block: Block): Vector {
    if |block.vector| == cfg.dimensions then block.vector else []
  }

  /** The id of a live block has the vector that was kept of it. */
  lemma LiveVector(cfg: Config, c: Coll, key: Bytes, hist: seq<Taken>, i: nat)
    requires LiveTail(c, key, hist) && VectorsMatch(cfg, c) && |hist| - |KeyList(c.dir, key)| <= i < |hist|
    ensures VectorUnder(c, hist[i].id) == KeptVector(cfg, hist[i].block)
  {
    hide KeyList;
    var ids := KeyList(c.dir, key);
    var j := i - (|hist| - |ids|);
    assert hist[|hist| - |ids| + j].id == ids[j];
    assert |hist[i].block.vector| == 0 ==> hist[i].block.vector == [];
  }

  lemma KeyKnown(d: Dir, key: Bytes)
    requires DirInv(d)
    ensures key in d.keyLengths <==> KeyList(d, key) != []
  {
    assert key in d.keyLengths.Keys <==> key in d.keyIndex.Keys;
  }
}
