/** What GetBlock returns after any run: the i-th block that was stored, whether or not it was deleted
    since, and exactly when that is the i-th block that was appended. */
module VectorReads {
  import opened Wrappers
  import opened Bytes
  import opened Seqs
  import opened HnswGraph
  import opened CollectionModel
  import opened Storage
  import opened VectorStore
  import opened VectorBatch
  import opened VectorRuns
  import RecordLog
  import EntryCodec
  import KeywordIndex
  import KeywordRuns

  lemma LengthOf(cfg: Config, c: Coll, key: Bytes)
    requires CollInv(cfg, c)
    ensures Length(c.dir, key) == |KeyList(c.dir, key)|
  {
    assert key in c.dir.keyLengths.Keys <==> key in c.dir.keyIndex.Keys;
  }

  /** Primary data and keywords of a stored block, with the vector its id has now. */
  function ReadNow(c: Coll, t: Taken): Block {
    Lowered(t.block).(vector := VectorUnder(c, t.id))
  }

  /** What reading a block should give: keywords in lower case, and the vector if it was kept. */
  function AsKept(cfg: Config, block: Block): Block {
    Lowered(block).(vector := KeptVector(cfg, block))
  }

  /** In every run, refused and failed appends, repeated keys and deletes included, GetBlock(name, key, i)
      on a live key gives the i-th block ever stored for the key. A block taken since the last delete
      comes with the vector kept of it; a deleted one with whatever its vanished or reused id has. */
  lemma BlocksEverRead(env: Setup, cfgs: map<Bytes, Config>, ops: seq<Call>, events: seq<Event>, vm: Vm, name: Bytes,
                       key: Bytes)
    requires PlainNames(cfgs) && Lossless(env.store) && CallRuns(env, cfgs, ops, events, vm) && name in cfgs
    ensures name in vm.colls && |vm.logs| == PARTITIONS
    ensures var hist, live, c := History(events, name, key), Live(events, name, key), vm.colls[name];
      var stored := StoredOf(hist);
      && live <= |hist| && Length(c.dir, key) == live
      && (forall i :: |hist| - live <= i < |hist| ==> ReadNow(c, hist[i]) == AsKept(cfgs[name], hist[i].block))
      && forall i: nat :: GetBlockOf(env, name, c, vm.logs, key, i) ==
           if live > 0 && i < |stored| then Some(ReadNow(c, stored[i])) else None
  {
    hide CallRuns, PlainNames, History, Live;
    VectorRuns.RunKeeps(env, cfgs, ops, events, vm, name, key);
    var hist, live, c := History(events, name, key), Live(events, name, key), vm.colls[name];
    LengthOf(cfgs[name], c, key);
    LiveBound(events, name, key);
    hide GetBlockOf, VectorUnder, RecordsMatch, LiveTail, CollInv, VectorsMatch, KeyList, Lowered, Length, StoredOf,
        KeptVector;
    forall i | |hist| - live <= i < |hist| ensures ReadNow(c, hist[i]) == AsKept(cfgs[name], hist[i].block) {
      LiveVector(cfgs[name], c, key, hist, i);
    }
    forall i: nat ensures GetBlockOf(env, name, c, vm.logs, key, i) ==
                          if live > 0 && i < |StoredOf(hist)| then Some(ReadNow(c, StoredOf(hist)[i])) else None
    {
      GetBlockReturns(env, cfgs[name], name, c, vm.logs, key, StoredOf(hist), i);
    }
  }

  lemma {:induction false} StoredAt(hist: seq<Taken>, i: nat)
    requires i < |hist| && hist[i].stored
    ensures |StoredOf(hist[..i])| < |StoredOf(hist)| && StoredOf(hist)[|StoredOf(hist[..i])|] == hist[i]
    decreases |hist|
  {
    var n := |hist| - 1;
    if i < n {
      StoredAt(hist[..n], i);
      assert hist[..n][..i] == hist[..i];
    }
  }

  /** A block taken since the last delete, if it was stored, comes back as it was kept, at the index that
      counts the blocks stored before it, deleted ones included. */
  lemma LiveBlocksRead(env: Setup, cfgs: map<Bytes, Config>, ops: seq<Call>, events: seq<Event>, vm: Vm, name: Bytes,
                       key: Bytes, i: nat)
    requires PlainNames(cfgs) && Lossless(env.store) && CallRuns(env, cfgs, ops, events, vm) && name in cfgs
    requires var hist := History(events, name, key);
      |hist| - Live(events, name, key) <= i < |hist| && hist[i].stored
    ensures name in vm.colls && |vm.logs| == PARTITIONS
    ensures var hist := History(events, name, key);
      GetBlockOf(env, name, vm.colls[name], vm.logs, key, |StoredOf(hist[..i])|)
      == Some(AsKept(cfgs[name], hist[i].block))
  {
    hide CallRuns, PlainNames, History, Live, GetBlockOf, ReadNow, AsKept, Length, StoredOf;
    BlocksEverRead(env, cfgs, ops, events, vm, name, key);
    StoredAt(History(events, name, key), i);
  }

  /** GetBlock succeeds for exactly the indexes below the key's length if and only if as many blocks were
      ever stored for the key as it has live, or it has none. */
  lemma LengthAgreesIff(env: Setup, cfgs: map<Bytes, Config>, ops: seq<Call>, events: seq<Event>, vm: Vm, name: Bytes,
                        key: Bytes)
    requires PlainNames(cfgs) && Lossless(env.store) && CallRuns(env, cfgs, ops, events, vm) && name in cfgs
    ensures name in vm.colls && |vm.logs| == PARTITIONS
    ensures (forall i: nat :: GetBlockOf(env, name, vm.colls[name], vm.logs, key, i).Some? <==>
                              i < Length(vm.colls[name].dir, key))
       <==> Live(events, name, key) == |StoredOf(History(events, name, key))| || Live(events, name, key) == 0
  {
    hide CallRuns, PlainNames, History, Live, GetBlockOf, ReadNow, AsKept, Length, StoredOf;
    BlocksEverRead(env, cfgs, ops, events, vm, name, key);
    var n, live := |StoredOf(History(events, name, key))|, Live(events, name, key);
    var c := vm.colls[name];
    if 0 < live < n { assert GetBlockOf(env, name, c, vm.logs, key, live).Some?; }
    if n < live { assert GetBlockOf(env, name, c, vm.logs, key, n).None?; }
  }

  ghost predicate AllStored(hist: seq<Taken>) {
    forall i :: 0 <= i < |hist| ==> hist[i].stored
  }

  lemma {:induction false} StoredCount(hist: seq<Taken>)
    ensures |StoredOf(hist)| <= |hist|
    ensures AllStored(hist) ==> StoredOf(hist) == hist
    ensures |StoredOf(hist)| == |hist| ==> AllStored(hist)
  {
    if hist != [] {
      StoredCount(hist[..|hist| - 1]);
      SplitLast(hist);
    }
  }

  /** GetBlock gives the i-th block that the collection took, as it kept it, and nothing beyond. */
  ghost predicate ReadsHistory(env: Setup, cfg: Config, vm: Vm, name: Bytes, key: Bytes, hist: seq<Taken>)
    requires name in vm.colls && |vm.logs| == PARTITIONS
  {
    forall i: nat :: GetBlockOf(env, name, vm.colls[name], vm.logs, key, i) ==
      if i < |hist| then Some(AsKept(cfg, hist[i].block)) else None
  }

  /** As long as the key is not deleted, that is so if and only if every block of the key that the
      collection took was also stored. */
  lemma ReadsHistoryIff(env: Setup, cfgs: map<Bytes, Config>, ops: seq<Call>, events: seq<Event>, vm: Vm, name: Bytes,
                        key: Bytes)
    requires PlainNames(cfgs) && Lossless(env.store) && CallRuns(env, cfgs, ops, events, vm) && name in cfgs
    requires Dropped(name, key) !in events
    ensures name in vm.colls && |vm.logs| == PARTITIONS
    ensures ReadsHistory(env, cfgs[name], vm, name, key, History(events, name, key)) <==>
            AllStored(History(events, name, key))
  {
    hide CallRuns, PlainNames, History, Live, GetBlockOf, ReadNow, AsKept, Length, StoredOf;
    BlocksEverRead(env, cfgs, ops, events, vm, name, key);
    LiveBound(events, name, key);
    var hist, c := History(events, name, key), vm.colls[name];
    StoredCount(hist);
    var n := |StoredOf(hist)|;
    if n < |hist| { assert GetBlockOf(env, name, c, vm.logs, key, n) == None; }
  }

  // ---------- runs in which every append succeeds ----------

  /** The blocks of a batch that go to one key, in order. */
  function BlocksFor(puts: seq<Put>, key: Bytes): seq<Block> {
    if puts == [] then []
    else
      var front, last := BlocksFor(puts[..|puts| - 1], key), puts[|puts| - 1];
      if last.key == key then front + [last.block] else front
  }

  function OpBlocks(op: Call, name: Bytes, key: Bytes): seq<Block> {
    if op.name != name then []
    else match op
      case One(_, put) => if put.key == key then [put.block] else []
      case Many(_, puts) => BlocksFor(puts, key)
      case Delete(_, _) => []
  }

  /** All blocks that the calls of a run append to a key, oldest first. */
  function AppendedBlocks(ops: seq<Call>, name: Bytes, key: Bytes): seq<Block> {
    if ops == [] then [] else AppendedBlocks(ops[..|ops| - 1], name, key) + OpBlocks(ops[|ops| - 1], name, key)
  }

  predicate VectorFits(cfg: Config, block: Block) {
    |block.vector| == 0 || |block.vector| == cfg.dimensions
  }

  /** Every vector is absent or has the dimension of its collection. */
  ghost predicate OpFits(cfgs: map<Bytes, Config>, op: Call) {
    op.name in cfgs ==> match op
      case One(name, put) => VectorFits(cfgs[name], put.block)
      case Many(name, puts) => forall i :: 0 <= i < |puts| ==> VectorFits(cfgs[name], puts[i].block)
      case Delete(_, _) => true
  }

  ghost predicate OpsFit(cfgs: map<Bytes, Config>, ops: seq<Call>) {
    forall i :: 0 <= i < |ops| ==> OpFits(cfgs, ops[i])
  }

  function BlocksOf(hist: seq<Taken>): (blocks: seq<Block>)
    ensures |blocks| == |hist| && forall i :: 0 <= i < |hist| ==> blocks[i] == hist[i].block
  {
    seq(|hist|, i requires 0 <= i < |hist| => hist[i].block)
  }

  lemma BlocksConcat(a: seq<Taken>, b: seq<Taken>)
    ensures BlocksOf(a + b) == BlocksOf(a) + BlocksOf(b)
  {
  }

  lemma {:induction false} BlocksTaken(puts: seq<Put>, ids: seq<nat>, flags: seq<bool>, key: Bytes)
    requires |ids| == |flags| == |puts|
    ensures BlocksOf(TakenFor(puts, ids, flags, key)) == BlocksFor(puts, key)
    decreases |puts|
  {
    if puts != [] {
      var n := |puts| - 1;
      BlocksTaken(puts[..n], ids[..n], flags[..n], key);
    }
  }

  /** A step whose vectors fit takes exactly the blocks of its call. */
  lemma StepTakes(env: Setup, cfgs: map<Bytes, Config>, vm: Vm, op: Call, more: seq<Event>, vm': Vm, key: Bytes,
                  past: seq<Event>)
    requires CallStep(env, cfgs, vm, op, more, vm') && OpFits(cfgs, op) && op.name in vm.colls
    requires op.name in cfgs && CollInv(cfgs[op.name], vm.colls[op.name])
    ensures BlocksOf(History(past + more, op.name, key))
            == BlocksOf(History(past, op.name, key)) + OpBlocks(op, op.name, key)
  {
    hide History, CollInv, AppendStepAs, BatchStep, DeleteKeyStep, Storable, Added, LogTakes, BatchFits, StorageKey;
    var name, hist := op.name, History(past, op.name, key);
    assert BlocksOf(hist) + [] == BlocksOf(hist) && hist + [] == hist;
    match op
    case One(_, put) =>
      var id :| OneStep(env, cfgs[name], vm, name, put, id, more, vm');
      FreshId(cfgs[name], vm.colls[name], id);
      var t := more[0].taken;
      HistorySnoc(past, more[0], name, key);
      assert more == [more[0]];
      BlocksConcat(hist, [t]);
    case Many(_, puts) =>
      var items, ids, c1 :| ManyStep(env, cfgs[name], vm, name, puts, items, ids, c1, more, vm');
      FitsCount(env, name, puts, ids);
      var flags := Flags(env, puts, ids);
      BatchHistory(past, name, puts, ids, flags, key);
      BlocksConcat(hist, TakenFor(puts, ids, flags, key));
      BlocksTaken(puts, ids, flags, key);
    case Delete(_, deleted) =>
      HistorySnoc(past, Dropped(name, deleted), name, key);
  }

  lemma {:induction false} TakesAll(env: Setup, cfgs: map<Bytes, Config>, ops: seq<Call>, events: seq<Event>, vm: Vm,
                                    name: Bytes, key: Bytes)
    requires PlainNames(cfgs) && CallRuns(env, cfgs, ops, events, vm) && name in cfgs && OpsFit(cfgs, ops)
    ensures BlocksOf(History(events, name, key)) == AppendedBlocks(ops, name, key)
  {
    hide CallStep, Initial, PlainNames, History, OpFits, OpBlocks, AllOf;
    if ops == [] {
      assert History([], name, key) == [] by { NoHistory(name, key); }
    } else {
      var front, last := ops[..|ops| - 1], ops[|ops| - 1];
      var vm0, past, more :| CallRuns(env, cfgs, front, past, vm0) && CallStep(env, cfgs, vm0, last, more, vm)
          && events == past + more;
      TakesAll(env, cfgs, front, past, vm0, name, key);
      StepEvents(env, cfgs, vm0, last, more, vm);
      assert OpFits(cfgs, last);
      if last.name == name {
        VectorRuns.RunKeeps(env, cfgs, front, past, vm0, name, key);
        StepTakes(env, cfgs, vm0, last, more, vm, key, past);
      } else {
        OtherHistory(past, more, last.name, name, key);
        OtherBlocks(last, name, key);
        assert AppendedBlocks(front, name, key) + [] == AppendedBlocks(front, name, key);
      }
    }
  }

  lemma NoHistory(name: Bytes, key: Bytes)
    ensures History([], name, key) == []
  {
  }

  lemma OtherBlocks(op: Call, name: Bytes, key: Bytes)
    requires op.name != name
    ensures OpBlocks(op, name, key) == []
  {
  }

  lemma FittingKept(cfg: Config, block: Block)
    requires VectorFits(cfg, block)
    ensures AsKept(cfg, block) == Lowered(block)
  {
    assert |block.vector| == 0 ==> block.vector == [];
  }

  lemma {:induction false} AppendedFit(cfgs: map<Bytes, Config>, ops: seq<Call>, name: Bytes, key: Bytes, i: nat)
    requires OpsFit(cfgs, ops) && name in cfgs && i < |AppendedBlocks(ops, name, key)|
    ensures VectorFits(cfgs[name], AppendedBlocks(ops, name, key)[i])
  {
    hide VectorFits;
    var front, last := ops[..|ops| - 1], ops[|ops| - 1];
    var past := AppendedBlocks(front, name, key);
    if i < |past| {
      AppendedFit(cfgs, front, name, key, i);
    } else {
      assert OpFits(cfgs, last);
      if last.Many? && last.name == name { BlocksFit(cfgs[name], last.puts, key, i - |past|); }
    }
  }

  lemma {:induction false} BlocksFit(cfg: Config, puts: seq<Put>, key: Bytes, i: nat)
    requires i < |BlocksFor(puts, key)| && forall j :: 0 <= j < |puts| ==> VectorFits(cfg, puts[j].block)
    ensures VectorFits(cfg, BlocksFor(puts, key)[i])
  {
    hide VectorFits;
    var n := |puts| - 1;
    if i < |BlocksFor(puts[..n], key)| { BlocksFit(cfg, puts[..n], key, i); }
  }

  /** If every vector fits, the key is not deleted and every block of the key was stored, then
      GetBlock(name, key, i) is the i-th block appended to the key, with its keywords in lower case and
      its own vector, for any hash and any lossless compressor. */
  lemma BlocksReadBack(env: Setup, cfgs: map<Bytes, Config>, ops: seq<Call>, events: seq<Event>, vm: Vm, name: Bytes,
                       key: Bytes, i: nat)
    requires PlainNames(cfgs) && Lossless(env.store) && CallRuns(env, cfgs, ops, events, vm) && name in cfgs
    requires OpsFit(cfgs, ops) && Dropped(name, key) !in events && AllStored(History(events, name, key))
    ensures name in vm.colls && |vm.logs| == PARTITIONS
    ensures GetBlockOf(env, name, vm.colls[name], vm.logs, key, i)
         == if i < |AppendedBlocks(ops, name, key)| then Some(Lowered(AppendedBlocks(ops, name, key)[i])) else None
  {
    hide CallRuns, PlainNames, History, AppendedBlocks, GetBlockOf, AsKept, Lowered, OpsFit, AllStored, VectorFits;
    ReadsHistoryIff(env, cfgs, ops, events, vm, name, key);
    TakesAll(env, cfgs, ops, events, vm, name, key);
    if i < |AppendedBlocks(ops, name, key)| {
      AppendedFit(cfgs, ops, name, key, i);
      FittingKept(cfgs[name], AppendedBlocks(ops, name, key)[i]);
    }
  }

  // ---------- a deleted block read again ----------

  lemma CallMore(env: Setup, cfgs: map<Bytes, Config>, ops: seq<Call>, events: seq<Event>, vm: Vm, op: Call,
                 more: seq<Event>, vm': Vm)
    requires CallRuns(env, cfgs, ops, events, vm) && CallStep(env, cfgs, vm, op, more, vm')
    ensures CallRuns(env, cfgs, ops + [op], events + more, vm')
  {
    hide CallStep;
    var all := ops + [op];
    assert all[..|all| - 1] == ops && all[|all| - 1] == op;
  }

  /** An append without a vector that the log accepts. */
  lemma PlainAppend(env: Setup, cfgs: map<Bytes, Config>, vm: Vm, name: Bytes, key: Bytes, block: Block, id: nat)
      returns (vm': Vm)
    requires name in cfgs && name in vm.colls && |vm.logs| == PARTITIONS && block.vector == []
    requires IsNext(vm.colls[name].dir.docMap, id) && Storable(env, name, key, block, id)
    requires LogTakes(env, name, key, block, id)
    ensures CallStep(env, cfgs, vm, One(name, Put(key, block, 0)), [Took(name, key, Taken(block, id, true))], vm')
    ensures name in vm'.colls && |vm'.logs| == PARTITIONS
    ensures vm'.colls[name] == Indexed(vm.colls[name], vm.colls[name].graph, key, block, id)
  {
    hide IsNext, Storable, LogTakes, PayloadOf, Added, KeywordIndex.Post, DirAppend;
    var c, sk := vm.colls[name], StorageKey(name, key);
    assert PayloadOf(env, key, block, id).Some? by { TakesPayload(env, name, key, block, id); }
    var payload := PayloadOf(env, key, block, id).value;
    var b := env.store.hash(sk);
    AddedOne(env.store, vm.logs, sk, payload);
    vm' := Vm(vm.colls[name := Indexed(c, c.graph, key, block, id)],
              vm.logs[b := vm.logs[b] + [RecordLog.Rec(sk, payload)]]);
    assert OneStep(env, cfgs[name], vm, name, Put(key, block, 0), id, [Took(name, key, Taken(block, id, true))], vm');
  }

  lemma TakesPayload(env: Setup, name: Bytes, key: Bytes, block: Block, id: nat)
    requires LogTakes(env, name, key, block, id)
    ensures PayloadOf(env, key, block, id).Some?
  {
  }

  /** One bucket, no compression, no checksum. */
  function Plainest(): Setup {
    Setup(Env((key: Bytes) => 0, (p: Bytes) => p, (p: Bytes) => Some(p)), (data: Bytes) => 0)
  }

  lemma SmallStorable(name: Bytes, key: Bytes, primary: Bytes)
    requires |name| == |key| == |primary| == 1
    ensures Storable(Plainest(), name, key, Block([], [], primary), 1)
    ensures LogTakes(Plainest(), name, key, Block([], [], primary), 1)
  {
    var env, e := Plainest(), EntryOf(key, Block([], [], primary), 1);
    var kw := EntryCodec.KeywordBlock([]).value;
    EntryCodec.LayoutSlices(e, kw, env.crc(EntryCodec.Layout(e, kw, 0)));
    hide EntryCodec.Layout;
    assert EntryCodec.Encoded(e, env.crc).Some? && |EntryCodec.Encoded(e, env.crc).value| == 30;
  }

  /** Append a block, delete its key, append another block: three calls and the state they leave. */
  lemma ThreeCalls(cfg: Config, name: Bytes, key: Bytes, a: Block, b: Block) returns (ops: seq<Call>, vm: Vm)
    requires a.vector == [] && b.vector == [] && a.keywords == [] && b.keywords == []
    requires Storable(Plainest(), name, key, a, 1) && LogTakes(Plainest(), name, key, a, 1)
    requires Storable(Plainest(), name, key, b, 1) && LogTakes(Plainest(), name, key, b, 1)
    ensures CallRuns(Plainest(), map[name := cfg], ops,
                     [Took(name, key, Taken(a, 1, true)), Dropped(name, key), Took(name, key, Taken(b, 1, true))], vm)
  {
    hide Storable, LogTakes, CallStep, KeywordIndex.Post, KeywordIndex.DocKeys;
    var env, cfgs := Plainest(), map[name := cfg];
    var vm0 := Initial(cfgs);
    assert CallRuns(env, cfgs, [], [], vm0) && vm0.colls[name] == NEW;
    hide CallRuns;
    var vm1 := PlainAppend(env, cfgs, vm0, name, key, a, 1);
    ops := [] + [One(name, Put(key, a, 0))];
    var e1, e2, e3 := Took(name, key, Taken(a, 1, true)), Dropped(name, key), Took(name, key, Taken(b, 1, true));
    CallMore(env, cfgs, [], [], vm0, One(name, Put(key, a, 0)), [e1], vm1);
    var c1 := vm1.colls[name];
    assert KeyList(NEW.dir, key) + [1] == [1];
    assert c1.dir == Dir(map[1 := Loc(key, 0)], map[key := 1], map[key := [1]]);
    var c2 := Coll(EMPTY, Dir(map[], map[], map[]), c1.postings, map[]);
    KeywordRuns.DeleteOnlyStep(c1, key, c2);
    var vm2 := Vm(vm1.colls[name := c2], vm1.logs);
    DroppedStep(env, cfgs, vm1, name, key, vm2);
    CallMore(env, cfgs, ops, [] + [e1], vm1, Delete(name, key), [e2], vm2);
    ops := ops + [Delete(name, key)];
    vm := PlainAppend(env, cfgs, vm2, name, key, b, 1);
    CallMore(env, cfgs, ops, [] + [e1] + [e2], vm2, One(name, Put(key, b, 0)), [e3], vm);
    ops := ops + [One(name, Put(key, b, 0))];
    assert [] + [e1] + [e2] + [e3] == [e1, e2, e3];
  }

  lemma DroppedStep(env: Setup, cfgs: map<Bytes, Config>, vm: Vm, name: Bytes, key: Bytes, vm': Vm)
    requires name in cfgs && name in vm.colls && name in vm'.colls
    requires vm' == Vm(vm.colls[name := vm'.colls[name]], vm.logs)
    requires DeleteKeyStep(vm.colls[name], key, vm'.colls[name])
    ensures CallStep(env, cfgs, vm, Delete(name, key), [Dropped(name, key)], vm')
  {
    hide DeleteKeyStep;
  }

  lemma ThreeEvents(name: Bytes, key: Bytes, a: Taken, b: Taken)
    requires a.stored && b.stored
    ensures var events := [Took(name, key, a), Dropped(name, key), Took(name, key, b)];
      History(events, name, key) == [a, b] == StoredOf([a, b]) && Live(events, name, key) == 1
  {
    var e1, e2, e3 := Took(name, key, a), Dropped(name, key), Took(name, key, b);
    assert [e1, e2, e3] == [] + [e1] + [e2] + [e3];
    HistorySnoc([], e1, name, key);
    HistorySnoc([] + [e1], e2, name, key);
    HistorySnoc([] + [e1] + [e2], e3, name, key);
    assert [a, b] == [] + [a] + [b];
    StoredSnoc([], a);
    StoredSnoc([] + [a], b);
  }

  /** The key has one live block, `b`, and GetBlock gives the deleted `a` for index 0 and `b` for index 1,
      which is beyond the key's length. */
  ghost predicate ReadsDeleted(env: Setup, vm: Vm, events: seq<Event>, name: Bytes, key: Bytes, a: Block, b: Block) {
    && Live(events, name, key) == 1 && BlocksOf(History(events, name, key)) == [a, b] && a.primary != b.primary
    && name in vm.colls && |vm.logs| == PARTITIONS && Length(vm.colls[name].dir, key) == 1
    && (var r := GetBlockOf(env, name, vm.colls[name], vm.logs, key, 0); r.Some? && r.value.primary == a.primary)
    && (var r := GetBlockOf(env, name, vm.colls[name], vm.logs, key, 1); r.Some? && r.value.primary == b.primary)
  }

  lemma PlainestNames(cfg: Config, name: Bytes)
    requires NoColon(name)
    ensures Lossless(Plainest().store) && PlainNames(map[name := cfg])
  {
  }

  lemma TwoBlocks(x: Taken, y: Taken)
    ensures BlocksOf([x, y]) == [x.block, y.block]
  {
  }

  lemma DeletedReads(cfg: Config, name: Bytes, key: Bytes, a: Block, b: Block, ops: seq<Call>, events: seq<Event>,
                     vm: Vm)
    requires NoColon(name) && CallRuns(Plainest(), map[name := cfg], ops, events, vm) && a.primary != b.primary
    requires events == [Took(name, key, Taken(a, 1, true)), Dropped(name, key), Took(name, key, Taken(b, 1, true))]
    ensures ReadsDeleted(Plainest(), vm, events, name, key, a, b)
  {
    hide *;
    var env, x, y := Plainest(), Taken(a, 1, true), Taken(b, 1, true);
    PlainestNames(cfg, name);
    ThreeEvents(name, key, x, y);
    TwoBlocks(x, y);
    BlocksEverRead(env, map[name := cfg], ops, events, vm, name, key);
    var c := vm.colls[name];
    assert GetBlockOf(env, name, c, vm.logs, key, 0) == Some(ReadNow(c, x));
    assert GetBlockOf(env, name, c, vm.logs, key, 1) == Some(ReadNow(c, y));
    ReadPrimary(c, x);
    ReadPrimary(c, y);
    ReadsFrom(env, vm, events, name, key, a, b);
  }

  /** In every configuration some run reads a deleted block in place of the live one. */
  lemma DeletedBlockRead(cfg: Config)
    ensures exists env: Setup, name: Bytes, key: Bytes, ops, events, vm, a, b ::
      && Lossless(env.store) && PlainNames(map[name := cfg]) && CallRuns(env, map[name := cfg], ops, events, vm)
      && ReadsDeleted(env, vm, events, name, key, a, b)
  {
    var name: Bytes, key: Bytes := [110], [107];
    var a, b := Block([], [], [1]), Block([], [], [2]);
    assert NoColon(name);
    hide *;
    assert a.primary[0] != b.primary[0];
    PlainestNames(cfg, name);
    SmallStorable(name, key, a.primary);
    SmallStorable(name, key, b.primary);
    var ops, vm := ThreeCalls(cfg, name, key, a, b);
    var events := [Took(name, key, Taken(a, 1, true)), Dropped(name, key), Took(name, key, Taken(b, 1, true))];
    DeletedReads(cfg, name, key, a, b, ops, events, vm);
  }

  lemma ReadsFrom(env: Setup, vm: Vm, events: seq<Event>, name: Bytes, key: Bytes, a: Block, b: Block)
    requires Live(events, name, key) == 1 && BlocksOf(History(events, name, key)) == [a, b] && a.primary != b.primary
    requires name in vm.colls && |vm.logs| == PARTITIONS && Length(vm.colls[name].dir, key) == 1
    requires var r := GetBlockOf(env, name, vm.colls[name], vm.logs, key, 0); r.Some? && r.value.primary == a.primary
    requires var r := GetBlockOf(env, name, vm.colls[name], vm.logs, key, 1); r.Some? && r.value.primary == b.primary
    ensures ReadsDeleted(env, vm, events, name, key, a, b)
  {
    hide Live, History, GetBlockOf, Length;
  }

  lemma ReadPrimary(c: Coll, t: Taken)
    ensures ReadNow(c, t).primary == t.block.primary
  {
  }
}
