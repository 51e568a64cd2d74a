/** Runs over several collections, whatever the outcome of each call: what the collections take, what
    the log stores of it, and what both hold for each key. */
module VectorRuns {
  import opened Bytes
  import opened Seqs
  import opened HnswGraph
  import opened HnswOps
  import opened CollectionModel
  import opened Storage
  import opened VectorStore
  import opened VectorBatch
  import RecordLog
  import EntryCodec
  import KeywordIndex

  datatype Vm = Vm(colls: map<Bytes, Coll>, logs: seq<seq<RecordLog.Rec>>)

  datatype Call = One(name: Bytes, put: Put) | Many(name: Bytes, puts: seq<Put>) | Delete(name: Bytes, key: Bytes)

  /** What a call did: a collection took a block, or forgot a key. */
  datatype Event = Took(name: Bytes, key: Bytes, taken: Taken) | Dropped(name: Bytes, key: Bytes)

  // ---------- steps ----------

  /** Only this collection changed. */
  ghost predicate Within(vm: Vm, name: Bytes, vm': Vm) {
    name in vm.colls && name in vm'.colls && vm'.colls == vm.colls[name := vm'.colls[name]]
  }

  /** AppendBlock: a refused vector changes nothing; otherwise the collection takes the block, and the
      log stores it if it accepts the entry. Entries that are stored have sizes that fit their fields. */
  ghost predicate OneStep(env: Setup, cfg: Config, vm: Vm, name: Bytes, put: Put, id: nat, events: seq<Event>,
                          vm': Vm) {
    && Within(vm, name, vm') && IsNext(vm.colls[name].dir.docMap, id)
    && AppendStepAs(cfg, vm.colls[name], put.key, put.block, put.level, id, vm'.colls[name])
    && if Refused(cfg, vm.colls[name], put.block, id) then events == [] && vm'.logs == vm.logs
       else
         var stored := LogTakes(env, name, put.key, put.block, id);
         && events == [Took(name, put.key, Taken(put.block, id, stored))]
         && if !stored then vm'.logs == vm.logs
            else
              && Storable(env, name, put.key, put.block, id)
              && Added(env.store, vm.logs,
                       map[StorageKey(name, put.key) := PayloadOf(env, put.key, put.block, id).value], vm'.logs)
  }

  /** Blocks of a batch that encode have sizes that fit their fields. */
  ghost predicate BatchFits(env: Setup, name: Bytes, puts: seq<Put>, ids: seq<nat>) {
    |ids| == |puts| && forall i :: 0 <= i < |puts| && Encodes(env, puts, ids, i) ==>
      Storable(env, name, puts[i].key, puts[i].block, ids[i])
  }

  function BatchEvents(env: Setup, name: Bytes, puts: seq<Put>, ids: seq<nat>): seq<Event>
    requires |ids| == |puts|
  {
    EventsOf(name, puts, ids, Flags(env, puts, ids))
  }

  function EventsOf(name: Bytes, puts: seq<Put>, ids: seq<nat>, flags: seq<bool>): (events: seq<Event>)
    requires |ids| == |flags| == |puts|
    ensures |events| == |puts|
  {
    seq(|puts|, i requires 0 <= i < |puts| => Took(name, puts[i].key, Taken(puts[i].block, ids[i], flags[i])))
  }

  /** BatchAppendBlocks: the collection takes every block, the log stores the last of each key that
      encodes, and the graph skips vectors of a wrong dimension. */
  ghost predicate ManyStep(env: Setup, cfg: Config, vm: Vm, name: Bytes, puts: seq<Put>, items: seq<Item>,
                           ids: seq<nat>, c1: Coll, events: seq<Event>, vm': Vm) {
    && Within(vm, name, vm') && BatchFits(env, name, puts, ids)
    && BatchStep(cfg, vm.colls[name], puts, items, ids, c1, vm'.colls[name])
    && events == BatchEvents(env, name, puts, ids)
    && Added(env.store, vm.logs, BatchPayloads(env, name, puts, ids), vm'.logs)
  }

  /** DeleteKey: the collection forgets the key, the log keeps its records. */
  ghost predicate DropStep(vm: Vm, name: Bytes, key: Bytes, events: seq<Event>, vm': Vm) {
    && Within(vm, name, vm') && DeleteKeyStep(vm.colls[name], key, vm'.colls[name])
    && vm'.logs == vm.logs && events == [Dropped(name, key)]
  }

  ghost predicate CallStep(env: Setup, cfgs: map<Bytes, Config>, vm: Vm, op: Call, events: seq<Event>, vm': Vm) {
    && op.name in cfgs
    && match op
      case One(name, put) => exists id :: OneStep(env, cfgs[name], vm, name, put, id, events, vm')
      case Many(name, puts) =>
        exists items, ids, c1 :: ManyStep(env, cfgs[name], vm, name, puts, items, ids, c1, events, vm')
      case Delete(name, key) => DropStep(vm, name, key, events, vm')
  }

  function Initial(cfgs: map<Bytes, Config>): Vm {
    Vm(map name | name in cfgs :: NEW, seq(PARTITIONS, _ => []))
  }

  ghost predicate CallRuns(env: Setup, cfgs: map<Bytes, Config>, ops: seq<Call>, events: seq<Event>, vm: Vm) {
    if ops == [] then vm == Initial(cfgs) && events == []
    else
      var front, last := ops[..|ops| - 1], ops[|ops| - 1];
      exists vm0, past, more ::
        CallRuns(env, cfgs, front, past, vm0) && CallStep(env, cfgs, vm0, last, more, vm) && events == past + more
  }

  // ---------- history ----------

  /** All blocks a collection ever took for a key, oldest first. */
  function History(events: seq<Event>, name: Bytes, key: Bytes): seq<Taken> {
    if events == [] then []
    else
      var front, last := History(events[..|events| - 1], name, key), events[|events| - 1];
      if last.Took? && last.name == name && last.key == key then front + [last.taken] else front
  }

  /** How many of them it took since the key was last deleted. */
  function Live(events: seq<Event>, name: Bytes, key: Bytes): nat {
    if events == [] then 0
    else
      var front, last := Live(events[..|events| - 1], name, key), events[|events| - 1];
      if last == Dropped(name, key) then 0
      else if last.Took? && last.name == name && last.key == key then front + 1
      else front
  }

  lemma {:induction false} LiveBound(events: seq<Event>, name: Bytes, key: Bytes)
    ensures Live(events, name, key) <= |History(events, name, key)|
    ensures Dropped(name, key) !in events ==> Live(events, name, key) == |History(events, name, key)|
  {
    if events != [] {
      LiveBound(events[..|events| - 1], name, key);
      SplitLast(events);
    }
  }

  lemma HistorySnoc(events: seq<Event>, e: Event, name: Bytes, key: Bytes)
    ensures History(events + [e], name, key) ==
            History(events, name, key) + (if e.Took? && e.name == name && e.key == key then [e.taken] else [])
    ensures Live(events + [e], name, key) ==
            if e == Dropped(name, key) then 0
            else Live(events, name, key) + (if e.Took? && e.name == name && e.key == key then 1 else 0)
  {
    assert (events + [e])[..|events|] == events;
    assert History(events, name, key) + [] == History(events, name, key);
  }

  lemma {:induction false} BatchHistory(events: seq<Event>, name: Bytes, puts: seq<Put>, ids: seq<nat>,
                                        flags: seq<bool>, key: Bytes)
    requires |ids| == |flags| == |puts|
    ensures var all, more := events + EventsOf(name, puts, ids, flags), TakenFor(puts, ids, flags, key);
      && History(all, name, key) == History(events, name, key) + more
      && Live(all, name, key) == Live(events, name, key) + |more|
    decreases |puts|
  {
    hide History, Live;
    if puts == [] {
      assert events + EventsOf(name, puts, ids, flags) == events;
      assert History(events, name, key) + [] == History(events, name, key);
    } else {
      var n := |puts| - 1;
      BatchHistory(events, name, puts[..n], ids[..n], flags[..n], key);
      var e := Took(name, puts[n].key, Taken(puts[n].block, ids[n], flags[n]));
      var front := events + EventsOf(name, puts[..n], ids[..n], flags[..n]);
      EventsSnoc(events, name, puts, ids, flags);
      HistorySnoc(front, e, name, key);
      TakenMore(History(events, name, key), TakenFor(puts[..n], ids[..n], flags[..n], key), e.taken);
    }
  }

  lemma EventsSnoc(events: seq<Event>, name: Bytes, puts: seq<Put>, ids: seq<nat>, flags: seq<bool>)
    requires |ids| == |flags| == |puts| > 0
    ensures var n := |puts| - 1;
      events + EventsOf(name, puts, ids, flags) ==
      events + EventsOf(name, puts[..n], ids[..n], flags[..n])
          + [Took(name, puts[n].key, Taken(puts[n].block, ids[n], flags[n]))]
  {
  }

  lemma TakenMore(a: seq<Taken>, b: seq<Taken>, t: Taken)
    ensures a + b + [t] == a + (b + [t]) && a + b + [] == a + b
  {
  }

  // ---------- the invariant of one key ----------

  /** Collection and log agree with what was taken for the key, and how much of it is live. */
  ghost predicate KeyInv(env: Setup, cfg: Config, vm: Vm, name: Bytes, key: Bytes, hist: seq<Taken>, live: nat) {
    && name in vm.colls && |vm.logs| == PARTITIONS
    && var c := vm.colls[name];
      && CollInv(cfg, c) && VectorsMatch(cfg, c) && RecordsMatch(env, name, vm.logs, key, StoredOf(hist))
      && LiveTail(c, key, hist) && |KeyList(c.dir, key)| == live
  }

  // ---------- the log ----------

  lemma RecordsSame(env: Setup, name: Bytes, logs: seq<seq<RecordLog.Rec>>, logs': seq<seq<RecordLog.Rec>>, key: Bytes,
                    taken: seq<Taken>)
    requires |logs| == |logs'| == PARTITIONS && RecordsMatch(env, name, logs, key, taken)
    requires Stored(env.store, logs', StorageKey(name, key)) == Stored(env.store, logs, StorageKey(name, key))
    ensures RecordsMatch(env, name, logs', key, taken)
  {
    hide Stored, Storable, PayloadOf;
  }

  lemma RecordsOne(env: Setup, name: Bytes, logs: seq<seq<RecordLog.Rec>>, logs': seq<seq<RecordLog.Rec>>, key: Bytes,
                   taken: seq<Taken>, t: Taken)
    requires |logs| == |logs'| == PARTITIONS && RecordsMatch(env, name, logs, key, taken)
    requires Storable(env, name, key, t.block, t.id)
    requires Stored(env.store, logs', StorageKey(name, key))
          == Stored(env.store, logs, StorageKey(name, key)) + [PayloadOf(env, key, t.block, t.id).value]
    ensures RecordsMatch(env, name, logs', key, taken + [t])
  {
    hide Stored, EntryOf, PayloadOf, EntryCodec.Fits, Good;
  }

  lemma StoredOther(env: Setup, logs: seq<seq<RecordLog.Rec>>, added: map<Bytes, Bytes>, logs': seq<seq<RecordLog.Rec>>,
                    sk: Bytes)
    requires Added(env.store, logs, added, logs')
    ensures |logs| == |logs'| == PARTITIONS
    ensures sk !in added ==> Stored(env.store, logs', sk) == Stored(env.store, logs, sk)
    ensures sk in added ==> Stored(env.store, logs', sk) == Stored(env.store, logs, sk) + [added[sk]]
  {
    hide Stored;
    assert Stored(env.store, logs, sk) + [] == Stored(env.store, logs, sk);
  }

  lemma AddedOneRecord(env: Setup, name: Bytes, logs: seq<seq<RecordLog.Rec>>, put: Put, id: nat,
                       logs': seq<seq<RecordLog.Rec>>, key: Bytes, taken: seq<Taken>)
    requires |logs| == PARTITIONS && RecordsMatch(env, name, logs, key, taken)
    requires Storable(env, name, put.key, put.block, id)
    requires Added(env.store, logs, map[StorageKey(name, put.key) := PayloadOf(env, put.key, put.block, id).value],
                   logs')
    ensures |logs'| == PARTITIONS
    ensures put.key == key ==> RecordsMatch(env, name, logs', key, taken + [Taken(put.block, id, true)])
    ensures put.key != key ==> RecordsMatch(env, name, logs', key, taken)
  {
    hide Added, RecordsMatch, Stored, Good, EntryCodec.Fits, PayloadOf, StorageKey;
    var sk := StorageKey(name, key);
    StoredOther(env, logs, map[StorageKey(name, put.key) := PayloadOf(env, put.key, put.block, id).value], logs', sk);
    SameName(name, key, put.key);
    if key == put.key {
      RecordsOne(env, name, logs, logs', key, taken, Taken(put.block, id, true));
    } else {
      RecordsSame(env, name, logs, logs', key, taken);
    }
  }

  lemma AddedBatchRecord(env: Setup, name: Bytes, logs: seq<seq<RecordLog.Rec>>, puts: seq<Put>, ids: seq<nat>,
                         logs': seq<seq<RecordLog.Rec>>, key: Bytes, taken: seq<Taken>)
    requires |logs| == PARTITIONS && RecordsMatch(env, name, logs, key, taken) && BatchFits(env, name, puts, ids)
    requires Added(env.store, logs, BatchPayloads(env, name, puts, ids), logs')
    ensures |logs'| == PARTITIONS
    ensures RecordsMatch(env, name, logs', key, taken + StoredOf(TakenFor(puts, ids, Flags(env, puts, ids), key)))
  {
    hide RecordsMatch, Added, BatchPayloads, Stored, StorageKey, PayloadOf, StoredOf, TakenFor, Storable;
    var sk, more := StorageKey(name, key), StoredOf(TakenFor(puts, ids, Flags(env, puts, ids), key));
    StoredOther(env, logs, BatchPayloads(env, name, puts, ids), logs', sk);
    BatchRecord(env, name, puts, ids, key);
    if sk in BatchPayloads(env, name, puts, ids) {
      var j :| 0 <= j < |puts| && puts[j].key == key && more[0] == Taken(puts[j].block, ids[j], true);
      assert Encodes(env, puts, ids, j);
      assert more == [more[0]];
      RecordsOne(env, name, logs, logs', key, taken, more[0]);
    } else {
      assert taken + [] == taken;
      RecordsSame(env, name, logs, logs', key, taken);
    }
  }

  // ---------- one append ----------

  lemma FreshId(cfg: Config, c: Coll, id: nat)
    requires CollInv(cfg, c) && IsNext(c.dir.docMap, id)
    ensures id !in c.blocks && id !in c.graph.nodes && AllBelow(c.graph.nodes, id)
  {
    NextIsFresh(cfg, c, id);
    assert id !in c.dir.docMap.Keys;
  }

  /** `c'` has one more block, and its graph agrees. */
  lemma VectorsNext(cfg: Config, c: Coll, c': Coll, id: nat, block: Block)
    requires VectorsMatch(cfg, c) && id !in c.blocks && c'.blocks == c.blocks[id := block]
    requires forall x :: x in c.blocks ==>
      && (x in c'.graph.nodes <==> x in c.graph.nodes)
      && (x in c.graph.nodes ==> c'.graph.nodes[x].vector == c.graph.nodes[x].vector)
    requires id in c'.graph.nodes <==> Indexable(cfg, block)
    requires id in c'.graph.nodes ==> c'.graph.nodes[id].vector == block.vector
    ensures VectorsMatch(cfg, c')
  {
  }

  lemma AppendVectors(cfg: Config, c: Coll, key: Bytes, block: Block, level: nat, id: nat, c': Coll)
    requires CollInv(cfg, c) && VectorsMatch(cfg, c) && IsNext(c.dir.docMap, id)
    requires AppendStepAs(cfg, c, key, block, level, id, c')
    ensures VectorsMatch(cfg, c')
  {
    FreshId(cfg, c, id);
    InvGraph(cfg, c);
    hide CollInv, AddStep, GraphInv, VectorsMatch, DirAppend, IsNext, AllBelow;
    if !Refused(cfg, c, block, id) {
      if |block.vector| > 0 {
        forall x ensures id in c'.graph.nodes && c'.graph.nodes[id].vector == block.vector
                         && (x != id ==> (x in c'.graph.nodes <==> x in c.graph.nodes)
                                         && (x in c.graph.nodes ==>
                                             c'.graph.nodes[x].vector == c.graph.nodes[x].vector))
        {
          AddedNode(cfg, c.graph, id, block.vector, level, c'.graph, x);
        }
      }
      VectorsNext(cfg, c, c', id, block);
    }
  }

  lemma InvGraph(cfg: Config, c: Coll)
    requires CollInv(cfg, c)
    ensures GraphInv(cfg, c.graph)
  {
  }

  lemma OneColl(cfg: Config, c: Coll, put: Put, id: nat, c': Coll)
    requires CollInv(cfg, c) && VectorsMatch(cfg, c) && IsNext(c.dir.docMap, id)
    requires AppendStepAs(cfg, c, put.key, put.block, put.level, id, c')
    ensures CollInv(cfg, c') && VectorsMatch(cfg, c')
  {
    hide CollInv, VectorsMatch, AppendStepAs;
    AppendVectors(cfg, c, put.key, put.block, put.level, id, c');
    AppendKeeps(cfg, c, put.key, put.block, put.level, c');
  }

  lemma TailSame(c: Coll, c': Coll, key: Bytes, hist: seq<Taken>)
    requires LiveTail(c, key, hist) && KeyList(c'.dir, key) == KeyList(c.dir, key)
    requires forall x :: x in KeyList(c.dir, key) && x in c.blocks ==> x in c'.blocks && c'.blocks[x] == c.blocks[x]
    ensures LiveTail(c', key, hist)
  {
    hide KeyList;
    assert forall j :: 0 <= j < |KeyList(c.dir, key)| ==> KeyList(c.dir, key)[j] in KeyList(c.dir, key);
  }

  lemma OneTail(c: Coll, put: Put, t: Taken, c': Coll, key: Bytes, hist: seq<Taken>)
    requires LiveTail(c, key, hist) && c' == Indexed(c, c'.graph, put.key, put.block, t.id) && t.id !in c.blocks
    requires t.block == put.block
    ensures put.key == key ==> LiveTail(c', key, hist + [t]) && |KeyList(c'.dir, key)| == |KeyList(c.dir, key)| + 1
    ensures put.key != key ==> LiveTail(c', key, hist) && KeyList(c'.dir, key) == KeyList(c.dir, key)
  {
    hide LiveTail, KeyList, KeywordIndex.Post, DirAppend;
    IndexedList(c, c'.graph, put.key, put.block, t.id, key);
    if key == put.key {
      assert IdsOf([t]) == [t.id];
      TailMore(c, c', key, hist, [t]);
    } else {
      TailSame(c, c', key, hist);
    }
  }

  lemma OneKeeps(env: Setup, cfg: Config, vm: Vm, name: Bytes, put: Put, id: nat, events: seq<Event>, vm': Vm,
                 key: Bytes, past: seq<Event>)
    requires KeyInv(env, cfg, vm, name, key, History(past, name, key), Live(past, name, key))
    requires OneStep(env, cfg, vm, name, put, id, events, vm')
    ensures KeyInv(env, cfg, vm', name, key, History(past + events, name, key), Live(past + events, name, key))
  {
    hide CollInv, VectorsMatch, RecordsMatch, LiveTail, Added, PayloadOf, AddStep, IsNext, StorageKey, Storable,
        KeyList,
        Indexed, Refused, LogTakes, History, Live, StoredOf;
    var c, c', hist := vm.colls[name], vm'.colls[name], History(past, name, key);
    FreshId(cfg, c, id);
    OneColl(cfg, c, put, id, c');
    if Refused(cfg, c, put.block, id) {
      assert past + events == past;
    } else {
      var t := Taken(put.block, id, LogTakes(env, name, put.key, put.block, id));
      HistorySnoc(past, Took(name, put.key, t), name, key);
      assert hist + [] == hist;
      OneTail(c, put, t, c', key, hist);
      StoredSnoc(hist, t);
      if t.stored {
        AddedOneRecord(env, name, vm.logs, put, id, vm'.logs, key, StoredOf(hist));
      } else {
        assert StoredOf(hist) + [] == StoredOf(hist);
      }
    }
  }

  // ---------- a batch, a deletion, another collection ----------

  lemma ManyKeeps(env: Setup, cfg: Config, vm: Vm, name: Bytes, puts: seq<Put>, items: seq<Item>, ids: seq<nat>,
                  c1: Coll, events: seq<Event>, vm': Vm, key: Bytes, past: seq<Event>)
    requires KeyInv(env, cfg, vm, name, key, History(past, name, key), Live(past, name, key))
    requires ManyStep(env, cfg, vm, name, puts, items, ids, c1, events, vm')
    ensures KeyInv(env, cfg, vm', name, key, History(past + events, name, key), Live(past + events, name, key))
  {
    var c, c', hist := vm.colls[name], vm'.colls[name], History(past, name, key);
    hide CollInv, VectorsMatch, RecordsMatch, LiveTail, Added, BatchIndexed, Batched, BatchPayloads, BatchFits, KeyList,
        TakenFor, StoredOf, History, Live, EventsOf;
    var flags := Flags(env, puts, ids);
    var more := TakenFor(puts, ids, flags, key);
    ManyColl(cfg, c, puts, items, ids, c1, c');
    AddedBatchRecord(env, name, vm.logs, puts, ids, vm'.logs, key, StoredOf(hist));
    StoredConcat(hist, more);
    BatchTail(cfg, c, puts, items, ids, flags, c1, key, hist);
    BatchHistory(past, name, puts, ids, flags, key);
    assert c'.dir == c1.dir && c'.blocks == c1.blocks;
    TailSame(c1, c', key, hist + more);
  }

  lemma DeletedTail(cfg: Config, c: Coll, deleted: Bytes, c': Coll, key: Bytes, hist: seq<Taken>)
    requires CollInv(cfg, c) && LiveTail(c, key, hist) && DeleteKeyStep(c, deleted, c')
    ensures LiveTail(c', key, hist)
    ensures KeyList(c'.dir, key) == if deleted == key then [] else KeyList(c.dir, key)
  {
    hide GraphInv, DeletedAll;
    if deleted != key && deleted in c.dir.keyIndex {
      forall x | x in KeyList(c.dir, key) && x in c.blocks ensures x in c'.blocks && c'.blocks[x] == c.blocks[x] {
        OtherKeyKept(c.dir, deleted, key, x);
      }
      TailSame(c, c', key, hist);
    }
  }

  lemma OtherKeyKept(d: Dir, deleted: Bytes, key: Bytes, id: nat)
    requires DirInv(d) && deleted in d.keyIndex && deleted != key && id in KeyList(d, key)
    ensures id !in Elems(d.keyIndex[deleted])
  {
    var i :| 0 <= i < |d.keyIndex[key]| && d.keyIndex[key][i] == id;
    assert id in d.docMap && d.docMap[id] == Loc(key, i);
    KeyOfListed(d, deleted, id);
  }

  lemma DeletedVectors(cfg: Config, c: Coll, key: Bytes, c': Coll)
    requires CollInv(cfg, c) && VectorsMatch(cfg, c) && DeleteKeyStep(c, key, c')
    ensures VectorsMatch(cfg, c')
  {
    if key in c.dir.keyIndex {
      hide GraphInv, DirInv, DeletedAll, VectorsMatch;
      DeletedAllKeeps(cfg, c.graph, c.dir.keyIndex[key], c'.graph);
      hide CollInv, DirDelete;
      RestVectors(cfg, c, c', c.dir.keyIndex[key]);
    }
  }

  /** What remains of the blocks and of the graph still agrees. */
  lemma RestVectors(cfg: Config, c: Coll, c': Coll, ids: seq<nat>)
    requires VectorsMatch(cfg, c) && c'.blocks == c.blocks - Elems(ids)
    requires c'.graph.nodes.Keys == c.graph.nodes.Keys - Elems(ids)
    requires forall u :: u in c'.graph.nodes ==>
             u in c.graph.nodes && c'.graph.nodes[u].vector == c.graph.nodes[u].vector
    ensures VectorsMatch(cfg, c')
  {
    hide Indexable;
    forall id | id in c'.blocks
      ensures (id in c'.graph.nodes <==> Indexable(cfg, c'.blocks[id]))
              && (id in c'.graph.nodes ==> c'.graph.nodes[id].vector == c'.blocks[id].vector)
    {
      assert id in c.blocks && id !in Elems(ids) && c'.blocks[id] == c.blocks[id];
      assert id in c'.graph.nodes.Keys <==> id in c.graph.nodes.Keys;
    }
  }

  lemma DropKeeps(env: Setup, cfg: Config, vm: Vm, name: Bytes, deleted: Bytes, events: seq<Event>, vm': Vm,
                  key: Bytes, past: seq<Event>)
    requires KeyInv(env, cfg, vm, name, key, History(past, name, key), Live(past, name, key))
    requires DropStep(vm, name, deleted, events, vm')
    ensures KeyInv(env, cfg, vm', name, key, History(past + events, name, key), Live(past + events, name, key))
  {
    hide CollInv, VectorsMatch, RecordsMatch, LiveTail, DeleteKeyStep, KeyList, History, Live;
    var c, c', hist := vm.colls[name], vm'.colls[name], History(past, name, key);
    DeleteKeyKeeps(cfg, c, deleted, c');
    DeletedVectors(cfg, c, deleted, c');
    DeletedTail(cfg, c, deleted, c', key, hist);
    HistorySnoc(past, Dropped(name, deleted), name, key);
    assert hist + [] == hist;
  }

  /** A step on another collection. */
  lemma OtherKeeps(env: Setup, cfg: Config, vm: Vm, other: Bytes, added: map<Bytes, Bytes>, vm': Vm, name: Bytes,
                   key: Bytes, hist: seq<Taken>, live: nat)
    requires KeyInv(env, cfg, vm, name, key, hist, live) && name != other && NoColon(name) && NoColon(other)
    requires Within(vm, other, vm') && Added(env.store, vm.logs, added, vm'.logs)
    requires forall sk :: sk in added ==> exists k :: sk == StorageKey(other, k)
    ensures KeyInv(env, cfg, vm', name, key, hist, live)
  {
    var sk := StorageKey(name, key);
    hide Added, RecordsMatch, Stored, NoColon, CollInv, VectorsMatch, LiveTail;
    StoredOther(env, vm.logs, added, vm'.logs, sk);
    if sk in added {
      var k :| sk == StorageKey(other, k);
      StorageKeyInjective(name, key, other, k);
    }
    RecordsSame(env, name, vm.logs, vm'.logs, key, StoredOf(hist));
  }

  // ---------- runs ----------

  ghost predicate PlainNames(cfgs: map<Bytes, Config>) {
    forall name :: name in cfgs ==> NoColon(name)
  }

  /** A step on the collection itself. */
  lemma OwnStep(env: Setup, cfgs: map<Bytes, Config>, vm: Vm, op: Call, events: seq<Event>, vm': Vm, key: Bytes,
                past: seq<Event>)
    requires op.name in cfgs && CallStep(env, cfgs, vm, op, events, vm')
    requires KeyInv(env, cfgs[op.name], vm, op.name, key, History(past, op.name, key), Live(past, op.name, key))
    ensures KeyInv(env, cfgs[op.name], vm', op.name, key, History(past + events, op.name, key),
                   Live(past + events, op.name, key))
  {
    hide KeyInv, OneStep, ManyStep, DropStep, History, Live;
    match op
    case One(name, put) =>
      var id :| OneStep(env, cfgs[name], vm, name, put, id, events, vm');
      OneKeeps(env, cfgs[name], vm, name, put, id, events, vm', key, past);
    case Many(name, puts) =>
      var items, ids, c1 :| ManyStep(env, cfgs[name], vm, name, puts, items, ids, c1, events, vm');
      ManyKeeps(env, cfgs[name], vm, name, puts, items, ids, c1, events, vm', key, past);
    case Delete(name, deleted) =>
      DropKeeps(env, cfgs[name], vm, name, deleted, events, vm', key, past);
  }

  lemma BatchNamed(env: Setup, name: Bytes, puts: seq<Put>, ids: seq<nat>)
    requires |ids| == |puts|
    ensures forall sk :: sk in BatchPayloads(env, name, puts, ids) ==> exists k :: sk == StorageKey(name, k)
  {
    hide BatchPayloads, StorageKey;
    forall sk | sk in BatchPayloads(env, name, puts, ids) ensures exists k :: sk == StorageKey(name, k) {
      BatchMember(env, name, puts, ids, sk);
    }
  }

  /** What a step adds to the log is filed under its collection. */
  lemma StepAdds(env: Setup, cfgs: map<Bytes, Config>, vm: Vm, op: Call, events: seq<Event>, vm': Vm)
      returns (added: map<Bytes, Bytes>)
    requires CallStep(env, cfgs, vm, op, events, vm') && |vm.logs| == PARTITIONS
    ensures Within(vm, op.name, vm') && Added(env.store, vm.logs, added, vm'.logs)
    ensures forall sk :: sk in added ==> exists k :: sk == StorageKey(op.name, k)
  {
    hide Added, AppendStepAs, BatchStep, DeleteKeyStep, EntryCodec.Fits, Good, PayloadOf, StorageKey, BatchPayloads,
        BatchFits, BatchEvents, LogTakes, Refused;
    added := map[];
    AddedNone(env.store, vm.logs);
    match op
    case One(name, put) =>
      var id :| OneStep(env, cfgs[name], vm, name, put, id, events, vm');
      if !Refused(cfgs[name], vm.colls[name], put.block, id) && LogTakes(env, name, put.key, put.block, id) {
        added := map[StorageKey(name, put.key) := PayloadOf(env, put.key, put.block, id).value];
      }
    case Many(name, puts) =>
      var items, ids, c1 :| ManyStep(env, cfgs[name], vm, name, puts, items, ids, c1, events, vm');
      assert |ids| == |puts| by { FitsCount(env, name, puts, ids); }
      BatchNamed(env, name, puts, ids);
      added := BatchPayloads(env, name, puts, ids);
    case Delete(name, deleted) =>
  }

  lemma FitsCount(env: Setup, name: Bytes, puts: seq<Put>, ids: seq<nat>)
    requires BatchFits(env, name, puts, ids)
    ensures |ids| == |puts|
  {
  }

  ghost predicate AllOf(events: seq<Event>, name: Bytes) {
    forall i :: 0 <= i < |events| ==> events[i].name == name
  }

  lemma StepEvents(env: Setup, cfgs: map<Bytes, Config>, vm: Vm, op: Call, events: seq<Event>, vm': Vm)
    requires CallStep(env, cfgs, vm, op, events, vm')
    ensures op.name in cfgs && AllOf(events, op.name)
  {
    hide Added, AppendStepAs, BatchStep, DeleteKeyStep, Storable, PayloadOf, BatchPayloads, Flags, LogTakes, Refused;
  }

  lemma {:induction false} OtherHistory(past: seq<Event>, events: seq<Event>, other: Bytes, name: Bytes, key: Bytes)
    requires AllOf(events, other) && other != name
    ensures History(past + events, name, key) == History(past, name, key)
    ensures Live(past + events, name, key) == Live(past, name, key)
    decreases |events|
  {
    if events == [] {
      assert past + events == past;
    } else {
      hide History, Live;
      var front, e := events[..|events| - 1], events[|events| - 1];
      OtherHistory(past, front, other, name, key);
      SplitLast(events);
      assert past + events == past + front + [e];
      HistorySnoc(past + front, e, name, key);
      assert History(past, name, key) + [] == History(past, name, key);
    }
  }

  lemma NewInv(env: Setup, cfgs: map<Bytes, Config>, name: Bytes, key: Bytes)
    requires name in cfgs
    ensures KeyInv(env, cfgs[name], Initial(cfgs), name, key, History([], name, key), Live([], name, key))
  {
    assert Initial(cfgs).colls[name] == NEW;
  }

  lemma LogCount(env: Setup, cfg: Config, vm: Vm, name: Bytes, key: Bytes, hist: seq<Taken>, live: nat)
    requires KeyInv(env, cfg, vm, name, key, hist, live)
    ensures |vm.logs| == PARTITIONS
  {
  }

  /** Every run, whatever the outcome of its calls, keeps collection and log in step with the history
      of each key. */
  lemma {:induction false} RunKeeps(env: Setup, cfgs: map<Bytes, Config>, ops: seq<Call>, events: seq<Event>, vm: Vm,
                                    name: Bytes, key: Bytes)
    requires PlainNames(cfgs) && CallRuns(env, cfgs, ops, events, vm) && name in cfgs
    ensures KeyInv(env, cfgs[name], vm, name, key, History(events, name, key), Live(events, name, key))
  {
    hide KeyInv, CallStep, Initial, NoColon, History, Live, AllOf;
    if ops == [] {
      NewInv(env, cfgs, name, key);
    } else {
      var front, last := ops[..|ops| - 1], ops[|ops| - 1];
      var vm0, past, more :| CallRuns(env, cfgs, front, past, vm0) && CallStep(env, cfgs, vm0, last, more, vm)
          && events == past + more;
      RunKeeps(env, cfgs, front, past, vm0, name, key);
      StepEvents(env, cfgs, vm0, last, more, vm);
      if last.name == name {
        OwnStep(env, cfgs, vm0, last, more, vm, key, past);
      } else {
        LogCount(env, cfgs[name], vm0, name, key, History(past, name, key), Live(past, name, key));
        var added := StepAdds(env, cfgs, vm0, last, more, vm);
        OtherKeeps(env, cfgs[name], vm0, last.name, added, vm, name, key, History(past, name, key),
                   Live(past, name, key));
        OtherHistory(past, more, last.name, name, key);
      }
    }
  }
}
