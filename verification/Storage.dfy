/** The sharded append log: sixteen buckets, each a file of records and an offset index. */
module Storage {
  import opened Wrappers
  import opened Bytes
  import opened RecordLog
  import opened BucketProtocol

  const PARTITIONS := 16

  type Bucket = x: nat | x < PARTITIONS

  /** The key hash and the compressor; any functions. */
  datatype Env = Env(hash: Bytes -> Bucket, compress: Bytes -> Bytes, decompress: Bytes -> Option<Bytes>)

  ghost predicate Lossless(env: Env) {
    forall p :: env.decompress(env.compress(p)) == Some(p)
  }

  // ---------- what a log holds for a key ----------

  /** Payloads recorded for a key, in order. */
  function Payloads(log: seq<Rec>, key: Bytes): seq<Bytes> {
    if log == [] then []
    else
      var front := Payloads(log[..|log| - 1], key);
      if log[|log| - 1].key == key then front + [log[|log| - 1].payload] else front
  }

  /** A record that is written and read back whole. */
  predicate Good(r: Rec) {
    Fits(r) && |r.key| + 4 < LIMIT32
  }

  lemma PayloadsSnoc(log: seq<Rec>, r: Rec, key: Bytes)
    ensures Payloads(log + [r], key) == if r.key == key then Payloads(log, key) + [r.payload] else Payloads(log, key)
  {
    assert (log + [r])[..|log|] == log;
  }

  /** The i-th indexed offset of a key is the start of its i-th record. */
  lemma {:induction false} OffsetOfPayload(log: seq<Rec>, key: Bytes, i: nat) returns (p: nat)
    requires i < |Payloads(log, key)|
    ensures |Offsets(Entries(log), key)| == |Payloads(log, key)|
    ensures p < |log| && log[p].key == key && log[p].payload == Payloads(log, key)[i]
    ensures Offsets(Entries(log), key)[i] == Start(log, p)
    decreases |log|
  {
    var front, r := log[..|log| - 1], log[|log| - 1];
    assert log == front + [r];
    OffsetCount(log, key);
    LogGrows(front, r);
    OffsetsSnoc(Entries(front), Entry(r.key, |Flat(front)|), key);
    OffsetCount(front, key);
    if i < |Payloads(front, key)| {
      p := OffsetOfPayload(front, key, i);
      assert front[..p] == log[..p];
    } else {
      p := |front|;
      assert log[..p] == front;
    }
  }

  lemma {:induction false} OffsetCount(log: seq<Rec>, key: Bytes)
    ensures |Offsets(Entries(log), key)| == |Payloads(log, key)|
  {
    if log != [] {
      var front, r := log[..|log| - 1], log[|log| - 1];
      assert log == front + [r];
      OffsetCount(front, key);
      LogGrows(front, r);
      OffsetsSnoc(Entries(front), Entry(r.key, |Flat(front)|), key);
    } else {
      assert Entries(log) == [];
    }
  }

  /** Reading at the i-th indexed offset of a key gives its i-th payload, cut to the stored length. */
  lemma ReadIndexed(log: seq<Rec>, key: Bytes, i: nat)
    requires i < |Payloads(log, key)| && |key| + 4 < LIMIT32
    ensures i < |Lookup(IndexOf(Entries(log)), key)|
    ensures var payload := Payloads(log, key)[i];
      WrappedParse(Flat(log), Lookup(IndexOf(Entries(log)), key)[i]) == Some(payload[..|payload| % LIMIT32])
  {
    hide IndexOf, Entries, Flat, Enc, WrappedParse;
    LookupOffsets(Entries(log), key);
    var p := OffsetOfPayload(log, key, i);
    var post := FlatSplit(log, p);
    ReadWritten(Flat(log[..p]), log[p], post);
  }

  /** What reading the i-th record of a key gives, whatever the log holds. */
  function ReadAt(env: Env, log: seq<Rec>, key: Bytes, i: nat): Option<Bytes> {
    var offsets := Lookup(IndexOf(Entries(log)), key);
    if i >= |offsets| then None else Unpack(WrappedParse(Flat(log), offsets[i]), env.decompress)
  }

  lemma ReadCount(log: seq<Rec>, key: Bytes)
    ensures |Lookup(IndexOf(Entries(log)), key)| == |Payloads(log, key)|
    ensures key in IndexOf(Entries(log)) <==> Payloads(log, key) != []
  {
    hide IndexOf, Entries;
    LookupOffsets(Entries(log), key);
    OffsetCount(log, key);
  }

  /** A payload below 2^32 bytes under a short key is read back whole; there is none beyond the last. */
  lemma ReadBack(env: Env, log: seq<Rec>, key: Bytes, i: nat)
    ensures i >= |Payloads(log, key)| ==> ReadAt(env, log, key, i) == None
    ensures i < |Payloads(log, key)| && Good(Rec(key, Payloads(log, key)[i])) ==>
              ReadAt(env, log, key, i) == env.decompress(Payloads(log, key)[i])
  {
    hide Entries, IndexOf, WrappedParse;
    ReadCount(log, key);
    if i < |Payloads(log, key)| && Good(Rec(key, Payloads(log, key)[i])) {
      ReadIndexed(log, key, i);
      var payload := Payloads(log, key)[i];
      assert payload[..|payload|] == payload;
    }
  }

  /** The first `n` records of a key, if all can be read. */
  function ReadFirst(env: Env, log: seq<Rec>, key: Bytes, n: nat): Option<seq<Bytes>> {
    if n == 0 then Some([])
    else match ReadFirst(env, log, key, n - 1)
      case None => None
      case Some(front) =>
        match ReadAt(env, log, key, n - 1)
        case None => None
        case Some(last) => Some(front + [last])
  }

  lemma {:induction false} ReadFails(env: Env, log: seq<Rec>, key: Bytes, i: nat, n: nat)
    requires i < n && ReadAt(env, log, key, i).None?
    ensures ReadFirst(env, log, key, n).None?
  {
    hide ReadAt;
    if i < n - 1 { ReadFails(env, log, key, i, n - 1); }
  }

  /** The payloads of a key are `values`, compressed, and can be read back. */
  ghost predicate Packs(env: Env, log: seq<Rec>, key: Bytes, values: seq<Bytes>) {
    && |Payloads(log, key)| == |values|
    && forall i :: 0 <= i < |values| ==>
        Payloads(log, key)[i] == env.compress(values[i]) && Good(Rec(key, env.compress(values[i])))
  }

  /** With a lossless compressor all values of a key come back in order. */
  lemma {:induction false} AllReadBack(env: Env, log: seq<Rec>, key: Bytes, values: seq<Bytes>, n: nat)
    requires Lossless(env) && Packs(env, log, key, values) && n <= |values|
    ensures ReadFirst(env, log, key, n) == Some(values[..n])
  {
    hide ReadAt, Payloads, Good;
    if n > 0 {
      AllReadBack(env, log, key, values, n - 1);
      ReadBack(env, log, key, n - 1);
      assert env.decompress(env.compress(values[n - 1])) == Some(values[n - 1]);
      assert values[..n] == values[..n - 1] + [values[n - 1]];
    }
  }

  // ---------- the manager ----------

  ghost predicate Holds(files: seq<Bytes>, indexes: seq<Index>, logs: seq<seq<Rec>>) {
    && |files| == |indexes| == |logs| == PARTITIONS
    && forall b :: 0 <= b < PARTITIONS ==> files[b] == Flat(logs[b]) && indexes[b] == IndexOf(Entries(logs[b]))
  }

  /** What all buckets hold for a key. */
  function Stored(env: Env, logs: seq<seq<Rec>>, key: Bytes): seq<Bytes>
    requires |logs| == PARTITIONS
  {
    Payloads(logs[env.hash(key)], key)
  }

  /** Every key keeps what it had and gains what `added` says. */
  ghost predicate Added(env: Env, logs: seq<seq<Rec>>, added: map<Bytes, Bytes>, logs': seq<seq<Rec>>) {
    && |logs| == |logs'| == PARTITIONS
    && (forall key :: Stored(env, logs', key) == Stored(env, logs, key) + (if key in added then [added[key]] else []))
    && (forall b, i :: 0 <= b < PARTITIONS && 0 <= i < |logs'[b]| ==>
          logs'[b][i] in logs[b] || (logs'[b][i].key in added && logs'[b][i].payload == added[logs'[b][i].key]))
  }

  lemma AddedOne(env: Env, logs: seq<seq<Rec>>, key: Bytes, payload: Bytes)
    requires |logs| == PARTITIONS
    ensures Added(env, logs, map[key := payload], logs[env.hash(key) := logs[env.hash(key)] + [Rec(key, payload)]])
  {
    var b := env.hash(key);
    var r := Rec(key, payload);
    var logs' := logs[b := logs[b] + [r]];
    forall k ensures Stored(env, logs', k) == Stored(env, logs, k) + (if k == key then [payload] else []) {
      PayloadsSnoc(logs[b], r, k);
    }
  }

  lemma AddedNone(env: Env, logs: seq<seq<Rec>>)
    requires |logs| == PARTITIONS
    ensures Added(env, logs, map[], logs)
  {
  }

  lemma AppendHolds(files: seq<Bytes>, indexes: seq<Index>, logs: seq<seq<Rec>>, b: Bucket, r: Rec)
    requires Holds(files, indexes, logs)
    ensures Holds(files[b := files[b] + Enc(r)], indexes[b := AddOffset(indexes[b], r.key, |files[b]|)],
                  logs[b := logs[b] + [r]])
  {
    LogGrows(logs[b], r);
    var es, e := Entries(logs[b]), Entry(r.key, |files[b]|);
    assert (es + [e])[..|es|] == es;
    assert IndexOf(es + [e]) == AddOffset(IndexOf(es), e.key, e.offset);
  }

  const MAX_KEY := 1024
  const MAX_INT32 := 0x7FFF_FFFF

  class Manager {
    const env: Env
    var files: seq<Bytes>
    var indexes: seq<Index>
    ghost var logs: seq<seq<Rec>>

    constructor (env: Env)
      ensures this.env == env && Valid() && logs == seq(PARTITIONS, _ => [])
      ensures |files| == 16
    {
      this.env := env;
      files, indexes, logs := seq(PARTITIONS, _ => []), seq(PARTITIONS, _ => map[]), seq(PARTITIONS, _ => []);
      new;
      assert Entries([]) == [];
    }

    ghost predicate Valid()
      reads this
    {
      Holds(files, indexes, logs)
    }

    /** Append. */
    method Append(key: Bytes, payload: Bytes) returns (ok: bool)
      requires Valid()
      modifies `files, `indexes, `logs
      ensures Valid()
      ensures ok <==> 1 <= |key| <= 1024 && |env.compress(payload)| < 0x7FFF_FFFF
      ensures ok ==> logs == old(logs)[env.hash(key) := old(logs)[env.hash(key)] + [Rec(key, env.compress(payload))]]
      ensures !ok ==> logs == old(logs) && files == old(files) && indexes == old(indexes)
    {
      if |key| == 0 || |key| > MAX_KEY { return false; }
      var b := env.hash(key);
      var offset := |files[b]|;
      var buf := BigEndian(|key|, 4) + key;
      var compressed := env.compress(payload);
      if |compressed| >= MAX_INT32 { return false; }
      buf := buf + BigEndian(|compressed|, 4) + compressed;
      ghost var r := Rec(key, compressed);
      assert buf == Enc(r);
      AppendHolds(files, indexes, logs, b, r);
      files := files[b := files[b] + buf];
      indexes := indexes[b := AddOffset(indexes[b], key, offset)];
      logs := logs[b := logs[b] + [r]];
      return true;
    }

    /** The writing loop of BatchAppend for one bucket. */
    method WriteItems(file0: Bytes, ghost log: seq<Rec>, items: seq<Rec>)
        returns (file: Bytes, newEntries: map<Bytes, nat>)
      requires file0 == Flat(log)
      ensures file == Flat(log + items) && newEntries == NewEntries(log, items, |items|)
    {
      var offset := |file0|;
      file, newEntries := file0, map[];
      assert log + items[..0] == log;
      for i := 0 to |items|
        invariant file == Flat(log + items[..i]) && offset == |file|
        invariant newEntries == NewEntries(log, items, i)
      {
        hide Flat, Enc;
        var r := items[i];
        LogGrows(log + items[..i], r);
        assert log + items[..i + 1] == (log + items[..i]) + [r];
        var buf := Enc(r);
        newEntries := newEntries[r.key := offset];
        file := file + buf;
        offset := offset + |buf|;
      }
      assert items[..|items|] == items;
    }

    /** Write one bucket's share of a batch, then index it: the two phases of BatchAppend. */
    method WriteBucket(b: Bucket, items: seq<Rec>)
      requires Valid() && DistinctKeys(items)
      modifies `files, `indexes, `logs
      ensures Valid() && logs == old(logs)[b := old(logs)[b] + items]
    {
      hide Flat, IndexOf, Entries, NewEntries, AddMany, DistinctKeys;
      var file, newEntries := WriteItems(files[b], logs[b], items);
      var index := IndexAll(indexes[b], newEntries);
      BatchIndex(logs[b], items, indexes[b], index);
      files, indexes, logs := files[b := file], indexes[b := index], logs[b := logs[b] + items];
    }

    /** Add the new offsets to the index, in any order. */
    method IndexAll(index: Index, entries: map<Bytes, nat>) returns (r: Index)
      ensures r == AddMany(index, entries)
    {
      hide AddMany, AddOffset, Part;
      r := index;
      var rest := entries.Keys;
      PartNone(entries);
      AddManyNone(index);
      while rest != {}
        invariant rest <= entries.Keys && r == AddMany(index, Part(entries, entries.Keys - rest))
        decreases rest
      {
        var k :| k in rest;
        ghost var done := Part(entries, entries.Keys - rest);
        PartNext(entries, rest, k);
        AddManyNext(index, done, k, entries[k]);
        r := AddOffset(r, k, entries[k]);
        rest := rest - {k};
      }
      PartAll(entries);
    }

    /** Group a batch by bucket, in any order of the map. */
    method Group(entries: map<Bytes, Bytes>) returns (groups: seq<seq<Rec>>)
      ensures Grouped(env, entries, groups)
    {
      hide Grouped, Part;
      groups := seq(PARTITIONS, _ => []);
      var rest := entries.Keys;
      PartNone(entries);
      GroupedNone(env, groups);
      while rest != {}
        invariant rest <= entries.Keys && |groups| == PARTITIONS
        invariant Grouped(env, Part(entries, entries.Keys - rest), groups)
        decreases rest
      {
        var k :| k in rest;
        ghost var done := Part(entries, entries.Keys - rest);
        PartNext(entries, rest, k);
        GroupedNext(env, done, groups, k, entries[k]);
        var b := env.hash(k);
        groups := groups[b := groups[b] + [Rec(k, env.compress(entries[k]))]];
        rest := rest - {k};
      }
      PartAll(entries);
    }

    /** BatchAppend: every entry becomes one record of its bucket, whatever the order. */
    method BatchAppend(entries: map<Bytes, Bytes>)
      requires Valid()
      modifies `files, `indexes, `logs
      ensures Valid()
      ensures |old(logs)| == PARTITIONS && Added(env, old(logs), Compressed(env, entries), logs)
    {
      var groups := Group(entries);
      ghost var start := logs;
      for b := 0 to PARTITIONS
        invariant Valid() && |logs| == PARTITIONS
        invariant forall c :: 0 <= c < PARTITIONS ==> logs[c] == if c < b then start[c] + groups[c] else start[c]
      {
        assert DistinctKeys(groups[b]);
        WriteBucket(b, groups[b]);
      }
      AddedGroups(env, start, entries, groups, logs);
    }

    /** Get. */
    method Get(key: Bytes, i: nat) returns (r: Option<Bytes>)
      requires Valid()
      ensures r == ReadAt(env, logs[env.hash(key)], key, i)
    {
      hide IndexOf, Entries, Flat, WrappedParse;
      var b := env.hash(key);
      if key !in indexes[b] || i >= |indexes[b][key]| { return None; }
      var offset := indexes[b][key][i];
      r := ReadRecordAt(files[b], offset, env.decompress);
    }

    /** GetLength. */
    method GetLength(key: Bytes) returns (n: nat)
      requires Valid()
      ensures n == |Stored(env, logs, key)|
    {
      var b := env.hash(key);
      ReadCount(logs[b], key);
      return |Lookup(indexes[b], key)|;
    }

    /** GetAllValues: every value of the key in order, or an error if one cannot be read. */
    method GetAllValues(key: Bytes) returns (r: Option<seq<Bytes>>)
      requires Valid()
      ensures var n := |Stored(env, logs, key)|;
        r == if n == 0 then None else ReadFirst(env, logs[env.hash(key)], key, n)
    {
      hide Stored, ReadAt;
      var n := GetLength(key);
      if n == 0 { return None; }
      var values: seq<Bytes> := [];
      for i := 0 to n
        invariant ReadFirst(env, logs[env.hash(key)], key, i) == Some(values)
      {
        var v := Get(key, i);
        if v.None? {
          ReadFails(env, logs[env.hash(key)], key, i, n);
          return None;
        }
        values := values + [v.value];
      }
      return Some(values);
    }
  }

  /** One more offset for each of the keys. */
  function AddMany(index: Index, entries: map<Bytes, nat>): Index {
    index + map k | k in entries :: Lookup(index, k) + [entries[k]]
  }

  function Part<T>(m: map<Bytes, T>, keys: set<Bytes>): map<Bytes, T> {
    map k | k in m && k in keys :: m[k]
  }

  lemma PartNone<T>(m: map<Bytes, T>)
    ensures Part(m, m.Keys - m.Keys) == map[]
  {
  }

  lemma PartNext<T>(m: map<Bytes, T>, rest: set<Bytes>, k: Bytes)
    requires k in rest && rest <= m.Keys
    ensures k !in Part(m, m.Keys - rest) && Part(m, m.Keys - (rest - {k})) == Part(m, m.Keys - rest)[k := m[k]]
  {
  }

  lemma PartAll<T>(m: map<Bytes, T>)
    ensures Part(m, m.Keys - {}) == m
  {
  }

  function Compressed(env: Env, entries: map<Bytes, Bytes>): map<Bytes, Bytes> {
    map k | k in entries :: env.compress(entries[k])
  }

  /** Every grouped record is an entry. */
  ghost predicate GroupSound(env: Env, entries: map<Bytes, Bytes>, group: seq<Rec>) {
    forall i :: 0 <= i < |group| ==> group[i].key in entries && group[i].payload == env.compress(entries[group[i].key])
  }

  /** Every entry is one record of the bucket its key hashes to. */
  ghost predicate GroupComplete(env: Env, entries: map<Bytes, Bytes>, groups: seq<seq<Rec>>)
    requires |groups| == PARTITIONS
  {
    forall k :: Payloads(groups[env.hash(k)], k) == if k in entries then [env.compress(entries[k])] else []
  }

  ghost predicate Grouped(env: Env, entries: map<Bytes, Bytes>, groups: seq<seq<Rec>>) {
    && |groups| == PARTITIONS
    && (forall b :: 0 <= b < PARTITIONS ==> DistinctKeys(groups[b]) && GroupSound(env, entries, groups[b]))
    && GroupComplete(env, entries, groups)
  }

  lemma GroupedNone(env: Env, groups: seq<seq<Rec>>)
    requires groups == seq(PARTITIONS, _ => [])
    ensures Grouped(env, map[], groups)
  {
  }

  lemma CompleteNext(env: Env, entries: map<Bytes, Bytes>, groups: seq<seq<Rec>>, key: Bytes, payload: Bytes)
    requires |groups| == PARTITIONS && GroupComplete(env, entries, groups) && key !in entries
    ensures var b := env.hash(key);
      GroupComplete(env, entries[key := payload], groups[b := groups[b] + [Rec(key, env.compress(payload))]])
  {
    hide Payloads;
    var b, r := env.hash(key), Rec(key, env.compress(payload));
    var groups', entries' := groups[b := groups[b] + [r]], entries[key := payload];
    forall k ensures Payloads(groups'[env.hash(k)], k) == if k in entries' then [env.compress(entries'[k])] else [] {
      PayloadsSnoc(groups[b], r, k);
      assert Payloads(groups[env.hash(k)], k) == if k in entries then [env.compress(entries[k])] else [];
    }
  }

  lemma GroupNext(env: Env, entries: map<Bytes, Bytes>, group: seq<Rec>, key: Bytes, payload: Bytes)
    requires DistinctKeys(group) && GroupSound(env, entries, group) && key !in entries
    ensures GroupSound(env, entries[key := payload], group)
    ensures var group' := group + [Rec(key, env.compress(payload))];
      DistinctKeys(group') && GroupSound(env, entries[key := payload], group')
  {
  }

  lemma GroupedNext(env: Env, entries: map<Bytes, Bytes>, groups: seq<seq<Rec>>, key: Bytes, payload: Bytes)
    requires Grouped(env, entries, groups) && key !in entries
    ensures var b := env.hash(key);
      Grouped(env, entries[key := payload], groups[b := groups[b] + [Rec(key, env.compress(payload))]])
  {
    hide DistinctKeys, GroupSound, GroupComplete;
    CompleteNext(env, entries, groups, key, payload);
    var b := env.hash(key);
    var groups' := groups[b := groups[b] + [Rec(key, env.compress(payload))]];
    forall c | 0 <= c < PARTITIONS
        ensures DistinctKeys(groups'[c]) && GroupSound(env, entries[key := payload], groups'[c]) {
      GroupNext(env, entries, groups[c], key, payload);
    }
  }

  lemma SplitRecs(a: seq<Rec>, b: seq<Rec>)
    requires b != []
    ensures b == b[..|b| - 1] + [b[|b| - 1]] && a + b == a + b[..|b| - 1] + [b[|b| - 1]]
  {
  }

  lemma {:induction false} PayloadsConcat(a: seq<Rec>, b: seq<Rec>, key: Bytes)
    ensures Payloads(a + b, key) == Payloads(a, key) + Payloads(b, key)
  {
    if b == [] {
      assert a + b == a;
    } else {
      hide Payloads;
      var front, r := b[..|b| - 1], b[|b| - 1];
      PayloadsConcat(a, front, key);
      SplitRecs(a, b);
      PayloadsSnoc(a + front, r, key);
      PayloadsSnoc(front, r, key);
    }
  }

  lemma AddedGroups(env: Env, logs: seq<seq<Rec>>, entries: map<Bytes, Bytes>, groups: seq<seq<Rec>>,
                    logs': seq<seq<Rec>>)
    requires Grouped(env, entries, groups) && |logs| == |logs'| == PARTITIONS
    requires forall b :: 0 <= b < PARTITIONS ==> logs'[b] == logs[b] + groups[b]
    ensures Added(env, logs, Compressed(env, entries), logs')
  {
    hide Payloads, DistinctKeys;
    forall k ensures Stored(env, logs', k)
        == Stored(env, logs, k) + (if k in entries then [env.compress(entries[k])] else []) {
      PayloadsConcat(logs[env.hash(k)], groups[env.hash(k)], k);
      assert Payloads(groups[env.hash(k)], k) == if k in entries then [env.compress(entries[k])] else [];
    }
    forall b, i | 0 <= b < PARTITIONS && 0 <= i < |logs'[b]|
      ensures logs'[b][i] in logs[b]
              || (logs'[b][i].key in entries && logs'[b][i].payload == env.compress(entries[logs'[b][i].key]))
    {
      if i >= |logs[b]| { assert GroupSound(env, entries, groups[b]) && logs'[b][i] == groups[b][i - |logs[b]|]; }
    }
  }

  function NewEntries(log: seq<Rec>, items: seq<Rec>, n: nat): map<Bytes, nat>
    requires n <= |items|
  {
    if n == 0 then map[] else NewEntries(log, items, n - 1)[items[n - 1].key := |Flat(log + items[..n - 1])|]
  }

  lemma {:induction false} NewKeys(log: seq<Rec>, items: seq<Rec>, n: nat, j: nat)
    requires DistinctKeys(items) && n <= j < |items|
    ensures items[j].key !in NewEntries(log, items, n)
    decreases n
  {
    if n > 0 { NewKeys(log, items, n - 1, j); }
  }

  lemma IndexSnoc(log: seq<Rec>, r: Rec)
    ensures IndexOf(Entries(log + [r])) == AddOffset(IndexOf(Entries(log)), r.key, |Flat(log)|)
  {
    LogGrows(log, r);
    var es, e := Entries(log), Entry(r.key, |Flat(log)|);
    assert (es + [e])[..|es|] == es;
  }

  lemma {:induction false} BatchIndexPart(log: seq<Rec>, items: seq<Rec>, n: nat)
    requires DistinctKeys(items) && n <= |items|
    ensures IndexOf(Entries(log + items[..n])) == AddMany(IndexOf(Entries(log)), NewEntries(log, items, n))
  {
    hide AddMany, AddOffset, IndexOf, Entries, Flat, DistinctKeys;
    var base := IndexOf(Entries(log));
    if n == 0 {
      assert log + items[..0] == log;
      AddManyNone(base);
    } else {
      BatchIndexPart(log, items, n - 1);
      var r, front := items[n - 1], log + items[..n - 1];
      assert log + items[..n] == front + [r];
      IndexSnoc(front, r);
      NewKeys(log, items, n - 1, n - 1);
      AddManyNext(base, NewEntries(log, items, n - 1), r.key, |Flat(front)|);
    }
  }

  lemma AddManyNone(index: Index)
    ensures AddMany(index, map[]) == index
  {
  }

  lemma AddManyNext(index: Index, entries: map<Bytes, nat>, key: Bytes, offset: nat)
    requires key !in entries
    ensures AddMany(index, entries[key := offset]) == AddOffset(AddMany(index, entries), key, offset)
  {
    var a, b := AddMany(index, entries[key := offset]), AddOffset(AddMany(index, entries), key, offset);
    assert a.Keys == b.Keys;
    forall k | k in a ensures a[k] == b[k] {}
  }

  /** Distinct keys make the order of the index update irrelevant. */
  lemma BatchIndex(log: seq<Rec>, items: seq<Rec>, index: Index, index': Index)
    requires DistinctKeys(items) && index == IndexOf(Entries(log))
    requires index' == AddMany(index, NewEntries(log, items, |items|))
    ensures index' == IndexOf(Entries(log + items))
  {
    BatchIndexPart(log, items, |items|);
    assert items[..|items|] == items;
  }

  /** Whatever sequence of calls made the files, a full rebuild gives the index in memory. */
  lemma RebuildMatches(files: seq<Bytes>, indexes: seq<Index>, logs: seq<seq<Rec>>, b: Bucket)
    requires Holds(files, indexes, logs) && AllFit(logs[b])
    ensures IndexOf(Scan(files[b], 0)) == indexes[b]
  {
    ScanFlat(logs[b]);
  }
}
