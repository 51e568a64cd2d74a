/** One bucket shared by concurrent Append and BatchAppend calls. The file is written under the
    write lock; Append updates the offset index before it releases the lock, BatchAppend after. */
module BucketProtocol {
  import opened Wrappers
  import opened Bytes
  import opened RecordLog

  datatype Thread =
    | Idle
    | Writing(batch: bool, items: seq<Rec>, offset: nat, pending: seq<Entry>)
    | Indexing(batch: bool, pending: seq<Entry>)
  {
    predicate HoldsLock() {
      Writing? || (Indexing? && !batch)
    }

    function Pending(): seq<Entry> {
      if Idle? then [] else pending
    }
  }

  /** `log` is the history of records written. */
  datatype State = State(file: Bytes, log: seq<Rec>, index: Index, lock: Option<nat>, threads: seq<Thread>)

  datatype Action =
    | StartAppend(t: nat, rec: Rec)
    | StartBatch(t: nat, items: seq<Rec>)
    | WriteRecord(t: nat)
    | FinishWriting(t: nat)
    | UpdateIndex(t: nat)

  predicate DistinctKeys(items: seq<Rec>) {
    forall i, j :: 0 <= i < j < |items| ==> items[i].key != items[j].key
  }

  /** The offsets recorded for one key, in order. */
  function Offsets(es: seq<Entry>, key: Bytes): seq<nat> {
    if es == [] then []
    else
      var front := Offsets(es[..|es| - 1], key);
      if es[|es| - 1].key == key then front + [es[|es| - 1].offset] else front
  }

  /** The index after the entries have been appended; their order matters only within a key. */
  ghost predicate Indexed(index: Index, es: seq<Entry>, index': Index) {
    && (forall k :: Lookup(index', k) == Lookup(index, k) + Offsets(es, k))
    && (forall k :: k in index' <==> Lookup(index', k) != [])
  }

  predicate AllIdle(threads: seq<Thread>) {
    forall i :: 0 <= i < |threads| ==> threads[i].Idle?
  }

  /** An idle thread takes the lock and seeks to the end. In a serial run all threads are idle. */
  ghost predicate Started(serial: bool, s: State, t: nat, batch: bool, items: seq<Rec>, s': State) {
    && t < |s.threads| && s.threads[t].Idle? && s.lock == None && AllFit(items) && DistinctKeys(items)
    && (serial ==> AllIdle(s.threads))
    && s' == s.(lock := Some(t), threads := s.threads[t := Writing(batch, items, |s.file|, [])])
  }

  ghost predicate Step(serial: bool, s: State, a: Action, s': State) {
    && a.t < |s.threads|
    && var th := s.threads[a.t];
      match a
      case StartAppend(t, rec) => Started(serial, s, t, false, [rec], s')
      case StartBatch(t, items) => Started(serial, s, t, true, items, s')
      case WriteRecord(t) =>
        && th.Writing? && th.items != []
        && var r := th.items[0];
          s' == s.(file := s.file + Enc(r), log := s.log + [r],
                   threads := s.threads[t := Writing(th.batch, th.items[1..], th.offset + |Enc(r)|,
                                                     th.pending + [Entry(r.key, th.offset)])])
      case FinishWriting(t) =>
        && th.Writing? && th.items == []
        && s' == s.(lock := if th.batch then None else s.lock,
                    threads := s.threads[t := Indexing(th.batch, th.pending)])
      case UpdateIndex(t) =>
        && th.Indexing? && Indexed(s.index, th.pending, s'.index)
        && s' == s.(index := s'.index, lock := if th.batch then s.lock else None, threads := s.threads[t := Idle])
  }

  function Initial(n: nat): State {
    State([], [], map[], None, seq(n, _ => Idle))
  }

  ghost predicate Runs(serial: bool, n: nat, actions: seq<Action>, s: State) {
    if actions == [] then s == Initial(n)
    else
      var front, last := actions[..|actions| - 1], actions[|actions| - 1];
      exists s0 :: Runs(serial, n, front, s0) && Step(serial, s0, last, s)
  }

  // ---------- the lock ----------

  ghost predicate LockInv(s: State) {
    && (forall t :: 0 <= t < |s.threads| ==> (s.threads[t].HoldsLock() <==> s.lock == Some(t)))
    && (forall t :: 0 <= t < |s.threads| && s.threads[t].Writing? ==>
          s.threads[t].offset == |s.file| && AllFit(s.threads[t].items))
    && s.file == Flat(s.log) && AllFit(s.log)
    && (forall k :: k in s.index ==> Lookup(s.index, k) != [])
  }

  lemma LogGrows(log: seq<Rec>, r: Rec)
    ensures Flat(log + [r]) == Flat(log) + Enc(r)
    ensures Entries(log + [r]) == Entries(log) + [Entry(r.key, |Flat(log)|)]
  {
    var all := log + [r];
    assert all[..|log|] == log;
    forall i | 0 <= i < |all| ensures Entries(all)[i] == (Entries(log) + [Entry(r.key, |Flat(log)|)])[i] {
      if i < |log| { assert all[..i] == log[..i]; }
    }
  }

  lemma LockStep(serial: bool, s: State, a: Action, s': State)
    requires LockInv(s) && Step(serial, s, a, s')
    ensures LockInv(s')
  {
    if a.WriteRecord? {
      LogGrows(s.log, s.threads[a.t].items[0]);
      assert s.threads[a.t].HoldsLock();
    } else if a.UpdateIndex? {
      assert s.threads[a.t].HoldsLock() <==> !s.threads[a.t].batch;
    }
  }

  // ---------- conservation of offsets ----------

  function PendingOffsets(threads: seq<Thread>, key: Bytes): multiset<nat> {
    if threads == [] then multiset{}
    else PendingOffsets(threads[..|threads| - 1], key) + multiset(Offsets(threads[|threads| - 1].Pending(), key))
  }

  lemma Regroup(a: multiset<nat>, b: multiset<nat>, c: multiset<nat>, x: multiset<nat>, y: multiset<nat>)
    requires a + x == b + y
    ensures (a + c) + x == (b + c) + y
  {
    assert (a + c) + x == (a + x) + c;
    assert (b + c) + y == (b + y) + c;
  }

  lemma {:induction false} PendingUpdate(threads: seq<Thread>, t: nat, th: Thread, key: Bytes)
    requires t < |threads|
    ensures PendingOffsets(threads[t := th], key) + multiset(Offsets(threads[t].Pending(), key))
         == PendingOffsets(threads, key) + multiset(Offsets(th.Pending(), key))
  {
    hide Offsets;
    var front := threads[..|threads| - 1];
    var x, y := multiset(Offsets(threads[t].Pending(), key)), multiset(Offsets(th.Pending(), key));
    if t < |front| {
      PendingUpdate(front, t, th, key);
      assert threads[t := th][..|threads| - 1] == front[t := th];
      Regroup(PendingOffsets(front[t := th], key), PendingOffsets(front, key),
              multiset(Offsets(threads[|threads| - 1].Pending(), key)), x, y);
    } else {
      assert threads[t := th][..|threads| - 1] == front;
      var p := PendingOffsets(front, key);
      assert PendingOffsets(threads[t := th], key) == p + y;
      assert (p + y) + x == (p + x) + y;
    }
  }

  /** For every key: offsets indexed plus offsets pending are the offsets a scan finds. */
  ghost predicate Conserved(s: State, key: Bytes) {
    multiset(Lookup(s.index, key)) + PendingOffsets(s.threads, key) == multiset(Offsets(Entries(s.log), key))
  }

  lemma OffsetsSnoc(es: seq<Entry>, e: Entry, key: Bytes)
    ensures Offsets(es + [e], key) == if e.key == key then Offsets(es, key) + [e.offset] else Offsets(es, key)
  {
    assert (es + [e])[..|es|] == es;
  }

  /** Moving `x` from pending to indexed, or adding `x` to pending and to the file. */
  lemma Balance(index: multiset<nat>, pending: multiset<nat>, pending': multiset<nat>, x: multiset<nat>,
                y: multiset<nat>)
    requires pending' + x == pending + y
    ensures y == multiset{} ==> (index + x) + pending' == index + pending
    ensures forall e :: y == x + e ==> index + pending' == (index + pending) + e
  {
    if y == multiset{} {
      assert (index + x) + pending' == index + (pending' + x);
    }
    forall e | y == x + e ensures index + pending' == (index + pending) + e {
      assert pending' + x == (pending + e) + x;
      Cancel(pending', pending + e, x);
      assert index + (pending + e) == (index + pending) + e;
    }
  }

  lemma Cancel(a: multiset<nat>, b: multiset<nat>, x: multiset<nat>)
    requires a + x == b + x
    ensures a == b
  {
    forall v ensures a[v] == b[v] {
      assert (a + x)[v] == (b + x)[v];
    }
  }

  lemma WriteAdds(s: State, t: nat, s': State, key: Bytes) returns (e: seq<nat>)
    requires LockInv(s) && t < |s.threads| && Step(false, s, WriteRecord(t), s')
    ensures s'.threads == s.threads[t := s'.threads[t]] && s'.index == s.index
    ensures Offsets(s'.threads[t].Pending(), key) == Offsets(s.threads[t].Pending(), key) + e
    ensures Offsets(Entries(s'.log), key) == Offsets(Entries(s.log), key) + e
  {
    var th := s.threads[t];
    var r := th.items[0];
    LogGrows(s.log, r);
    OffsetsSnoc(th.pending, Entry(r.key, th.offset), key);
    OffsetsSnoc(Entries(s.log), Entry(r.key, |s.file|), key);
    hide Entries, Offsets, Enc, Flat;
    e := if r.key == key then [|s.file|] else [];
  }

  lemma WriteConserves(s: State, t: nat, s': State, key: Bytes)
    requires LockInv(s) && t < |s.threads| && Step(false, s, WriteRecord(t), s') && Conserved(s, key)
    ensures Conserved(s', key)
  {
    hide LockInv, Step, Entries, PendingOffsets, Offsets;
    var e := WriteAdds(s, t, s', key);
    PendingUpdate(s.threads, t, s'.threads[t], key);
    Balance(multiset(Lookup(s.index, key)), PendingOffsets(s.threads, key), PendingOffsets(s'.threads, key),
            multiset(Offsets(s.threads[t].Pending(), key)), multiset(Offsets(s'.threads[t].Pending(), key)));
  }

  lemma IndexConserves(s: State, t: nat, s': State, key: Bytes)
    requires t < |s.threads| && Step(false, s, UpdateIndex(t), s') && Conserved(s, key)
    ensures Conserved(s', key)
  {
    var th := s.threads[t];
    PendingUpdate(s.threads, t, Idle, key);
    hide PendingOffsets, Entries;
    var x := multiset(Offsets(th.pending, key));
    assert multiset(Lookup(s'.index, key)) == multiset(Lookup(s.index, key)) + x;
    Balance(multiset(Lookup(s.index, key)), PendingOffsets(s.threads, key), PendingOffsets(s'.threads, key), x,
            multiset{});
  }

  /** Steps that leave index, log and the pending entries alone. */
  lemma QuietConserves(s: State, t: nat, th: Thread, s': State, key: Bytes)
    requires t < |s.threads| && Conserved(s, key) && th.Pending() == s.threads[t].Pending()
    requires s'.threads == s.threads[t := th] && s'.index == s.index && s'.log == s.log
    ensures Conserved(s', key)
  {
    PendingUpdate(s.threads, t, th, key);
    hide PendingOffsets, Entries, Offsets;
    Cancel(PendingOffsets(s'.threads, key), PendingOffsets(s.threads, key), multiset(Offsets(th.Pending(), key)));
  }

  lemma ConserveStep(serial: bool, s: State, a: Action, s': State, key: Bytes)
    requires LockInv(s) && Step(serial, s, a, s') && Conserved(s, key)
    ensures Conserved(s', key)
  {
    match a
    case WriteRecord(t) =>
      hide LockInv, Conserved;
      assert Step(false, s, a, s');
      WriteConserves(s, t, s', key);
    case UpdateIndex(t) =>
      hide LockInv, Conserved;
      assert Step(false, s, a, s');
      IndexConserves(s, t, s', key);
    case _ =>
      hide LockInv, Conserved;
      QuietConserves(s, a.t, s'.threads[a.t], s', key);
  }

  lemma {:induction false} NothingPending(n: nat, key: Bytes)
    ensures PendingOffsets(seq(n, _ => Idle), key) == multiset{}
  {
    if n > 0 {
      NothingPending(n - 1, key);
      assert seq(n, _ => Idle)[..n - 1] == seq(n - 1, _ => Idle);
    }
  }

  lemma {:induction false} RunConserves(serial: bool, n: nat, actions: seq<Action>, s: State, key: Bytes)
    requires Runs(serial, n, actions, s)
    ensures LockInv(s) && Conserved(s, key)
  {
    if actions == [] {
      NothingPending(n, key);
      assert Entries([]) == [];
    } else {
      var front, last := actions[..|actions| - 1], actions[|actions| - 1];
      hide Step, LockInv, Conserved;
      var s0 :| Runs(serial, n, front, s0) && Step(serial, s0, last, s);
      RunConserves(serial, n, front, s0, key);
      LockStep(serial, s0, last, s);
      ConserveStep(serial, s0, last, s, key);
    }
  }

  lemma {:induction false} LookupOffsets(es: seq<Entry>, key: Bytes)
    ensures Lookup(IndexOf(es), key) == Offsets(es, key)
    ensures key in IndexOf(es) <==> Offsets(es, key) != []
  {
    if es != [] { LookupOffsets(es[..|es| - 1], key); }
  }

  /** In every interleaving, indexed plus pending offsets are what rebuildIndex would find, and
      the records tile the file. */
  lemma IndexMatchesScan(serial: bool, n: nat, actions: seq<Action>, s: State, key: Bytes)
    requires Runs(serial, n, actions, s)
    ensures s.file == Flat(s.log)
    ensures multiset(Lookup(s.index, key)) + PendingOffsets(s.threads, key)
         == multiset(Lookup(IndexOf(Scan(s.file, 0)), key))
  {
    RunConserves(serial, n, actions, s, key);
    ScanFlat(s.log);
    LookupOffsets(Entries(s.log), key);
  }

  lemma {:induction false} IdlePending(threads: seq<Thread>, key: Bytes)
    requires AllIdle(threads)
    ensures PendingOffsets(threads, key) == multiset{}
  {
    if threads != [] { IdlePending(threads[..|threads| - 1], key); }
  }

  /** Once all calls have returned the index holds, key by key, the rebuilt offsets in some order. */
  lemma QuiescentIndex(serial: bool, n: nat, actions: seq<Action>, s: State, key: Bytes)
    requires Runs(serial, n, actions, s) && AllIdle(s.threads)
    ensures multiset(Lookup(s.index, key)) == multiset(Lookup(IndexOf(Scan(s.file, 0)), key))
    ensures key in s.index <==> key in IndexOf(Scan(s.file, 0))
  {
    IndexMatchesScan(serial, n, actions, s, key);
    IdlePending(s.threads, key);
    RunConserves(serial, n, actions, s, key);
    ScanFlat(s.log);
    LookupOffsets(Entries(s.log), key);
    var a, b := Lookup(s.index, key), Lookup(IndexOf(Scan(s.file, 0)), key);
    assert |multiset(a)| == |a| && |multiset(b)| == |b|;
  }
}
