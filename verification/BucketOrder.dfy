/** When the offsets of a key are indexed in file order: exactly as long as no call updates the
    index with an offset that another call, still holding a smaller one, wrote before. */
module BucketOrder {
  import opened Wrappers
  import opened Bytes
  import opened RecordLog
  import opened BucketProtocol

  /** The offsets of the key that thread `t` has written but not yet indexed. */
  function Held(s: State, t: nat, key: Bytes): seq<nat>
    requires t < |s.threads|
  {
    Offsets(s.threads[t].Pending(), key)
  }

  /** Thread `t` holds an offset of the key that comes after one held by another thread. */
  ghost predicate Overtakes(s: State, t: nat, key: Bytes) {
    t < |s.threads| && exists u, o, p ::
      0 <= u < |s.threads| && u != t && o in Held(s, u, key) && p in Held(s, t, key) && o < p
  }

  /** A run in which no index update overtakes a smaller offset of the key. */
  ghost predicate RunsInOrder(n: nat, actions: seq<Action>, s: State, key: Bytes) {
    if actions == [] then s == Initial(n)
    else
      var front, last := actions[..|actions| - 1], actions[|actions| - 1];
      exists s0 :: RunsInOrder(n, front, s0, key) && Step(false, s0, last, s) && !OutOfTurn(s0, last, key)
  }

  ghost predicate OutOfTurn(s: State, a: Action, key: Bytes) {
    a.UpdateIndex? && Overtakes(s, a.t, key)
  }

  // ---------- the order invariant ----------

  ghost predicate Ascending(os: seq<nat>) {
    forall i, j :: 0 <= i < j < |os| ==> os[i] <= os[j]
  }

  ghost predicate AtMost(os: seq<nat>, limit: nat) {
    forall o :: o in os ==> o <= limit
  }

  ghost predicate NoneAfter(os: seq<nat>, ps: seq<nat>) {
    forall o, p :: o in os && p in ps ==> o <= p
  }

  /** Indexed offsets ascend, and none comes after one still held. */
  ghost predicate InOrder(s: State, key: Bytes) {
    && Ascending(Lookup(s.index, key))
    && forall t :: 0 <= t < |s.threads| ==> NoneAfter(Lookup(s.index, key), Held(s, t, key))
  }

  /** All offsets lie within the file; each thread holds its own in ascending order. */
  ghost predicate Within(s: State, key: Bytes) {
    && AtMost(Lookup(s.index, key), |s.file|)
    && forall t :: 0 <= t < |s.threads| ==> AtMost(Held(s, t, key), |s.file|) && Ascending(Held(s, t, key))
  }

  lemma AscendingConcat(a: seq<nat>, b: seq<nat>)
    ensures Ascending(a + b) <==> Ascending(a) && Ascending(b) && NoneAfter(a, b)
  {
    if Ascending(a + b) {
      forall i, j | 0 <= i < j < |a| ensures a[i] <= a[j] { assert (a + b)[i] <= (a + b)[j]; }
      forall i, j | 0 <= i < j < |b| ensures b[i] <= b[j] { assert (a + b)[|a| + i] <= (a + b)[|a| + j]; }
      forall o, p | o in a && p in b ensures o <= p {
        var i, j :| 0 <= i < |a| && a[i] == o && 0 <= j < |b| && b[j] == p;
        assert (a + b)[i] <= (a + b)[|a| + j];
      }
    }
    if Ascending(a) && Ascending(b) && NoneAfter(a, b) {
      forall i, j | 0 <= i < j < |a + b| ensures (a + b)[i] <= (a + b)[j] {
        if i < |a| <= j { assert a[i] in a && b[j - |a|] in b; }
      }
    }
  }

  // ---------- a record written ----------

  /** Writing puts at most one offset, the end of the file, behind what the thread holds. */
  lemma WriteHolds(s: State, t: nat, s': State, key: Bytes) returns (e: seq<nat>)
    requires LockInv(s) && t < |s.threads| && Step(false, s, WriteRecord(t), s')
    ensures |s'.threads| == |s.threads| && s'.index == s.index && |s.file| <= |s'.file|
    ensures Held(s', t, key) == Held(s, t, key) + e && (e == [] || e == [|s.file|])
    ensures forall u :: 0 <= u < |s.threads| && u != t ==> Held(s', u, key) == Held(s, u, key)
  {
    var th := s.threads[t];
    var r := th.items[0];
    OffsetsSnoc(th.pending, Entry(r.key, th.offset), key);
    hide Offsets, Enc, Flat;
    e := if r.key == key then [|s.file|] else [];
  }

  lemma WriteWithin(s: State, t: nat, s': State, key: Bytes)
    requires LockInv(s) && t < |s.threads| && Step(false, s, WriteRecord(t), s') && Within(s, key)
    ensures Within(s', key)
  {
    hide LockInv, Step, Held;
    var e := WriteHolds(s, t, s', key);
    AscendingConcat(Held(s, t, key), e);
    forall u | 0 <= u < |s'.threads|
      ensures AtMost(Held(s', u, key), |s'.file|) && Ascending(Held(s', u, key))
    {
      assert AtMost(Held(s, u, key), |s.file|);
    }
  }

  lemma WriteOrder(s: State, t: nat, s': State, key: Bytes)
    requires LockInv(s) && t < |s.threads| && Step(false, s, WriteRecord(t), s') && Within(s, key)
    ensures InOrder(s', key) <==> InOrder(s, key)
  {
    hide LockInv, Step, Held, Ascending;
    var e := WriteHolds(s, t, s', key);
    var os := Lookup(s.index, key);
    assert NoneAfter(os, e);
    forall u | 0 <= u < |s.threads| ensures NoneAfter(os, Held(s', u, key)) <==> NoneAfter(os, Held(s, u, key)) {
      if u == t { NoneAfterConcat(os, Held(s, t, key), e); }
    }
  }

  lemma NoneAfterConcat(os: seq<nat>, a: seq<nat>, b: seq<nat>)
    ensures NoneAfter(os, a + b) <==> NoneAfter(os, a) && NoneAfter(os, b)
    ensures NoneAfter(a + b, os) <==> NoneAfter(a, os) && NoneAfter(b, os)
  {
    assert forall x :: x in a + b <==> x in a || x in b;
  }

  // ---------- the index updated ----------

  lemma IndexHolds(s: State, t: nat, s': State, key: Bytes)
    requires t < |s.threads| && Step(false, s, UpdateIndex(t), s')
    ensures |s'.threads| == |s.threads| && s'.file == s.file
    ensures Lookup(s'.index, key) == Lookup(s.index, key) + Held(s, t, key) && Held(s', t, key) == []
    ensures forall u :: 0 <= u < |s.threads| && u != t ==> Held(s', u, key) == Held(s, u, key)
  {
    hide Lookup;
  }

  lemma IndexWithin(s: State, t: nat, s': State, key: Bytes)
    requires t < |s.threads| && Step(false, s, UpdateIndex(t), s') && Within(s, key)
    ensures Within(s', key)
  {
    hide Step, Held, Lookup;
    IndexHolds(s, t, s', key);
    assert AtMost(Held(s, t, key), |s.file|);
    forall u | 0 <= u < |s'.threads|
      ensures AtMost(Held(s', u, key), |s'.file|) && Ascending(Held(s', u, key))
    {
      if u != t { assert AtMost(Held(s, u, key), |s.file|); }
    }
  }

  /** Nothing `t` holds comes after what another thread holds. */
  lemma NotOvertaking(s: State, t: nat, key: Bytes)
    requires t < |s.threads|
    ensures Overtakes(s, t, key) <==>
            exists u :: 0 <= u < |s.threads| && u != t && !NoneAfter(Held(s, t, key), Held(s, u, key))
  {
    hide Held;
  }

  lemma IndexOrder(s: State, t: nat, s': State, key: Bytes)
    requires t < |s.threads| && Step(false, s, UpdateIndex(t), s') && Within(s, key)
    ensures InOrder(s', key) <==> InOrder(s, key) && !Overtakes(s, t, key)
  {
    hide Step, Held, Lookup, NoneAfter, Ascending, Overtakes, AtMost;
    IndexHolds(s, t, s', key);
    NotOvertaking(s, t, key);
    var os, mine := Lookup(s.index, key), Held(s, t, key);
    AscendingConcat(os, mine);
    assert NoneAfter(os + mine, []) by { NothingAfter(os + mine); }
    forall u | 0 <= u < |s.threads| && u != t
      ensures NoneAfter(Lookup(s'.index, key), Held(s', u, key)) <==>
              NoneAfter(os, Held(s, u, key)) && NoneAfter(mine, Held(s, u, key))
    {
      NoneAfterConcat(Held(s, u, key), os, mine);
    }
    assert Ascending(mine);
  }

  lemma NothingAfter(os: seq<nat>)
    ensures NoneAfter(os, [])
  {
  }

  // ---------- every step ----------

  /** A step that moves no offset. */
  lemma QuietHolds(s: State, a: Action, s': State, key: Bytes)
    requires Step(false, s, a, s') && !a.WriteRecord? && !a.UpdateIndex?
    ensures |s'.threads| == |s.threads| && s'.index == s.index && s'.file == s.file
    ensures forall u :: 0 <= u < |s.threads| ==> Held(s', u, key) == Held(s, u, key)
  {
    hide AllFit, DistinctKeys;
  }

  lemma StepWithin(s: State, a: Action, s': State, key: Bytes)
    requires LockInv(s) && Step(false, s, a, s') && Within(s, key)
    ensures Within(s', key)
  {
    assert a.t < |s.threads|;
    hide LockInv, Step, Held;
    match a
    case WriteRecord(t) => WriteWithin(s, t, s', key);
    case UpdateIndex(t) => IndexWithin(s, t, s', key);
    case _ => QuietHolds(s, a, s', key);
  }

  /** A step keeps the order exactly when it is not out of turn, and never restores it. */
  lemma StepOrder(s: State, a: Action, s': State, key: Bytes)
    requires LockInv(s) && Step(false, s, a, s') && Within(s, key)
    ensures InOrder(s', key) <==> InOrder(s, key) && !OutOfTurn(s, a, key)
  {
    assert a.t < |s.threads|;
    hide LockInv, Step, Held, Overtakes, Within;
    match a
    case WriteRecord(t) => WriteOrder(s, t, s', key);
    case UpdateIndex(t) => IndexOrder(s, t, s', key);
    case _ => QuietHolds(s, a, s', key);
  }

  lemma InitialOrder(n: nat, key: Bytes)
    ensures Within(Initial(n), key) && InOrder(Initial(n), key)
  {
    forall t | 0 <= t < n ensures Held(Initial(n), t, key) == [] {}
  }

  lemma {:induction false} RunWithin(n: nat, actions: seq<Action>, s: State, key: Bytes)
    requires Runs(false, n, actions, s)
    ensures LockInv(s) && Within(s, key)
  {
    RunConserves(false, n, actions, s, key);
    hide LockInv, Within, Step, Conserved, Initial;
    if actions == [] {
      InitialOrder(n, key);
    } else {
      var front, last := actions[..|actions| - 1], actions[|actions| - 1];
      var s0 :| Runs(false, n, front, s0) && Step(false, s0, last, s);
      RunWithin(n, front, s0, key);
      StepWithin(s0, last, s, key);
    }
  }

  /** A run is in order exactly when its state is. */
  lemma {:induction false} RunOrder(n: nat, actions: seq<Action>, s: State, key: Bytes)
    ensures RunsInOrder(n, actions, s, key) <==> Runs(false, n, actions, s) && InOrder(s, key)
  {
    hide LockInv, Within, Step, InOrder, Initial, OutOfTurn;
    if actions == [] {
      InitialOrder(n, key);
    } else {
      var front, last := actions[..|actions| - 1], actions[|actions| - 1];
      if RunsInOrder(n, actions, s, key) {
        var s0 :| RunsInOrder(n, front, s0, key) && Step(false, s0, last, s) && !OutOfTurn(s0, last, key);
        RunOrder(n, front, s0, key);
        RunWithin(n, front, s0, key);
        StepOrder(s0, last, s, key);
      }
      if Runs(false, n, actions, s) && InOrder(s, key) {
        var s0 :| Runs(false, n, front, s0) && Step(false, s0, last, s);
        RunWithin(n, front, s0, key);
        StepOrder(s0, last, s, key);
        RunOrder(n, front, s0, key);
      }
    }
  }

  // ---------- the index at rest ----------

  lemma {:induction false} ScanAscends(log: seq<Rec>, key: Bytes)
    ensures Ascending(Offsets(Entries(log), key)) && AtMost(Offsets(Entries(log), key), |Flat(log)|)
  {
    hide Enc;
    if log == [] {
      assert Entries(log) == [];
    } else {
      var front, r := log[..|log| - 1], log[|log| - 1];
      assert log == front + [r];
      ScanAscends(front, key);
      LogGrows(front, r);
      var e := Entry(r.key, |Flat(front)|);
      OffsetsSnoc(Entries(front), e, key);
      hide Offsets, Entries, Flat;
      AscendingConcat(Offsets(Entries(front), key), [e.offset]);
    }
  }

  lemma {:induction false} AscendingUnique(a: seq<nat>, b: seq<nat>)
    requires Ascending(a) && Ascending(b) && multiset(a) == multiset(b)
    ensures a == b
    decreases |a|
  {
    hide Ascending;
    SameLength(a, b);
    if a != [] {
      LastSame(a, b);
      LastOut(a);
      LastOut(b);
      AscendingUnique(a[..|a| - 1], b[..|a| - 1]);
    }
  }

  lemma SameLength(a: seq<nat>, b: seq<nat>)
    requires multiset(a) == multiset(b)
    ensures |a| == |b|
  {
    assert |multiset(a)| == |a| && |multiset(b)| == |b|;
  }

  lemma LastSame(a: seq<nat>, b: seq<nat>)
    requires Ascending(a) && Ascending(b) && multiset(a) == multiset(b) && |a| == |b| > 0
    ensures a[|a| - 1] == b[|a| - 1]
  {
    LastGreatest(a, b[|b| - 1], b);
    LastGreatest(b, a[|a| - 1], a);
  }

  lemma LastGreatest(a: seq<nat>, x: nat, b: seq<nat>)
    requires Ascending(a) && multiset(a) == multiset(b) && x in b
    ensures a != [] && x <= a[|a| - 1]
  {
    assert x in multiset(b);
    assert x in multiset(a);
    var i :| 0 <= i < |a| && a[i] == x;
  }

  lemma LastOut(a: seq<nat>)
    requires a != []
    ensures a == a[..|a| - 1] + [a[|a| - 1]]
    ensures multiset(a[..|a| - 1]) == multiset(a) - multiset{a[|a| - 1]}
    ensures Ascending(a) ==> Ascending(a[..|a| - 1])
  {
    assert a == a[..|a| - 1] + [a[|a| - 1]];
  }

  lemma RestOrder(s: State, key: Bytes)
    requires AllIdle(s.threads)
    ensures InOrder(s, key) <==> Ascending(Lookup(s.index, key))
  {
    hide Lookup, Ascending;
    forall t | 0 <= t < |s.threads| ensures Held(s, t, key) == [] { assert s.threads[t].Idle?; }
  }

  /** Once all calls have returned, the index of a key equals the rebuilt one, order included, if
      and only if no call indexed an offset before a smaller one held by another. */
  lemma OrderIff(n: nat, actions: seq<Action>, s: State, key: Bytes)
    requires Runs(false, n, actions, s) && AllIdle(s.threads)
    ensures Lookup(s.index, key) == Lookup(IndexOf(Scan(s.file, 0)), key) <==> RunsInOrder(n, actions, s, key)
  {
    hide Runs, RunsInOrder, InOrder, Ascending;
    RunOrder(n, actions, s, key);
    RestOrder(s, key);
    RunConserves(false, n, actions, s, key);
    ScanFlat(s.log);
    LookupOffsets(Entries(s.log), key);
    ScanAscends(s.log, key);
    QuiescentIndex(false, n, actions, s, key);
    hide *;
    if Ascending(Lookup(s.index, key)) {
      AscendingUnique(Lookup(s.index, key), Lookup(IndexOf(Scan(s.file, 0)), key));
    }
  }

  // ---------- calls that keep out of each other's way ----------

  ghost predicate HasKey(items: seq<Rec>, key: Bytes) {
    exists i :: 0 <= i < |items| && items[i].key == key
  }

  /** The thread is to write, or has written and not yet indexed, a record of the key. */
  ghost predicate Carries(th: Thread, key: Bytes) {
    (th.Writing? && HasKey(th.items, key)) || Offsets(th.Pending(), key) != []
  }

  /** A call with the key starts only when no other call carries it. */
  ghost predicate StartsApart(s: State, a: Action, key: Bytes) {
    (a.StartAppend? && a.rec.key == key) || (a.StartBatch? && HasKey(a.items, key)) ==>
      forall t :: 0 <= t < |s.threads| ==> !Carries(s.threads[t], key)
  }

  /** Calls overlap at will, but no two calls on the key do. */
  ghost predicate RunsApart(n: nat, actions: seq<Action>, s: State, key: Bytes) {
    if actions == [] then s == Initial(n)
    else
      var front, last := actions[..|actions| - 1], actions[|actions| - 1];
      exists s0 :: RunsApart(n, front, s0, key) && Step(false, s0, last, s) && StartsApart(s0, last, key)
  }

  ghost predicate OneCarrier(s: State, key: Bytes) {
    forall t, u :: 0 <= t < u < |s.threads| ==> !Carries(s.threads[t], key) || !Carries(s.threads[u], key)
  }

  lemma CarrierNotOvertaking(s: State, t: nat, key: Bytes)
    requires OneCarrier(s, key)
    ensures !Overtakes(s, t, key)
  {
    hide Offsets, HasKey;
  }

  /** Except for the thread that starts, a step makes no thread a carrier. */
  lemma StepCarriers(s: State, a: Action, s': State, key: Bytes)
    requires Step(false, s, a, s')
    ensures |s'.threads| == |s.threads| && a.t < |s.threads|
    ensures forall u :: 0 <= u < |s.threads| && u != a.t ==> s'.threads[u] == s.threads[u]
    ensures Carries(s'.threads[a.t], key) ==>
      || Carries(s.threads[a.t], key) || (a.StartAppend? && a.rec.key == key) || (a.StartBatch? && HasKey(a.items, key))
  {
    hide AllFit, DistinctKeys, Enc, Indexed;
    var th := s.threads[a.t];
    if a.WriteRecord? {
      OffsetsSnoc(th.pending, Entry(th.items[0].key, th.offset), key);
      hide Offsets;
      if i :| 0 <= i < |th.items[1..]| && th.items[1..][i].key == key { assert th.items[i + 1].key == key; }
    }
  }

  lemma ApartCarriers(s: State, a: Action, s': State, key: Bytes)
    requires OneCarrier(s, key) && Step(false, s, a, s') && StartsApart(s, a, key)
    ensures OneCarrier(s', key)
  {
    hide Step, Carries, HasKey;
    StepCarriers(s, a, s', key);
  }

  lemma IdleCarriers(s: State, key: Bytes)
    requires AllIdle(s.threads)
    ensures forall t :: 0 <= t < |s.threads| ==> !Carries(s.threads[t], key)
  {
  }

  /** Calls on a key that do not overlap each other are in order. */
  lemma {:induction false} ApartInOrder(n: nat, actions: seq<Action>, s: State, key: Bytes)
    requires RunsApart(n, actions, s, key)
    ensures RunsInOrder(n, actions, s, key) && OneCarrier(s, key)
  {
    hide Step, StartsApart, OneCarrier, Overtakes;
    if actions == [] {
      assert OneCarrier(s, key) by { InitialCarriers(n, key); }
    } else {
      var front, last := actions[..|actions| - 1], actions[|actions| - 1];
      var s0 :| RunsApart(n, front, s0, key) && Step(false, s0, last, s) && StartsApart(s0, last, key);
      ApartInOrder(n, front, s0, key);
      ApartCarriers(s0, last, s, key);
      CarrierNotOvertaking(s0, last.t, key);
      assert !OutOfTurn(s0, last, key);
    }
  }

  lemma InitialCarriers(n: nat, key: Bytes)
    ensures OneCarrier(Initial(n), key)
  {
  }

  /** Whatever calls on other keys do, calls on a key that do not overlap leave its index exact. */
  lemma ApartIndexExact(n: nat, actions: seq<Action>, s: State, key: Bytes)
    requires RunsApart(n, actions, s, key) && AllIdle(s.threads)
    ensures Lookup(s.index, key) == Lookup(IndexOf(Scan(s.file, 0)), key)
  {
    hide *;
    ApartInOrder(n, actions, s, key);
    RunOrder(n, actions, s, key);
    OrderIff(n, actions, s, key);
  }

  lemma {:induction false} SerialApart(n: nat, actions: seq<Action>, s: State, key: Bytes)
    requires Runs(true, n, actions, s)
    ensures RunsApart(n, actions, s, key)
  {
    if actions != [] {
      hide Step, StartsApart;
      var front, last := actions[..|actions| - 1], actions[|actions| - 1];
      var s0 :| Runs(true, n, front, s0) && Step(true, s0, last, s);
      SerialApart(n, front, s0, key);
      SerialStep(s0, last, s, key);
    }
  }

  lemma SerialStep(s: State, a: Action, s': State, key: Bytes)
    requires Step(true, s, a, s')
    ensures Step(false, s, a, s') && StartsApart(s, a, key)
  {
    hide Carries, AllFit, DistinctKeys, Indexed, AllIdle;
    if a.StartAppend? || a.StartBatch? { IdleCarriers(s, key); }
  }

  /** When calls do not overlap at all the index equals the rebuilt one, order included. */
  lemma SerialIndexExact(n: nat, actions: seq<Action>, s: State, key: Bytes)
    requires Runs(true, n, actions, s) && AllIdle(s.threads)
    ensures Lookup(s.index, key) == Lookup(IndexOf(Scan(s.file, 0)), key)
  {
    hide *;
    SerialApart(n, actions, s, key);
    ApartIndexExact(n, actions, s, key);
  }

  // ---------- a run out of order ----------

  lemma RunNone(n: nat)
    ensures Runs(false, n, [], Initial(n))
  {
  }

  lemma RunSnoc(n: nat, actions: seq<Action>, s: State, a: Action, s': State)
    requires Runs(false, n, actions, s) && Step(false, s, a, s')
    ensures Runs(false, n, actions + [a], s')
  {
    assert (actions + [a])[..|actions|] == actions;
  }

  /** The steps of a batch of one record by thread 0, up to the index update. */
  lemma BatchSteps(r: Rec, s1: State, s2: State, s3: State)
    requires Fits(r) && s1 == State([], [], map[], Some(0), [Writing(true, [r], 0, []), Idle])
    requires s2 == State(Enc(r), [r], map[], Some(0), [Writing(true, [], |Enc(r)|, [Entry(r.key, 0)]), Idle])
    requires s3 == State(Enc(r), [r], map[], None, [Indexing(true, [Entry(r.key, 0)]), Idle])
    ensures Step(false, Initial(2), StartBatch(0, [r]), s1) && Step(false, s1, WriteRecord(0), s2)
    ensures Step(false, s2, FinishWriting(0), s3)
  {
    hide Enc, AllFit;
    OneFits(r);
    assert Initial(2) == State([], [], map[], None, [Idle, Idle]);
    var e := Entry(r.key, 0);
    assert [] + Enc(r) == Enc(r) && [r][1..] == [] && [] + [e] == [e];
    assert s1.threads[0 := Writing(true, [r][1..], 0 + |Enc(r)|, [] + [e])] == s2.threads;
  }

  /** Such a batch is in the file but not yet indexed. */
  lemma BatchWritten(r: Rec) returns (acts: seq<Action>)
    requires Fits(r)
    ensures Runs(false, 2, acts, State(Enc(r), [r], map[], None, [Indexing(true, [Entry(r.key, 0)]), Idle]))
  {
    hide *;
    var e, n := Entry(r.key, 0), |Enc(r)|;
    var s1 := State([], [], map[], Some(0), [Writing(true, [r], 0, []), Idle]);
    var s2 := State(Enc(r), [r], map[], Some(0), [Writing(true, [], n, [e]), Idle]);
    var s3 := State(Enc(r), [r], map[], None, [Indexing(true, [e]), Idle]);
    BatchSteps(r, s1, s2, s3);
    RunNone(2);
    RunSnoc(2, [], Initial(2), StartBatch(0, [r]), s1);
    acts := [] + [StartBatch(0, [r])];
    RunSnoc(2, acts, s1, WriteRecord(0), s2);
    acts := acts + [WriteRecord(0)];
    RunSnoc(2, acts, s2, FinishWriting(0), s3);
    acts := acts + [FinishWriting(0)];
  }

  /** Thread 1 then appends a record of the same key and indexes it. */
  lemma AppendSteps(r: Rec, s3: State, s4: State, s5: State, s6: State, s7: State)
    requires Fits(r) && s3 == State(Enc(r), [r], map[], None, [Indexing(true, [Entry(r.key, 0)]), Idle])
    requires s4 == s3.(lock := Some(1), threads := [s3.threads[0], Writing(false, [r], |Enc(r)|, [])])
    requires s5 == s4.(file := Enc(r) + Enc(r), log := [r, r], threads :=
                       [s3.threads[0], Writing(false, [], |Enc(r)| + |Enc(r)|, [Entry(r.key, |Enc(r)|)])])
    requires s6 == s5.(threads := [s3.threads[0], Indexing(false, [Entry(r.key, |Enc(r)|)])])
    requires s7 == s6.(index := map[r.key := [|Enc(r)|]], lock := None, threads := s3.threads)
    ensures Step(false, s3, StartAppend(1, r), s4) && Step(false, s4, WriteRecord(1), s5)
    ensures Step(false, s5, FinishWriting(1), s6) && Step(false, s6, UpdateIndex(1), s7)
  {
    hide Enc, AllFit, Indexed;
    OneFits(r);
    var th, n := s3.threads[0], |Enc(r)|;
    var e := Entry(r.key, n);
    assert [r][1..] == [] && [] + [e] == [e] && [r] + [r] == [r, r];
    assert s4.threads[1 := Writing(false, [r][1..], n + n, [] + [e])] == s5.threads;
    OneIndexed(map[], r.key, n);
    assert Lookup(map[], r.key) + [n] == [n];
    assert s7.index == AddOffset(map[], r.key, n);
    assert s6.threads[1 := Idle] == s7.threads;
  }

  lemma AppendOvertakes(r: Rec, acts0: seq<Action>) returns (acts: seq<Action>)
    requires Fits(r)
    requires Runs(false, 2, acts0, State(Enc(r), [r], map[], None, [Indexing(true, [Entry(r.key, 0)]), Idle]))
    ensures Runs(false, 2, acts, State(Enc(r) + Enc(r), [r, r], map[r.key := [|Enc(r)|]], None,
                                       [Indexing(true, [Entry(r.key, 0)]), Idle]))
  {
    hide *;
    var th, n := Indexing(true, [Entry(r.key, 0)]), |Enc(r)|;
    var e := Entry(r.key, n);
    var s3 := State(Enc(r), [r], map[], None, [th, Idle]);
    var s4 := State(Enc(r), [r], map[], Some(1), [th, Writing(false, [r], n, [])]);
    var s5 := State(Enc(r) + Enc(r), [r, r], map[], Some(1), [th, Writing(false, [], n + n, [e])]);
    var s6 := State(Enc(r) + Enc(r), [r, r], map[], Some(1), [th, Indexing(false, [e])]);
    var s7 := State(Enc(r) + Enc(r), [r, r], map[r.key := [n]], None, [th, Idle]);
    AppendSteps(r, s3, s4, s5, s6, s7);
    RunSnoc(2, acts0, s3, StartAppend(1, r), s4);
    acts := acts0 + [StartAppend(1, r)];
    RunSnoc(2, acts, s4, WriteRecord(1), s5);
    acts := acts + [WriteRecord(1)];
    RunSnoc(2, acts, s5, FinishWriting(1), s6);
    acts := acts + [FinishWriting(1)];
    RunSnoc(2, acts, s6, UpdateIndex(1), s7);
    acts := acts + [UpdateIndex(1)];
  }

  lemma OneFits(r: Rec)
    requires Fits(r)
    ensures AllFit([r])
  {
  }

  lemma OneIndexed(index: Index, key: Bytes, n: nat)
    requires forall k :: k in index ==> index[k] != []
    ensures Indexed(index, [Entry(key, n)], AddOffset(index, key, n))
  {
    var es := [Entry(key, n)];
    forall k ensures Lookup(AddOffset(index, key, n), k) == Lookup(index, k) + Offsets(es, k) {
      OffsetsSnoc([], Entry(key, n), k);
      assert [] + es == es;
    }
  }

  lemma OverlapRun(r: Rec) returns (acts: seq<Action>, s: State)
    requires Fits(r)
    ensures Runs(false, 2, acts, s) && s.threads == [Idle, Idle]
    ensures Lookup(s.index, r.key) == [|Enc(r)|, 0] && s.log == [r, r]
  {
    hide Enc, Runs;
    var n := |Enc(r)|;
    acts := BatchWritten(r);
    acts := AppendOvertakes(r, acts);
    var s7 := State(Enc(r) + Enc(r), [r, r], map[r.key := [n]], None, [Indexing(true, [Entry(r.key, 0)]), Idle]);
    s := State(Enc(r) + Enc(r), [r, r], AddOffset(s7.index, r.key, 0), None, [Idle, Idle]);
    OneIndexed(s7.index, r.key, 0);
    assert s7.threads[0 := Idle] == s.threads;
    assert Step(false, s7, UpdateIndex(0), s);
    RunSnoc(2, acts, s7, UpdateIndex(0), s);
    acts := acts + [UpdateIndex(0)];
  }

  lemma RunTiles(serial: bool, n: nat, actions: seq<Action>, s: State)
    requires Runs(serial, n, actions, s)
    ensures s.file == Flat(s.log)
  {
    RunConserves(serial, n, actions, s, []);
  }

  lemma IdlePair(threads: seq<Thread>)
    requires threads == [Idle, Idle]
    ensures AllIdle(threads)
  {
  }

  /** Overlapping calls can leave a key's offsets out of order: a batch and an append of the same
      key, where the append is indexed first. */
  lemma OverlapReorders()
    ensures exists actions, s, key :: Runs(false, 2, actions, s) && AllIdle(s.threads)
              && Lookup(s.index, key) != Lookup(IndexOf(Scan(s.file, 0)), key)
  {
    var r := Rec([1], []);
    assert |Enc(r)| == 9 && Fits(r);
    hide *;
    var acts, s := OverlapRun(r);
    RunTiles(false, 2, acts, s);
    ScanTwo(r);
    IdlePair(s.threads);
    assert Lookup(s.index, r.key)[0] != Lookup(IndexOf(Scan(s.file, 0)), r.key)[0];
  }

  lemma TwoEntries(r: Rec)
    ensures Entries([r, r]) == [Entry(r.key, 0)] + [Entry(r.key, |Enc(r)|)]
  {
    hide Enc;
    assert [r, r] == [r] + [r] && [r] == [] + [r] && Entries([]) == [] && Flat([]) == [];
    LogGrows([r], r);
    LogGrows([], r);
    hide Entries, Flat;
  }

  lemma ScanTwo(r: Rec)
    requires Fits(r)
    ensures Lookup(IndexOf(Scan(Flat([r, r]), 0)), r.key) == [0, |Enc(r)|]
  {
    hide Enc, Scan, IndexOf;
    OneFits(r);
    ScanFlat([r, r]);
    var es := Entries([r, r]);
    TwoEntries(r);
    hide Entries, Flat;
    OffsetsSnoc([Entry(r.key, 0)], Entry(r.key, |Enc(r)|), r.key);
    OffsetsSnoc([], Entry(r.key, 0), r.key);
    assert [] + [Entry(r.key, 0)] == [Entry(r.key, 0)];
    LookupOffsets(es, r.key);
  }
}
