/** searchLayer: best-first search of one layer of the graph over two heaps. */
module LayerSearch {
  import opened Heap
  import opened Seqs

  /** A float32 component, by its bit pattern. */
  type Float32 = x: nat | x < 0x1_0000_0000

  type Vector = seq<Float32>

  /** Any of the distance functions, with values in a total order. */
  type Metric = (Vector, Vector) -> real

  datatype Node = Node(vector: Vector, level: int, neighbors: seq<seq<nat>>)

  type Nodes = map<nat, Node>

  /** One layer of a graph, seen from a query. */
  datatype Layer = Layer(nodes: Nodes, metric: Metric, query: Vector, level: nat) {

    function Dist(id: nat): real
      requires id in nodes
    {
      metric(query, nodes[id].vector)
    }

    function Cand(id: nat): Candidate
      requires id in nodes
    {
      Candidate(id, Dist(id))
    }

    /** `u` lists `v` on this layer and both are live. */
    predicate Edge(u: nat, v: nat) {
      u in nodes && v in nodes && level < |nodes[u].neighbors| && v in nodes[u].neighbors[level]
    }

    /** `v` is `n` live links away from `u`. */
    ghost predicate ReachIn(u: nat, v: nat, n: nat)
      decreases n
    {
      if n == 0 then u == v && u in nodes else exists w :: ReachIn(u, w, n - 1) && Edge(w, v)
    }

    ghost predicate Reach(u: nat, v: nat) {
      exists n: nat :: ReachIn(u, v, n)
    }

    /** The list of live neighbours that searchLayer walks for `u`. */
    function Links(u: nat): seq<nat>
      requires u in nodes
    {
      if level < |nodes[u].neighbors| then nodes[u].neighbors[level] else []
    }
  }

  lemma ReachSelf(l: Layer, u: nat)
    requires u in l.nodes
    ensures l.Reach(u, u)
  {
    assert l.ReachIn(u, u, 0);
  }

  lemma ReachStep(l: Layer, u: nat, v: nat, w: nat)
    requires l.Reach(u, v) && l.Edge(v, w)
    ensures l.Reach(u, w)
  {
    var n: nat :| l.ReachIn(u, v, n);
    assert l.ReachIn(u, w, n + 1);
  }

  // ---------- what a layer search promises ----------

  /** `v` is among the results, or the results are full and none is farther than `v`. */
  ghost predicate Settled(l: Layer, cap: nat, r: multiset<Candidate>, v: nat)
    requires v in l.nodes
  {
    l.Cand(v) in r || (|r| == cap && forall c :: c in r ==> c.distance <= l.Dist(v))
  }

  ghost predicate Scored(l: Layer, r: multiset<Candidate>) {
    forall c :: c in r ==> c.id in l.nodes && c == l.Cand(c.id)
  }

  /** Every candidate occurs once. */
  ghost predicate Single(r: multiset<Candidate>) {
    forall c :: c in r ==> r[c] == 1
  }

  ghost predicate AllReachable(l: Layer, entry: nat, r: multiset<Candidate>) {
    forall c :: c in r ==> l.Reach(entry, c.id)
  }

  ghost predicate Sorted(r: seq<Candidate>) {
    forall i, j :: 0 <= i < j < |r| ==> r[i].distance <= r[j].distance
  }

  /** A non-empty list of at most `cap` live nodes, each once, reachable from the entry and
      sorted by distance, from which no single link leads to a closer node left out. */
  ghost predicate LayerResult(l: Layer, entry: nat, cap: nat, r: seq<Candidate>) {
    && 0 < |r| <= cap
    && Scored(l, multiset(r))
    && Single(multiset(r))
    && Sorted(r)
    && AllReachable(l, entry, multiset(r))
    && entry in l.nodes
    && Settled(l, cap, multiset(r), entry)
    && forall c, v :: c in r && l.Edge(c.id, v) ==> Settled(l, cap, multiset(r), v)
  }

  // ---------- the state of the search ----------

  ghost predicate Expanded(l: Layer, visited: set<nat>, u: nat) {
    forall v :: l.Edge(u, v) ==> v in visited
  }

  ghost predicate Visited(visited: set<nat>, r: multiset<Candidate>) {
    forall c :: c in r ==> c.id in visited
  }

  ghost predicate VisitedSettled(l: Layer, cap: nat, visited: set<nat>, r: multiset<Candidate>) {
    forall v :: v in visited && v in l.nodes ==> Settled(l, cap, r, v)
  }

  /** Every result still waits in the candidate heap, is the node in hand, or is expanded. */
  ghost predicate Progress(l: Layer, visited: set<nat>, cand: multiset<Candidate>, r: multiset<Candidate>,
                           hand: set<nat>) {
    forall c :: c in r ==> c in cand || c.id in hand || Expanded(l, visited, c.id)
  }

  ghost predicate ResultInv(l: Layer, entry: nat, cap: nat, visited: set<nat>, r: multiset<Candidate>) {
    && 0 < |r| <= cap
    && Scored(l, r) && Single(r) && AllReachable(l, entry, r) && Visited(visited, r)
    && VisitedSettled(l, cap, visited, r)
  }

  ghost predicate SearchInv(l: Layer, entry: nat, cap: nat, visited: set<nat>,
                            cand: multiset<Candidate>, r: multiset<Candidate>, hand: set<nat>) {
    && entry in visited && entry in l.nodes
    && Scored(l, cand) && AllReachable(l, entry, cand)
    && ResultInv(l, entry, cap, visited, r)
    && Progress(l, visited, cand, r, hand)
  }

  /** The results after offering one more candidate to a heap holding at most `cap`. */
  ghost predicate Offered(cap: nat, r: multiset<Candidate>, c: Candidate, r': multiset<Candidate>) {
    if |r| < cap then r' == r + multiset{c}
    else exists m :: m in r + multiset{c} && r' == r + multiset{c} - multiset{m}
                     && forall x :: x in r + multiset{c} ==> x.distance <= m.distance
  }

  lemma SettledAfterOffer(l: Layer, cap: nat, r: multiset<Candidate>, c: Candidate, r': multiset<Candidate>, v: nat)
    requires v in l.nodes && Settled(l, cap, r, v)
    requires 0 < |r| <= cap && Offered(cap, r, c, r')
    ensures Settled(l, cap, r', v)
  {
    if |r| < cap {
      assert l.Cand(v) in r;
    } else {
      var m :| m in r + multiset{c} && r' == r + multiset{c} - multiset{m}
               && forall x :: x in r + multiset{c} ==> x.distance <= m.distance;
      hide Offered;
      SettledAfterDrop(l, cap, r, c, m, r', v);
    }
  }

  /** Dropping a farthest element `m` settles `m` itself and everything settled before. */
  lemma SettledAfterDrop(l: Layer, cap: nat, r: multiset<Candidate>, c: Candidate, m: Candidate,
                         r': multiset<Candidate>, v: nat)
    requires v in l.nodes && Settled(l, cap, r, v) && |r| == cap
    requires m in r + multiset{c} && r' == r + multiset{c} - multiset{m}
    requires forall x :: x in r + multiset{c} ==> x.distance <= m.distance
    ensures Settled(l, cap, r', v)
  {
    var all := r + multiset{c};
    assert |r'| == cap;
    forall x | x in r' ensures x.distance <= m.distance { assert x in all; }
    if l.Cand(v) in r {
      if l.Cand(v) != m { assert r'[l.Cand(v)] == all[l.Cand(v)]; }
    } else {
      assert m.distance <= l.Dist(v) || m == c;
      forall x | x in r' ensures x.distance <= l.Dist(v) || x == c { assert x in all; }
    }
  }

  lemma OfferedSettled(l: Layer, cap: nat, r: multiset<Candidate>, v: nat, r': multiset<Candidate>)
    requires v in l.nodes && 0 < |r| <= cap && Offered(cap, r, l.Cand(v), r')
    ensures Settled(l, cap, r', v)
  {
    var c := l.Cand(v);
    if |r| == cap {
      var m :| m in r + multiset{c} && r' == r + multiset{c} - multiset{m}
               && forall x :: x in r + multiset{c} ==> x.distance <= m.distance;
      assert |r'| == cap;
      assert forall x :: x in r' ==> x in r + multiset{c};
    }
  }

  lemma ResultAfterOffer(l: Layer, entry: nat, cap: nat, visited: set<nat>, r: multiset<Candidate>, v: nat,
                         r': multiset<Candidate>)
    requires ResultInv(l, entry, cap, visited, r)
    requires v in l.nodes && v !in visited && l.Reach(entry, v)
    requires Offered(cap, r, l.Cand(v), r')
    ensures ResultInv(l, entry, cap, visited + {v}, r')
  {
    hide VisitedSettled, Offered;
    assert l.Cand(v) !in r;
    OfferedMembers(cap, r, l.Cand(v), r');
    SettledNext(l, cap, visited, r, v, r');
  }

  lemma SettledNext(l: Layer, cap: nat, visited: set<nat>, r: multiset<Candidate>, v: nat, r': multiset<Candidate>)
    requires VisitedSettled(l, cap, visited, r) && 0 < |r| <= cap && v in l.nodes && Offered(cap, r, l.Cand(v), r')
    ensures VisitedSettled(l, cap, visited + {v}, r')
  {
    hide Settled, Offered;
    forall w | w in visited + {v} && w in l.nodes ensures Settled(l, cap, r', w) {
      if w == v {
        OfferedSettled(l, cap, r, v, r');
      } else {
        SettledAfterOffer(l, cap, r, l.Cand(v), r', w);
      }
    }
  }

  lemma OfferedMembers(cap: nat, r: multiset<Candidate>, c: Candidate, r': multiset<Candidate>)
    requires 0 < |r| <= cap && Offered(cap, r, c, r') && Single(r) && c !in r
    ensures 0 < |r'| <= cap && Single(r') && forall x :: x in r' ==> x in r || x == c
  {
    var all := r + multiset{c};
    if |r| == cap {
      var m :| m in all && r' == all - multiset{m} && forall x :: x in all ==> x.distance <= m.distance;
      assert forall x :: r'[x] <= all[x];
    }
  }

  /** A live neighbour that is accepted joins both heaps. */
  lemma AcceptStep(l: Layer, entry: nat, cap: nat, visited: set<nat>, cand: multiset<Candidate>,
                   r: multiset<Candidate>, u: nat, v: nat, r': multiset<Candidate>)
    requires SearchInv(l, entry, cap, visited, cand, r, {u})
    requires l.Reach(entry, u) && l.Edge(u, v) && v !in visited
    requires Offered(cap, r, l.Cand(v), r')
    ensures SearchInv(l, entry, cap, visited + {v}, cand + multiset{l.Cand(v)}, r', {u})
  {
    ReachStep(l, entry, u, v);
    ResultAfterOffer(l, entry, cap, visited, r, v, r');
    ProgressAfterOffer(l, cap, visited, cand, r, u, v, r');
    hide ResultInv, Progress, Offered;
  }

  lemma ProgressAfterOffer(l: Layer, cap: nat, visited: set<nat>, cand: multiset<Candidate>,
                           r: multiset<Candidate>, u: nat, v: nat, r': multiset<Candidate>)
    requires Progress(l, visited, cand, r, {u})
    requires v in l.nodes && Offered(cap, r, l.Cand(v), r')
    ensures Progress(l, visited + {v}, cand + multiset{l.Cand(v)}, r', {u})
  {
    assert forall x :: x in r' ==> x in r || x == l.Cand(v);
  }

  /** A neighbour that is dead, or no closer than a full result list, is only marked visited. */
  lemma SkipStep(l: Layer, entry: nat, cap: nat, visited: set<nat>, cand: multiset<Candidate>,
                 r: multiset<Candidate>, u: nat, v: nat)
    requires SearchInv(l, entry, cap, visited, cand, r, {u})
    requires v in l.nodes ==> |r| == cap && forall c :: c in r ==> c.distance <= l.Dist(v)
    ensures SearchInv(l, entry, cap, visited + {v}, cand, r, {u})
  {
  }

  /** The search stops when the nearest waiting candidate is farther than a full list. */
  lemma StopStep(l: Layer, entry: nat, cap: nat, visited: set<nat>, candidates: seq<Candidate>,
                 current: Candidate, rest: multiset<Candidate>, results: seq<Candidate>)
    requires SearchInv(l, entry, cap, visited, rest, multiset(results), {current.id})
    requires multiset(candidates) == rest + multiset{current} && First(current, candidates, false)
    requires current.id in l.nodes && current == l.Cand(current.id)
    requires IsHeap(results, true) && results != [] && current.distance > results[0].distance
    ensures Finished(l, entry, cap, visited, multiset(results))
  {
    RootFirst(results, true);
    assert forall c :: c in multiset(results) ==> c in results;
    forall c | c in rest ensures c in candidates {
      assert c in rest + multiset{current};
      assert c in multiset(candidates);
    }
  }

  ghost predicate Finished(l: Layer, entry: nat, cap: nat, visited: set<nat>, r: multiset<Candidate>) {
    && entry in visited && entry in l.nodes
    && ResultInv(l, entry, cap, visited, r)
    && Progress(l, visited, multiset{}, r, {})
  }

  lemma SearchDone(l: Layer, entry: nat, cap: nat, visited: set<nat>, r: multiset<Candidate>, s: seq<Candidate>)
    requires Finished(l, entry, cap, visited, r)
    requires multiset(s) == r && Sorted(s)
    ensures LayerResult(l, entry, cap, s)
  {
    assert |multiset(s)| == |s|;
    forall c, v | c in s && l.Edge(c.id, v) ensures Settled(l, cap, multiset(s), v) {
      assert c in r;
    }
  }

  // ---------- the search itself ----------

  /** Push the candidate on the results and drop the farthest if that makes too many. */
  method Offer(results: seq<Candidate>, c: Candidate, cap: nat) returns (r: seq<Candidate>)
    requires IsHeap(results, true) && |results| <= cap
    ensures IsHeap(r, true)
    ensures Offered(cap, multiset(results), c, multiset(r))
  {
    hide IsHeap;
    r := Push(results, c, true);
    assert |multiset(r)| == |multiset(results)| + 1;
    if |r| > cap {
      var m, rest := Pop(r, true);
      OfferPop(cap, results, c, r, m, rest);
      r := rest;
    }
  }

  lemma OfferPop(cap: nat, results: seq<Candidate>, c: Candidate, all: seq<Candidate>, m: Candidate,
                 rest: seq<Candidate>)
    requires |results| == cap && multiset(all) == multiset(results) + multiset{c}
    requires multiset(all) == multiset(rest) + multiset{m}
    requires First(m, all, true)
    ensures Offered(cap, multiset(results), c, multiset(rest))
  {
    var ms := multiset(results) + multiset{c};
    assert multiset(rest) == ms - multiset{m};
    assert m in ms;
    forall x | x in ms ensures x.distance <= m.distance { assert x in all; }
  }

  ghost predicate NoneFarther(h: multiset<Candidate>, r: multiset<Candidate>) {
    forall x: Candidate, y: Candidate :: x in h && y in r ==> x.distance <= y.distance
  }

  lemma DrainStep(h: seq<Candidate>, m: Candidate, rest: seq<Candidate>, r: seq<Candidate>)
    requires multiset(h) == multiset(rest) + multiset{m} && First(m, h, true)
    requires Sorted(r) && NoneFarther(multiset(h), multiset(r))
    ensures Sorted([m] + r) && NoneFarther(multiset(rest), multiset([m] + r))
    ensures multiset([m] + r) == multiset{m} + multiset(r)
  {
    assert forall x :: x in multiset(h) ==> x in h;
    assert forall y :: y in r ==> y in multiset(r);
    assert forall x :: x in multiset(rest) ==> x in multiset(h);
    assert multiset([m] + r) == multiset{m} + multiset(r);
    assert m in multiset(h);
  }

  /** Empty the result heap into a list, farthest last. */
  method Drain(results: seq<Candidate>) returns (r: seq<Candidate>)
    requires IsHeap(results, true)
    ensures Sorted(r) && multiset(r) == multiset(results)
  {
    var h := results;
    r := [];
    hide IsHeap, First;
    while h != []
      invariant IsHeap(h, true) && Sorted(r)
      invariant multiset(h) + multiset(r) == multiset(results)
      invariant NoneFarther(multiset(h), multiset(r))
      decreases |multiset(h)|
    {
      var m, rest := Pop(h, true);
      DrainStep(h, m, rest, r);
      r := [m] + r;
      h := rest;
    }
  }

  /** Offer every unvisited live neighbour of `u`. */
  method ExpandNode(l: Layer, ghost entry: nat, cap: nat, u: nat, visited0: set<nat>,
                    candidates0: seq<Candidate>, results0: seq<Candidate>)
    returns (visited: set<nat>, candidates: seq<Candidate>, results: seq<Candidate>)
    requires u in l.nodes && l.Reach(entry, u)
    requires IsHeap(candidates0, false) && IsHeap(results0, true)
    requires SearchInv(l, entry, cap, visited0, multiset(candidates0), multiset(results0), {u})
    ensures IsHeap(candidates, false) && IsHeap(results, true)
    ensures SearchInv(l, entry, cap, visited, multiset(candidates), multiset(results), {})
    ensures visited0 <= visited
    ensures |l.nodes.Keys - visited| + |candidates| <= |l.nodes.Keys - visited0| + |candidates0|
  {
    hide SearchInv, IsHeap;
    visited, candidates, results := visited0, candidates0, results0;
    var links := l.Links(u);
    for i := 0 to |links|
      invariant IsHeap(candidates, false) && IsHeap(results, true)
      invariant SearchInv(l, entry, cap, visited, multiset(candidates), multiset(results), {u})
      invariant visited0 <= visited && forall j :: 0 <= j < i ==> links[j] in visited
      invariant |l.nodes.Keys - visited| + |candidates| <= |l.nodes.Keys - visited0| + |candidates0|
    {
      var v := links[i];
      if v !in visited {
        visited, candidates, results := Visit(l, entry, cap, u, v, visited, candidates, results);
      }
    }
    HandDone(l, entry, cap, visited, multiset(candidates), multiset(results), u);
  }

  lemma HandDone(l: Layer, entry: nat, cap: nat, visited: set<nat>, cand: multiset<Candidate>, r: multiset<Candidate>,
                 u: nat)
    requires SearchInv(l, entry, cap, visited, cand, r, {u})
    requires u in l.nodes && forall j :: 0 <= j < |l.Links(u)| ==> l.Links(u)[j] in visited
    ensures SearchInv(l, entry, cap, visited, cand, r, {})
  {
    forall v | l.Edge(u, v) ensures v in visited {
      var j :| 0 <= j < |l.Links(u)| && l.Links(u)[j] == v;
    }
    assert Expanded(l, visited, u);
  }

  /** One neighbour: mark it visited and, if it is live and close enough, push it on both heaps. */
  method Visit(l: Layer, ghost entry: nat, cap: nat, u: nat, v: nat, visited0: set<nat>,
               candidates0: seq<Candidate>, results0: seq<Candidate>)
    returns (visited: set<nat>, candidates: seq<Candidate>, results: seq<Candidate>)
    requires u in l.nodes && l.Reach(entry, u) && v in l.Links(u) && v !in visited0
    requires IsHeap(candidates0, false) && IsHeap(results0, true)
    requires SearchInv(l, entry, cap, visited0, multiset(candidates0), multiset(results0), {u})
    ensures IsHeap(candidates, false) && IsHeap(results, true)
    ensures SearchInv(l, entry, cap, visited, multiset(candidates), multiset(results), {u})
    ensures visited == visited0 + {v}
    ensures |l.nodes.Keys - visited| + |candidates| <= |l.nodes.Keys - visited0| + |candidates0|
  {
    visited, candidates, results := visited0 + {v}, candidates0, results0;
    ghost var r := multiset(results);
    HeapSizes(l, entry, cap, visited0, multiset(candidates0), results0, {u});
    UnvisitedShrinks(l.nodes.Keys, visited0, v);
    if v in l.nodes && (|results| < cap || l.Dist(v) < results[0].distance) {
      hide SearchInv, IsHeap;
      candidates := Push(candidates, l.Cand(v), false);
      assert |multiset(candidates)| == |multiset(candidates0)| + 1;
      results := Offer(results, l.Cand(v), cap);
      AcceptStep(l, entry, cap, visited0, multiset(candidates0), r, u, v, multiset(results));
    } else {
      if v in l.nodes { RootFirst(results, true); }
      hide SearchInv, IsHeap;
      SkipStep(l, entry, cap, visited0, multiset(candidates0), r, u, v);
    }
  }

  lemma HeapSizes(l: Layer, entry: nat, cap: nat, visited: set<nat>, cand: multiset<Candidate>, results: seq<Candidate>,
                  hand: set<nat>)
    requires SearchInv(l, entry, cap, visited, cand, multiset(results), hand)
    ensures 0 < |results| <= cap
    ensures forall c :: c in results <==> c in multiset(results)
  {
    assert |multiset(results)| == |results|;
  }

  lemma UnvisitedShrinks(live: set<nat>, visited: set<nat>, v: nat)
    requires v !in visited
    ensures |live - (visited + {v})| == |live - visited| - (if v in live then 1 else 0)
  {
    assert live - (visited + {v}) == live - visited - {v};
  }

  /** searchLayer. An `ef` below 1 behaves as 1. */
  method SearchLayer(nodes: Nodes, metric: Metric, query: Vector, entry: nat, ef: int, level: nat)
    returns (r: seq<Candidate>)
    ensures entry !in nodes ==> r == []
    ensures entry in nodes ==> LayerResult(Layer(nodes, metric, query, level), entry, if ef < 1 then 1 else ef, r)
  {
    if entry !in nodes { return []; }
    var l := Layer(nodes, metric, query, level);
    var cap := if ef < 1 then 1 else ef;
    var candidates, results, visited := [l.Cand(entry)], [l.Cand(entry)], {entry};
    ReachSelf(l, entry);
    assert IsHeap(candidates, false) && IsHeap(results, true);
    assert SearchInv(l, entry, cap, visited, multiset(candidates), multiset(results), {});
    results, visited := Explore(l, entry, cap, candidates, results, visited);
    r := Drain(results);
    SearchDone(l, entry, cap, visited, multiset(results), r);
  }

  /** The main loop: expand the nearest waiting candidate until none can improve the results. */
  method Explore(l: Layer, ghost entry: nat, cap: nat, candidates0: seq<Candidate>, results0: seq<Candidate>,
                 visited0: set<nat>)
    returns (results: seq<Candidate>, visited: set<nat>)
    requires IsHeap(candidates0, false) && IsHeap(results0, true)
    requires SearchInv(l, entry, cap, visited0, multiset(candidates0), multiset(results0), {})
    ensures IsHeap(results, true) && Finished(l, entry, cap, visited, multiset(results))
  {
    hide SearchInv, IsHeap, First, Finished;
    results, visited := results0, visited0;
    var candidates := candidates0;
    while candidates != []
      invariant IsHeap(candidates, false) && IsHeap(results, true)
      invariant SearchInv(l, entry, cap, visited, multiset(candidates), multiset(results), {})
      decreases |l.nodes.Keys - visited| + |candidates|
    {
      var current, rest := Pop(candidates, false);
      assert |multiset(rest)| == |multiset(candidates)| - 1;
      TakeStep(l, entry, cap, visited, candidates, current, multiset(rest), results);
      if current.distance > results[0].distance && |results| >= cap {
        StopStep(l, entry, cap, visited, candidates, current, multiset(rest), results);
        return;
      }
      visited, candidates, results := ExpandNode(l, entry, cap, current.id, visited, rest, results);
    }
    assert multiset(candidates) == multiset{};
    ExhaustedStep(l, entry, cap, visited, multiset(results));
  }

  lemma ExhaustedStep(l: Layer, entry: nat, cap: nat, visited: set<nat>, r: multiset<Candidate>)
    requires SearchInv(l, entry, cap, visited, multiset{}, r, {})
    ensures Finished(l, entry, cap, visited, r)
  {
  }

  lemma TakeStep(l: Layer, entry: nat, cap: nat, visited: set<nat>, candidates: seq<Candidate>,
                 current: Candidate, rest: multiset<Candidate>, results: seq<Candidate>)
    requires SearchInv(l, entry, cap, visited, multiset(candidates), multiset(results), {})
    requires multiset(candidates) == rest + multiset{current}
    ensures current.id in l.nodes && current == l.Cand(current.id) && l.Reach(entry, current.id)
    ensures 0 < |results| <= cap
    ensures SearchInv(l, entry, cap, visited, rest, multiset(results), {current.id})
  {
    assert |multiset(results)| == |results|;
    assert current in multiset(candidates);
    forall c | c in multiset(results)
      ensures c in rest || c.id in {current.id} || Expanded(l, visited, c.id)
    {
    }
  }

  // ---------- what follows from a layer result ----------

  function Ids(r: seq<Candidate>): (s: seq<nat>)
    ensures |s| == |r| && forall i :: 0 <= i < |s| ==> s[i] == r[i].id
  {
    seq(|r|, i requires 0 <= i < |r| => r[i].id)
  }

  lemma DistinctIds(l: Layer, r: seq<Candidate>)
    requires Scored(l, multiset(r)) && Single(multiset(r))
    ensures NoDup(Ids(r))
    ensures forall id :: id in Ids(r) <==> id in l.nodes && l.Cand(id) in r
  {
    forall i, j | 0 <= i < j < |r| ensures r[i].id != r[j].id {
      assert r[i] in multiset(r) && r[j] in multiset(r);
      if r[i].id == r[j].id { OncePosition(r, i, j); }
    }
    forall id | id in l.nodes && l.Cand(id) in r ensures id in Ids(r) {
      var i :| 0 <= i < |r| && r[i] == l.Cand(id);
      assert Ids(r)[i] == id;
    }
    forall id | id in Ids(r) ensures id in l.nodes && l.Cand(id) in r {
      var i :| 0 <= i < |r| && Ids(r)[i] == id;
      assert r[i] in multiset(r);
    }
  }

  /** The nearest result is at least as near as the entry point. */
  lemma NearerThanEntry(l: Layer, entry: nat, cap: nat, r: seq<Candidate>)
    requires LayerResult(l, entry, cap, r)
    ensures |r| > 0 && r[0].id in l.nodes && r[0].distance <= l.Dist(entry)
  {
    assert r[0] in multiset(r);
    if l.Cand(entry) in multiset(r) {
      var i :| 0 <= i < |r| && r[i] == l.Cand(entry);
    }
  }

  lemma FullHoldsAll(l: Layer, r: seq<Candidate>)
    requires Scored(l, multiset(r)) && Single(multiset(r)) && |r| >= |l.nodes|
    ensures forall v :: v in l.nodes ==> l.Cand(v) in r
  {
    DistinctIds(l, r);
    NoDupSize(Ids(r));
    SubsetSize(Elems(Ids(r)), l.nodes.Keys);
    assert |l.nodes.Keys| == |l.nodes|;
    forall v | v in l.nodes ensures l.Cand(v) in r {
      assert v in l.nodes.Keys && v in Elems(Ids(r));
    }
  }

  lemma {:induction false} ReachedIsReturned(l: Layer, entry: nat, cap: nat, r: seq<Candidate>, v: nat, n: nat)
    requires LayerResult(l, entry, cap, r) && cap >= |l.nodes|
    requires l.ReachIn(entry, v, n)
    ensures v in l.nodes && l.Cand(v) in r
    decreases n
  {
    if |r| == cap {
      FullHoldsAll(l, r);
      if n > 0 { var w :| l.ReachIn(entry, w, n - 1) && l.Edge(w, v); }
    } else {
      assert |multiset(r)| < cap;
      if n > 0 {
        var w :| l.ReachIn(entry, w, n - 1) && l.Edge(w, v);
        ReachedIsReturned(l, entry, cap, r, w, n - 1);
        assert Settled(l, cap, multiset(r), v);
      }
    }
  }

  /** With room for every node the search returns exactly the nodes reachable on the layer. */
  lemma ReturnsReachable(l: Layer, entry: nat, cap: nat, r: seq<Candidate>, v: nat)
    requires LayerResult(l, entry, cap, r) && cap >= |l.nodes|
    ensures l.Reach(entry, v) <==> v in Ids(r)
  {
    DistinctIds(l, r);
    if l.Reach(entry, v) {
      var n: nat :| l.ReachIn(entry, v, n);
      ReachedIsReturned(l, entry, cap, r, v, n);
    }
    if v in Ids(r) {
      assert l.Cand(v) in multiset(r);
    }
  }
}
