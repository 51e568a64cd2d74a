/** Small insert-only indexes: no list is ever pruned, links are mutual, level 0 is connected,
    and Search is exact. */
module HnswExact {
  import opened Wrappers
  import opened Seqs
  import opened Heap
  import opened LayerSearch
  import opened HnswGraph
  import opened HnswOps

  /** Every listed node is live and lists back. */
  ghost predicate Mutual(nodes: Nodes) {
    forall u, l, v :: u in nodes && 0 <= l < |nodes[u].neighbors| && v in nodes[u].neighbors[l] ==>
        LinksBack(nodes, v, u, l)
  }

  /** No link of `a` is missing in `b`. */
  ghost predicate Grown(a: Nodes, b: Nodes) {
    && SameShape(a, b)
    && forall u, l, v :: u in a && 0 <= l < |a[u].neighbors| && v in a[u].neighbors[l] ==> v in b[u].neighbors[l]
  }

  lemma RoomLeft(f: Nodes, nodes: Nodes, w: nat, node: Node, s: nat, l: nat, m: nat)
    requires f == nodes[w := node] && w !in nodes && Mutual(f) && ListsInv(f, m)
    requires s in nodes && l < |nodes[s].neighbors| && l < |node.neighbors| && s !in node.neighbors[l]
    ensures w !in nodes[s].neighbors[l]
    ensures |nodes[s].neighbors[l]| < |nodes|
  {
    var links := nodes[s].neighbors[l];
    assert f[s] == nodes[s] && f[w] == node;
    assert ListOk(f, s, l, m);
    assert forall v :: v in links ==> LinksBack(f, v, s, l);
    NoDupSize(links);
    assert Elems(links) <= nodes.Keys - {s};
    SubsetSize(Elems(links), nodes.Keys - {s});
    assert |nodes.Keys - {s}| == |nodes.Keys| - 1;
    assert |nodes.Keys| == |nodes|;
  }

  lemma RelinkMutual(f: Nodes, s: nat, w: nat, l: nat, older: seq<nat>, newer: seq<nat>, f': Nodes)
    requires Mutual(f) && s in f && w in f && l < |f[s].neighbors| && l < |f[w].neighbors| && s != w
    requires older == f[s].neighbors[l] + [w] && newer == f[w].neighbors[l] + [s]
    requires Relinked(f, s, w, l, older, newer, f')
    ensures Mutual(f')
  {
    forall u, k, v | u in f' && 0 <= k < |f'[u].neighbors| && v in f'[u].neighbors[k]
      ensures LinksBack(f', v, u, k)
    {
      assert f'[u].neighbors[k] == ListAfter(f, s, w, l, older, newer, u, k);
      if v in f[u].neighbors[k] {
        assert LinksBack(f, v, u, k);
        assert f'[v].neighbors[k] == ListAfter(f, s, w, l, older, newer, v, k);
      } else {
        assert k == l && ((u == s && v == w) || (u == w && v == s));
        assert f'[v].neighbors[l] == ListAfter(f, s, w, l, older, newer, v, l);
        assert older[|older| - 1] == w && newer[|newer| - 1] == s;
      }
    }
  }

  lemma ConnectMutual(nodes: Nodes, w: nat, node: Node, s: nat, l: nat, m: nat)
    requires w !in nodes && AllBelow(nodes, w) && ListsInv(nodes[w := node], m) && Mutual(nodes[w := node])
    requires s in nodes && l < |nodes[s].neighbors| && l < |node.neighbors|
    requires s !in node.neighbors[l] && |nodes| <= 2 * m
    ensures Mutual(Connect(nodes, s, w, l, m)[w := Listing(node, l, node.neighbors[l] + [s])])
    ensures Grown(nodes, Connect(nodes, s, w, l, m))
  {
    var f := nodes[w := node];
    var links := nodes[s].neighbors[l];
    assert f[s] == nodes[s] && f[w] == node;
    RoomLeft(f, nodes, w, node, s, l, m);
    ConnectRelinks(nodes, w, node, s, l, m);
    hide ListsInv, Relinked, Mutual;
    assert Appended(nodes, links, w, m) == links + [w];
    RelinkMutual(f, s, w, l, links + [w], node.neighbors[l] + [s],
                 Connect(nodes, s, w, l, m)[w := Listing(node, l, node.neighbors[l] + [s])]);
  }

  lemma GrownTrans(a: Nodes, b: Nodes, c: Nodes)
    requires Grown(a, b) && Grown(b, c)
    ensures Grown(a, c)
  {
    forall u, l, v | u in a && 0 <= l < |a[u].neighbors| && v in a[u].neighbors[l] ensures v in c[u].neighbors[l] {
      assert v in b[u].neighbors[l];
    }
  }

  lemma NothingConnected(nodes: Nodes, node: Node, l: nat)
    requires l < |node.neighbors| && node.neighbors[l] == []
    ensures Grown(nodes, nodes) && Listing(node, l, []) == node
  {
  }

  lemma {:induction false} ConnectAllMutual(nodes: Nodes, w: nat, node: Node, sel: seq<nat>, l: nat, m: nat)
    requires w !in nodes && AllBelow(nodes, w) && ListsInv(nodes[w := node], m) && Mutual(nodes[w := node])
    requires l < |node.neighbors| && node.neighbors[l] == []
    requires NoDup(sel) && |sel| <= m && AllAtLevel(sel, nodes, l) && |nodes| <= 2 * m
    ensures Mutual(ConnectAll(nodes, sel, w, l, m)[w := Listing(node, l, sel)])
    ensures Grown(nodes, ConnectAll(nodes, sel, w, l, m))
  {
    hide ListsInv, Mutual, Grown, Connect;
    if sel == [] {
      NothingConnected(nodes, node, l);
    } else {
      var front, s := sel[..|sel| - 1], sel[|sel| - 1];
      ConnectAllMutual(nodes, w, node, front, l, m);
      ConnectAllKeeps(nodes, w, node, front, l, m);
      ConnectAllShape(nodes, front, w, l, m);
      assert front + [s] == sel && s in sel;
      var mid := ConnectAll(nodes, front, w, l, m);
      assert |mid.Keys| == |nodes.Keys|;
      ConnectMutual(mid, w, Listing(node, l, front), s, l, m);
      GrownTrans(nodes, mid, ConnectAll(nodes, sel, w, l, m));
      assert Listing(Listing(node, l, front), l, front + [s]) == Listing(node, l, sel);
    }
  }

  ghost predicate DraftMutual(nodes: Nodes, w: nat, vector: Vector, level: nat, d: Draft) {
    Mutual(d.nodes[w := Node(vector, level, d.neighbors)]) && Grown(nodes, d.nodes)
  }

  lemma LevelMutual(cfg: Config, nodes: Nodes, w: nat, vector: Vector, level: nat, l: nat, d: Draft, r: seq<Candidate>,
                    d': Draft)
    requires DraftInv(cfg, nodes, w, vector, level, l + 1, d) && l <= level && |nodes| <= 2 * cfg.m
    requires LevelStep(cfg, w, vector, d, r, l, d') && DraftMutual(nodes, w, vector, level, d)
    ensures DraftMutual(nodes, w, vector, level, d')
  {
    var layer := Layer(d.nodes, cfg.metric, vector, l);
    var node := Node(vector, level, d.neighbors);
    InvLevelsWithout(d.nodes, w, node, cfg.m);
    ResultsAtLevel(layer, d.ep, AtLeastOne(cfg.efConstruction), r, cfg.m);
    var sel := Take(Ids(r), cfg.m);
    assert |d.nodes.Keys| == |nodes.Keys|;
    hide ListsInv, LevelsOk, LayerResult, Mutual, Grown;
    ConnectAllMutual(d.nodes, w, node, sel, l, cfg.m);
    GrownTrans(nodes, d.nodes, d'.nodes);
    assert Listing(node, l, sel) == Node(vector, level, d'.neighbors);
  }

  lemma {:induction false} InsertMutual(cfg: Config, nodes: Nodes, w: nat, vector: Vector, level: nat, d0: Draft,
                                        top: int, l: nat, d: Draft)
    requires top <= level && l <= top + 1 && |nodes| <= 2 * cfg.m
    requires DraftInv(cfg, nodes, w, vector, level, top + 1, d0) && DraftMutual(nodes, w, vector, level, d0)
    requires Inserted(cfg, w, vector, d0, top, l, d)
    ensures DraftMutual(nodes, w, vector, level, d)
    decreases top + 1 - l
  {
    hide DraftInv, LevelStep, DraftMutual;
    if l <= top {
      var d1, r :| Inserted(cfg, w, vector, d0, top, l + 1, d1) && LevelStep(cfg, w, vector, d1, r, l, d);
      InsertMutual(cfg, nodes, w, vector, level, d0, top, l + 1, d1);
      InsertKeeps(cfg, nodes, w, vector, level, d0, top, l + 1, d1);
      LevelMutual(cfg, nodes, w, vector, level, l, d1, r, d);
    }
  }

  lemma FreshMutual(nodes: Nodes, w: nat, node: Node)
    requires Mutual(nodes) && w !in nodes && node.level >= 0 && node.neighbors == NoLinks(node.level)
    ensures Mutual(nodes[w := node])
  {
    var f := nodes[w := node];
    forall u, l, v | u in f && 0 <= l < |f[u].neighbors| && v in f[u].neighbors[l] ensures LinksBack(f, v, u, l) {
      if u != w {
        assert f[u] == nodes[u] && LinksBack(nodes, v, u, l);
      }
    }
  }

  lemma AddMutual(cfg: Config, g: Graph, w: nat, vector: Vector, level: nat, ep: nat, d: Draft)
    requires GraphInv(cfg, g) && g.hasEntry && w !in g.nodes && AllBelow(g.nodes, w)
    requires Mutual(g.nodes) && |g.nodes| <= 2 * cfg.m
    requires LinkedInto(cfg, g, w, vector, level, ep, d)
    ensures DraftMutual(g.nodes, w, vector, level, d)
  {
    hide Inserted, Descended, Mutual, DraftInv, GraphInv;
    var top := Min(level, g.maxLevel);
    var d0 := Draft(g.nodes, NoLinks(level), ep);
    FreshDraft(cfg, g, w, vector, level, ep);
    EntryLevel(cfg, g);
    FreshMutual(g.nodes, w, Node(vector, level, NoLinks(level)));
    InsertMutual(cfg, g.nodes, w, vector, level, d0, top, 0, d);
  }

  // ---------- connectivity of level 0 ----------

  /** Level 0, seen from no query in particular. */
  function Base(nodes: Nodes): Layer {
    Layer(nodes, (a: Vector, b: Vector) => 0.0, [], 0)
  }

  ghost predicate Connected(nodes: Nodes) {
    forall u, v :: u in nodes && v in nodes ==> Base(nodes).Reach(u, v)
  }

  lemma {:induction false} ReachMono(a: Layer, b: Layer, u: nat, v: nat, n: nat)
    requires a.ReachIn(u, v, n)
    requires forall x, y :: a.Edge(x, y) ==> b.Edge(x, y)
    requires a.nodes.Keys <= b.nodes.Keys
    ensures b.ReachIn(u, v, n)
    decreases n
  {
    if n > 0 {
      var w :| a.ReachIn(u, w, n - 1) && a.Edge(w, v);
      ReachMono(a, b, u, w, n - 1);
    }
  }

  lemma {:induction false} ReachFront(l: Layer, u: nat, x: nat, v: nat, n: nat)
    requires l.Edge(u, x) && l.ReachIn(x, v, n)
    ensures l.ReachIn(u, v, n + 1)
    decreases n
  {
    if n == 0 {
      assert l.ReachIn(u, u, 0);
    } else {
      var w :| l.ReachIn(x, w, n - 1) && l.Edge(w, v);
      ReachFront(l, u, x, w, n - 1);
    }
  }

  /** A connected graph stays connected when a node with mutual links joins. */
  lemma JoinConnected(nodes: Nodes, grown: Nodes, w: nat, node: Node, s: nat)
    requires Connected(nodes) && Grown(nodes, grown) && w !in nodes
    requires Mutual(grown[w := node]) && |node.neighbors| > 0 && s in node.neighbors[0] && s in nodes
    ensures Connected(grown[w := node])
  {
    var f := grown[w := node];
    var l := Base(f);
    assert f[w] == node && LinksBack(f, s, w, 0);
    assert l.Edge(w, s) && l.Edge(s, w);
    forall u, v | u in f && v in f ensures l.Reach(u, v) {
      if u == w && v == w {
        ReachSelf(l, w);
      } else if u == w {
        var n := OldReach(nodes, grown, w, node, s, v);
        ReachFront(l, w, s, v, n);
      } else if v == w {
        var n := OldReach(nodes, grown, w, node, u, s);
        ReachStep(l, u, s, w);
      } else {
        var n := OldReach(nodes, grown, w, node, u, v);
      }
    }
  }

  lemma OldReach(nodes: Nodes, grown: Nodes, w: nat, node: Node, u: nat, v: nat) returns (n: nat)
    requires Connected(nodes) && Grown(nodes, grown) && w !in nodes && u in nodes && v in nodes
    ensures Base(grown[w := node]).ReachIn(u, v, n)
  {
    var a, b := Base(nodes), Base(grown[w := node]);
    assert a.Reach(u, v);
    n :| a.ReachIn(u, v, n);
    forall x, y | a.Edge(x, y) ensures b.Edge(x, y) {
      assert y in nodes[x].neighbors[0];
    }
    ReachMono(a, b, u, v, n);
  }

  // ---------- insert-only runs ----------

  predicate InsertOnly(ops: seq<Op>) {
    forall i :: 0 <= i < |ops| ==> ops[i].Insert?
  }

  lemma SmallAdd(cfg: Config, g: Graph, w: nat, vector: Vector, level: nat, g': Graph)
    requires cfg.m >= 1 && GraphInv(cfg, g) && AllBelow(g.nodes, w) && AddStep(cfg, g, w, vector, level, g')
    requires Mutual(g.nodes) && Connected(g.nodes) && |g'.nodes| <= 2 * cfg.m + 1 && g.maxLevel >= 0
    ensures Mutual(g'.nodes) && Connected(g'.nodes)
  {
    if |vector| == cfg.dimensions && w !in g.nodes {
      hide LinkedInto, Connected, Mutual, AllIn, ListsInv;
      AddNodes(cfg, g, w, vector, level, g');
      assert |g'.nodes.Keys| == |g.nodes.Keys| + 1;
      if !g.hasEntry {
        FirstNode(g, w, vector, level, g');
      } else {
        InsertedNodeLinked(cfg, g, w, vector, level, g', 0);
        var ep, d :| LinkedInto(cfg, g, w, vector, level, ep, d) && g' == Completed(g, w, vector, level, d);
        AddMutual(cfg, g, w, vector, level, ep, d);
        var s := g'.nodes[w].neighbors[0][0];
        FirstIsIn(g'.nodes[w].neighbors[0], g.nodes);
        JoinConnected(g.nodes, d.nodes, w, Node(vector, level, d.neighbors), s);
      }
    }
  }

  lemma FirstIsIn(links: seq<nat>, nodes: Nodes)
    requires |links| > 0 && AllIn(links, nodes)
    ensures links[0] in nodes
  {
  }

  lemma FirstNode(g: Graph, w: nat, vector: Vector, level: nat, g': Graph)
    requires EntryInv(g) && !g.hasEntry
    requires g' == Graph(g.nodes[w := Node(vector, level, NoLinks(level))], w, true, level)
    ensures Mutual(g'.nodes) && Connected(g'.nodes)
  {
    assert g'.nodes.Keys == {w};
    ReachSelf(Base(g'.nodes), w);
  }

  /** Over insert-only runs of at most 2M+1 vectors links are mutual and level 0 connected. */
  lemma {:induction false} SmallRun(cfg: Config, ops: seq<Op>, g: Graph)
    requires cfg.m >= 1 && InsertOnly(ops) && Runs(cfg, ops, g) && |g.nodes| <= 2 * cfg.m + 1
    ensures Mutual(g.nodes) && Connected(g.nodes)
  {
    if ops != [] {
      hide Mutual, Connected, AddStep, GraphInv;
      var front, last := ops[..|ops| - 1], ops[|ops| - 1];
      var g0 :| Runs(cfg, front, g0) && Step(cfg, g0, last, g);
      RunKeeps(cfg, front, g0);
      if |last.vector| == cfg.dimensions {
        AddNodes(cfg, g0, last.id, last.vector, last.level, g);
        SubsetSize(g0.nodes.Keys, g.nodes.Keys);
      } else {
        RejectedAdd(cfg, g0, last.id, last.vector, last.level, g);
      }
      assert |g0.nodes.Keys| <= |g.nodes.Keys|;
      SmallRun(cfg, front, g0);
      SmallAdd(cfg, g0, last.id, last.vector, last.level, g);
    }
  }

  // ---------- what Search returns ----------

  lemma {:induction false} MatchingMembers(r: seq<Candidate>, filter: Option<set<nat>>)
    ensures forall c :: c in Matching(r, filter) <==> c in r && Passes(filter, c.id)
  {
    if r != [] {
      MatchingMembers(r[..|r| - 1], filter);
      assert r == r[..|r| - 1] + [r[|r| - 1]];
    }
  }

  lemma {:induction false} MatchingOrder(r: seq<Candidate>, filter: Option<set<nat>>)
    requires Sorted(r) && NoDup(r)
    ensures Sorted(Matching(r, filter)) && NoDup(Matching(r, filter))
  {
    hide Passes;
    if r != [] {
      var front, last := r[..|r| - 1], r[|r| - 1];
      MatchingOrder(front, filter);
      MatchingMembers(front, filter);
      var s := Matching(front, filter);
      forall i | 0 <= i < |s| ensures s[i].distance <= last.distance && s[i] != last {
        assert s[i] in front;
        var k :| 0 <= k < |front| && front[k] == s[i];
        assert r[k] == s[i];
      }
    }
  }

  ghost predicate TrueDistances(l: Layer, r: seq<Candidate>) {
    forall c :: c in r ==> c.id in l.nodes && c == l.Cand(c.id)
  }

  /** Results are sorted, distinct, live, at their true distance, among `ids`, and number at most `k`
      (or one). */
  ghost predicate SoundResults(l: Layer, k: nat, ids: set<nat>, results: seq<Candidate>) {
    && Sorted(results) && NoDup(results) && TrueDistances(l, results)
    && |results| <= (if k == 0 then 1 else k)
    && forall c :: c in results ==> c.id in ids
  }

  lemma FoundFacts(l: Layer, entry: nat, cap: nat, found: seq<Candidate>)
    requires LayerResult(l, entry, cap, found)
    ensures Sorted(found) && NoDup(found) && TrueDistances(l, found)
  {
    DistinctIds(l, found);
    forall i, j | 0 <= i < j < |found| ensures found[i] != found[j] {
      assert Ids(found)[i] != Ids(found)[j];
    }
    assert forall c :: c in found ==> c in multiset(found);
  }

  function MatchingIds(nodes: Nodes, filter: Option<set<nat>>): set<nat> {
    set id | id in nodes && Passes(filter, id)
  }

  /** The nodes that pass a filter: all of them if it is missing or empty. */
  lemma PassingIds(nodes: Nodes, filter: Option<set<nat>>)
    ensures filter.None? || filter.value == {} ==> MatchingIds(nodes, filter) == nodes.Keys
    ensures filter.Some? && filter.value != {} ==> MatchingIds(nodes, filter) == nodes.Keys * filter.value
  {
  }

  lemma SoundMatching(cfg: Config, g: Graph, query: Vector, k: nat, filter: Option<set<nat>>, ep: nat,
                      found: seq<Candidate>, results: seq<Candidate>)
    requires SearchOutcome(cfg, g, query, k, filter, ep, found, results)
    ensures SoundResults(Layer(g.nodes, cfg.metric, query, 0), k, MatchingIds(g.nodes, filter), results)
  {
    FoundFacts(Layer(g.nodes, cfg.metric, query, 0), ep,
               AtLeastOne(Greater(SearchK(k, filter, |g.nodes|), cfg.efSearch)), found);
    hide LayerResult, Descended, Matching, Sorted, NoDup, SoundResults, Passes;
    var s := Matching(found, filter);
    MatchingOrder(found, filter);
    MatchingMembers(found, filter);
    assert results == s[..|results|];
    PrefixSound(Layer(g.nodes, cfg.metric, query, 0), k, filter, s, |results|);
  }

  /** What Search promises on every index, small or not: with a non-empty filter every result is in it,
      with an empty or missing one any node may be a result. */
  lemma SoundSearch(cfg: Config, g: Graph, query: Vector, k: nat, filter: Option<set<nat>>, ep: nat,
                    found: seq<Candidate>, results: seq<Candidate>)
    requires SearchOutcome(cfg, g, query, k, filter, ep, found, results)
    ensures var l := Layer(g.nodes, cfg.metric, query, 0);
      if filter.Some? && filter.value != {} then SoundResults(l, k, g.nodes.Keys * filter.value, results)
      else SoundResults(l, k, g.nodes.Keys, results)
  {
    hide SearchOutcome, SoundResults, MatchingIds;
    SoundMatching(cfg, g, query, k, filter, ep, found, results);
    PassingIds(g.nodes, filter);
  }

  lemma PrefixSound(l: Layer, k: nat, filter: Option<set<nat>>, s: seq<Candidate>, n: nat)
    requires Sorted(s) && NoDup(s) && TrueDistances(l, s) && n <= |s| && n <= AtLeastOne(k)
    requires forall c :: c in s ==> Passes(filter, c.id)
    ensures SoundResults(l, k, MatchingIds(l.nodes, filter), s[..n])
  {
    assert forall c :: c in s[..n] ==> c in s;
  }

  /** Brute force: as many of `ids` as asked for, and none left out is closer. */
  ghost predicate BruteForce(l: Layer, k: nat, ids: set<nat>, results: seq<Candidate>)
    requires ids <= l.nodes.Keys
  {
    && SoundResults(l, k, ids, results)
    && |results| == Min(if k == 0 then 1 else k, |ids|)
    && forall id, c :: id in ids && l.Cand(id) !in results && c in results ==> c.distance <= l.Dist(id)
  }

  lemma IdsOf(l: Layer, s: seq<Candidate>)
    requires NoDup(s) && TrueDistances(l, s)
    ensures NoDup(Ids(s))
    ensures forall id :: id in Ids(s) <==> id in l.nodes && l.Cand(id) in s
  {
    forall i, j | 0 <= i < j < |s| ensures Ids(s)[i] != Ids(s)[j] {
      assert s[i] in s && s[j] in s;
    }
    forall id ensures id in Ids(s) <==> id in l.nodes && l.Cand(id) in s {
      if id in Ids(s) {
        var i :| 0 <= i < |s| && Ids(s)[i] == id;
        assert s[i] in s;
      }
      if id in l.nodes && l.Cand(id) in s {
        var i :| 0 <= i < |s| && s[i] == l.Cand(id);
        assert Ids(s)[i] == id;
      }
    }
  }

  lemma CompleteMatching(l: Layer, found: seq<Candidate>, filter: Option<set<nat>>)
    requires Sorted(found) && NoDup(found) && TrueDistances(l, found)
    requires forall v :: v in l.nodes ==> l.Cand(v) in found
    ensures |Matching(found, filter)| == |MatchingIds(l.nodes, filter)|
    ensures forall id :: id in l.nodes && Passes(filter, id) ==> l.Cand(id) in Matching(found, filter)
  {
    hide Matching, Passes;
    var s := Matching(found, filter);
    MatchingMembers(found, filter);
    MatchingOrder(found, filter);
    IdsOf(l, s);
    NoDupSize(Ids(s));
    hide Sorted, NoDup;
    forall id ensures id in Elems(Ids(s)) <==> id in MatchingIds(l.nodes, filter) {
      assert id in Ids(s) <==> id in l.nodes && l.Cand(id) in s;
    }
    assert Elems(Ids(s)) == MatchingIds(l.nodes, filter);
  }

  lemma TakeNearest(l: Layer, s: seq<Candidate>, n: nat, id: nat, c: Candidate)
    requires Sorted(s) && n <= |s| && id in l.nodes && l.Cand(id) in s && l.Cand(id) !in s[..n] && c in s[..n]
    ensures c.distance <= l.Dist(id)
  {
    var j :| 0 <= j < |s| && s[j] == l.Cand(id);
    var i :| 0 <= i < n && s[i] == c;
    assert forall x :: 0 <= x < n ==> s[x] in s[..n];
  }

  lemma ExactMatching(cfg: Config, g: Graph, query: Vector, k: nat, filter: Option<set<nat>>, ep: nat,
                      found: seq<Candidate>, results: seq<Candidate>)
    requires SearchOutcome(cfg, g, query, k, filter, ep, found, results)
    requires forall v :: v in g.nodes ==> Layer(g.nodes, cfg.metric, query, 0).Cand(v) in found
    ensures BruteForce(Layer(g.nodes, cfg.metric, query, 0), k, MatchingIds(g.nodes, filter), results)
  {
    hide LayerResult, Descended, TrueDistances, SoundResults, Matching, Passes, Sorted, NoDup;
    var l := Layer(g.nodes, cfg.metric, query, 0);
    var s := Matching(found, filter);
    FoundFacts(l, ep, AtLeastOne(Greater(SearchK(k, filter, |g.nodes|), cfg.efSearch)), found);
    SoundMatching(cfg, g, query, k, filter, ep, found, results);
    CompleteMatching(l, found, filter);
    MatchingOrder(found, filter);
    assert results == s[..|results|];
    forall id, c | id in MatchingIds(l.nodes, filter) && l.Cand(id) !in results && c in results
      ensures c.distance <= l.Dist(id)
    {
      TakeNearest(l, s, |results|, id, c);
    }
  }

  /** If every node was found, the results are those of brute force over the filter's own nodes. */
  lemma ExactFromAll(cfg: Config, g: Graph, query: Vector, k: nat, filter: Option<set<nat>>, ep: nat,
                     found: seq<Candidate>, results: seq<Candidate>)
    requires SearchOutcome(cfg, g, query, k, filter, ep, found, results)
    requires forall v :: v in g.nodes ==> Layer(g.nodes, cfg.metric, query, 0).Cand(v) in found
    ensures var l := Layer(g.nodes, cfg.metric, query, 0);
      if filter.Some? && filter.value != {} then BruteForce(l, k, g.nodes.Keys * filter.value, results)
      else BruteForce(l, k, g.nodes.Keys, results)
  {
    ExactMatching(cfg, g, query, k, filter, ep, found, results);
    PassingIds(g.nodes, filter);
    hide SearchOutcome, BruteForce, Passes;
  }

  lemma ReachSameLayer(a: Layer, b: Layer, u: nat, v: nat)
    requires a.nodes == b.nodes && a.level == b.level && a.Reach(u, v)
    ensures b.Reach(u, v)
  {
    var n: nat :| a.ReachIn(u, v, n);
    ReachMono(a, b, u, v, n);
  }

  lemma AllFound(cfg: Config, g: Graph, query: Vector, ep: nat, cap: nat, found: seq<Candidate>, v: nat)
    requires Connected(g.nodes) && ep in g.nodes && cap >= |g.nodes| && v in g.nodes
    requires LayerResult(Layer(g.nodes, cfg.metric, query, 0), ep, cap, found)
    ensures Layer(g.nodes, cfg.metric, query, 0).Cand(v) in found
  {
    var l := Layer(g.nodes, cfg.metric, query, 0);
    ReachSameLayer(Base(g.nodes), l, ep, v);
    ReturnsReachable(l, ep, cap, found, v);
    DistinctIds(l, found);
  }

  /** The search is as wide as the index exactly when efSearch is, or `k`, or ten times `k` under a
      filter that counts. */
  lemma SearchWidth(cfg: Config, count: nat, k: nat, filter: Option<set<nat>>)
    ensures count <= AtLeastOne(Greater(SearchK(k, filter, count), cfg.efSearch)) <==>
            || count <= 1 || count <= cfg.efSearch || count <= k
            || (filter.Some? && filter.value != {} && count <= 10 * k)
  {
  }

  /** Search on a small insert-only index is exact, for every filter and every `k`. */
  lemma SmallSearchExact(cfg: Config, ops: seq<Op>, g: Graph, query: Vector, k: nat, filter: Option<set<nat>>,
                         ep: nat, found: seq<Candidate>, results: seq<Candidate>)
    requires cfg.m >= 1 && InsertOnly(ops) && Runs(cfg, ops, g) && g.hasEntry
    requires |g.nodes| <= 2 * cfg.m + 1
    requires || |g.nodes| <= 1 || |g.nodes| <= cfg.efSearch || |g.nodes| <= k
             || (filter.Some? && filter.value != {} && |g.nodes| <= 10 * k)
    requires SearchOutcome(cfg, g, query, k, filter, ep, found, results)
    ensures var l := Layer(g.nodes, cfg.metric, query, 0);
      if filter.Some? && filter.value != {} then BruteForce(l, k, g.nodes.Keys * filter.value, results)
      else BruteForce(l, k, g.nodes.Keys, results)
  {
    hide Runs, Connected, Mutual, LayerResult, BruteForce, Descended, ListsInv, LevelsOk, InsertOnly, SearchK;
    SmallRun(cfg, ops, g);
    RunKeeps(cfg, ops, g);
    InvLevels(g.nodes, cfg.m);
    DescentKeeps(cfg, g.nodes, query, g.entryPoint, g.maxLevel, 0, ep);
    SearchWidth(cfg, |g.nodes|, k, filter);
    forall v | v in g.nodes ensures Layer(g.nodes, cfg.metric, query, 0).Cand(v) in found {
      AllFound(cfg, g, query, ep, AtLeastOne(Greater(SearchK(k, filter, |g.nodes|), cfg.efSearch)), found, v);
    }
    ExactFromAll(cfg, g, query, k, filter, ep, found, results);
  }
}
