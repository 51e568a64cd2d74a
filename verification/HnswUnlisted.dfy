/** Nodes that no list mentions: a search cannot reach them, and no later insertion links them again. */
module HnswUnlisted {
  import opened Seqs
  import opened Heap
  import opened LayerSearch
  import opened HnswGraph
  import opened HnswOps
  import opened HnswExact

  // ---------- a layer search has a result ----------

  lemma {:induction false} Farthest(l: Layer, ids: set<nat>) returns (v: nat)
    requires ids != {} && ids <= l.nodes.Keys
    ensures v in ids && forall u :: u in ids ==> l.Dist(u) <= l.Dist(v)
    decreases ids
  {
    v :| v in ids;
    if ids != {v} {
      var x := v;
      var rest := ids - {x};
      assert ids == rest + {x};
      v := Farthest(l, rest);
      assert forall u :: u in ids ==> u == x || u in rest;
      if l.Dist(v) < l.Dist(x) { v := x; }
    } else {
      assert forall u :: u in ids ==> u == v;
    }
  }

  /** `s` lists the nodes `ids`, each once, nearest first. */
  ghost predicate Listed(l: Layer, ids: set<nat>, s: seq<Candidate>) {
    && Sorted(s) && NoDup(s)
    && forall c :: c in s <==> c.id in ids && c.id in l.nodes && c == l.Cand(c.id)
  }

  lemma {:induction false} Listing(l: Layer, ids: set<nat>) returns (s: seq<Candidate>)
    requires ids <= l.nodes.Keys
    ensures Listed(l, ids, s)
    decreases ids
  {
    s := [];
    if ids != {} {
      var v := Farthest(l, ids);
      var front := Listing(l, ids - {v});
      s := front + [l.Cand(v)];
      forall c ensures c in s <==> c.id in ids && c.id in l.nodes && c == l.Cand(c.id) {
        assert c in s <==> c in front || c == l.Cand(v);
      }
      forall i | 0 <= i < |front| ensures front[i].distance <= l.Dist(v) && front[i] != l.Cand(v) {
        assert front[i] in front;
      }
    }
  }

  lemma NoDupSingle(s: seq<Candidate>)
    requires NoDup(s)
    ensures Single(multiset(s))
  {
    forall c | c in multiset(s) ensures multiset(s)[c] == 1 { CountNoDup(s, c); }
  }

  /** A node beyond the first `cap` of a listing is no nearer than they are. */
  lemma PrefixSettles(l: Layer, cap: nat, ids: set<nat>, s: seq<Candidate>, r: seq<Candidate>, v: nat)
    requires Listed(l, ids, s) && r == s[..Min(cap, |s|)] && v in ids && v in l.nodes
    ensures Settled(l, cap, multiset(r), v)
  {
    assert l.Cand(v) in s;
    if l.Cand(v) !in r {
      var j :| 0 <= j < |s| && s[j] == l.Cand(v);
      assert forall x :: 0 <= x < |r| ==> s[x] == r[x] && r[x] in r;
      assert |multiset(r)| == |r| == cap;
      forall c | c in multiset(r) ensures c.distance <= l.Dist(v) {
        var i :| 0 <= i < |r| && r[i] == c;
        assert s[i] == c;
      }
    }
  }

  lemma PrefixListed(l: Layer, ids: set<nat>, s: seq<Candidate>, n: nat)
    requires Listed(l, ids, s) && n <= |s|
    ensures Sorted(s[..n]) && Single(multiset(s[..n])) && Scored(l, multiset(s[..n]))
    ensures forall c :: c in multiset(s[..n]) <==> c in s[..n]
    ensures forall c :: c in s[..n] ==> c.id in ids
  {
    NoDupSingle(s[..n]);
    assert forall c :: c in s[..n] ==> c in s;
  }

  /** The nearest of a listing that holds all reachable nodes are a result. */
  lemma PrefixIsResult(l: Layer, entry: nat, cap: nat, ids: set<nat>, s: seq<Candidate>, r: seq<Candidate>)
    requires entry in l.nodes && cap >= 1 && Listed(l, ids, s) && r == s[..Min(cap, |s|)]
    requires forall v :: v in ids <==> v in l.nodes && l.Reach(entry, v)
    ensures LayerResult(l, entry, cap, r)
  {
    ReachSelf(l, entry);
    assert l.Cand(entry) in s;
    PrefixListed(l, ids, s, Min(cap, |s|));
    PrefixSettles(l, cap, ids, s, r, entry);
    hide Listed, Settled, Sorted, Single, Scored;
    forall c, v | c in r && l.Edge(c.id, v) ensures Settled(l, cap, multiset(r), v) {
      ReachStep(l, entry, c.id, v);
      PrefixSettles(l, cap, ids, s, r, v);
    }
  }

  lemma ResultExists(l: Layer, entry: nat, cap: nat) returns (r: seq<Candidate>)
    requires entry in l.nodes && cap >= 1
    ensures LayerResult(l, entry, cap, r)
  {
    hide LayerResult;
    var ids := set v | v in l.nodes && l.Reach(entry, v);
    var s := Listing(l, ids);
    r := s[..Min(cap, |s|)];
    PrefixIsResult(l, entry, cap, ids, s, r);
  }

  // ---------- linking one level, list by list ----------

  /** What linking `w` to the nodes `sel` does to one node. */
  function LinkedNode(nodes: Nodes, sel: seq<nat>, w: nat, l: nat, m: nat, u: nat): Node
    requires u in nodes && l < |nodes[u].neighbors|
  {
    if u in sel then nodes[u].(neighbors := nodes[u].neighbors[l := Appended(nodes, nodes[u].neighbors[l], w, m)])
    else nodes[u]
  }

  lemma {:induction false} ConnectAllLists(nodes: Nodes, sel: seq<nat>, w: nat, l: nat, m: nat, u: nat)
    requires NoDup(sel) && AllAtLevel(sel, nodes, l) && u in nodes && l < |nodes[u].neighbors|
    ensures ConnectAll(nodes, sel, w, l, m).Keys == nodes.Keys
    ensures ConnectAll(nodes, sel, w, l, m)[u] == LinkedNode(nodes, sel, w, l, m, u)
  {
    if sel != [] {
      var front, s := sel[..|sel| - 1], sel[|sel| - 1];
      SplitLast(sel);
      assert s !in front && s in sel;
      var mid := ConnectAll(nodes, front, w, l, m);
      ConnectAllLists(nodes, front, w, l, m, u);
      ConnectAllLists(nodes, front, w, l, m, s);
      ConnectOne(nodes, mid, s, w, l, m, u);
    }
  }

  lemma ConnectOne(nodes: Nodes, mid: Nodes, s: nat, w: nat, l: nat, m: nat, u: nat)
    requires mid.Keys == nodes.Keys && s in nodes && l < |nodes[s].neighbors| && mid[s] == nodes[s] && u in nodes
    ensures Connect(mid, s, w, l, m).Keys == nodes.Keys
    ensures Connect(mid, s, w, l, m)[u] ==
            if u == s then nodes[s].(neighbors := nodes[s].neighbors[l := Appended(nodes, nodes[s].neighbors[l], w, m)])
            else mid[u]
  {
    PruneSeesSameNodes(nodes, mid, nodes[s].neighbors[l] + [w]);
  }

  // ---------- a node that nobody lists ----------

  /** `z` is live and in no list. */
  ghost predicate Unlisted(nodes: Nodes, z: nat) {
    z in nodes && forall u, l :: u in nodes && 0 <= l < |nodes[u].neighbors| ==> z !in nodes[u].neighbors[l]
  }

  lemma UnlistedUnreached(l: Layer, entry: nat, z: nat)
    requires Unlisted(l.nodes, z) && entry != z
    ensures !l.Reach(entry, z)
  {
    forall n: nat ensures !l.ReachIn(entry, z, n) {}
  }

  /** All on level 0, with a live entry point. */
  ghost predicate Flat(g: Graph) {
    && g.hasEntry && g.maxLevel == 0 && g.entryPoint in g.nodes
    && forall u :: u in g.nodes ==> g.nodes[u].level == 0 && |g.nodes[u].neighbors| == 1
  }

  lemma FlatLevels(g: Graph)
    requires Flat(g)
    ensures LevelsOk(g.nodes)
  {
  }

  function FlatDraft(cfg: Config, g: Graph, w: nat, r: seq<Candidate>): Draft
    requires r != []
  {
    var sel := Take(Ids(r), cfg.m);
    Draft(ConnectAll(g.nodes, sel, w, 0, cfg.m), [sel], r[0].id)
  }

  /** Any result of the layer search gives an insertion at level 0. */
  lemma FlatStep(cfg: Config, g: Graph, w: nat, vector: Vector, r: seq<Candidate>)
    requires Flat(g) && w !in g.nodes && |vector| == cfg.dimensions
    requires LayerResult(Layer(g.nodes, cfg.metric, vector, 0), g.entryPoint, AtLeastOne(cfg.efConstruction), r)
    ensures AddStep(cfg, g, w, vector, 0, Completed(g, w, vector, 0, FlatDraft(cfg, g, w, r)))
  {
    assert r != [];
    hide LayerResult, ConnectAll;
    var d0, d := Draft(g.nodes, NoLinks(0), g.entryPoint), FlatDraft(cfg, g, w, r);
    var sel := Take(Ids(r), cfg.m);
    assert NoLinks(0)[0 := sel] == [sel];
    assert LevelStep(cfg, w, vector, d0, r, 0, d);
    assert Inserted(cfg, w, vector, d0, 0, 1, d0);
    assert Inserted(cfg, w, vector, d0, 0, 0, d);
    assert LinkedInto(cfg, g, w, vector, 0, g.entryPoint, d);
  }

  lemma FlatResult(cfg: Config, g: Graph, w: nat, vector: Vector, r: seq<Candidate>, u: nat)
    requires Flat(g) && w !in g.nodes && u in g.nodes
    requires LayerResult(Layer(g.nodes, cfg.metric, vector, 0), g.entryPoint, AtLeastOne(cfg.efConstruction), r)
    ensures var sel, nodes := Take(Ids(r), cfg.m), Completed(g, w, vector, 0, FlatDraft(cfg, g, w, r)).nodes;
      && nodes.Keys == g.nodes.Keys + {w} && nodes[w] == Node(vector, 0, [sel])
      && NoDup(sel) && AllAtLevel(sel, g.nodes, 0) && nodes[u] == LinkedNode(g.nodes, sel, w, 0, cfg.m, u)
  {
    FlatLevels(g);
    ResultsAtLevel(Layer(g.nodes, cfg.metric, vector, 0), g.entryPoint, AtLeastOne(cfg.efConstruction), r, cfg.m);
    hide LayerResult, LevelsOk;
    ConnectAllLists(g.nodes, Take(Ids(r), cfg.m), w, 0, cfg.m, u);
  }

  lemma ReachedIds(l: Layer, entry: nat, cap: nat, r: seq<Candidate>, m: nat, v: nat)
    requires LayerResult(l, entry, cap, r) && v in Take(Ids(r), m)
    ensures l.Reach(entry, v)
  {
    hide Settled, Sorted;
    var i :| 0 <= i < |Take(Ids(r), m)| && Take(Ids(r), m)[i] == v;
    assert r[i] in multiset(r) && r[i].id == v;
  }

  /** Once unlisted, always unlisted: an insertion can only choose what the entry point reaches. */
  lemma StaysUnlisted(cfg: Config, g: Graph, w: nat, vector: Vector, r: seq<Candidate>, z: nat)
    requires Flat(g) && w !in g.nodes && Unlisted(g.nodes, z) && g.entryPoint != z
    requires LayerResult(Layer(g.nodes, cfg.metric, vector, 0), g.entryPoint, AtLeastOne(cfg.efConstruction), r)
    ensures var g' := Completed(g, w, vector, 0, FlatDraft(cfg, g, w, r));
      Flat(g') && Unlisted(g'.nodes, z) && g'.entryPoint == g.entryPoint && g'.nodes.Keys == g.nodes.Keys + {w}
  {
    var l, g' := Layer(g.nodes, cfg.metric, vector, 0), Completed(g, w, vector, 0, FlatDraft(cfg, g, w, r));
    var sel := Take(Ids(r), cfg.m);
    if z in sel {
      ReachedIds(l, g.entryPoint, AtLeastOne(cfg.efConstruction), r, cfg.m, z);
      UnlistedUnreached(l, g.entryPoint, z);
    }
    hide LayerResult;
    FlatResult(cfg, g, w, vector, r, z);
    hide Completed, FlatDraft, LinkedNode, Take;
    forall u | u in g'.nodes
      ensures g'.nodes[u].level == 0 && |g'.nodes[u].neighbors| == 1 && z !in g'.nodes[u].neighbors[0]
    {
      if u != w {
        FlatResult(cfg, g, w, vector, r, u);
        LinkedWithout(g.nodes, sel, w, cfg.m, u, z);
      }
    }
  }

  lemma LinkedWithout(nodes: Nodes, sel: seq<nat>, w: nat, m: nat, u: nat, z: nat)
    requires u in nodes && nodes[u].level == 0 && |nodes[u].neighbors| == 1 && z !in nodes[u].neighbors[0] && z != w
    ensures var node := LinkedNode(nodes, sel, w, 0, m, u);
      node.level == 0 && |node.neighbors| == 1 && z !in node.neighbors[0]
  {
    hide Appended;
    AppendedFrom(nodes, nodes[u].neighbors[0], w, m, z);
  }

  lemma AppendedFrom(nodes: Nodes, links: seq<nat>, w: nat, m: nat, z: nat)
    requires z !in links && z != w
    ensures z !in Appended(nodes, links, w, m)
  {
    var all := LiveOnly(nodes, links + [w]);
    assert forall v :: v in Take(all, m) ==> v in all;
  }

  lemma RunMore(cfg: Config, ops: seq<Op>, g: Graph, op: Op, g': Graph)
    requires Runs(cfg, ops, g) && Step(cfg, g, op, g')
    ensures Runs(cfg, ops + [op], g')
  {
    hide Step;
    var all := ops + [op];
    assert all[..|all| - 1] == ops && all[|all| - 1] == op;
  }

  /** A run that ends with an unlisted node goes on to any number of nodes, keeping it. */
  lemma {:induction false} GrowUnlisted(cfg: Config, ops: seq<Op>, g: Graph, z: nat, last: nat, more: nat)
    returns (ops': seq<Op>, g': Graph)
    requires Runs(cfg, ops, g) && Flat(g) && Unlisted(g.nodes, z) && g.entryPoint != z
    requires AllBelow(g.nodes, last + 1) && last + more < ID_LIMIT
    ensures Runs(cfg, ops', g') && Flat(g') && Unlisted(g'.nodes, z) && g'.entryPoint != z
    ensures |g'.nodes| == |g.nodes| + more && (InsertOnly(ops) ==> InsertOnly(ops'))
    decreases more
  {
    hide Runs, Flat, Unlisted, InsertOnly;
    if more == 0 {
      ops', g' := ops, g;
    } else {
      var ops1, g1 := GrowOne(cfg, ops, g, z, last + 1);
      ops', g' := GrowUnlisted(cfg, ops1, g1, z, last + 1, more - 1);
    }
  }

  lemma GrowOne(cfg: Config, ops: seq<Op>, g: Graph, z: nat, w: nat) returns (ops': seq<Op>, g': Graph)
    requires Runs(cfg, ops, g) && Flat(g) && Unlisted(g.nodes, z) && g.entryPoint != z
    requires AllBelow(g.nodes, w) && w < ID_LIMIT
    ensures Runs(cfg, ops', g') && Flat(g') && Unlisted(g'.nodes, z) && g'.entryPoint != z
    ensures |g'.nodes| == |g.nodes| + 1 && AllBelow(g'.nodes, w + 1) && (InsertOnly(ops) ==> InsertOnly(ops'))
  {
    hide Runs, Flat, Unlisted, Step, InsertOnly, AllBelow;
    var vector: Vector := seq(cfg.dimensions, _ => 0);
    g' := GrowStep(cfg, g, z, w, vector);
    ops' := ops + [Insert(w, vector, 0)];
    RunMore(cfg, ops, g, Insert(w, vector, 0), g');
    if InsertOnly(ops) { OneInsert(ops, w, vector); }
  }

  lemma OneInsert(ops: seq<Op>, w: nat, vector: Vector)
    requires InsertOnly(ops)
    ensures InsertOnly(ops + [Insert(w, vector, 0)])
  {
  }

  lemma GrowStep(cfg: Config, g: Graph, z: nat, w: nat, vector: Vector) returns (g': Graph)
    requires Flat(g) && Unlisted(g.nodes, z) && g.entryPoint != z
    requires AllBelow(g.nodes, w) && w < ID_LIMIT && |vector| == cfg.dimensions
    ensures Step(cfg, g, Insert(w, vector, 0), g')
    ensures Flat(g') && Unlisted(g'.nodes, z) && g'.entryPoint != z
    ensures |g'.nodes| == |g.nodes| + 1 && AllBelow(g'.nodes, w + 1)
  {
    hide Unlisted, LayerResult, Completed, AddStep;
    assert w !in g.nodes;
    var r := ResultExists(Layer(g.nodes, cfg.metric, vector, 0), g.entryPoint, AtLeastOne(cfg.efConstruction));
    hide Flat;
    NotEmpty(Layer(g.nodes, cfg.metric, vector, 0), g.entryPoint, AtLeastOne(cfg.efConstruction), r);
    g' := Completed(g, w, vector, 0, FlatDraft(cfg, g, w, r));
    FlatStep(cfg, g, w, vector, r);
    StaysUnlisted(cfg, g, w, vector, r, z);
    hide FlatDraft;
    assert |g'.nodes.Keys| == |g.nodes.Keys| + 1;
    forall u | u in g'.nodes ensures u < w + 1 { assert u in g'.nodes.Keys; }
  }

  lemma NotEmpty(l: Layer, entry: nat, cap: nat, r: seq<Candidate>)
    requires LayerResult(l, entry, cap, r)
    ensures r != []
  {
  }
}
