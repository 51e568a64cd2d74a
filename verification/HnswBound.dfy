/** How far exact search goes: beyond 2M+1 insertions, or after deletions, the base layer can fall
    apart, and a search for all vectors is then not exact. */
module HnswBound {
  import opened Wrappers
  import opened Seqs
  import opened Heap
  import opened LayerSearch
  import opened HnswGraph
  import opened HnswOps
  import opened HnswExact
  import opened HnswUnlisted

  // ---------- vectors numbered by their id ----------

  const WORD := 0x1_0000_0000

  function Vec(id: nat): Vector {
    [id % WORD, id / WORD % WORD]
  }

  /** The distance is the number stored in the vector, whatever the query. */
  function Number(query: Vector, v: Vector): real {
    if |v| == 2 then (v[0] + v[1] * WORD) as real else 0.0
  }

  function Setting(m: nat, ef: nat, efSearch: nat): Config {
    Config(2, m, ef, efSearch, Number)
  }

  lemma NumberOf(query: Vector, id: nat)
    requires id < ID_LIMIT
    ensures Number(query, Vec(id)) == id as real
  {
    assert id / WORD < WORD;
    assert id == id / WORD * WORD + id % WORD;
  }

  // ---------- hubs ----------

  function Range(a: nat, b: nat): (s: seq<nat>)
    ensures forall x :: x in s <==> a <= x < b
    ensures a <= b ==> |s| == b - a && forall i :: 0 <= i < |s| ==> s[i] == a + i
  {
    if a < b then Range(a, b - 1) + [b - 1] else []
  }

  /** The ids from `a` up to `b` without `u`. */
  function Skip(a: nat, b: nat, u: nat): seq<nat> {
    Range(a, u) + Range(u + 1, b)
  }

  /** The first `p` ids are hubs that list everybody; everybody else lists the hubs. */
  function HubLinks(lo: nat, hi: nat, p: nat, u: nat): seq<nat> {
    if u <= p then Skip(lo, hi, u) else Range(lo, p + 1)
  }

  function Hub(lo: nat, hi: nat, p: nat): Nodes {
    map u | lo <= u < hi :: Node(Vec(u), 0, [HubLinks(lo, hi, p, u)])
  }

  function HubGraph(lo: nat, hi: nat, p: nat): Graph {
    Graph(Hub(lo, hi, p), lo, true, 0)
  }

  /** How many neighbours an insertion chooses, at most. */
  function Hubs(cfg: Config): nat {
    Min(AtLeastOne(cfg.efConstruction), cfg.m)
  }

  lemma HubFlat(lo: nat, hi: nat, p: nat)
    requires lo < hi
    ensures Flat(HubGraph(lo, hi, p))
  {
  }

  // ---------- the search for a new node's neighbours ----------

  /** The nearest `k` nodes in the order of their ids. */
  function First(k: nat): (r: seq<Candidate>)
    ensures |r| == k && forall i :: 0 <= i < k ==> r[i] == Candidate(i + 1, (i + 1) as real)
  {
    seq(k, i requires 0 <= i < k => Candidate(i + 1, (i + 1) as real))
  }

  lemma HubReach(l: Layer, hi: nat, p: nat, v: nat)
    requires l.nodes == Hub(1, hi, p) && l.level == 0 && p >= 1 && 1 <= v < hi
    ensures l.Reach(1, v)
  {
    ReachSelf(l, 1);
    if v > 1 {
      assert v in HubLinks(1, hi, p, 1);
      assert l.Edge(1, v);
      ReachStep(l, 1, 1, v);
    }
  }

  function Below(hi: nat): set<nat> {
    Elems(Range(1, hi))
  }

  lemma HubListed(l: Layer, hi: nat, p: nat)
    requires l.nodes == Hub(1, hi, p) && l.metric == Number && 2 <= hi <= ID_LIMIT
    ensures Listed(l, Below(hi), First(hi - 1))
  {
    var s, ids := First(hi - 1), Below(hi);
    forall v | 1 <= v < hi ensures l.Cand(v) == Candidate(v, v as real) && s[v - 1] == l.Cand(v) {
      NumberOf(l.query, v);
    }
    forall c ensures c in s <==> c.id in ids && c.id in l.nodes && c == l.Cand(c.id) {
      if c in s {
        var i :| 0 <= i < |s| && s[i] == c;
        assert c.id == i + 1;
      }
    }
  }

  lemma HubResult(cfg: Config, hi: nat, p: nat, vector: Vector)
    requires cfg.metric == Number && 2 <= hi <= ID_LIMIT && p >= 1
    ensures var cap := AtLeastOne(cfg.efConstruction);
      LayerResult(Layer(Hub(1, hi, p), cfg.metric, vector, 0), 1, cap, First(Min(cap, hi - 1)))
  {
    hide LayerResult, Listed;
    var l, cap := Layer(Hub(1, hi, p), cfg.metric, vector, 0), AtLeastOne(cfg.efConstruction);
    var ids := Below(hi);
    HubListed(l, hi, p);
    forall v ensures v in ids <==> v in l.nodes && l.Reach(1, v) {
      if v in ids { HubReach(l, hi, p, v); }
    }
    assert First(Min(cap, hi - 1)) == First(hi - 1)[..Min(cap, |First(hi - 1)|)];
    PrefixIsResult(l, 1, cap, ids, First(hi - 1), First(Min(cap, hi - 1)));
  }

  lemma HubChoice(cfg: Config, hi: nat)
    requires hi >= 2
    ensures Take(Ids(First(Min(AtLeastOne(cfg.efConstruction), hi - 1))), cfg.m) == Range(1, Min(Hubs(cfg), hi - 1) + 1)
  {
  }

  // ---------- growing ----------

  /** The graph after one more insertion into hubs. */
  function HubPlus(cfg: Config, hi: nat): Graph
    requires hi >= 2
  {
    var g := HubGraph(1, hi, Hubs(cfg));
    Completed(g, hi, Vec(hi), 0, FlatDraft(cfg, g, hi, First(Min(AtLeastOne(cfg.efConstruction), hi - 1))))
  }

  lemma HubPlusStep(cfg: Config, hi: nat)
    requires cfg.metric == Number && cfg.dimensions == 2 && cfg.m >= 1 && 2 <= hi < ID_LIMIT
    ensures AddStep(cfg, HubGraph(1, hi, Hubs(cfg)), hi, Vec(hi), 0, HubPlus(cfg, hi))
    ensures HubPlus(cfg, hi).entryPoint == 1 && HubPlus(cfg, hi).hasEntry && HubPlus(cfg, hi).maxLevel == 0
  {
    hide LayerResult, AddStep, FlatDraft, HubLinks, Flat;
    var p := Hubs(cfg);
    HubFlat(1, hi, p);
    HubResult(cfg, hi, p, Vec(hi));
    FlatStep(cfg, HubGraph(1, hi, p), hi, Vec(hi), First(Min(AtLeastOne(cfg.efConstruction), hi - 1)));
  }

  /** Its nodes, one by one. */
  lemma HubPlusAt(cfg: Config, hi: nat, u: nat)
    requires cfg.metric == Number && cfg.m >= 1 && 2 <= hi < ID_LIMIT && 1 <= u < hi
    ensures var p, nodes := Hubs(cfg), HubPlus(cfg, hi).nodes;
      && nodes.Keys == Hub(1, hi, p).Keys + {hi}
      && nodes[hi] == Node(Vec(hi), 0, [Range(1, Min(p, hi - 1) + 1)])
      && nodes[u] == LinkedNode(Hub(1, hi, p), Range(1, Min(p, hi - 1) + 1), hi, 0, cfg.m, u)
  {
    hide LayerResult, LinkedNode, HubLinks, Flat, FlatDraft, Completed;
    var p := Hubs(cfg);
    HubFlat(1, hi, p);
    HubResult(cfg, hi, p, Vec(hi));
    HubChoice(cfg, hi);
    FlatResult(cfg, HubGraph(1, hi, p), hi, Vec(hi), First(Min(AtLeastOne(cfg.efConstruction), hi - 1)), u);
  }

  lemma HubNode(m: nat, hi: nat, p: nat, k: nat, u: nat)
    requires m >= 1 && 2 <= hi <= 2 * m + 1 && 1 <= p <= m && k == Min(p, hi - 1) && 1 <= u < hi
    ensures LinkedNode(Hub(1, hi, p), Range(1, k + 1), hi, 0, m, u) == Hub(1, hi + 1, p)[u]
  {
    var links := HubLinks(1, hi, p, u);
    if u <= k {
      assert hi !in links && |links| == hi - 2;
      assert links + [hi] == Skip(1, hi + 1, u);
      assert [links][0 := links + [hi]] == [links + [hi]];
    }
  }

  lemma HubLast(hi: nat, p: nat)
    requires 2 <= hi
    ensures Range(1, Min(p, hi - 1) + 1) == HubLinks(1, hi + 1, p, hi)
  {
  }

  lemma SameHub(nodes: Nodes, hi: nat, p: nat)
    requires hi >= 2 && nodes.Keys == Hub(1, hi, p).Keys + {hi}
    requires forall u :: 1 <= u < hi ==> u in nodes.Keys && nodes[u] == Hub(1, hi + 1, p)[u]
    requires nodes[hi] == Node(Vec(hi), 0, [HubLinks(1, hi + 1, p, hi)])
    ensures nodes == Hub(1, hi + 1, p)
  {
    hide HubLinks;
  }

  lemma HubGrows(cfg: Config, hi: nat)
    requires cfg.metric == Number && cfg.dimensions == 2 && cfg.m >= 1 && 2 <= hi <= 2 * cfg.m + 1 && hi < ID_LIMIT
    ensures AddStep(cfg, HubGraph(1, hi, Hubs(cfg)), hi, Vec(hi), 0, HubGraph(1, hi + 1, Hubs(cfg)))
  {
    hide AddStep, HubPlus, HubLinks, LinkedNode;
    var p := Hubs(cfg);
    HubPlusStep(cfg, hi);
    HubPlusAt(cfg, hi, 1);
    HubLast(hi, p);
    forall u | 1 <= u < hi ensures u in HubPlus(cfg, hi).nodes.Keys
        && HubPlus(cfg, hi).nodes[u] == Hub(1, hi + 1, p)[u] {
      HubPlusAt(cfg, hi, u);
      HubNode(cfg.m, hi, p, Min(p, hi - 1), u);
    }
    SameHub(HubPlus(cfg, hi).nodes, hi, p);
  }

  lemma FirstNodeIsHub(cfg: Config)
    requires cfg.dimensions == 2
    ensures cfg.m >= 1 ==> AddStep(cfg, EMPTY, 1, Vec(1), 0, HubGraph(1, 2, Hubs(cfg)))
  {
    assert NoLinks(0) == [[]];
    assert cfg.m >= 1 ==> HubLinks(1, 2, Hubs(cfg), 1) == [];
    assert cfg.m >= 1 ==> Hub(1, 2, Hubs(cfg)) == map[1 := Node(Vec(1), 0, [[]])];
  }

  /** A run that inserts 1 to hi-1 and makes hubs of the first ids. */
  lemma {:induction false} HubRun(cfg: Config, hi: nat) returns (ops: seq<Op>)
    requires cfg.metric == Number && cfg.dimensions == 2 && cfg.m >= 1 && 2 <= hi <= 2 * cfg.m + 2 && hi <= ID_LIMIT
    ensures Runs(cfg, ops, HubGraph(1, hi, Hubs(cfg))) && InsertOnly(ops)
    decreases hi
  {
    hide AddStep;
    if hi == 2 {
      FirstNodeIsHub(cfg);
      assert Runs(cfg, [], EMPTY);
      hide Runs;
      RunMore(cfg, [], EMPTY, Insert(1, Vec(1), 0), HubGraph(1, 2, Hubs(cfg)));
      ops := [] + [Insert(1, Vec(1), 0)];
    } else {
      hide Runs;
      var front := HubRun(cfg, hi - 1);
      HubGrows(cfg, hi - 1);
      RunMore(cfg, front, HubGraph(1, hi - 1, Hubs(cfg)), Insert(hi - 1, Vec(hi - 1), 0), HubGraph(1, hi, Hubs(cfg)));
      ops := front + [Insert(hi - 1, Vec(hi - 1), 0)];
    }
  }

  // ---------- one insertion too many ----------

  lemma {:induction false} AllLive(nodes: Nodes, links: seq<nat>)
    requires AllIn(links, nodes)
    ensures LiveOnly(nodes, links) == links
  {
    if links != [] {
      AllLive(nodes, links[..|links| - 1]);
      SplitLast(links);
      assert links[|links| - 1] in links;
    }
  }

  /** A full list of live nodes refuses a new one and keeps its first half. */
  lemma FullList(nodes: Nodes, links: seq<nat>, w: nat, m: nat)
    requires AllIn(links, nodes) && w !in nodes && |links| == 2 * m
    ensures Appended(nodes, links, w, m) == links[..m]
  {
    AllLive(nodes, links);
    assert (links + [w])[..|links|] == links;
    assert LiveOnly(nodes, links + [w]) == links;
  }

  lemma HubFull(m: nat, hi: nat, p: nat, u: nat)
    requires hi == 2 * m + 2 && 1 <= u <= p <= m
    ensures var links := HubLinks(1, hi, p, u);
      |links| == 2 * m && AllIn(links, Hub(1, hi, p)) && forall i :: 0 <= i < m ==> links[i] <= m + 1
  {
  }

  /** The hubs of 2M+1 nodes are full: only their first `m` links stay. */
  lemma PrunedHub(m: nat, hi: nat, p: nat, u: nat)
    requires hi == 2 * m + 2 && 1 <= u <= p <= m
    ensures m + 2 !in Appended(Hub(1, hi, p), HubLinks(1, hi, p, u), hi, m)
  {
    HubFull(m, hi, p, u);
    assert hi !in Hub(1, hi, p);
    FullList(Hub(1, hi, p), HubLinks(1, hi, p, u), hi, m);
    hide Hub, HubLinks, Appended;
  }

  lemma OverflowNode(m: nat, hi: nat, p: nat, u: nat)
    requires hi == 2 * m + 2 && 1 <= p <= m && 1 <= u < hi
    ensures var node := LinkedNode(Hub(1, hi, p), Range(1, p + 1), hi, 0, m, u);
      node.level == 0 && |node.neighbors| == 1 && m + 2 !in node.neighbors[0]
  {
    hide Appended, Skip;
    if u <= p { PrunedHub(m, hi, p, u); }
  }

  lemma OverflowAt(cfg: Config, hi: nat, u: nat)
    requires cfg.metric == Number && cfg.m >= 1 && hi == 2 * cfg.m + 2 < ID_LIMIT && 1 <= u < hi + 1
    ensures var nodes := HubPlus(cfg, hi).nodes;
      && u in nodes.Keys && nodes[u].level == 0 && |nodes[u].neighbors| == 1 && cfg.m + 2 !in nodes[u].neighbors[0]
  {
    hide HubPlus, LinkedNode, HubLinks, Hub, Range, Vec, Hubs;
    var p := Hubs(cfg);
    HubsBound(cfg);
    HubIds(hi, p);
    assert Min(p, hi - 1) + 1 == p + 1;
    if u < hi {
      HubPlusAt(cfg, hi, u);
      OverflowNode(cfg.m, hi, p, u);
      assert u in Elems(Range(1, hi));
    } else {
      HubPlusAt(cfg, hi, 1);
    }
  }

  lemma HubsBound(cfg: Config)
    requires cfg.m >= 1
    ensures 1 <= Hubs(cfg) <= cfg.m
  {
  }

  /** After 2M+2 insertions the node M+2 is in no list. */
  lemma Overflow(cfg: Config, hi: nat) returns (ops: seq<Op>)
    requires cfg.metric == Number && cfg.dimensions == 2 && cfg.m >= 1 && hi == 2 * cfg.m + 2 < ID_LIMIT
    ensures Runs(cfg, ops, HubPlus(cfg, hi)) && InsertOnly(ops) && Flat(HubPlus(cfg, hi))
    ensures Unlisted(HubPlus(cfg, hi).nodes, cfg.m + 2) && HubPlus(cfg, hi).entryPoint == 1
    ensures |HubPlus(cfg, hi).nodes| == hi && AllBelow(HubPlus(cfg, hi).nodes, hi + 1)
  {
    hide *;
    var front := HubRun(cfg, hi);
    HubPlusRun(cfg, hi, front);
    ops := front + [Insert(hi, Vec(hi), 0)];
    OneInsert(front, hi, Vec(hi));
    OverflowFlat(cfg, hi);
  }

  lemma HubPlusRun(cfg: Config, hi: nat, ops: seq<Op>)
    requires cfg.metric == Number && cfg.dimensions == 2 && cfg.m >= 1 && 2 <= hi < ID_LIMIT
    requires Runs(cfg, ops, HubGraph(1, hi, Hubs(cfg)))
    ensures Runs(cfg, ops + [Insert(hi, Vec(hi), 0)], HubPlus(cfg, hi))
  {
    hide AddStep, Runs, HubPlus, Hub;
    HubPlusStep(cfg, hi);
    HubBelow(hi, Hubs(cfg));
    RunMore(cfg, ops, HubGraph(1, hi, Hubs(cfg)), Insert(hi, Vec(hi), 0), HubPlus(cfg, hi));
  }

  lemma OverflowFlat(cfg: Config, hi: nat)
    requires cfg.metric == Number && cfg.dimensions == 2 && cfg.m >= 1 && hi == 2 * cfg.m + 2 < ID_LIMIT
    ensures Flat(HubPlus(cfg, hi)) && Unlisted(HubPlus(cfg, hi).nodes, cfg.m + 2) && HubPlus(cfg, hi).entryPoint == 1
    ensures |HubPlus(cfg, hi).nodes| == hi && AllBelow(HubPlus(cfg, hi).nodes, hi + 1)
  {
    hide *;
    HubPlusStep(cfg, hi);
    HubPlusAt(cfg, hi, 1);
    HubIds(hi, Hubs(cfg));
    forall u | 1 <= u < hi + 1
      ensures var nodes := HubPlus(cfg, hi).nodes;
        && u in nodes.Keys && nodes[u].level == 0 && |nodes[u].neighbors| == 1 && cfg.m + 2 !in nodes[u].neighbors[0]
    {
      OverflowAt(cfg, hi, u);
    }
    AllUnlisted(HubPlus(cfg, hi), hi + 1, cfg.m + 2);
  }

  lemma HubBelow(hi: nat, p: nat)
    ensures AllBelow(Hub(1, hi, p), hi)
  {
  }

  lemma HubIds(hi: nat, p: nat)
    ensures Hub(1, hi, p).Keys == Elems(Range(1, hi))
    ensures hi >= 1 ==> Elems(Range(1, hi)) + {hi} == Elems(Range(1, hi + 1))
  {
  }

  lemma AllUnlisted(g: Graph, hi: nat, z: nat)
    requires g.hasEntry && g.maxLevel == 0 && g.entryPoint == 1 && 1 <= z < hi && g.nodes.Keys == Elems(Range(1, hi))
    requires forall u :: 1 <= u < hi ==>
      u in g.nodes.Keys && g.nodes[u].level == 0 && |g.nodes[u].neighbors| == 1 && z !in g.nodes[u].neighbors[0]
    ensures Flat(g) && Unlisted(g.nodes, z) && |g.nodes| == hi - 1 && AllBelow(g.nodes, hi)
  {
    NoDupSize(Range(1, hi));
    assert |g.nodes| == |g.nodes.Keys|;
    forall u | u in g.nodes ensures 1 <= u < hi { assert u in g.nodes.Keys; }
  }

  // ---------- deleting the hubs ----------

  lemma {:induction false} WithoutHead(x: nat, t: seq<nat>)
    requires x !in t
    ensures Without([x] + t, x) == t
  {
    if t != [] {
      WithoutHead(x, t[..|t| - 1]);
      assert ([x] + t)[..|t|] == [x] + t[..|t| - 1];
      SplitLast(t);
    }
  }

  lemma HubForgets(lo: nat, hi: nat, p: nat, u: nat)
    requires lo <= p && lo < u < hi
    ensures Without(HubLinks(lo, hi, p, u), lo) == HubLinks(lo + 1, hi, p, u)
  {
    assert HubLinks(lo, hi, p, u) == [lo] + HubLinks(lo + 1, hi, p, u);
    WithoutHead(lo, HubLinks(lo + 1, hi, p, u));
  }

  lemma HubShrinks(lo: nat, hi: nat, p: nat)
    requires lo <= p && lo + 1 < hi
    ensures DeleteStep(HubGraph(lo, hi, p), lo, HubGraph(lo + 1, hi, p))
  {
    var nodes, nodes' := Hub(lo, hi, p), Hub(lo + 1, hi, p);
    assert lo in nodes && Unlinked(nodes, lo).Keys == nodes'.Keys;
    forall u | lo < u < hi ensures Unlinked(nodes, lo)[u] == nodes'[u] {
      HubUnlinks(lo, hi, p, u);
    }
    assert lo + 1 in nodes';
    hide HubLinks, UnlinkedLists;
  }

  lemma HubUnlinks(lo: nat, hi: nat, p: nat, u: nat)
    requires lo <= p && lo < u < hi
    ensures UnlinkedLists(Hub(lo, hi, p), lo, u) == [HubLinks(lo + 1, hi, p, u)]
  {
    HubForgets(lo, hi, p, u);
    assert u in HubLinks(lo, hi, p, lo);
  }

  /** Two nodes left after all hubs are gone list nobody. */
  lemma {:induction false} HubsDeleted(cfg: Config, lo: nat) returns (ops: seq<Op>)
    requires cfg.metric == Number && cfg.dimensions == 2 && cfg.m >= 1 && Hubs(cfg) + 3 < ID_LIMIT
    requires 1 <= lo <= Hubs(cfg) + 1
    ensures Runs(cfg, ops, HubGraph(lo, Hubs(cfg) + 3, Hubs(cfg)))
  {
    hide Runs, DeleteStep, Hub, Hubs;
    var p := Hubs(cfg);
    HubsBound(cfg);
    if lo == 1 {
      ops := HubRun(cfg, p + 3);
    } else {
      var front := HubsDeleted(cfg, lo - 1);
      HubShrinks(lo - 1, p + 3, p);
      RunMore(cfg, front, HubGraph(lo - 1, p + 3, p), Remove(lo - 1), HubGraph(lo, p + 3, p));
      ops := front + [Remove(lo - 1)];
    }
  }

  lemma TwoApart(p: nat)
    ensures var g := HubGraph(p + 1, p + 3, p);
      Flat(g) && Unlisted(g.nodes, p + 2) && g.entryPoint == p + 1 && |g.nodes| == 2 && AllBelow(g.nodes, p + 3)
  {
    var g := HubGraph(p + 1, p + 3, p);
    assert g.nodes.Keys == {p + 1, p + 2};
    assert |g.nodes| == |g.nodes.Keys|;
  }

  // ---------- a deleted node still listed ----------

  /** Taking one id out of a list without repetitions. */
  lemma {:induction false} WithoutOne(links: seq<nat>, x: nat, p: nat)
    requires NoDup(links) && p < |links| && links[p] == x
    ensures Without(links, x) == links[..p] + links[p + 1..]
    decreases |links|
  {
    var n := |links| - 1;
    if p == n {
      WithoutAbsent(links[..n], x);
      assert links[p + 1..] == [] && links[..p] + [] == links[..p];
    } else {
      WithoutOne(links[..n], x, p);
      assert links[..n][..p] == links[..p] && links[p + 1..] == links[..n][p + 1..] + [links[n]];
      assert links[n] != x;
    }
  }

  /** Deleting `x` takes it out of the lists of exactly those nodes that `x` itself lists on the level,
      leaves every list otherwise as it was, in its order, and moves the entry point only if it was `x`. */
  lemma DeletedLinks(cfg: Config, g: Graph, x: nat, g': Graph, u: nat, l: nat)
    requires GraphInv(cfg, g) && DeleteStep(g, x, g') && x in g.nodes && u in g.nodes && u != x
    requires l < |g.nodes[u].neighbors|
    ensures u in g'.nodes && l < |g'.nodes[u].neighbors|
    ensures var was, links := g.nodes[u].neighbors[l], g'.nodes[u].neighbors[l];
      if x in was && l < |g.nodes[x].neighbors| && u in g.nodes[x].neighbors[l]
      then exists p :: 0 <= p < |was| && was[p] == x && links == was[..p] + was[p + 1..]
      else links == was
    ensures x != g.entryPoint ==>
      g'.entryPoint == g.entryPoint && g'.maxLevel == g.maxLevel && g'.hasEntry == g.hasEntry
  {
    var was := g.nodes[u].neighbors[l];
    assert ListOk(g.nodes, u, l, cfg.m);
    assert g'.nodes[u].neighbors == UnlinkedLists(g.nodes, x, u);
    hide GraphInv;
    if x in was {
      var p :| 0 <= p < |was| && was[p] == x;
      WithoutOne(was, x, p);
    } else {
      WithoutAbsent(was, x);
    }
  }

  lemma DeleteFirst(g: Graph) returns (g': Graph)
    requires Flat(g) && g.entryPoint == 1 && 2 in g.nodes
    ensures DeleteStep(g, 1, g')
  {
    g' := Graph(Unlinked(g.nodes, 1), 2, true, 0);
    assert 2 in g'.nodes;
    forall v | v in g'.nodes ensures g'.nodes[v].level == 0 { assert v in g.nodes.Keys; }
  }

  /** The node that 2M+2 insertions leave unlisted lists node 1. */
  lemma OverflowLists(cfg: Config, hi: nat)
    requires cfg.metric == Number && cfg.m >= 1 && hi == 2 * cfg.m + 2 < ID_LIMIT
    ensures var nodes, z := HubPlus(cfg, hi).nodes, cfg.m + 2;
      z in nodes && 1 in nodes && 2 in nodes && |nodes[z].neighbors| == 1 && 1 in nodes[z].neighbors[0]
  {
    hide *;
    var p, z := Hubs(cfg), cfg.m + 2;
    HubsBound(cfg);
    HubPlusAt(cfg, hi, z);
    MinIs(p, hi - 1);
    BesideHubs(cfg.m, hi, p, z);
  }

  lemma MinIs(a: int, b: int)
    requires a <= b
    ensures Min(a, b) == a
  {
  }

  lemma BesideHubs(m: nat, hi: nat, p: nat, u: nat)
    requires 1 <= p < u < hi && hi > 3
    ensures 1 in Hub(1, hi, p).Keys && 2 in Hub(1, hi, p).Keys && u in Hub(1, hi, p).Keys
    ensures var node := LinkedNode(Hub(1, hi, p), Range(1, p + 1), hi, 0, m, u);
      |node.neighbors| == 1 && 1 in node.neighbors[0]
  {
    hide Skip, Appended;
  }

  /** For every M and efConstruction some run ends with a live node that lists a dead one. */
  lemma DeadLinkRun(m: nat, ef: nat) returns (cfg: Config, ops: seq<Op>, g: Graph, u: nat, x: nat)
    requires m >= 1 && 2 * m + 2 < ID_LIMIT
    ensures cfg.m == m && cfg.efConstruction == ef && Runs(cfg, ops, g)
    ensures u in g.nodes && |g.nodes[u].neighbors| > 0 && x in g.nodes[u].neighbors[0] && x !in g.nodes
  {
    var hi := 2 * m + 2;
    cfg, u, x := Setting(m, ef, 0), m + 2, 1;
    hide Runs, HubPlus, InsertOnly, DeleteStep, Setting;
    assert cfg.m == m && cfg.efConstruction == ef && cfg.metric == Number
        && cfg.dimensions == 2 by { SettingIs(m, ef); }
    var front := Overflow(cfg, hi);
    var g0 := HubPlus(cfg, hi);
    OverflowLists(cfg, hi);
    g := DeleteFirst(g0);
    ops := front + [Remove(1)];
    RunMore(cfg, front, g0, Remove(1), g);
    HnswGraph.RunKeeps(cfg, front, g0);
    hide GraphInv;
    DeletedLinks(cfg, g0, 1, g, u, 0);
    DeletedGone(g0, 1, g);
  }

  lemma SettingIs(m: nat, ef: nat)
    ensures var cfg := Setting(m, ef, 0);
      cfg.m == m && cfg.efConstruction == ef && cfg.metric == Number && cfg.dimensions == 2
  {
  }

  lemma DeletedGone(g: Graph, x: nat, g': Graph)
    requires DeleteStep(g, x, g')
    ensures x !in g'.nodes
  {
    assert x in g.nodes ==> x !in g'.nodes.Keys;
  }

  // ---------- when level 0 is connected ----------

  lemma UnlistedApart(g: Graph, z: nat)
    requires Flat(g) && Unlisted(g.nodes, z) && g.entryPoint != z
    ensures !Connected(g.nodes)
  {
    UnlistedUnreached(Base(g.nodes), g.entryPoint, z);
  }

  /** A run with these parameters that ends with `n` nodes. */
  ghost predicate Ends(m: nat, ef: nat, n: nat, cfg: Config, ops: seq<Op>, g: Graph) {
    cfg.m == m && cfg.efConstruction == ef && Runs(cfg, ops, g) && |g.nodes| == n
  }

  /** Every run that ends with `n` nodes, with or without deletions, leaves level 0 connected. */
  ghost predicate AlwaysConnected(m: nat, ef: nat, n: nat, deletions: bool) {
    forall cfg, ops, g :: Ends(m, ef, n, cfg, ops, g) && (deletions || InsertOnly(ops)) ==> Connected(g.nodes)
  }

  /** Without deletions that is so exactly up to 2M+1 nodes, for every M and every efConstruction. */
  lemma ConnectedIff(m: nat, ef: nat, n: nat)
    requires m >= 1 && n < ID_LIMIT
    ensures AlwaysConnected(m, ef, n, false) <==> n <= 2 * m + 1
  {
    hide Runs, Connected, InsertOnly, Flat, Unlisted;
    if n <= 2 * m + 1 {
      forall cfg, ops, g | Ends(m, ef, n, cfg, ops, g) && InsertOnly(ops)
        ensures Connected(g.nodes)
      {
        SmallRun(cfg, ops, g);
      }
    } else {
      var cfg, ops, g, z := ApartRun(m, ef, n, 0);
      UnlistedApart(g, z);
      assert Ends(m, ef, n, cfg, ops, g);
    }
  }

  /** A run of `n` insertions that leaves a node unlisted, for every `n` beyond the bound. */
  lemma ApartRun(m: nat, ef: nat, n: nat, efSearch: nat) returns (cfg: Config, ops: seq<Op>, g: Graph, z: nat)
    requires m >= 1 && 2 * m + 1 < n < ID_LIMIT
    ensures cfg == Setting(m, ef, efSearch) && Runs(cfg, ops, g) && InsertOnly(ops)
    ensures Flat(g) && Unlisted(g.nodes, z) && g.entryPoint != z && |g.nodes| == n
  {
    hide Runs, InsertOnly, Flat, Unlisted, HubPlus;
    cfg, z := Setting(m, ef, efSearch), m + 2;
    var ops0 := Overflow(cfg, 2 * m + 2);
    ops, g := GrowUnlisted(cfg, ops0, HubPlus(cfg, 2 * m + 2), z, 2 * m + 2, n - (2 * m + 2));
  }

  lemma FewConnected(nodes: Nodes)
    requires |nodes| <= 1
    ensures Connected(nodes)
  {
    forall u, v | u in nodes && v in nodes ensures Base(nodes).Reach(u, v) {
      assert u == v by { if u != v { SubsetSize({u, v}, nodes.Keys); } }
      ReachSelf(Base(nodes), u);
    }
  }

  /** With deletions it is so only for at most one node. */
  lemma DeletedConnectedIff(m: nat, ef: nat, n: nat)
    requires m >= 1 && m + n + 3 < ID_LIMIT
    ensures AlwaysConnected(m, ef, n, true) <==> n <= 1
  {
    hide Runs, Connected, Flat, Unlisted;
    if n <= 1 {
      forall cfg, ops, g | Ends(m, ef, n, cfg, ops, g)
        ensures Connected(g.nodes)
      {
        FewConnected(g.nodes);
      }
    } else {
      var cfg := Setting(m, ef, 0);
      var p := Hubs(cfg);
      var ops0 := HubsDeleted(cfg, p + 1);
      TwoApart(p);
      var ops, g := GrowUnlisted(cfg, ops0, HubGraph(p + 1, p + 3, p), p + 2, p + 2, n - 2);
      UnlistedApart(g, p + 2);
      assert Ends(m, ef, n, cfg, ops, g);
    }
  }

  // ---------- when a search for everything is exact ----------

  /** A search for all vectors, without filter, is exact if and only if the entry point of the base
      layer reaches every node. */
  lemma ExactIffReachable(cfg: Config, g: Graph, query: Vector, k: nat, ep: nat, found: seq<Candidate>,
                          results: seq<Candidate>)
    requires SearchOutcome(cfg, g, query, k, None, ep, found, results) && k >= |g.nodes|
    ensures var l := Layer(g.nodes, cfg.metric, query, 0);
      BruteForce(l, k, l.nodes.Keys, results) <==> forall v :: v in g.nodes ==> l.Reach(ep, v)
  {
    var l := Layer(g.nodes, cfg.metric, query, 0);
    var cap := AtLeastOne(Greater(SearchK(k, None, |g.nodes|), cfg.efSearch));
    if forall v :: v in g.nodes ==> l.Reach(ep, v) {
      hide BruteForce;
      forall v | v in g.nodes ensures l.Cand(v) in found {
        ReturnsReachable(l, ep, cap, found, v);
        DistinctIds(l, found);
      }
      ExactFromAll(cfg, g, query, k, None, ep, found, results);
    }
    if BruteForce(l, k, l.nodes.Keys, results) {
      forall v | v in g.nodes ensures l.Reach(ep, v) {
        AllReturned(l, k, results, v);
        MatchingMembers(found, None);
        assert l.Cand(v) in found;
        DistinctIds(l, found);
        ReturnsReachable(l, ep, cap, found, v);
      }
    }
  }

  lemma AllReturned(l: Layer, k: nat, results: seq<Candidate>, v: nat)
    requires BruteForce(l, k, l.nodes.Keys, results) && k >= |l.nodes| && v in l.nodes
    ensures l.Cand(v) in results
  {
    assert |l.nodes.Keys| == |l.nodes|;
    SubsetSize({v}, l.nodes.Keys);
    IdsOf(l, results);
    NoDupSize(Ids(results));
    assert Elems(Ids(results)) <= l.nodes.Keys;
    SubsetSize(Elems(Ids(results)), l.nodes.Keys);
    assert v in Elems(Ids(results));
  }

  /** Every search for all of `n` vectors, in every insert-only run, is exact. */
  ghost predicate AlwaysExact(m: nat, ef: nat, n: nat) {
    forall cfg, ops, g, query, k, ep, found, results ::
      && Ends(m, ef, n, cfg, ops, g) && InsertOnly(ops) && n <= k
      && SearchOutcome(cfg, g, query, k, None, ep, found, results) ==>
      BruteForce(Layer(g.nodes, cfg.metric, query, 0), k, g.nodes.Keys, results)
  }

  /** Some outcome of a search on a flat graph, starting at the entry point. */
  lemma FlatSearch(cfg: Config, g: Graph, query: Vector, k: nat)
      returns (found: seq<Candidate>, results: seq<Candidate>)
    requires Flat(g)
    ensures SearchOutcome(cfg, g, query, k, None, g.entryPoint, found, results)
  {
    found := ResultExists(Layer(g.nodes, cfg.metric, query, 0), g.entryPoint,
                          AtLeastOne(Greater(SearchK(k, None, |g.nodes|), cfg.efSearch)));
    hide LayerResult, Matching;
    var s := Matching(found, None);
    results := if |s| <= AtLeastOne(k) then s else s[..AtLeastOne(k)];
  }

  /** Search for everything is exact exactly up to 2M+1 vectors. */
  lemma ExactIff(m: nat, ef: nat, n: nat)
    requires m >= 1 && 1 <= n < ID_LIMIT
    ensures AlwaysExact(m, ef, n) <==> n <= 2 * m + 1
  {
    hide Runs, InsertOnly, SearchOutcome, BruteForce, Flat, Unlisted;
    if n <= 2 * m + 1 {
      forall cfg, ops, g, query, k, ep, found, results |
        && Ends(m, ef, n, cfg, ops, g) && InsertOnly(ops) && n <= k
        && SearchOutcome(cfg, g, query, k, None, ep, found, results)
        ensures BruteForce(Layer(g.nodes, cfg.metric, query, 0), k, g.nodes.Keys, results)
      {
        RunEntry(cfg, ops, g);
        SmallSearchExact(cfg, ops, g, query, k, None, ep, found, results);
      }
    } else {
      var cfg, ops, g, z := ApartRun(m, ef, n, 0);
      var found, results := FlatSearch(cfg, g, [], n);
      ExactIffReachable(cfg, g, [], n, g.entryPoint, found, results);
      UnlistedUnreached(Layer(g.nodes, cfg.metric, [], 0), g.entryPoint, z);
      UnlistedLive(g.nodes, z);
      assert Ends(m, ef, n, cfg, ops, g);
    }
  }

  lemma UnlistedLive(nodes: Nodes, z: nat)
    requires Unlisted(nodes, z)
    ensures z in nodes
  {
  }
}
